/** The native objects behind Session, Channel and Scp under garbage collection: who marks
    whom, who frees what, over every run of allocation, (re-)initialization, dropped
    references and full collections whose sweep may be lazy and in any order. */
module Lifetimes {
  import opened Base

  /** The slot of a Ruby object; a swept slot may be used again. */
  type Value = nat

  /** The identity of a native object, never used again. */
  type Native = nat

  /** The C holder structs.  None is NULL, or Qundef for the session of a fresh holder. */
  datatype Holder =
    | SessionHolder(native: Option<Native>)
    | ChannelHolder(handle: Option<Native>, session: Option<Value>)
    | ScpHolder(handle: Option<Native>, session: Option<Value>)

  /** One native free.  Freeing a session frees its channels with it; for an scp we note
      whether the session that created it was still there. */
  datatype Free =
    | SessionFreed(native: Native, channels: set<Native>)
    | ScpFreed(native: Native, sessionLive: bool)

  /** `channelOf` and `scpOf` map every native channel and scp ever created to the native
      session that created it; `condemned` is what the last mark left unmarked and the sweep
      has not reached yet. */
  datatype State = State(
    heap: map<Value, Holder>,
    roots: set<Value>,
    condemned: set<Value>,
    next: Native,
    sessions: set<Native>,
    channelOf: map<Native, Native>,
    scpOf: map<Native, Native>,
    frees: seq<Free>)

  const Init: State := State(map[], {}, {}, 0, {}, map[], map[], [])

  datatype HolderKind = ASession | AChannel | AnScp

  /** `fails` says that the native constructor returns NULL. */
  datatype Step =
    | Alloc(v: Value, kind: HolderKind)
    | InitSession(v: Value, fails: bool)
    | InitChannel(v: Value, s: Value, fails: bool)
    | InitScp(v: Value, s: Value, fails: bool)
    | Drop(v: Value)
    | Mark
    | Sweep(v: Value)

  function Fresh(kind: HolderKind): Holder {
    match kind
    case ASession => SessionHolder(None)
    case AChannel => ChannelHolder(None, None)
    case AnScp => ScpHolder(None, None)
  }

  /** What the mark function of a holder marks: a dependant its session, if it has a handle. */
  function Marks(h: Holder): set<Value> {
    match h
    case SessionHolder(_) => {}
    case ChannelHolder(handle, session) => if handle.Some? && session.Some? then {session.value} else {}
    case ScpHolder(handle, session) => if handle.Some? && session.Some? then {session.value} else {}
  }

  function Reachable(st: State): set<Value> {
    st.roots + set v, s | v in st.roots && v in st.heap && s in Marks(st.heap[v]) :: s
  }

  function FreedIds(frees: seq<Free>): set<Native> {
    if frees == [] then {} else FreedIds(frees[..|frees| - 1]) + {frees[|frees| - 1].native}
  }

  predicate Freed(st: State, n: Native) { n in FreedIds(st.frees) }

  function ChannelsOf(st: State, n: Native): set<Native> {
    set k | k in st.channelOf && st.channelOf[k] == n
  }

  /** The mutator acts only on what it holds; a mark starts when the last sweep is done. */
  predicate Enabled(st: State, step: Step) {
    match step
    case Alloc(v, _) => v !in st.heap
    case InitSession(v, _) => v in st.roots && v in st.heap && st.heap[v].SessionHolder?
    case InitChannel(v, s, _) => DependantAndSession(st, v, s) && st.heap[v].ChannelHolder?
    case InitScp(v, s, _) => DependantAndSession(st, v, s) && st.heap[v].ScpHolder?
    case Drop(v) => v in st.roots
    case Mark => st.condemned == {}
    case Sweep(v) => v in st.condemned && v in st.heap && (st.heap[v].ScpHolder? && st.heap[v].handle.Some? ==> st.heap[v].handle.value in st.scpOf)
  }

  predicate DependantAndSession(st: State, v: Value, s: Value) {
    v in st.roots && v in st.heap && s in st.roots && s in st.heap && st.heap[s].SessionHolder?
  }

  /** The free function of a holder, as an entry in the list of native frees. */
  function FreeOf(st: State, h: Holder): seq<Free>
    requires h.ScpHolder? && h.handle.Some? ==> h.handle.value in st.scpOf
  {
    match h
    case SessionHolder(Some(n)) => [SessionFreed(n, ChannelsOf(st, n))]
    case ScpHolder(Some(p), _) => [ScpFreed(p, !Freed(st, st.scpOf[p]))]
    case _ => []
  }

  function Apply(st: State, step: Step): State
    requires Enabled(st, step)
  {
    match step
    case Alloc(v, kind) =>
      st.(heap := st.heap[v := Fresh(kind)], roots := st.roots + {v})
    case InitSession(v, fails) =>
      if fails then st.(heap := st.heap[v := SessionHolder(None)])
      else st.(heap := st.heap[v := SessionHolder(Some(st.next))],
               sessions := st.sessions + {st.next}, next := st.next + 1)
    case InitChannel(v, s, fails) =>
      var native := st.heap[s].native;
      if fails || native.None? then st.(heap := st.heap[v := ChannelHolder(None, Some(s))])
      else st.(heap := st.heap[v := ChannelHolder(Some(st.next), Some(s))],
               channelOf := st.channelOf[st.next := native.value], next := st.next + 1)
    case InitScp(v, s, fails) =>
      var native := st.heap[s].native;
      if fails || native.None? then st.(heap := st.heap[v := ScpHolder(None, Some(s))])
      else st.(heap := st.heap[v := ScpHolder(Some(st.next), Some(s))],
               scpOf := st.scpOf[st.next := native.value], next := st.next + 1)
    case Drop(v) => st.(roots := st.roots - {v})
    case Mark => st.(condemned := st.heap.Keys - Reachable(st))
    case Sweep(v) =>
      st.(heap := st.heap - {v}, condemned := st.condemned - {v}, frees := st.frees + FreeOf(st, st.heap[v]))
  }

  // -------------------------------------------------------------- invariant

  /** The native session behind a dependant's handle. */
  function Creator(st: State, h: Holder): Option<Native> {
    match h
    case ChannelHolder(Some(k), _) => if k in st.channelOf then Some(st.channelOf[k]) else None
    case ScpHolder(Some(p), _) => if p in st.scpOf then Some(st.scpOf[p]) else None
    case _ => None
  }

  /** Native identities are used once, below `next`. */
  ghost predicate Books(st: State) {
    && (forall n :: n in st.sessions ==> n < st.next)
    && (forall k :: k in st.channelOf ==> k < st.next && k !in st.sessions && st.channelOf[k] in st.sessions)
    && (forall p :: p in st.scpOf ==> p < st.next && p !in st.sessions && p !in st.channelOf && st.scpOf[p] in st.sessions)
    && (forall n :: Freed(st, n) ==> n in st.sessions || n in st.scpOf)
  }

  ghost predicate Held(st: State) {
    && st.roots <= st.heap.Keys && st.condemned <= st.heap.Keys && st.roots !! st.condemned
    && (forall v :: v in st.heap ==> HandleOk(st, st.heap[v]))
    && (forall v, u :: v in st.heap && u in st.heap && v != u ==> Apart(st.heap[v], st.heap[u]))
  }

  /** A native held by a holder exists, and nothing its holder would free is freed yet. */
  ghost predicate HandleOk(st: State, h: Holder) {
    match h
    case SessionHolder(Some(n)) => n in st.sessions && !Freed(st, n)
    case ChannelHolder(Some(k), session) => k in st.channelOf && session.Some?
    case ScpHolder(Some(p), session) => p in st.scpOf && !Freed(st, p) && session.Some?
    case _ => true
  }

  /** No two holders would free the same native. */
  predicate Apart(h: Holder, g: Holder) {
    && (h.SessionHolder? && g.SessionHolder? && h.native.Some? ==> h.native != g.native)
    && (h.ScpHolder? && g.ScpHolder? && h.handle.Some? ==> h.handle != g.handle)
  }

  /** A dependant not condemned keeps its session from being condemned, the native session
      that created its handle is not freed, and only that Session can free it. */
  ghost predicate Safe(st: State, v: Value)
    requires v in st.heap
  {
    Creator(st, st.heap[v]).Some? ==>
      var n, s := Creator(st, st.heap[v]).value, st.heap[v].session;
      && !Freed(st, n)
      && s.Some? && s.value in st.heap && s.value !in st.condemned && st.heap[s.value].SessionHolder?
      && forall t :: t in st.heap && st.heap[t] == SessionHolder(Some(n)) ==> t == s.value
  }

  ghost predicate AllSafe(st: State) {
    forall v :: v in st.heap && v !in st.condemned ==> Safe(st, v)
  }

  /** Every free so far was the first of its native, and took exactly the session's channels. */
  ghost predicate FreesOk(st: State) {
    && (forall i, j :: 0 <= i < j < |st.frees| ==> st.frees[i].native != st.frees[j].native)
    && (forall i :: 0 <= i < |st.frees| && st.frees[i].SessionFreed? ==>
          st.frees[i].native in st.sessions && st.frees[i].channels == ChannelsOf(st, st.frees[i].native))
    && (forall i :: 0 <= i < |st.frees| && st.frees[i].ScpFreed? ==> st.frees[i].native in st.scpOf)
  }

  ghost predicate Inv(st: State) {
    Books(st) && Held(st) && AllSafe(st) && FreesOk(st)
  }

  lemma FreedIdsSnoc(frees: seq<Free>, f: Free)
    ensures FreedIds(frees + [f]) == FreedIds(frees) + {f.native}
  {
    assert (frees + [f])[..|frees|] == frees;
  }

  lemma {:induction false} FreedIdsMeans(frees: seq<Free>, n: Native)
    ensures n in FreedIds(frees) <==> exists i :: 0 <= i < |frees| && frees[i].native == n
  {
    if frees != [] {
      FreedIdsMeans(frees[..|frees| - 1], n);
      assert frees[|frees| - 1].native == n || n in FreedIds(frees) <==>
             frees[|frees| - 1].native == n || n in FreedIds(frees[..|frees| - 1]);
      if i :| 0 <= i < |frees| && frees[i].native == n {
        if i < |frees| - 1 { assert frees[..|frees| - 1][i].native == n; }
      }
    }
  }

  lemma InvInit()
    ensures Inv(Init)
  {
  }

  /** What a step does to the list of freed natives. */
  lemma FreedAfter(st: State, step: Step)
    requires Enabled(st, step)
    ensures step.Sweep? && FreeOf(st, st.heap[step.v]) != [] ==>
              FreedIds(Apply(st, step).frees) == FreedIds(st.frees) + {FreeOf(st, st.heap[step.v])[0].native}
    ensures !(step.Sweep? && FreeOf(st, st.heap[step.v]) != []) ==>
              FreedIds(Apply(st, step).frees) == FreedIds(st.frees)
  {
    if step.Sweep? {
      var f := FreeOf(st, st.heap[step.v]);
      if f == [] {
        assert st.frees + f == st.frees;
      } else {
        FreedIdsSnoc(st.frees, f[0]);
        assert f == [f[0]];
      }
    }
  }

  lemma BooksInitChannel(st: State, step: Step)
    requires Books(st) && Held(st) && Enabled(st, step) && step.InitChannel?
    ensures Books(Apply(st, step))
  {
    assert HandleOk(st, st.heap[step.s]);
  }

  lemma BooksInitScp(st: State, step: Step)
    requires Books(st) && Held(st) && Enabled(st, step) && step.InitScp?
    ensures Books(Apply(st, step))
  {
    assert HandleOk(st, st.heap[step.s]);
  }

  lemma BooksSweep(st: State, step: Step)
    requires Books(st) && Held(st) && Enabled(st, step) && step.Sweep?
    ensures Books(Apply(st, step))
  {
    FreedAfter(st, step);
    assert HandleOk(st, st.heap[step.v]);
  }

  lemma KeepsBooks(st: State, step: Step)
    requires Books(st) && Held(st) && Enabled(st, step)
    ensures Books(Apply(st, step))
  {
    match step
    case InitChannel(_, _, _) => BooksInitChannel(st, step);
    case InitScp(_, _, _) => BooksInitScp(st, step);
    case Sweep(_) => BooksSweep(st, step);
    case _ =>
  }

  /** Holders written by a step, in general: what was at v is now h. */
  ghost predicate Put(st: State, st': State, v: Value, h: Holder) {
    && st'.heap == st.heap[v := h]
    && st'.frees == st.frees
    && st.sessions <= st'.sessions
    && (forall k :: k in st.channelOf ==> k in st'.channelOf && st'.channelOf[k] == st.channelOf[k])
    && (forall p :: p in st.scpOf ==> p in st'.scpOf && st'.scpOf[p] == st.scpOf[p])
  }

  lemma PutKeepsHandles(st: State, st': State, v: Value, h: Holder)
    requires Held(st) && Put(st, st', v, h) && HandleOk(st', h)
    requires forall u :: u in st.heap && u != v ==> Apart(h, st.heap[u]) && Apart(st.heap[u], h)
    requires st'.roots <= st'.heap.Keys && st'.condemned <= st'.heap.Keys && st'.roots !! st'.condemned
    ensures Held(st')
  {
    forall u | u in st'.heap ensures HandleOk(st', st'.heap[u]) {
      if u != v {
        assert HandleOk(st, st.heap[u]);
      }
    }
    forall u, w | u in st'.heap && w in st'.heap && u != w ensures Apart(st'.heap[u], st'.heap[w]) {
      if u != v && w != v {
        assert Apart(st.heap[u], st.heap[w]);
      }
    }
  }

  /** A native just created is nobody else's. */
  lemma NewIsApart(st: State, step: Step, g: Holder)
    requires Books(st) && HandleOk(st, g) && Enabled(st, step)
    requires step.Alloc? || step.InitSession? || step.InitChannel? || step.InitScp?
    ensures var h := Apply(st, step).heap[step.v]; Apart(h, g) && Apart(g, h)
  {
  }

  lemma InitIsPut(st: State, step: Step)
    requires Books(st) && Enabled(st, step)
    requires step.Alloc? || step.InitSession? || step.InitChannel? || step.InitScp?
    ensures var st', v := Apply(st, step), step.v;
            && v in st'.heap && Put(st, st', v, st'.heap[v]) && st'.condemned == st.condemned
            && (v in st.heap ==> st.heap[v].SessionHolder? == st'.heap[v].SessionHolder?)
            && (st'.heap[v].SessionHolder? && st'.heap[v].native.Some? ==> st'.heap[v].native.value !in st.sessions)
            && (step.Alloc? || step.InitSession? ==> Creator(st', st'.heap[v]) == None)
  {
  }

  /** The holder a step writes is in order, and so are the sets around it. */
  lemma InitIsOk(st: State, step: Step)
    requires Books(st) && Held(st) && Enabled(st, step)
    requires step.Alloc? || step.InitSession? || step.InitChannel? || step.InitScp?
    ensures var st' := Apply(st, step);
            && HandleOk(st', st'.heap[step.v])
            && st'.roots <= st'.heap.Keys && st'.condemned <= st'.heap.Keys && st'.roots !! st'.condemned
  {
    hide Apart;
    assert Freed(Apply(st, step), st.next) == Freed(st, st.next);
  }

  lemma HeldInit(st: State, step: Step)
    requires Books(st) && Held(st) && Enabled(st, step)
    requires step.Alloc? || step.InitSession? || step.InitChannel? || step.InitScp?
    ensures Held(Apply(st, step))
  {
    hide Apply, Enabled, Books, Put, HandleOk, Apart;
    InitIsPut(st, step);
    InitIsOk(st, step);
    var h := Apply(st, step).heap[step.v];
    forall u | u in st.heap && u != step.v ensures Apart(h, st.heap[u]) && Apart(st.heap[u], h) {
      NewIsApart(st, step, st.heap[u]);
    }
    PutKeepsHandles(st, Apply(st, step), step.v, h);
  }

  lemma HeldElsewhere(st: State, step: Step)
    requires Held(st) && Enabled(st, step) && (step.Mark? || step.Drop?)
    ensures Held(Apply(st, step))
  {
    forall u | u in st.heap ensures HandleOk(Apply(st, step), st.heap[u]) {
      assert HandleOk(st, st.heap[u]);
    }
  }

  lemma HeldSweep(st: State, step: Step)
    requires Books(st) && Held(st) && Enabled(st, step) && step.Sweep?
    ensures Held(Apply(st, step))
  {
    var st' := Apply(st, step);
    FreedAfter(st, step);
    assert HandleOk(st, st.heap[step.v]);
    forall u | u in st'.heap ensures HandleOk(st', st'.heap[u]) {
      assert HandleOk(st, st.heap[u]) && Apart(st.heap[step.v], st.heap[u]);
    }
    forall u, w | u in st'.heap && w in st'.heap && u != w ensures Apart(st'.heap[u], st'.heap[w]) {
      assert Apart(st.heap[u], st.heap[w]);
    }
  }

  lemma SafePut(st: State, st': State, v: Value, h: Holder, u: Value)
    requires Books(st) && Held(st) && Put(st, st', v, h) && st'.condemned == st.condemned
    requires u in st.heap && u != v && u !in st.condemned && Safe(st, u)
    requires v in st.heap ==> st.heap[v].SessionHolder? == h.SessionHolder?
    requires h.SessionHolder? && h.native.Some? ==> h.native.value !in st.sessions
    ensures Safe(st', u)
  {
    assert HandleOk(st, st.heap[u]);
  }

  lemma SafeInit(st: State, step: Step)
    requires Books(st) && Held(st) && AllSafe(st) && Enabled(st, step)
    requires step.Alloc? || step.InitSession? || step.InitChannel? || step.InitScp?
    ensures AllSafe(Apply(st, step))
  {
    hide Safe, Books, Held;
    var st' := Apply(st, step);
    forall u | u in st'.heap && u !in st'.condemned ensures Safe(st', u) {
      SafeInitAt(st, step, u);
    }
  }

  lemma SafeInitAt(st: State, step: Step, u: Value)
    requires Books(st) && Held(st) && Enabled(st, step)
    requires step.Alloc? || step.InitSession? || step.InitChannel? || step.InitScp?
    requires u in Apply(st, step).heap && u !in st.condemned && (u in st.heap ==> Safe(st, u))
    ensures Safe(Apply(st, step), u)
  {
    hide Apply, Books, Held, Put;
    InitIsPut(st, step);
    if step.InitChannel? || step.InitScp? {
      SafeNew(st, step);
    }
    if u != step.v {
      SafePut(st, Apply(st, step), step.v, Apply(st, step).heap[step.v], u);
    }
  }

  /** A dependant just initialized is safe: its session is in the mutator's hands. */
  lemma SafeNew(st: State, step: Step)
    requires Books(st) && Held(st) && Enabled(st, step) && (step.InitChannel? || step.InitScp?)
    ensures Safe(Apply(st, step), step.v)
  {
    var session := st.heap[step.s];
    assert HandleOk(st, session);
    forall t | t in st.heap && t != step.s && session.native.Some? ensures st.heap[t] != session {
      assert Apart(st.heap[t], session);
    }
  }

  lemma SafeMark(st: State)
    requires Inv(st) && Enabled(st, Mark)
    ensures AllSafe(Apply(st, Mark))
  {
    var st' := Apply(st, Mark);
    forall u | u in st'.heap && u !in st'.condemned ensures Safe(st', u) {
      assert Safe(st, u) && HandleOk(st, st.heap[u]);
      if u !in st.roots {
        var r :| r in st.roots && r in st.heap && u in Marks(st.heap[r]);
        assert Safe(st, r) && HandleOk(st, st.heap[r]);
      } else if Creator(st, st.heap[u]).Some? {
        assert st.heap[u].session.value in Marks(st.heap[u]);
      }
    }
  }

  lemma SafeDrop(st: State, step: Step)
    requires AllSafe(st) && Enabled(st, step) && step.Drop?
    ensures AllSafe(Apply(st, step))
  {
    forall u | u in st.heap && u !in st.condemned ensures Safe(Apply(st, step), u) {
      assert Safe(st, u);
    }
  }

  lemma SafeSweep(st: State, step: Step)
    requires Books(st) && Held(st) && AllSafe(st) && Enabled(st, step) && step.Sweep?
    ensures AllSafe(Apply(st, step))
  {
    hide Safe, Books, FreeOf;
    var st' := Apply(st, step);
    forall u | u in st'.heap && u !in st'.condemned ensures Safe(st', u) {
      SafeSweepAt(st, step.v, u);
    }
  }

  lemma CreatorExists(st: State, h: Holder)
    requires Books(st) && Creator(st, h).Some?
    ensures Creator(st, h).value in st.sessions
  {
  }

  /** Sweeping another holder than its Session leaves a native session alone. */
  lemma SweepSpares(st: State, v: Value, n: Native)
    requires Books(st) && Enabled(st, Sweep(v)) && HandleOk(st, st.heap[v])
    requires n in st.sessions && !Freed(st, n) && st.heap[v] != SessionHolder(Some(n))
    ensures !Freed(Apply(st, Sweep(v)), n)
  {
    hide Apply;
    FreedAfter(st, Sweep(v));
  }

  /** The Session of a dependant not condemned is not the one swept, so the native session
      behind its handle is not the one freed. */
  lemma SafeSweepAt(st: State, v: Value, u: Value)
    requires Books(st) && Held(st) && Enabled(st, Sweep(v))
    requires u in st.heap && u != v && u !in st.condemned && Safe(st, u)
    ensures Safe(Apply(st, Sweep(v)), u)
  {
    hide Books, HandleOk, Apart, FreeOf, FreedIds, Reachable;
    if Creator(st, st.heap[u]).Some? {
      CreatorExists(st, st.heap[u]);
      SweepSpares(st, v, Creator(st, st.heap[u]).value);
    }
  }

  lemma KeepsFrees(st: State, step: Step)
    requires Inv(st) && Enabled(st, step) && !step.Sweep?
    ensures FreesOk(Apply(st, step))
  {
    var st' := Apply(st, step);
    if step.InitChannel? {
      assert HandleOk(st, st.heap[step.s]);
    }
    forall i | 0 <= i < |st.frees| && st.frees[i].SessionFreed?
      ensures ChannelsOf(st', st.frees[i].native) == ChannelsOf(st, st.frees[i].native)
    {
      FreedIdsMeans(st.frees, st.frees[i].native);
    }
  }

  lemma FreesSweep(st: State, step: Step)
    requires Inv(st) && Enabled(st, step) && step.Sweep?
    ensures FreesOk(Apply(st, step))
  {
    var st', f := Apply(st, step), FreeOf(st, st.heap[step.v]);
    assert HandleOk(st, st.heap[step.v]);
    if f == [] {
      assert st'.frees == st.frees;
    } else {
      FreedIdsMeans(st.frees, f[0].native);
    }
    assert forall n :: ChannelsOf(st', n) == ChannelsOf(st, n);
  }

  /** The invariant is inductive. */
  lemma StepKeepsInv(st: State, step: Step)
    requires Inv(st) && Enabled(st, step)
    ensures Inv(Apply(st, step))
  {
    hide Books, Held, AllSafe, FreesOk, Apply;
    KeepsBooks(st, step);
    match step
    case Mark => HeldElsewhere(st, step); SafeMark(st); KeepsFrees(st, step);
    case Sweep(_) => HeldSweep(st, step); SafeSweep(st, step); FreesSweep(st, step);
    case Drop(_) => HeldElsewhere(st, step); SafeDrop(st, step); KeepsFrees(st, step);
    case _ => HeldInit(st, step); SafeInit(st, step); KeepsFrees(st, step);
  }

  // -------------------------------------------------------------- whole runs

  /** Every step of the run is one the mutator or the collector could take. */
  predicate Runs(st: State, steps: seq<Step>)
    decreases |steps|
  {
    steps == [] || (Enabled(st, steps[0]) && Runs(Apply(st, steps[0]), steps[1..]))
  }

  function End(st: State, steps: seq<Step>): State
    requires Runs(st, steps)
    decreases |steps|
  {
    if steps == [] then st else End(Apply(st, steps[0]), steps[1..])
  }

  lemma {:induction false} RunKeepsInv(st: State, steps: seq<Step>)
    requires Inv(st) && Runs(st, steps)
    ensures Inv(End(st, steps))
    decreases |steps|
  {
    if steps != [] {
      StepKeepsInv(st, steps[0]);
      RunKeepsInv(Apply(st, steps[0]), steps[1..]);
    }
  }

  /** The native session that created the handle of a reachable Channel or Scp has never been
      freed, and the Ruby Session the holder refers to is still there: after every run,
      with re-initialization anywhere, and in the middle of a lazy sweep. */
  lemma ReachableHandlesAreLive(steps: seq<Step>, v: Value)
    requires Runs(Init, steps)
    requires v in Reachable(End(Init, steps))
    ensures var st := End(Init, steps);
            && v in st.heap && v !in st.condemned
            && (Creator(st, st.heap[v]).Some? ==>
                  && (forall i :: 0 <= i < |st.frees| ==> st.frees[i].native != Creator(st, st.heap[v]).value)
                  && st.heap[v].session.Some? && st.heap[v].session.value in Reachable(st)
                  && st.heap[v].session.value in st.heap)
            && (st.heap[v].SessionHolder? && st.heap[v].native.Some? ==>
                  forall i :: 0 <= i < |st.frees| ==> st.frees[i].native != st.heap[v].native.value)
  {
    var st := End(Init, steps);
    InvInit();
    RunKeepsInv(Init, steps);
    if v !in st.roots {
      var r :| r in st.roots && r in st.heap && v in Marks(st.heap[r]);
      assert Safe(st, r) && HandleOk(st, st.heap[r]);
    }
    assert Safe(st, v) && HandleOk(st, st.heap[v]);
    forall i | 0 <= i < |st.frees| ensures st.frees[i].native in FreedIds(st.frees) {
      FreedIdsMeans(st.frees, st.frees[i].native);
    }
    if Creator(st, st.heap[v]).Some? {
      assert st.heap[v].session.value in Marks(st.heap[v]);
    }
  }

  lemma ReachableIsClosed(st: State, v: Value)
    requires Inv(st) && v in Reachable(st)
    ensures v in st.heap && Marks(st.heap[v]) <= Reachable(st)
  {
    if v !in st.roots {
      var r :| r in st.roots && r in st.heap && v in Marks(st.heap[r]);
      assert Safe(st, r) && HandleOk(st, st.heap[r]);
    }
  }

  /** The marks reach all there is to reach: after every run what they reach is closed under
      the holders' mark functions, and every closed set with the roots in it contains it. */
  lemma MarkingIsComplete(steps: seq<Step>, closed: set<Value>)
    requires Runs(Init, steps)
    ensures var st := End(Init, steps);
            && (forall v :: v in Reachable(st) ==> v in st.heap && Marks(st.heap[v]) <= Reachable(st))
            && (st.roots <= closed && (forall v :: v in closed && v in st.heap ==> Marks(st.heap[v]) <= closed) ==>
                  Reachable(st) <= closed)
  {
    var st := End(Init, steps);
    InvInit();
    RunKeepsInv(Init, steps);
    forall v | v in Reachable(st) ensures v in st.heap && Marks(st.heap[v]) <= Reachable(st) {
      ReachableIsClosed(st, v);
    }
  }

  /** Native frees are conserved: each session and each scp is freed at most once, and a
      channel is freed only together with the session that created it, so at most once too. */
  lemma FreesAreConserved(steps: seq<Step>, i: nat, j: nat)
    requires Runs(Init, steps) && i < j < |End(Init, steps).frees|
    ensures var st := End(Init, steps);
            && st.frees[i].native != st.frees[j].native
            && (st.frees[i].SessionFreed? ==> st.frees[i].channels == ChannelsOf(st, st.frees[i].native))
            && (st.frees[i].SessionFreed? && st.frees[j].SessionFreed? ==> st.frees[i].channels !! st.frees[j].channels)
  {
    InvInit();
    RunKeepsInv(Init, steps);
  }

  // ----------------------------------------------- nothing freed is missed

  /** The holder's free function would free this native. */
  predicate Owns(h: Holder, n: Native) {
    h == SessionHolder(Some(n)) || (h.ScpHolder? && h.handle == Some(n))
  }

  ghost predicate Holds(st: State, n: Native) {
    exists v :: v in st.heap && Owns(st.heap[v], n)
  }

  ghost predicate HoldsElsewhere(st: State, v: Value, n: Native) {
    exists u :: u in st.heap && u != v && Owns(st.heap[u], n)
  }

  /** The native session or scp that a step forgets by initializing its holder again. */
  function Forgets(st: State, step: Step): set<Native>
    requires Enabled(st, step)
  {
    match step
    case InitSession(v, _) => if st.heap[v].native.Some? then {st.heap[v].native.value} else {}
    case InitScp(v, _, _) => if st.heap[v].handle.Some? then {st.heap[v].handle.value} else {}
    case _ => {}
  }

  /** All that a run forgot. */
  function Forgotten(st: State, steps: seq<Step>): set<Native>
    requires Runs(st, steps)
    decreases |steps|
  {
    if steps == [] then {} else Forgets(st, steps[0]) + Forgotten(Apply(st, steps[0]), steps[1..])
  }

  /** Each native session and scp ever created is in exactly one place: with a holder, freed,
      or among the forgotten. */
  ghost predicate Accounted(st: State, gone: set<Native>) {
    && (forall n :: n in gone ==> n in st.sessions || n in st.scpOf)
    && (forall n :: n in st.sessions || n in st.scpOf ==> InOnePlace(st, gone, n))
  }

  ghost predicate InOnePlace(st: State, gone: set<Native>, n: Native) {
    && (Holds(st, n) || Freed(st, n) || n in gone)
    && !(Holds(st, n) && Freed(st, n)) && !(Holds(st, n) && n in gone) && !(Freed(st, n) && n in gone)
  }

  /** One entry of the list frees n, as a session or as an scp, whichever it is. */
  ghost predicate FreedOnce(st: State, n: Native) {
    exists i :: 0 <= i < |st.frees| && st.frees[i].native == n
      && (forall j :: 0 <= j < |st.frees| && st.frees[j].native == n ==> j == i)
      && (st.frees[i].SessionFreed? <==> n in st.sessions) && (st.frees[i].ScpFreed? <==> n in st.scpOf)
  }

  /** Channel k went with some session. */
  ghost predicate FreedWithSession(st: State, k: Native) {
    exists i :: 0 <= i < |st.frees| && st.frees[i].SessionFreed? && k in st.frees[i].channels
  }

  /** A native has one holder at most. */
  lemma OneHolder(st: State, v: Value, n: Native)
    requires Books(st) && Held(st) && v in st.heap
    ensures Holds(st, n) <==> Owns(st.heap[v], n) || HoldsElsewhere(st, v, n)
    ensures !(Owns(st.heap[v], n) && HoldsElsewhere(st, v, n))
  {
    if Owns(st.heap[v], n) {
      forall u | u in st.heap && u != v ensures !Owns(st.heap[u], n) {
        assert HandleOk(st, st.heap[v]) && HandleOk(st, st.heap[u]) && Apart(st.heap[v], st.heap[u]);
      }
    }
  }

  /** Sweeping a holder frees the native it owns, and nothing else. */
  lemma SweepFreesOwned(st: State, v: Value, n: Native)
    requires Enabled(st, Sweep(v))
    ensures Freed(Apply(st, Sweep(v)), n) <==> Freed(st, n) || Owns(st.heap[v], n)
  {
    FreedAfter(st, Sweep(v));
  }

  lemma SweepAccounts(st: State, v: Value, gone: set<Native>)
    requires Books(st) && Held(st) && Enabled(st, Sweep(v)) && Accounted(st, gone)
    ensures Accounted(Apply(st, Sweep(v)), gone)
  {
    hide Books, Held, Freed, FreeOf, Owns;
    var st' := Apply(st, Sweep(v));
    forall n | n in st'.sessions || n in st'.scpOf ensures InOnePlace(st', gone, n) {
      SweepFreesOwned(st, v, n);
      OneHolder(st, v, n);
      assert InOnePlace(st, gone, n);
      assert Holds(st', n) <==> HoldsElsewhere(st, v, n) by {
        if HoldsElsewhere(st, v, n) {
          var u :| u in st.heap && u != v && Owns(st.heap[u], n);
          assert u in st'.heap && Owns(st'.heap[u], n);
        }
      }
    }
  }

  /** What a step writes into a holder owns at most a native created by that step. */
  lemma NewOwnsNew(st: State, step: Step, n: Native)
    requires Enabled(st, step)
    requires step.Alloc? || step.InitSession? || step.InitChannel? || step.InitScp?
    ensures var st', v := Apply(st, step), step.v;
            && st'.heap.Keys == st.heap.Keys + {v} && (forall u :: u in st.heap && u != v ==> st'.heap[u] == st.heap[u])
            && st'.frees == st.frees
            && (n in st'.sessions || n in st'.scpOf <==> n in st.sessions || n in st.scpOf || Owns(st'.heap[v], n))
            && (Owns(st'.heap[v], n) ==> n == st.next)
            && (n in Forgets(st, step) <==> v in st.heap && Owns(st.heap[v], n))
  {
  }

  lemma HandlesExist(st: State, n: Native)
    requires Books(st) && Held(st) && (Holds(st, n) || Freed(st, n))
    ensures n < st.next && (n in st.sessions || n in st.scpOf)
  {
    if Holds(st, n) {
      var v :| v in st.heap && Owns(st.heap[v], n);
      assert HandleOk(st, st.heap[v]);
    }
  }

  lemma InitAccounts(st: State, step: Step, gone: set<Native>)
    requires Books(st) && Held(st) && Enabled(st, step) && Accounted(st, gone)
    requires step.Alloc? || step.InitSession? || step.InitChannel? || step.InitScp?
    ensures Accounted(Apply(st, step), gone + Forgets(st, step))
  {
    hide Books, Held, Apply, Owns, Forgets, FreedIds;
    var st', v, gone' := Apply(st, step), step.v, gone + Forgets(st, step);
    forall n | n in gone' ensures n in st'.sessions || n in st'.scpOf {
      NewOwnsNew(st, step, n);
      if n !in gone {
        HandlesExist(st, n);
      }
    }
    forall n | n in st'.sessions || n in st'.scpOf ensures InOnePlace(st', gone', n) {
      InitAccountsFor(st, step, gone, n);
    }
  }

  lemma InitAccountsFor(st: State, step: Step, gone: set<Native>, n: Native)
    requires Books(st) && Held(st) && Enabled(st, step) && Accounted(st, gone)
    requires step.Alloc? || step.InitSession? || step.InitChannel? || step.InitScp?
    requires n in Apply(st, step).sessions || n in Apply(st, step).scpOf
    ensures InOnePlace(Apply(st, step), gone + Forgets(st, step), n)
  {
    hide Held, Apply, Owns, Forgets, FreedIds, InOnePlace;
    var st', v := Apply(st, step), step.v;
    NewOwnsNew(st, step, n);
    HoldsAfterPut(st, st', v, n);
    if Owns(st'.heap[v], n) {
      InitAccountsNew(st, step, gone, n);
    } else {
      assert InOnePlace(st, gone, n);
      InitAccountsOld(st, st', v, gone, Forgets(st, step), n);
    }
  }

  lemma HoldsAfterPut(st: State, st': State, v: Value, n: Native)
    requires st'.heap.Keys == st.heap.Keys + {v} && forall u :: u in st.heap && u != v ==> st'.heap[u] == st.heap[u]
    ensures Holds(st', n) <==> Owns(st'.heap[v], n) || HoldsElsewhere(st, v, n)
  {
    hide Owns;
    if HoldsElsewhere(st, v, n) {
      var u :| u in st.heap && u != v && Owns(st.heap[u], n);
      assert u in st'.heap && Owns(st'.heap[u], n);
    }
  }

  lemma InitAccountsNew(st: State, step: Step, gone: set<Native>, n: Native)
    requires Books(st) && Held(st) && Enabled(st, step) && Accounted(st, gone)
    requires step.Alloc? || step.InitSession? || step.InitChannel? || step.InitScp?
    requires Owns(Apply(st, step).heap[step.v], n)
    ensures InOnePlace(Apply(st, step), gone + Forgets(st, step), n)
  {
    hide Held, Apply, Owns, Forgets, FreedIds;
    NewOwnsNew(st, step, n);
    assert n !in gone;
    if Freed(st, n) || Holds(st, n) {
      HandlesExist(st, n);
    }
    assert step.v in st.heap && Owns(st.heap[step.v], n) ==> Holds(st, n);
  }

  lemma InitAccountsOld(st: State, st': State, v: Value, gone: set<Native>, forgotten: set<Native>, n: Native)
    requires Books(st) && Held(st) && InOnePlace(st, gone, n) && st'.frees == st.frees
    requires Holds(st', n) <==> HoldsElsewhere(st, v, n)
    requires n in forgotten <==> v in st.heap && Owns(st.heap[v], n)
    ensures InOnePlace(st', gone + forgotten, n)
  {
    hide Books, Held, Owns, FreedIds;
    if v in st.heap {
      OneHolder(st, v, n);
    }
  }

  lemma StepAccounts(st: State, step: Step, gone: set<Native>)
    requires Inv(st) && Enabled(st, step) && Accounted(st, gone)
    ensures Accounted(Apply(st, step), gone + Forgets(st, step))
  {
    hide Books, Held, AllSafe, FreesOk, Accounted;
    match step
    case Sweep(v) =>
      SweepAccounts(st, v, gone);
      assert gone + {} == gone;
    case Drop(_) => StillAccounted(st, Apply(st, step), gone);
    case Mark => StillAccounted(st, Apply(st, step), gone);
    case _ => InitAccounts(st, step, gone);
  }

  lemma StillAccounted(st: State, st': State, gone: set<Native>)
    requires Accounted(st, gone) && st'.heap == st.heap && st'.frees == st.frees
    requires st'.sessions == st.sessions && st'.scpOf == st.scpOf
    ensures Accounted(st', gone + {})
  {
    assert gone + {} == gone;
    forall n | n in st.sessions || n in st.scpOf ensures InOnePlace(st', gone, n) {
      assert InOnePlace(st, gone, n);
    }
  }

  lemma {:induction false} RunAccounts(st: State, steps: seq<Step>, gone: set<Native>)
    requires Inv(st) && Runs(st, steps) && Accounted(st, gone)
    ensures Accounted(End(st, steps), gone + Forgotten(st, steps))
    decreases |steps|
  {
    hide Inv, Accounted, Forgets, Apply, Enabled;
    if steps == [] {
      assert gone + {} == gone;
    } else {
      var later := Apply(st, steps[0]);
      StepKeepsInv(st, steps[0]);
      StepAccounts(st, steps[0], gone);
      RunAccounts(later, steps[1..], gone + Forgets(st, steps[0]));
      assert gone + Forgets(st, steps[0]) + Forgotten(later, steps[1..]) == gone + Forgotten(st, steps);
    }
  }

  /** Conservation, over every run.  Each native session and scp ever created is held by one
      holder still in the heap, or was freed, exactly once and by its own kind of free, or was
      forgotten by initializing its holder again; never two of these.  A channel is freed
      exactly if the session that created it is. */
  lemma NativesAreConserved(steps: seq<Step>, n: Native)
    requires Runs(Init, steps)
    ensures var st := End(Init, steps);
            n in st.sessions || n in st.scpOf ==> InOnePlace(st, Forgotten(Init, steps), n)
    ensures var st := End(Init, steps);
            Freed(st, n) ==> FreedOnce(st, n)
    ensures var st := End(Init, steps);
            n in st.channelOf ==>
              (Freed(st, st.channelOf[n]) <==> FreedWithSession(st, n))
  {
    hide AllSafe, Held, Runs, End, Forgotten, InOnePlace;
    var st := End(Init, steps);
    InvInit();
    AccountedInit();
    RunKeepsInv(Init, steps);
    RunAccounts(Init, steps, {});
    assert {} + Forgotten(Init, steps) == Forgotten(Init, steps);
    if Freed(st, n) {
      FreedKinds(st, n);
    }
    if n in st.channelOf {
      ChannelGoesWithSession(st, n);
    }
  }

  lemma AccountedInit()
    ensures Accounted(Init, {})
  {
  }

  lemma FreedKinds(st: State, n: Native)
    requires Books(st) && FreesOk(st) && Freed(st, n)
    ensures FreedOnce(st, n)
  {
    FreedIdsMeans(st.frees, n);
    var i :| 0 <= i < |st.frees| && st.frees[i].native == n;
    assert forall j :: 0 <= j < |st.frees| && st.frees[j].native == n ==> j == i;
  }

  lemma ChannelGoesWithSession(st: State, k: Native)
    requires Books(st) && FreesOk(st) && k in st.channelOf
    ensures Freed(st, st.channelOf[k]) <==> FreedWithSession(st, k)
  {
    var n := st.channelOf[k];
    FreedIdsMeans(st.frees, n);
    if Freed(st, n) {
      var i :| 0 <= i < |st.frees| && st.frees[i].native == n;
      assert k in ChannelsOf(st, n);
      assert st.frees[i].SessionFreed? && k in st.frees[i].channels;
    }
  }

  // ------------------------------------------------ scp before its session

  /** No scp created by this Session's native session is still waiting to be freed. */
  predicate ScpsGone(st: State, v: Value)
    requires v in st.heap
  {
    st.heap[v].SessionHolder? && st.heap[v].native.Some? ==>
      forall u :: u in st.heap && st.heap[u].ScpHolder? ==> Creator(st, st.heap[u]) != st.heap[v].native
  }

  /** The sweep takes every Scp before the Session whose native session created its handle. */
  predicate ScpsFirst(st: State, steps: seq<Step>)
    requires Runs(st, steps)
    decreases |steps|
  {
    steps == [] ||
    ((steps[0].Sweep? ==> ScpsGone(st, steps[0].v)) && ScpsFirst(Apply(st, steps[0]), steps[1..]))
  }

  /** Some scp was freed after its native session. */
  ghost predicate FreedTooLate(frees: seq<Free>) {
    exists i :: 0 <= i < |frees| && frees[i].ScpFreed? && !frees[i].sessionLive
  }

  /** An scp not freed yet whose native session is gone already. */
  predicate Orphan(st: State, v: Value)
    requires v in st.heap
  {
    st.heap[v].ScpHolder? && Creator(st, st.heap[v]).Some? && Freed(st, Creator(st, st.heap[v]).value)
  }

  ghost predicate HasOrphan(st: State) {
    exists v :: v in st.heap && Orphan(st, v)
  }

  lemma OrphanIsCondemned(st: State, v: Value)
    requires Inv(st) && v in st.heap && Orphan(st, v)
    ensures v in st.condemned
  {
    assert v !in st.condemned ==> Safe(st, v);
  }

  lemma TooLateSnoc(frees: seq<Free>, f: Free)
    ensures FreedTooLate(frees + [f]) <==> FreedTooLate(frees) || (f.ScpFreed? && !f.sessionLive)
  {
    var more := frees + [f];
    assert more[|frees|] == f;
    assert forall i :: 0 <= i < |frees| ==> more[i] == frees[i];
  }

  /** Sweeping a Session leaves an orphan exactly if there was one or its scps were not gone. */
  lemma OrphansAfterSession(st: State, v: Value)
    requires Inv(st) && Enabled(st, Sweep(v)) && !st.heap[v].ScpHolder?
    ensures HasOrphan(Apply(st, Sweep(v))) <==> HasOrphan(st) || !ScpsGone(st, v)
    ensures FreedTooLate(Apply(st, Sweep(v)).frees) <==> FreedTooLate(st.frees)
  {
    hide Inv, FreedTooLate, Freed, Creator;
    var st' := Apply(st, Sweep(v));
    var f := FreeOf(st, st.heap[v]);
    if f == [] {
      assert st'.frees == st.frees;
    } else {
      TooLateSnoc(st.frees, f[0]);
      assert f == [f[0]];
    }
    forall u | u in st'.heap
      ensures Orphan(st', u) <==> Orphan(st, u) || LeftBehind(st, v, u)
    {
      OrphanedBy(st, v, u);
    }
    if !ScpsGone(st, v) {
      var u :| u in st.heap && st.heap[u].ScpHolder? && Creator(st, st.heap[u]) == st.heap[v].native;
      assert u in st'.heap && LeftBehind(st, v, u);
    }
  }

  /** u is an scp of the native session that v would free. */
  predicate LeftBehind(st: State, v: Value, u: Value)
    requires v in st.heap && u in st.heap
  {
    && st.heap[v].SessionHolder? && st.heap[v].native.Some?
    && st.heap[u].ScpHolder? && Creator(st, st.heap[u]) == st.heap[v].native
  }

  lemma OrphanedBy(st: State, v: Value, u: Value)
    requires Enabled(st, Sweep(v)) && !st.heap[v].ScpHolder? && u in st.heap && u != v
    ensures Orphan(Apply(st, Sweep(v)), u) <==> Orphan(st, u) || LeftBehind(st, v, u)
  {
    FreedAfter(st, Sweep(v));
  }

  lemma ScpFreeTells(st: State, v: Value)
    requires Inv(st) && Enabled(st, Sweep(v)) && st.heap[v].ScpHolder? && FreeOf(st, st.heap[v]) != []
    ensures FreeOf(st, st.heap[v])[0].ScpFreed?
    ensures !FreeOf(st, st.heap[v])[0].sessionLive <==> Orphan(st, v)
  {
  }

  lemma OrphanUnmoved(st: State, v: Value, u: Value)
    requires Inv(st) && Enabled(st, Sweep(v)) && st.heap[v].ScpHolder? && u in st.heap && u != v
    ensures Orphan(Apply(st, Sweep(v)), u) <==> Orphan(st, u)
  {
    FreedAfter(st, Sweep(v));
    assert HandleOk(st, st.heap[v]) && HandleOk(st, st.heap[u]);
  }

  /** Sweeping an Scp frees it too late exactly if it was an orphan. */
  lemma OrphansAfterScp(st: State, v: Value)
    requires Inv(st) && Enabled(st, Sweep(v)) && st.heap[v].ScpHolder?
    ensures FreedTooLate(Apply(st, Sweep(v)).frees) || HasOrphan(Apply(st, Sweep(v)))
       <==> FreedTooLate(st.frees) || HasOrphan(st)
  {
    hide Books, AllSafe, FreesOk, HandleOk, FreedTooLate, Freed;
    var st' := Apply(st, Sweep(v));
    var f := FreeOf(st, st.heap[v]);
    if f == [] {
      assert st'.frees == st.frees;
    } else {
      TooLateSnoc(st.frees, f[0]);
      assert f == [f[0]];
      ScpFreeTells(st, v);
    }
    forall u | u in st'.heap ensures Orphan(st', u) <==> Orphan(st, u) {
      OrphanUnmoved(st, v, u);
    }
  }

  lemma OrphanStays(st: State, step: Step, u: Value)
    requires Inv(st) && Enabled(st, step) && !step.Sweep? && u in st.heap && Orphan(st, u)
    ensures u in Apply(st, step).heap && Orphan(Apply(st, step), u)
  {
    OrphanIsCondemned(st, u);
    assert HandleOk(st, st.heap[u]);
  }

  lemma OrphanWasThere(st: State, step: Step, u: Value)
    requires Books(st) && Held(st) && Enabled(st, step) && !step.Sweep?
    requires u in Apply(st, step).heap && Orphan(Apply(st, step), u) && u in Apply(st, step).condemned
    ensures u in st.heap && Orphan(st, u)
  {
    assert step.Mark? || step.Drop? || u != step.v;
    assert HandleOk(st, st.heap[u]);
  }

  /** No other step makes an orphan or mends one. */
  lemma OrphansElsewhere(st: State, step: Step)
    requires Inv(st) && Enabled(st, step) && !step.Sweep?
    ensures HasOrphan(Apply(st, step)) <==> HasOrphan(st)
  {
    hide Books, Held, AllSafe, FreesOk, Orphan;
    StepKeepsInv(st, step);
    forall u | u in st.heap && Orphan(st, u)
      ensures u in Apply(st, step).heap && Orphan(Apply(st, step), u)
    {
      OrphanStays(st, step, u);
    }
    forall u | u in Apply(st, step).heap && Orphan(Apply(st, step), u)
      ensures u in st.heap && Orphan(st, u)
    {
      OrphanIsCondemned(Apply(st, step), u);
      OrphanWasThere(st, step, u);
    }
  }

  ghost predicate Stained(st: State) { FreedTooLate(st.frees) || HasOrphan(st) }

  lemma {:induction false} StainedIff(st: State, steps: seq<Step>)
    requires Inv(st) && Runs(st, steps)
    ensures Stained(End(st, steps)) <==> Stained(st) || !ScpsFirst(st, steps)
    decreases |steps|
  {
    if steps != [] {
      var step := steps[0];
      StepKeepsInv(st, step);
      StainedIff(Apply(st, step), steps[1..]);
      if !step.Sweep? {
        OrphansElsewhere(st, step);
      } else if st.heap[step.v].ScpHolder? {
        OrphansAfterScp(st, step.v);
      } else {
        OrphansAfterSession(st, step.v);
      }
    }
  }

  /** In every run whose last sweep is complete, each native scp was freed while the native
      session that created it was live if and only if the sweeps took the Scps first. */
  lemma ScpsFreedInTimeIff(steps: seq<Step>)
    requires Runs(Init, steps) && End(Init, steps).condemned == {}
    ensures !FreedTooLate(End(Init, steps).frees) <==> ScpsFirst(Init, steps)
  {
    InvInit();
    RunKeepsInv(Init, steps);
    StainedIff(Init, steps);
    var st := End(Init, steps);
    forall v | v in st.heap ensures !Orphan(st, v) {
      if Orphan(st, v) {
        OrphanIsCondemned(st, v);
      }
    }
  }

  /** The order matters only inside one collection: a Session about to be swept while an Scp
      of its is left shares its condemnation with that Scp. */
  lemma ConflictOnlyInOneCollection(steps: seq<Step>, s: Value, u: Value)
    requires Runs(Init, steps) && Enabled(End(Init, steps), Sweep(s))
    requires var st := End(Init, steps);
             && st.heap[s].SessionHolder? && st.heap[s].native.Some?
             && u in st.heap && st.heap[u].ScpHolder? && Creator(st, st.heap[u]) == st.heap[s].native
    ensures u in End(Init, steps).condemned && s in End(Init, steps).condemned
  {
    var st := End(Init, steps);
    InvInit();
    RunKeepsInv(Init, steps);
    assert u !in st.condemned ==> Safe(st, u);
  }
}
