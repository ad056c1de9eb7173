/** The C functions behind the lifetimes, on holders updated in place.  Each is proved to take
    exactly the step the transition system of Lifetimes says, and to keep its invariant. */
module Collector {
  import opened Base
  import opened Lifetimes

  datatype ScpMode = Read | Write | OtherSymbol

  /** One of these holders owns n. */
  ghost predicate OwnedIn(heap: map<Value, Holder>, holders: set<Value>, n: Native) {
    exists v :: v in holders && v in heap && Owns(heap[v], n)
  }

  lemma OwnedInOneMore(heap: map<Value, Holder>, holders: set<Value>, v: Value, n: Native)
    requires v in heap
    ensures OwnedIn(heap, holders + {v}, n) <==> OwnedIn(heap, holders, n) || Owns(heap[v], n)
  {
  }

  lemma HandleInOrder(st: State, v: Value)
    requires Inv(st) && v in st.condemned
    ensures v in st.heap && HandleOk(st, st.heap[v]) && Enabled(st, Sweep(v))
  {
    assert v in st.heap;
    assert HandleOk(st, st.heap[v]);
  }

  class Runtime {
    var heap: map<Value, Holder>
    var roots: set<Value>
    var condemned: set<Value>
    var next: Native
    var sessions: set<Native>
    var channelOf: map<Native, Native>
    var scpOf: map<Native, Native>
    var frees: seq<Free>

    constructor ()
      ensures Now() == Init && Inv(Now())
    {
      heap, roots, condemned, next, sessions := map[], {}, {}, 0, {};
      channelOf, scpOf, frees := map[], map[], [];
    }

    function Now(): State
      reads this
    {
      State(heap, roots, condemned, next, sessions, channelOf, scpOf, frees)
    }

    /** `session_alloc`, `channel_alloc`, `scp_alloc`. */
    method AllocHolder(v: Value, kind: HolderKind)
      requires Inv(Now()) && v !in heap
      modifies this`heap, this`roots
      ensures Now() == Apply(old(Now()), Alloc(v, kind)) && Inv(Now())
      ensures v in roots && v in heap && Marks(heap[v]) == {} && forall n :: !Owns(heap[v], n)
    {
      hide Inv;
      StepKeepsInv(Now(), Alloc(v, kind));
      heap := heap[v := Fresh(kind)];
      roots := roots + {v};
    }

    /** `Session#initialize`: whatever native session the holder had is forgotten, not freed. */
    method SessionInitialize(v: Value, fails: bool)
      requires Inv(Now()) && Enabled(Now(), InitSession(v, fails))
      modifies this`heap, this`sessions, this`next
      ensures Now() == Apply(old(Now()), InitSession(v, fails)) && Inv(Now())
      ensures if fails then heap[v] == SessionHolder(None)
              else heap[v] == SessionHolder(Some(old(next))) && old(next) in sessions && old(next) < next
    {
      hide Inv;
      StepKeepsInv(Now(), InitSession(v, fails));
      if fails {
        heap := heap[v := SessionHolder(None)];
      } else {
        heap := heap[v := SessionHolder(Some(next))];
        sessions := sessions + {next};
        next := next + 1;
      }
    }

    /** `Channel#initialize(session)`: `ssh_channel_new` gives NULL for a NULL session. */
    method ChannelInitialize(v: Value, s: Value, fails: bool)
      requires Inv(Now()) && Enabled(Now(), InitChannel(v, s, fails))
      modifies this`heap, this`channelOf, this`next
      ensures Now() == Apply(old(Now()), InitChannel(v, s, fails)) && Inv(Now())
      ensures old(heap)[s].native.Some? && !fails ==>
                && heap[v] == ChannelHolder(Some(old(next)), Some(s)) && old(next) < next
                && old(next) in channelOf && channelOf[old(next)] == old(heap)[s].native.value
      ensures old(heap)[s].native.None? || fails ==> heap[v] == ChannelHolder(None, Some(s))
    {
      hide Inv;
      StepKeepsInv(Now(), InitChannel(v, s, fails));
      var native := heap[s].native;
      var handle: Option<Native> := None;
      if native.Some? && !fails {
        handle := Some(next);
        channelOf := channelOf[next := native.value];
        next := next + 1;
      }
      heap := heap[v := ChannelHolder(handle, Some(s))];
    }

    /** `Scp#initialize(session, mode, path)`: a mode other than :read and :write raises
        before the holder is touched. */
    method ScpInitialize(v: Value, s: Value, mode: ScpMode, fails: bool) returns (ok: bool)
      requires Inv(Now()) && Enabled(Now(), InitScp(v, s, fails))
      modifies this`heap, this`scpOf, this`next
      ensures ok == (mode != OtherSymbol) && Inv(Now())
      ensures Now() == if ok then Apply(old(Now()), InitScp(v, s, fails)) else old(Now())
      ensures ok && old(heap)[s].native.Some? && !fails ==>
                && heap[v] == ScpHolder(Some(old(next)), Some(s)) && old(next) < next
                && old(next) in scpOf && scpOf[old(next)] == old(heap)[s].native.value
      ensures ok && (old(heap)[s].native.None? || fails) ==> heap[v] == ScpHolder(None, Some(s))
    {
      hide Inv;
      if mode == OtherSymbol {
        return false;
      }
      StepKeepsInv(Now(), InitScp(v, s, fails));
      var native := heap[s].native;
      var handle: Option<Native> := None;
      if native.Some? && !fails {
        handle := Some(next);
        scpOf := scpOf[next := native.value];
        next := next + 1;
      }
      heap := heap[v := ScpHolder(handle, Some(s))];
      ok := true;
    }

    /** The program lets go of an object. */
    method DropRoot(v: Value)
      requires Inv(Now()) && v in roots
      modifies this`roots
      ensures Now() == Apply(old(Now()), Drop(v)) && Inv(Now())
    {
      hide Inv;
      StepKeepsInv(Now(), Drop(v));
      roots := roots - {v};
    }

    /** The mark functions: `session_mark` marks nothing; `channel_mark` and `scp_mark` mark
        the session, if the handle is not NULL. */
    method MarkHolder(v: Value) returns (marked: set<Value>)
      requires v in heap && HandleOk(Now(), heap[v])
      ensures marked == Marks(heap[v])
    {
      marked := {};
      match heap[v]
      case SessionHolder(_) =>
      case ChannelHolder(channel, session) =>
        if channel != None {
          marked := {session.value};
        }
      case ScpHolder(scp, session) =>
        if scp != None {
          marked := {session.value};
        }
    }

    /** A full mark with a worklist: what stays unmarked is condemned, and that is exactly
        what cannot be reached. */
    method MarkAll()
      requires Inv(Now()) && condemned == {}
      modifies this`condemned
      ensures Now() == Apply(old(Now()), Mark) && Inv(Now())
      ensures condemned == heap.Keys - Reachable(old(Now()))
    {
      ghost var st := Now();
      var marked, grey := {}, roots;
      while grey != {}
        invariant marked !! grey && roots <= marked + grey <= Reachable(st)
        invariant forall v :: v in marked ==> v in heap && Marks(heap[v]) <= marked + grey
        decreases Reachable(st) - marked
      {
        var v :| v in grey;
        ReachableIsClosed(st, v);
        assert HandleOk(st, heap[v]);
        var found := MarkHolder(v);
        marked := marked + {v};
        grey := grey + found - marked;
      }
      StepKeepsInv(st, Mark);
      condemned := heap.Keys - marked;
    }

    /** `session_free`: the native session goes, and its channels with it. */
    method SessionFree(v: Value)
      requires v in heap && heap[v].SessionHolder?
      modifies this`frees, this`heap
      ensures frees == old(frees) + FreeOf(old(Now()), old(heap[v])) && heap == old(heap) - {v}
      ensures old(heap[v]).native.Some? ==>
                frees == old(frees) + [SessionFreed(old(heap[v]).native.value, ChannelsOf(old(Now()), old(heap[v]).native.value))]
      ensures old(heap[v]).native.None? ==> frees == old(frees)
    {
      if heap[v].native != None {
        var n := heap[v].native.value;
        frees := frees + [SessionFreed(n, set k | k in channelOf && channelOf[k] == n)];
        heap := heap[v := SessionHolder(None)];
      }
      heap := heap - {v};
    }

    /** `channel_free`: the native channel is left to its session. */
    method ChannelFree(v: Value)
      requires v in heap && heap[v].ChannelHolder?
      modifies this`heap
      ensures heap == old(heap) - {v}
    {
      if heap[v].handle != None {
        heap := heap[v := ChannelHolder(None, heap[v].session)];
      }
      heap := heap - {v};
    }

    /** `scp_free`: the native scp goes. */
    method ScpFree(v: Value)
      requires v in heap && heap[v].ScpHolder? && HandleOk(Now(), heap[v])
      modifies this`frees, this`heap
      ensures frees == old(frees) + FreeOf(old(Now()), old(heap[v])) && heap == old(heap) - {v}
      ensures old(heap[v]).handle.Some? ==>
                frees == old(frees) + [ScpFreed(old(heap[v]).handle.value,
                                                scpOf[old(heap[v]).handle.value] !in FreedIds(old(frees)))]
      ensures old(heap[v]).handle.None? ==> frees == old(frees)
    {
      if heap[v].handle != None {
        var p := heap[v].handle.value;
        var live := scpOf[p] !in FreedIds(frees);
        frees := frees + [ScpFreed(p, live)];
        heap := heap[v := ScpHolder(None, heap[v].session)];
      }
      heap := heap - {v};
    }

    /** The sweep reaches one condemned slot. */
    method SweepOne(v: Value)
      requires Inv(Now()) && v in condemned
      modifies this`heap, this`condemned, this`frees
      ensures Enabled(old(Now()), Sweep(v)) && Now() == Apply(old(Now()), Sweep(v)) && Inv(Now())
      ensures heap == old(heap) - {v} && condemned == old(condemned) - {v}
      ensures forall n :: n in FreedIds(frees) <==> n in FreedIds(old(frees)) || Owns(old(heap)[v], n)
    {
      hide Inv;
      HandleInOrder(Now(), v);
      ghost var st := Now();
      StepKeepsInv(Now(), Sweep(v));
      ghost var before := frees;
      match heap[v] {
        case SessionHolder(_) => SessionFree(v);
        case ChannelHolder(_, _) =>
          ChannelFree(v);
          assert frees == before + [];
        case ScpHolder(_, _) => ScpFree(v);
      }
      condemned := condemned - {v};
      forall n ensures n in FreedIds(frees) <==> n in FreedIds(before) || Owns(st.heap[v], n) {
        SweepFreesOwned(st, v, n);
      }
    }

    /** A complete sweep, in any order: it frees what the condemned holders owned. */
    method SweepAll()
      requires Inv(Now())
      modifies this`heap, this`condemned, this`frees
      ensures Inv(Now()) && condemned == {} && heap == old(heap) - old(condemned)
      ensures forall n :: n in FreedIds(frees) <==> n in FreedIds(old(frees)) || OwnedIn(old(heap), old(condemned), n)
    {
      hide Inv, Apply, Enabled, FreedIds, Owns;
      while condemned != {}
        invariant Inv(Now()) && condemned <= old(condemned)
        invariant heap == old(heap) - (old(condemned) - condemned)
        invariant forall n :: n in FreedIds(frees) <==>
                    n in FreedIds(old(frees)) || OwnedIn(old(heap), old(condemned) - condemned, n)
        decreases condemned
      {
        var v :| v in condemned;
        ghost var done, before := old(condemned) - condemned, FreedIds(frees);
        HandleInOrder(Now(), v);
        ghost var h := heap[v];
        SweepOne(v);
        assert old(condemned) - condemned == done + {v} && old(heap)[v] == h;
        forall n ensures n in FreedIds(frees) <==> n in FreedIds(old(frees)) || OwnedIn(old(heap), done + {v}, n) {
          assert n in FreedIds(frees) <==> n in before || Owns(h, n);
          OwnedInOneMore(old(heap), done, v, n);
        }
      }
    }

    /** A whole collection: what could be reached is still there, unchanged, and nothing
        else is; the native sessions and scps of all the rest have been freed, and no others. */
    method Collect()
      requires Inv(Now()) && condemned == {}
      modifies this`heap, this`condemned, this`frees
      ensures Inv(Now()) && condemned == {}
      ensures heap.Keys == Reachable(old(Now()))
      ensures forall v :: v in heap ==> heap[v] == old(heap)[v]
      ensures forall n :: n in FreedIds(frees) <==>
                n in FreedIds(old(frees)) || OwnedIn(old(heap), old(heap).Keys - Reachable(old(Now())), n)
    {
      hide Inv, FreedIds, Owns;
      forall v | v in Reachable(Now()) ensures v in heap {
        ReachableIsClosed(Now(), v);
      }
      MarkAll();
      SweepAll();
    }
  }
}
