/** What a backend run is observed to do: session set-up, resources opened and closed, and
    the calls made on them.  Two disciplines on such journals, and what they mean. */
module Journal {
  import opened Base

  type SessionId = nat

  datatype Setting =
    | Host(name: string)
    | User(name: string)
    | Port(number: int)
    | Identity(path: string)
    | Config(file: Option<string>)

  /** What the backend brackets: a session channel, an scp conversation, a local file. */
  datatype Kind = ChannelOn(session: SessionId) | ScpOn(session: SessionId) | LocalFile

  /** The serial number is the place of the opening in the journal, so no two openings
      are the same resource. */
  datatype Resource = Resource(kind: Kind, serial: nat)

  datatype Call =
    | RequestPty
    | RequestExec
    | ExecAccepted
    | GetExitStatus
    | ExitReported(code: int)
    | PushFile(size: nat, mode: int)
    | PullRequest
    | AcceptRequest
    | DenyRequest

  datatype Event =
    | Configured(session: SessionId, setting: Setting)
    | Connected(session: SessionId)
    | KnownOk(session: SessionId)
    | Authenticated(session: SessionId)
    | Opening(kind: Kind)             // the open call is issued
    | Opened(resource: Resource)      // ... and it succeeded
    | Issued(on: Resource, call: Call)
    | Closing(resource: Resource)     // the close call is issued

  // ---------------------------------------------------------------- nesting

  /** One event against the stack of open resources.  None: the event is a mistake, such as
      closing anything but the innermost open resource or calling on one that is not open. */
  function NestStep(open: seq<Resource>, place: nat, e: Event): Option<seq<Resource>> {
    match e
    case Opened(r) => if r.serial == place then Some(open + [r]) else None
    case Closing(r) => if open != [] && open[|open| - 1] == r then Some(open[..|open| - 1]) else None
    case Issued(r, _) => if r in open then Some(open) else None
    case _ => Some(open)
  }

  /** The stack of open resources after the whole journal. */
  function Nest(log: seq<Event>): Option<seq<Resource>> {
    if log == [] then Some([])
    else
      match Nest(log[..|log| - 1])
      case None => None
      case Some(open) => NestStep(open, |log| - 1, log[|log| - 1])
  }

  lemma NestSnoc(log: seq<Event>, e: Event)
    requires Nest(log).Some?
    ensures Nest(log + [e]) == NestStep(Nest(log).value, |log|, e)
  {
    assert (log + [e])[..|log|] == log;
  }

  lemma {:induction false} NestPrefix(log: seq<Event>, k: nat)
    requires k <= |log| && Nest(log).Some?
    ensures Nest(log[..k]).Some?
    decreases |log|
  {
    if k < |log| {
      NestPrefix(log[..|log| - 1], k);
      assert log[..|log| - 1][..k] == log[..k];
    } else {
      assert log[..k] == log;
    }
  }

  /** The stack lists exactly the resources opened and not closed, oldest first. */
  ghost predicate StackMeansOpen(log: seq<Event>, open: seq<Resource>) {
    && (forall i, j :: 0 <= i < j < |open| ==> open[i].serial < open[j].serial)
    && (forall r :: r in open <==> Opened(r) in log && Closing(r) !in log)
    && (forall r :: Closing(r) in log ==> Opened(r) in log)
    && (forall i :: 0 <= i < |log| && log[i].Opened? ==> log[i].resource.serial == i)
    && (forall i, j :: 0 <= i < j < |log| && log[i].Closing? && log[j].Closing? ==> log[i] != log[j])
  }

  lemma OpenedSnoc(log: seq<Event>, open: seq<Resource>, q: Resource)
    requires StackMeansOpen(log, open) && q.serial == |log|
    ensures StackMeansOpen(log + [Opened(q)], open + [q])
  {
    var log' := log + [Opened(q)];
    forall r | Opened(r) in log ensures r.serial < |log| {
      var i :| 0 <= i < |log| && log[i] == Opened(r);
    }
    assert forall r :: Opened(r) in log' <==> Opened(r) in log || r == q;
    assert forall r :: Closing(r) in log' <==> Closing(r) in log;
    assert forall r :: r in open + [q] <==> r in open || r == q;
    assert forall r :: r in open ==> Opened(r) in log;
  }

  lemma ClosingSnoc(log: seq<Event>, open: seq<Resource>, q: Resource)
    requires StackMeansOpen(log, open + [q])
    ensures StackMeansOpen(log + [Closing(q)], open)
  {
    var log' := log + [Closing(q)];
    assert forall r :: Opened(r) in log' <==> Opened(r) in log;
    assert forall r :: Closing(r) in log' <==> Closing(r) in log || r == q;
    assert forall r :: r in open + [q] <==> r in open || r == q;
    assert (open + [q])[|open|] == q;
    assert forall i :: 0 <= i < |open| ==> (open + [q])[i] == open[i] && open[i].serial < q.serial;
  }

  lemma OtherSnoc(log: seq<Event>, open: seq<Resource>, e: Event)
    requires StackMeansOpen(log, open) && !e.Opened? && !e.Closing?
    ensures StackMeansOpen(log + [e], open)
  {
    assert forall r :: Opened(r) in log + [e] <==> Opened(r) in log;
    assert forall r :: Closing(r) in log + [e] <==> Closing(r) in log;
  }

  lemma StackMeansOpenSnoc(log: seq<Event>, open: seq<Resource>, e: Event)
    requires StackMeansOpen(log, open)
    requires NestStep(open, |log|, e).Some?
    ensures StackMeansOpen(log + [e], NestStep(open, |log|, e).value)
  {
    hide StackMeansOpen;
    match e
    case Opened(q) => OpenedSnoc(log, open, q);
    case Closing(q) =>
      assert open == open[..|open| - 1] + [q];
      ClosingSnoc(log, open[..|open| - 1], q);
    case _ => OtherSnoc(log, open, e);
  }

  lemma {:induction false} StackIsOpenSet(log: seq<Event>)
    requires Nest(log).Some?
    ensures StackMeansOpen(log, Nest(log).value)
  {
    if log != [] {
      var past := log[..|log| - 1];
      StackIsOpenSet(past);
      StackMeansOpenSnoc(past, Nest(past).value, log[|log| - 1]);
      assert past + [log[|log| - 1]] == log;
    }
  }

  /** What is closed is the top of the stack. */
  lemma ClosingTakesTop(log: seq<Event>, j: nat) returns (open: seq<Resource>)
    requires Nest(log).Some? && j < |log| && log[j].Closing?
    ensures Nest(log[..j]) == Some(open) && open != [] && open[|open| - 1] == log[j].resource
  {
    NestPrefix(log, j);
    NestPrefix(log, j + 1);
    assert log[..j + 1] == log[..j] + [log[j]];
    NestSnoc(log[..j], log[j]);
    open := Nest(log[..j]).value;
  }

  /** Closings come in LIFO order: when r is closed, everything opened after r has been
      closed already, r itself was opened before, and r is never closed again. */
  lemma ClosingIsLifo(log: seq<Event>, j: nat)
    requires Nest(log).Some? && j < |log| && log[j].Closing?
    ensures var r := log[j].resource;
            Opened(r) in log[..j] && Closing(r) !in log[..j] && Closing(r) !in log[j + 1..]
    ensures forall q :: Opened(q) in log[..j] && q.serial > log[j].resource.serial ==> Closing(q) in log[..j]
  {
    hide Nest, NestStep;
    var r, past := log[j].resource, log[..j];
    var open := ClosingTakesTop(log, j);
    StackIsOpenSet(past);
    assert forall i :: 0 <= i < |open| ==> open[i].serial <= r.serial;
    assert forall q :: q in open ==> q.serial <= r.serial;
    StackIsOpenSet(log);
  }

  /** With nothing left open, every resource that was opened has been closed exactly once,
      after its opening; and nothing that was not opened has been closed. */
  lemma EmptyStackClosedOnce(log: seq<Event>, r: Resource)
    requires Nest(log) == Some([])
    ensures Opened(r) in log <==> Closing(r) in log
    ensures Opened(r) in log ==>
              exists i, j :: 0 <= i < j < |log| && log[i] == Opened(r) && log[j] == Closing(r)
                && (forall k :: 0 <= k < |log| && log[k] == Opened(r) ==> k == i)
                && (forall k :: 0 <= k < |log| && log[k] == Closing(r) ==> k == j)
  {
    StackIsOpenSet(log);
    if Opened(r) in log {
      var j :| 0 <= j < |log| && log[j] == Closing(r);
      ClosingIsLifo(log, j);
      var i :| 0 <= i < j && log[..j][i] == Opened(r);
      assert log[i] == Opened(r);
    }
  }

  /** A call is issued only on a resource that is open at that moment. */
  lemma IssuedWhileOpen(log: seq<Event>, j: nat)
    requires Nest(log).Some? && j < |log| && log[j].Issued?
    ensures Opened(log[j].on) in log[..j] && Closing(log[j].on) !in log[..j]
  {
    NestPrefix(log, j);
    NestPrefix(log, j + 1);
    assert log[..j + 1] == log[..j] + [log[j]];
    NestSnoc(log[..j], log[j]);
    StackIsOpenSet(log[..j]);
  }

  // ---------------------------------------------------------------- call order

  /** Session s was connected, then found known, then authenticated. */
  ghost predicate Ready(past: seq<Event>, s: SessionId) {
    exists a, b, c :: 0 <= a < b < c < |past|
      && past[a] == Connected(s) && past[b] == KnownOk(s) && past[c] == Authenticated(s)
  }

  /** May e be issued after `past`?  The two calls the C sources warn would block forever
      are guarded, and so is each step of the session set-up. */
  ghost predicate Permitted(past: seq<Event>, e: Event) {
    match e
    case KnownOk(s) => Connected(s) in past
    case Authenticated(s) => KnownOk(s) in past
    case Opening(ChannelOn(s)) => Ready(past, s)
    case Opening(ScpOn(s)) => Ready(past, s)
    case Opened(r) => past != [] && past[|past| - 1] == Opening(r.kind)
    case Issued(r, GetExitStatus) => Issued(r, ExecAccepted) in past
    case Issued(r, ExitReported(_)) => Issued(r, GetExitStatus) in past
    case _ => true
  }

  /** Every event was permitted when it was issued. */
  ghost predicate Orderly(log: seq<Event>) {
    log == [] || (Orderly(log[..|log| - 1]) && Permitted(log[..|log| - 1], log[|log| - 1]))
  }

  lemma {:induction false} OrderlyMeansPermitted(log: seq<Event>, i: nat)
    requires Orderly(log) && i < |log|
    ensures Permitted(log[..i], log[i])
  {
    if i < |log| - 1 {
      OrderlyMeansPermitted(log[..|log| - 1], i);
      assert log[..|log| - 1][..i] == log[..i];
    }
  }

  lemma OrderlySnoc(log: seq<Event>, e: Event)
    requires Orderly(log) && Permitted(log, e)
    ensures Orderly(log + [e])
  {
    assert (log + [e])[..|log|] == log;
  }

  lemma ReadyGrows(past: seq<Event>, more: seq<Event>, s: SessionId)
    requires Ready(past, s) && past <= more
    ensures Ready(more, s)
  {
    var a, b, c :| 0 <= a < b < c < |past|
      && past[a] == Connected(s) && past[b] == KnownOk(s) && past[c] == Authenticated(s);
    assert more[a] == Connected(s) && more[b] == KnownOk(s) && more[c] == Authenticated(s);
  }

  /** Every channel or scp conversation that was opened sits on a session made ready
      before. */
  lemma OpenedMeansReady(log: seq<Event>, j: nat)
    requires Orderly(log) && j < |log| && log[j].Opened? && !log[j].resource.kind.LocalFile?
    ensures Ready(log[..j], log[j].resource.kind.session)
  {
    OrderlyMeansPermitted(log, j);
    OrderlyMeansPermitted(log, j - 1);
    ReadyGrows(log[..j - 1], log[..j], log[j].resource.kind.session);
  }

  /** What the two disciplines give together: an exit status is asked for only on a channel
      that is open at that moment, over a session made ready before, and after the command
      was accepted on that very channel. */
  lemma ExitStatusIsSafe(log: seq<Event>, j: nat, r: Resource)
    requires Orderly(log) && Nest(log).Some?
    requires j < |log| && log[j] == Issued(r, GetExitStatus)
    ensures Issued(r, ExecAccepted) in log[..j]
    ensures Opened(r) in log[..j] && Closing(r) !in log[..j]
    ensures !r.kind.LocalFile? ==> Ready(log[..j], r.kind.session)
  {
    hide Nest, Orderly, Ready;
    IssuedWhileOpen(log, j);
    OrderlyMeansPermitted(log, j);
    if !r.kind.LocalFile? {
      var i :| 0 <= i < j && log[..j][i] == Opened(r);
      OpenedMeansReady(log, i);
      ReadyGrows(log[..i], log[..j], r.kind.session);
    }
  }

  // ------------------------------------------------------------ local files

  predicate FileEvent(e: Event) {
    match e
    case Opening(k) => k.LocalFile?
    case Opened(r) => r.kind.LocalFile?
    case Closing(r) => r.kind.LocalFile?
    case _ => false
  }

  /** How many events of the journal open or close a local file. */
  function FileEvents(log: seq<Event>): nat {
    if log == [] then 0
    else FileEvents(log[..|log| - 1]) + (if FileEvent(log[|log| - 1]) then 1 else 0)
  }

  lemma FileEventsSnoc(log: seq<Event>, e: Event)
    ensures FileEvents(log + [e]) == FileEvents(log) + (if FileEvent(e) then 1 else 0)
  {
    assert (log + [e])[..|log|] == log;
  }

  /** An unchanged count means that no local file was opened or closed in between. */
  lemma {:induction false} SameFileEvents(before: seq<Event>, log: seq<Event>, i: nat)
    requires before <= log
    ensures FileEvents(before) <= FileEvents(log)
    ensures FileEvents(before) == FileEvents(log) && |before| <= i < |log| ==> !FileEvent(log[i])
    decreases |log|
  {
    if |before| < |log| {
      SameFileEvents(before, log[..|log| - 1], i);
    } else {
      assert before == log;
    }
  }

  lemma {:induction false} NoneAddsNone(before: seq<Event>, log: seq<Event>)
    requires before <= log && forall i :: |before| <= i < |log| ==> !FileEvent(log[i])
    ensures FileEvents(log) == FileEvents(before)
    decreases |log|
  {
    if |before| < |log| {
      NoneAddsNone(before, log[..|log| - 1]);
    } else {
      assert before == log;
    }
  }
}
