/** The local port forwarder: two threads pump one channel in opposite directions while the
    thread that opened the channel waits for both and then closes it.  Every interleaving of
    their steps with both endpoints is a run. */
module Forwarding {
  import opened Base

  datatype Reader = Reading | Writing | SendingEof | ReaderDone | ReaderFailed
  datatype Writer = Polling | Receiving(size: nat) | Delivering | WriterDone | WriterFailed

  /** `normal` tells a block that ended from one an exception is leaving. */
  datatype Owner = JoiningReader | JoiningWriter | Leaving(normal: bool) | Closed(normal: bool)

  datatype State = State(
    clientIn: Bytes,      // sent by the local client, not read from the socket yet
    readerBuf: Bytes,     // read from the socket, not written to the channel yet
    toRemote: Bytes,      // written to the channel
    eofSent: bool,
    remoteOut: Bytes,     // sent by the remote side, not arrived yet
    arrived: Bytes,       // in the channel's buffer
    remoteEof: bool,
    writerBuf: Bytes,     // read from the channel, not written to the socket yet
    toClient: Bytes,      // written to the socket
    reader: Reader,
    writer: Writer,
    owner: Owner)

  /** Both endpoints send what they have to send and then finish. */
  function Start(client: Bytes, remote: Bytes): State {
    State(client, [], [], false, remote, [], false, [], [], Reading, Polling, JoiningReader)
  }

  /** Writes may go out in pieces of any length. */
  datatype Step =
    | ReadSocket(k: nat) | SocketEof | WriteChannel(k: nat) | SendEof
    | Arrive(k: nat) | ArriveEof
    | Poll | PollEof | Receive(k: nat) | WriteSocket(k: nat)
    | Join | Close
    | ReaderFails | WriterFails

  datatype Thread = ReaderThread | WriterThread | OwnerThread | RemotePeer

  const THREADS: set<Thread> := {ReaderThread, WriterThread, OwnerThread, RemotePeer}

  /** Whose step it is. */
  function ThreadOf(step: Step): Thread {
    match step
    case ReadSocket(_) => ReaderThread
    case SocketEof => ReaderThread
    case WriteChannel(_) => ReaderThread
    case SendEof => ReaderThread
    case ReaderFails => ReaderThread
    case Arrive(_) => RemotePeer
    case ArriveEof => RemotePeer
    case Join => OwnerThread
    case Close => OwnerThread
    case _ => WriterThread
  }

  predicate Piece(k: nat, whole: Bytes) { 1 <= k <= |whole| }

  predicate Open(st: State) { !st.owner.Closed? }

  predicate Enabled(st: State, step: Step) {
    match step
    case ReadSocket(k) => st.reader == Reading && Piece(k, st.clientIn) && k <= BUFSIZ
    case SocketEof => st.reader == Reading && st.clientIn == []
    case WriteChannel(k) => Open(st) && st.reader == Writing && Piece(k, st.readerBuf)
    case SendEof => Open(st) && st.reader == SendingEof
    case Arrive(k) => Open(st) && Piece(k, st.remoteOut)
    case ArriveEof => Open(st) && st.remoteOut == [] && !st.remoteEof
    case Poll => Open(st) && st.writer == Polling && st.arrived != []
    case PollEof => Open(st) && st.writer == Polling && st.arrived == [] && st.remoteEof
    case Receive(k) => Open(st) && st.writer.Receiving? && Piece(k, st.arrived) && k <= st.writer.size
    case WriteSocket(k) => st.writer == Delivering && Piece(k, st.writerBuf)
    case Join =>
      || (st.owner == JoiningReader && (st.reader == ReaderDone || st.reader == ReaderFailed))
      || (st.owner == JoiningWriter && (st.writer == WriterDone || st.writer == WriterFailed))
    case Close => st.owner.Leaving?
    case ReaderFails => st.reader != ReaderDone && st.reader != ReaderFailed
    case WriterFails => st.writer != WriterDone && st.writer != WriterFailed
  }

  function Apply(st: State, step: Step): State
    requires Enabled(st, step)
  {
    match step
    case ReadSocket(k) => st.(readerBuf := st.clientIn[..k], clientIn := st.clientIn[k..], reader := Writing)
    case SocketEof => st.(reader := SendingEof)
    case WriteChannel(k) =>
      st.(toRemote := st.toRemote + st.readerBuf[..k], readerBuf := st.readerBuf[k..],
          reader := if k == |st.readerBuf| then Reading else Writing)
    case SendEof => st.(eofSent := true, reader := ReaderDone)
    case Arrive(k) => st.(arrived := st.arrived + st.remoteOut[..k], remoteOut := st.remoteOut[k..])
    case ArriveEof => st.(remoteEof := true)
    case Poll => st.(writer := Receiving(|st.arrived|))
    case PollEof => st.(writer := WriterDone)
    case Receive(k) => st.(writerBuf := st.arrived[..k], arrived := st.arrived[k..], writer := Delivering)
    case WriteSocket(k) =>
      st.(toClient := st.toClient + st.writerBuf[..k], writerBuf := st.writerBuf[k..],
          writer := if k == |st.writerBuf| then Polling else Delivering)
    case Join =>
      if st.owner == JoiningReader then
        st.(owner := if st.reader == ReaderDone then JoiningWriter else Leaving(false))
      else
        st.(owner := Leaving(st.writer == WriterDone))
    case Close => st.(owner := Closed(st.owner.normal))
    case ReaderFails => st.(reader := ReaderFailed)
    case WriterFails => st.(writer := WriterFailed)
  }

  /** Upstream: nothing lost, added or reordered, and EOF only after the last byte. */
  ghost predicate Upstream(st: State, client: Bytes) {
    && client == st.toRemote + st.readerBuf + st.clientIn
    && (st.reader.Reading? || st.reader.SendingEof? || st.reader.ReaderDone? ==> st.readerBuf == [])
    && (st.reader.Writing? ==> st.readerBuf != [])
    && (st.reader.SendingEof? || st.reader.ReaderDone? ==> st.clientIn == [])
    && (st.eofSent <==> st.reader.ReaderDone?)
  }

  /** Downstream: the same, and the writer ends only at the remote EOF with everything out. */
  ghost predicate Downstream(st: State, remote: Bytes) {
    && remote == st.toClient + st.writerBuf + st.arrived + st.remoteOut
    && (st.writer.Polling? || st.writer.Receiving? || st.writer.WriterDone? ==> st.writerBuf == [])
    && (st.writer.Delivering? ==> st.writerBuf != [])
    && (st.writer.Receiving? ==> 1 <= st.writer.size <= |st.arrived|)
    && (st.remoteEof ==> st.remoteOut == [])
    && (st.writer.WriterDone? ==> st.remoteEof && st.arrived == [])
  }

  /** The owner passes a join only when that thread has ended, and leaves normally only when
      both have ended well. */
  predicate Ordered(st: State) {
    match st.owner
    case JoiningReader => true
    case JoiningWriter => st.reader.ReaderDone?
    case Leaving(normal) => LeftWell(st, normal)
    case Closed(normal) => LeftWell(st, normal)
  }

  predicate LeftWell(st: State, normal: bool) {
    if normal then st.reader.ReaderDone? && st.writer.WriterDone?
    else st.reader.ReaderFailed? || (st.reader.ReaderDone? && st.writer.WriterFailed?)
  }

  ghost predicate Inv(st: State, client: Bytes, remote: Bytes) {
    Upstream(st, client) && Downstream(st, remote) && Ordered(st)
  }

  lemma Regroup(done: Bytes, buf: Bytes, k: nat, rest: Bytes)
    requires k <= |buf|
    ensures done + buf[..k] + buf[k..] + rest == done + buf + rest
  {
    assert buf[..k] + buf[k..] == buf;
  }

  lemma StepKeepsUpstream(st: State, step: Step, client: Bytes)
    requires Upstream(st, client) && Enabled(st, step)
    ensures Upstream(Apply(st, step), client)
  {
    match step
    case ReadSocket(k) =>
      assert st.clientIn[..k] + st.clientIn[k..] == st.clientIn;
    case WriteChannel(k) =>
      Regroup(st.toRemote, st.readerBuf, k, st.clientIn);
    case _ =>
  }

  lemma ArriveKeepsDownstream(st: State, k: nat, remote: Bytes)
    requires Downstream(st, remote) && Enabled(st, Arrive(k))
    ensures Downstream(Apply(st, Arrive(k)), remote)
  {
    Regroup(st.toClient + st.writerBuf + st.arrived, st.remoteOut, k, []);
    var before := st.toClient + st.writerBuf;
    assert before + (st.arrived + st.remoteOut[..k]) == before + st.arrived + st.remoteOut[..k];
  }

  lemma StepKeepsDownstream(st: State, step: Step, remote: Bytes)
    requires Downstream(st, remote) && Enabled(st, step)
    ensures Downstream(Apply(st, step), remote)
  {
    match step
    case Arrive(k) =>
      ArriveKeepsDownstream(st, k, remote);
    case Receive(k) =>
      Regroup(st.toClient, st.arrived, k, st.remoteOut);
    case WriteSocket(k) =>
      Regroup(st.toClient, st.writerBuf, k, st.arrived + st.remoteOut);
    case _ =>
  }

  predicate Runs(st: State, steps: seq<Step>)
    decreases |steps|
  {
    steps == [] || (Enabled(st, steps[0]) && Runs(Apply(st, steps[0]), steps[1..]))
  }

  function End(st: State, steps: seq<Step>): State
    requires Runs(st, steps)
    decreases |steps|
  {
    if steps == [] then st else End(Apply(st, steps[0]), steps[1..])
  }

  /** What is still to happen at most: it falls with every step. */
  function Work(st: State): nat {
    3 * |st.clientIn| + 2 * |st.readerBuf| + ReaderWork(st.reader)
    + 5 * |st.remoteOut| + 4 * |st.arrived| + 2 * |st.writerBuf| + WriterWork(st.writer)
    + (if st.remoteEof then 0 else 1) + OwnerWork(st.owner)
  }

  function ReaderWork(r: Reader): nat {
    match r
    case SendingEof => 1
    case ReaderDone => 0
    case ReaderFailed => 0
    case _ => 2
  }

  function WriterWork(w: Writer): nat {
    match w
    case Polling => 2
    case WriterDone => 0
    case WriterFailed => 0
    case _ => 1
  }

  function OwnerWork(o: Owner): nat {
    match o
    case JoiningReader => 3
    case JoiningWriter => 2
    case Leaving(_) => 1
    case Closed(_) => 0
  }

  lemma WorkFalls(st: State, step: Step)
    requires Enabled(st, step)
    requires step.ReadSocket? ==> st.readerBuf == []
    requires step.Receive? ==> st.writerBuf == []
    ensures Work(Apply(st, step)) < Work(st)
  {
  }

  lemma OrderedKept(st: State, step: Step)
    requires Ordered(st) && Enabled(st, step)
    ensures Ordered(Apply(st, step))
  {
  }

  /** The invariant is inductive, and every step uses up work. */
  lemma StepKeepsInv(st: State, step: Step, client: Bytes, remote: Bytes)
    requires Inv(st, client, remote) && Enabled(st, step)
    ensures Inv(Apply(st, step), client, remote) && Work(Apply(st, step)) < Work(st)
  {
    hide Apply, Work;
    WorkFalls(st, step);
    StepKeepsUpstream(st, step, client);
    StepKeepsDownstream(st, step, remote);
    OrderedKept(st, step);
  }

  lemma {:induction false} RunKeepsInv(st: State, steps: seq<Step>, client: Bytes, remote: Bytes)
    requires Inv(st, client, remote) && Runs(st, steps)
    ensures Inv(End(st, steps), client, remote)
    ensures |steps| + Work(End(st, steps)) <= Work(st)
    decreases |steps|
  {
    hide Inv, Apply, Work, Enabled;
    if steps != [] {
      StepKeepsInv(st, steps[0], client, remote);
      RunKeepsInv(Apply(st, steps[0]), steps[1..], client, remote);
    }
  }

  lemma StartKeepsInv(client: Bytes, remote: Bytes, steps: seq<Step>)
    requires Runs(Start(client, remote), steps)
    ensures Inv(End(Start(client, remote), steps), client, remote)
  {
    RunKeepsInv(Start(client, remote), steps, client, remote);
  }

  /** Each direction has delivered a prefix of what was sent, EOF is sent only behind the
      client's last byte, the writer ends only behind the remote side's, and the channel is
      closed normally only after both pumps have ended, with both directions complete. */
  ghost predicate Faithful(st: State, client: Bytes, remote: Bytes) {
    && st.toRemote <= client && st.toClient <= remote
    && (st.eofSent ==> st.toRemote == client)
    && (st.writer.WriterDone? ==> st.toClient == remote)
    && (st.owner.Closed? ==> (st.owner.normal <==> st.reader.ReaderDone? && st.writer.WriterDone?))
    && (st.owner == Closed(true) ==> st.eofSent && st.toRemote == client && st.toClient == remote)
  }

  lemma InvMeans(st: State, client: Bytes, remote: Bytes)
    requires Inv(st, client, remote)
    ensures Faithful(st, client, remote)
  {
    assert client == st.toRemote + (st.readerBuf + st.clientIn);
    assert remote == st.toClient + (st.writerBuf + st.arrived + st.remoteOut);
  }

  /** Forwarding is faithful over every interleaving, failures included. */
  lemma ForwardingIsFaithful(client: Bytes, remote: Bytes, steps: seq<Step>)
    requires Runs(Start(client, remote), steps)
    ensures Faithful(End(Start(client, remote), steps), client, remote)
  {
    StartKeepsInv(client, remote, steps);
    InvMeans(End(Start(client, remote), steps), client, remote);
  }

  /** No run is longer than the bytes of both sides allow. */
  lemma RunsAreBounded(client: Bytes, remote: Bytes, steps: seq<Step>)
    requires Runs(Start(client, remote), steps)
    ensures |steps| <= 3 * |client| + 5 * |remote| + 8
  {
    RunKeepsInv(Start(client, remote), steps, client, remote);
  }

  /** A step other than a failure that is possible now; the pumps and the owner never wait
      for each other in a circle. */
  function NextStep(st: State): Step {
    match st.owner
    case Leaving(_) => Close
    case _ =>
      if Enabled(st, Join) then Join
      else if st.reader == Reading then
        if st.clientIn == [] then SocketEof else ReadSocket(1)
      else if st.reader == Writing then WriteChannel(1)
      else if st.reader == SendingEof then SendEof
      else if st.writer == Delivering then WriteSocket(1)
      else if st.writer.Receiving? then Receive(1)
      else if st.arrived != [] then Poll
      else if st.remoteOut != [] then Arrive(1)
      else if !st.remoteEof then ArriveEof
      else PollEof
  }

  lemma NeverStuck(st: State, client: Bytes, remote: Bytes)
    requires Inv(st, client, remote) && Open(st)
    ensures Enabled(st, NextStep(st)) && !Fails(NextStep(st))
  {
  }

  /** This thread can take no step but to fail. */
  ghost predicate Idle(st: State, thread: Thread) {
    forall step :: Enabled(st, step) && ThreadOf(step) == thread ==> Fails(step)
  }

  /** The threads are never idle all at once before the channel is closed. */
  lemma SomeoneMoves(st: State, client: Bytes, remote: Bytes)
    requires Inv(st, client, remote) && Open(st)
    ensures exists thread :: thread in THREADS && !Idle(st, thread)
  {
    hide Inv, Enabled, NextStep, Fails;
    NeverStuck(st, client, remote);
    assert ThreadOf(NextStep(st)) in THREADS && !Idle(st, ThreadOf(NextStep(st)));
  }

  predicate Fails(step: Step) { step.ReaderFails? || step.WriterFails? }

  lemma {:induction false} NoFaultNoFailure(st: State, steps: seq<Step>)
    requires Runs(st, steps) && forall i :: 0 <= i < |steps| ==> !Fails(steps[i])
    requires !st.reader.ReaderFailed? && !st.writer.WriterFailed?
    ensures !End(st, steps).reader.ReaderFailed? && !End(st, steps).writer.WriterFailed?
    decreases |steps|
  {
    if steps != [] {
      NoFaultNoFailure(Apply(st, steps[0]), steps[1..]);
    }
  }

  lemma ClosedWithoutFailure(st: State, client: Bytes, remote: Bytes)
    requires Inv(st, client, remote) && !Open(st) && !st.reader.ReaderFailed? && !st.writer.WriterFailed?
    ensures st.owner == Closed(true) && st.eofSent && st.toRemote == client && st.toClient == remote
  {
    InvMeans(st, client, remote);
  }

  /** Every run without a failure that cannot go on has delivered both directions completely
      and closed the channel normally.  With the bound on runs: forwarding always gets there. */
  lemma MaximalRunsDeliver(client: Bytes, remote: Bytes, steps: seq<Step>)
    requires Runs(Start(client, remote), steps)
    requires forall i :: 0 <= i < |steps| ==> !Fails(steps[i])
    requires forall step :: Enabled(End(Start(client, remote), steps), step) ==> Fails(step)
    ensures var st := End(Start(client, remote), steps);
            st.owner == Closed(true) && st.eofSent && st.toRemote == client && st.toClient == remote
  {
    hide Inv, Enabled, NextStep, Runs, End;
    var st := End(Start(client, remote), steps);
    StartKeepsInv(client, remote, steps);
    NoFaultNoFailure(Start(client, remote), steps);
    if !Open(st) {
      ClosedWithoutFailure(st, client, remote);
    } else {
      NeverStuck(st, client, remote);
      assert false;
    }
  }
}
