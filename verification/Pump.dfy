/** The forwarder's threads as they are written, each turn doing the next statement of one of
    them on shared fields updated in place.  Every turn is a step of Forwarding, so what is
    proved there over every interleaving holds of this code under every schedule. */
module Pump {
  import opened Base
  import opened Forwarding

  /** Who goes next, how much of its data it moves, and whether its call raises. */
  datatype Slot = Slot(thread: Thread, amount: nat, raises: bool)

  class Forwarder {
    var clientIn: Bytes
    var readerBuf: Bytes
    var toRemote: Bytes
    var eofSent: bool
    var remoteOut: Bytes
    var arrived: Bytes
    var remoteEof: bool
    var writerBuf: Bytes
    var toClient: Bytes
    var reader: Reader
    var writer: Writer
    var owner: Owner

    constructor (client: Bytes, remote: Bytes)
      ensures Now() == Start(client, remote)
    {
      clientIn, readerBuf, toRemote, eofSent := client, [], [], false;
      remoteOut, arrived, remoteEof, writerBuf, toClient := remote, [], false, [], [];
      reader, writer, owner := Reading, Polling, JoiningReader;
    }

    function Now(): State
      reads this
    {
      State(clientIn, readerBuf, toRemote, eofSent, remoteOut, arrived, remoteEof, writerBuf, toClient,
            reader, writer, owner)
    }

    /** A thread in the middle of a piece of data has some. */
    predicate Midway()
      reads this
    {
      && (reader.Writing? ==> readerBuf != [])
      && (writer.Delivering? ==> writerBuf != [])
      && (writer.Receiving? ==> 1 <= writer.size <= |arrived|)
    }

    /** `loop { channel.write(socket.readpartial(bufsiz)) }`, left by EOFError, `send_eof`. */
    method ReaderTurn(amount: nat, raises: bool) returns (step: Option<Step>)
      requires Midway()
      modifies this`clientIn, this`readerBuf, this`toRemote, this`eofSent, this`reader
      ensures step == None ==> Now() == old(Now())
      ensures step != None ==> Enabled(old(Now()), step.value) && Now() == Apply(old(Now()), step.value)
      ensures step == None ==> reader.ReaderDone? || reader.ReaderFailed?
      ensures step != None ==> ThreadOf(step.value) == ReaderThread
      ensures step != None ==> (step == Some(ReaderFails) <==> raises || (owner.Closed? && old(reader) != Reading))
    {
      if reader == ReaderDone || reader == ReaderFailed {
        return None;
      }
      if raises || (owner.Closed? && reader != Reading) {
        reader := ReaderFailed;
        return Some(ReaderFails);
      }
      var moved := ReaderMoves(amount);
      step := Some(moved);
    }

    method ReaderMoves(amount: nat) returns (step: Step)
      requires Midway() && reader != ReaderDone && reader != ReaderFailed && (owner.Closed? ==> reader == Reading)
      modifies this`clientIn, this`readerBuf, this`toRemote, this`eofSent, this`reader
      ensures Enabled(old(Now()), step) && Now() == Apply(old(Now()), step)
      ensures ThreadOf(step) == ReaderThread && step != ReaderFails
    {
      match reader
      case Reading =>
        if clientIn == [] {
          reader := SendingEof;
          return SocketEof;
        }
        var k := AtLeastOne(amount, Min(BUFSIZ, |clientIn|));
        readerBuf, clientIn, reader := clientIn[..k], clientIn[k..], Writing;
        step := ReadSocket(k);
      case Writing =>
        var k := AtLeastOne(amount, |readerBuf|);
        toRemote := toRemote + readerBuf[..k];
        reader := if k == |readerBuf| then Reading else Writing;
        readerBuf := readerBuf[k..];
        step := WriteChannel(k);
      case SendingEof =>
        eofSent, reader := true, ReaderDone;
        step := SendEof;
    }

    /** `loop { size = channel.poll; break if nil; socket.write(channel.read(size)) }`.  A turn
        with nothing to read yet, and no EOF, only waits. */
    method WriterTurn(amount: nat, raises: bool) returns (step: Option<Step>)
      requires Midway()
      modifies this`arrived, this`writerBuf, this`toClient, this`writer
      ensures step == None ==> Now() == old(Now())
      ensures step != None ==> Enabled(old(Now()), step.value) && Now() == Apply(old(Now()), step.value)
      ensures step == None ==> writer.WriterDone? || writer.WriterFailed?
                               || (writer.Polling? && arrived == [] && !remoteEof && !raises)
      ensures step != None ==> ThreadOf(step.value) == WriterThread
      ensures step != None ==> (step == Some(WriterFails) <==> raises || (owner.Closed? && old(writer) != Delivering))
    {
      if writer == WriterDone || writer == WriterFailed {
        return None;
      }
      if raises || (owner.Closed? && writer != Delivering) {
        writer := WriterFailed;
        return Some(WriterFails);
      }
      if writer == Polling && arrived == [] && !remoteEof {
        return None;
      }
      var moved := WriterMoves(amount);
      step := Some(moved);
    }

    method WriterMoves(amount: nat) returns (step: Step)
      requires Midway() && writer != WriterDone && writer != WriterFailed && (owner.Closed? ==> writer == Delivering)
      requires writer == Polling ==> arrived != [] || remoteEof
      modifies this`arrived, this`writerBuf, this`toClient, this`writer
      ensures Enabled(old(Now()), step) && Now() == Apply(old(Now()), step)
      ensures ThreadOf(step) == WriterThread && step != WriterFails
    {
      match writer
      case Polling =>
        if arrived != [] {
          writer := Receiving(|arrived|);
          return Poll;
        }
        writer := WriterDone;
        step := PollEof;
      case Receiving(size) =>
        var k := AtLeastOne(amount, Min(size, |arrived|));
        writerBuf, arrived, writer := arrived[..k], arrived[k..], Delivering;
        step := Receive(k);
      case Delivering =>
        var k := AtLeastOne(amount, |writerBuf|);
        toClient := toClient + writerBuf[..k];
        writer := if k == |writerBuf| then Polling else Delivering;
        writerBuf := writerBuf[k..];
        step := WriteSocket(k);
    }

    /** `reader.join`, `writer.join`, and the close that `open_forward` ensures. */
    method OwnerTurn() returns (step: Option<Step>)
      modifies this`owner
      ensures step == None ==> Now() == old(Now()) && !Enabled(Now(), Join) && !Enabled(Now(), Close)
      ensures step != None ==> Enabled(old(Now()), step.value) && Now() == Apply(old(Now()), step.value)
      ensures step != None ==> ThreadOf(step.value) == OwnerThread && !Fails(step.value)
    {
      step := None;
      match owner
      case JoiningReader =>
        if reader == ReaderDone {
          owner, step := JoiningWriter, Some(Join);
        } else if reader == ReaderFailed {
          owner, step := Leaving(false), Some(Join);
        }
      case JoiningWriter =>
        if writer == WriterDone {
          owner, step := Leaving(true), Some(Join);
        } else if writer == WriterFailed {
          owner, step := Leaving(false), Some(Join);
        }
      case Leaving(normal) =>
        owner, step := Closed(normal), Some(Close);
      case Closed(_) =>
    }

    /** The remote side's bytes come in, then its EOF. */
    method PeerTurn(amount: nat) returns (step: Option<Step>)
      modifies this`arrived, this`remoteOut, this`remoteEof
      ensures step == None ==> Now() == old(Now()) && (owner.Closed? || remoteEof)
      ensures step != None ==> Enabled(old(Now()), step.value) && Now() == Apply(old(Now()), step.value)
      ensures step != None ==> ThreadOf(step.value) == RemotePeer && !Fails(step.value)
    {
      if owner.Closed? || remoteEof {
        return None;
      }
      if remoteOut == [] {
        remoteEof := true;
        return Some(ArriveEof);
      }
      var k := AtLeastOne(amount, |remoteOut|);
      arrived, remoteOut := arrived + remoteOut[..k], remoteOut[k..];
      step := Some(Arrive(k));
    }

    /** One slot of a schedule: that very thread takes a step, unless it can take none; and it
        fails when its call raises, or its channel is gone. */
    method Turn(slot: Slot) returns (step: Option<Step>)
      requires Midway() && (remoteEof ==> remoteOut == [])
      modifies this
      ensures step == None ==> Now() == old(Now())
      ensures step != None ==> Enabled(old(Now()), step.value) && Now() == Apply(old(Now()), step.value)
      ensures step != None ==> ThreadOf(step.value) == slot.thread
      ensures step == None && Open(Now()) ==> Idle(Now(), slot.thread)
      ensures step != None && Fails(step.value) ==> slot.raises || !Open(old(Now()))
    {
      hide Enabled, Apply, Idle;
      match slot.thread {
        case ReaderThread => step := ReaderTurn(slot.amount, slot.raises);
        case WriterThread => step := WriterTurn(slot.amount, slot.raises);
        case OwnerThread => step := OwnerTurn();
        case RemotePeer => step := PeerTurn(slot.amount);
      }
      IdleWhen(Now());
    }
  }

  /** When a thread can take no step of its own. */
  lemma IdleWhen(st: State)
    ensures st.reader.ReaderDone? || st.reader.ReaderFailed? ==> Idle(st, ReaderThread)
    ensures st.writer.WriterDone? || st.writer.WriterFailed? ==> Idle(st, WriterThread)
    ensures st.writer.Polling? && st.arrived == [] && !st.remoteEof ==> Idle(st, WriterThread)
    ensures !Enabled(st, Join) && !Enabled(st, Close) ==> Idle(st, OwnerThread)
    ensures st.remoteEof && st.remoteOut == [] ==> Idle(st, RemotePeer)
  {
  }

  /** Between one and `most` bytes, as the schedule likes. */
  function AtLeastOne(amount: nat, most: nat): (k: nat)
    requires most > 0
    ensures 1 <= k <= most
  {
    if amount == 0 then 1 else Min(amount, most)
  }

  // ---------------------------------------------------------------- rounds

  /** How many full rounds of all four threads a schedule has gone through, and who has had a
      slot in the round under way. */
  datatype Tally = Tally(rounds: nat, seen: set<Thread>)

  function Rounds(schedule: seq<Slot>): (tally: Tally)
    ensures tally.seen != THREADS
  {
    if schedule == [] then Tally(0, {})
    else AddSlot(Rounds(schedule[..|schedule| - 1]), schedule[|schedule| - 1].thread)
  }

  function AddSlot(tally: Tally, thread: Thread): (tally': Tally)
    ensures tally'.seen != THREADS
  {
    var seen := tally.seen + {thread};
    if seen == THREADS then Tally(tally.rounds + 1, {}) else Tally(tally.rounds, seen)
  }

  function ThreadsIn(slots: seq<Slot>): set<Thread> {
    set i | 0 <= i < |slots| :: slots[i].thread
  }

  lemma {:induction false} RoundsGrow(before: seq<Slot>, more: seq<Slot>)
    ensures var tally, tally' := Rounds(before), Rounds(before + more);
            || tally'.rounds > tally.rounds
            || (tally'.rounds == tally.rounds && tally.seen + ThreadsIn(more) <= tally'.seen)
    decreases |more|
  {
    hide AddSlot;
    if more == [] {
      assert before + more == before;
    } else {
      var init, last := more[..|more| - 1], more[|more| - 1];
      RoundsGrow(before, init);
      assert (before + more)[..|before + more| - 1] == before + init;
      assert Rounds(before + more) == AddSlot(Rounds(before + init), last.thread);
      AddSlotGrows(Rounds(before + init), last.thread);
      assert forall t :: t in ThreadsIn(more) ==> t in ThreadsIn(init) || t == last.thread;
    }
  }

  lemma AddSlotGrows(tally: Tally, thread: Thread)
    ensures var tally' := AddSlot(tally, thread);
            tally'.rounds > tally.rounds || (tally'.rounds == tally.rounds && tally.seen + {thread} <= tally'.seen)
  {
  }

  /** All parts of the schedule, one after the other. */
  function Joined(parts: seq<seq<Slot>>): seq<Slot> {
    if parts == [] then [] else Joined(parts[..|parts| - 1]) + parts[|parts| - 1]
  }

  /** A schedule made of k parts, each with a slot for every thread, counts k rounds or more. */
  lemma {:induction false} EveryPartIsARound(parts: seq<seq<Slot>>)
    requires forall i :: 0 <= i < |parts| ==> ThreadsIn(parts[i]) == THREADS
    ensures Rounds(Joined(parts)).rounds >= |parts|
  {
    hide Rounds, ThreadsIn;
    if parts != [] {
      var init, last := parts[..|parts| - 1], parts[|parts| - 1];
      EveryPartIsARound(init);
      RoundsGrow(Joined(init), last);
      forall thread: Thread ensures thread in THREADS {
        assert thread == ReaderThread || thread == WriterThread || thread == OwnerThread || thread == RemotePeer;
      }
    }
  }

  /** As long as the channel is open every full round has used up work; in a round that has
      not, everyone who had a slot is idle. */
  ghost predicate Moving(st: State, tally: Tally, work: nat) {
    Open(st) ==>
      || Work(st) + tally.rounds < work
      || (Work(st) + tally.rounds <= work && forall thread :: thread in tally.seen ==> Idle(st, thread))
  }

  lemma MovesOn(st: State, step: Step, thread: Thread, tally: Tally, work: nat)
    requires Enabled(st, step) && Work(Apply(st, step)) < Work(st)
    requires Open(st) && Moving(st, tally, work)
    ensures Moving(Apply(st, step), AddSlot(tally, thread), work)
  {
    hide Enabled, Apply, Work, Idle;
  }

  lemma WaitsOn(st: State, thread: Thread, tally: Tally, work: nat, client: Bytes, remote: Bytes)
    requires Inv(st, client, remote) && Moving(st, tally, work)
    requires Open(st) ==> Idle(st, thread)
    ensures Moving(st, AddSlot(tally, thread), work)
  {
    hide Inv, Work, Idle;
    if Open(st) {
      SomeoneMoves(st, client, remote);
    }
  }

  lemma ClosedStaysClosed(st: State, step: Step, tally: Tally, work: nat)
    requires Enabled(st, step) && !Open(st)
    ensures Moving(Apply(st, step), tally, work)
  {
  }

  /** Neither pump has failed. */
  predicate Unfailed(st: State) { !st.reader.ReaderFailed? && !st.writer.WriterFailed? }

  lemma UnfailedStays(st: State, step: Step, raises: bool)
    requires Ordered(st) && Unfailed(st) && Enabled(st, step) && !raises
    requires Fails(step) ==> raises || !Open(st)
    ensures Unfailed(Apply(st, step))
  {
  }

  /** One slot's step, seen by all that the loop keeps. */
  lemma SlotTaken(st: State, step: Step, slot: Slot, tally: Tally, work: nat, client: Bytes, remote: Bytes)
    requires Inv(st, client, remote) && Enabled(st, step) && Moving(st, tally, work)
    requires Fails(step) ==> slot.raises || !Open(st)
    ensures Inv(Apply(st, step), client, remote) && Moving(Apply(st, step), AddSlot(tally, slot.thread), work)
    ensures Unfailed(st) && !slot.raises ==> Unfailed(Apply(st, step))
  {
    hide Enabled, Apply, Work, Idle, Upstream, Downstream, Moving, Ordered, Unfailed, Fails;
    StepKeepsInv(st, step, client, remote);
    if Open(st) {
      MovesOn(st, step, slot.thread, tally, work);
    } else {
      ClosedStaysClosed(st, step, AddSlot(tally, slot.thread), work);
    }
    if Unfailed(st) && !slot.raises {
      UnfailedStays(st, step, slot.raises);
    }
  }

  /** Rounds enough close the channel. */
  lemma RoundsClose(st: State, tally: Tally, work: nat)
    requires Moving(st, tally, work) && tally.rounds >= work
    ensures st.owner.Closed?
  {
  }

  lemma ClosedWell(st: State, client: Bytes, remote: Bytes)
    requires Inv(st, client, remote) && Unfailed(st) && st.owner.Closed?
    ensures st.owner == Closed(true)
  {
  }

  /** Forwarding under any schedule: bytes cross in order and unchanged; a normal close
      happens only after both pumps have ended with everything across.  A schedule with rounds
      enough closes the channel, and normally, with everything across, unless a call raised. */
  method Forward(client: Bytes, remote: Bytes, schedule: seq<Slot>)
    returns (toRemote: Bytes, toClient: Bytes, eofSent: bool, owner: Owner)
    ensures toRemote <= client && toClient <= remote
    ensures eofSent ==> toRemote == client
    ensures owner == Closed(true) ==> eofSent && toRemote == client && toClient == remote
    ensures Rounds(schedule).rounds >= 3 * |client| + 5 * |remote| + 8 ==> owner.Closed?
    ensures Rounds(schedule).rounds >= 3 * |client| + 5 * |remote| + 8 && (forall i :: 0 <= i < |schedule| ==> !schedule[i].raises)
            ==> owner == Closed(true) && toRemote == client && toClient == remote
  {
    hide Upstream, Downstream, Enabled, Apply, Idle, Ordered, Unfailed, AddSlot, Moving;
    var f := new Forwarder(client, remote);
    var i := 0;
    ghost var work := 3 * |client| + 5 * |remote| + 8;
    StartsMoving(client, remote);
    while i < |schedule|
      invariant 0 <= i <= |schedule|
      invariant Inv(f.Now(), client, remote)
      invariant Moving(f.Now(), Rounds(schedule[..i]), work)
      invariant (forall j :: 0 <= j < i ==> !schedule[j].raises) ==> Unfailed(f.Now())
    {
      ghost var st, tally := f.Now(), Rounds(schedule[..i]);
      InvIsMidway(st, client, remote);
      var step := f.Turn(schedule[i]);
      if step != None {
        SlotTaken(st, step.value, schedule[i], tally, work, client, remote);
      } else {
        WaitsOn(st, schedule[i].thread, tally, work, client, remote);
      }
      assert schedule[..i + 1][..i] == schedule[..i];
      i := i + 1;
    }
    assert schedule[..i] == schedule;
    InvMeans(f.Now(), client, remote);
    if Rounds(schedule).rounds >= work {
      RoundsClose(f.Now(), Rounds(schedule), work);
      if forall j :: 0 <= j < |schedule| ==> !schedule[j].raises {
        ClosedWell(f.Now(), client, remote);
      }
    }
    toRemote, toClient, eofSent, owner := f.toRemote, f.toClient, f.eofSent, f.owner;
  }

  lemma StartsMoving(client: Bytes, remote: Bytes)
    ensures Moving(Start(client, remote), Tally(0, {}), 3 * |client| + 5 * |remote| + 8)
    ensures Inv(Start(client, remote), client, remote) && Unfailed(Start(client, remote))
  {
  }

  lemma InvIsMidway(st: State, client: Bytes, remote: Bytes)
    requires Inv(st, client, remote)
    ensures (st.reader.Writing? ==> st.readerBuf != []) && (st.writer.Delivering? ==> st.writerBuf != [])
    ensures st.writer.Receiving? ==> 1 <= st.writer.size <= |st.arrived|
    ensures st.remoteEof ==> st.remoteOut == []
  {
  }
}
