/** The remote command engine: one session channel, two output streams, and a peer that may
    deliver its packets at any call. */
module Exec {
  import opened Base
  import opened Journal
  import opened Environment

  /** A data packet for standard output or, as extended data, for standard error. */
  datatype Packet = Packet(stderr: bool, data: Bytes)

  /** What the packets still carry for one stream. */
  function InFlight(packets: seq<Packet>, stderr: bool): Bytes {
    if packets == [] then []
    else (if packets[0].stderr == stderr then packets[0].data else []) + InFlight(packets[1..], stderr)
  }

  function Weight(packets: seq<Packet>): nat {
    if packets == [] then 0 else 1 + |packets[0].data| + Weight(packets[1..])
  }

  lemma AppendAssoc(a: Bytes, b: Bytes, c: Bytes)
    ensures (a + b) + c == a + (b + c)
  {
  }

  /** The native channel and the peer behind it.  The peer sends `packets` in order and then,
      if `sendsEof`, an EOF after which nothing follows (RFC 4254, section 5.3). */
  class Channel {
    var out: Bytes
    var err: Bytes
    var packets: seq<Packet>
    var eof: bool
    const sendsEof: bool

    constructor (packets: seq<Packet>, sendsEof: bool)
      ensures Valid() && !eof && this.sendsEof == sendsEof
      ensures Undelivered(false) == InFlight(packets, false) && Undelivered(true) == InFlight(packets, true)
      ensures Load() == Weight(packets) + (if sendsEof then 1 else 0)
    {
      out, err, eof := [], [], false;
      this.packets := packets;
      this.sendsEof := sendsEof;
      new;
      assert [] + InFlight(packets, false) == InFlight(packets, false);
      assert [] + InFlight(packets, true) == InFlight(packets, true);
    }

    ghost predicate Valid()
      reads this
    {
      eof ==> sendsEof && packets == []
    }

    function Buffer(stderr: bool): Bytes
      reads this
    {
      if stderr then err else out
    }

    /** Buffered, then in flight: what the backend has not been given yet. */
    function Undelivered(stderr: bool): Bytes
      reads this
    {
      Buffer(stderr) + InFlight(packets, stderr)
    }

    /** Nothing is lost, added or reordered on either stream. */
    twostate predicate SameStreams()
      reads this
    {
      Undelivered(false) == old(Undelivered(false)) && Undelivered(true) == old(Undelivered(true))
    }

    /** Undelivered peer events plus buffered bytes. */
    ghost function Load(): nat
      reads this
    {
      |out| + |err| + Weight(packets) + (if sendsEof && !eof then 1 else 0)
    }

    predicate AtEof()
      reads this
    {
      eof && out == [] && err == []
    }

    predicate Available()
      reads this
    {
      eof || out != [] || err != []
    }

    method DeliverOne()
      requires Valid() && (packets != [] || (sendsEof && !eof))
      modifies this
      ensures Valid() && SameStreams() && Load() < old(Load())
      ensures old(out) <= out && old(err) <= err && (old(eof) ==> eof)
    {
      if packets == [] {
        eof := true;
      } else {
        var p := packets[0];
        packets := packets[1..];
        if p.stderr {
          AppendAssoc(err, p.data, InFlight(packets, true));
          err := err + p.data;
        } else {
          AppendAssoc(out, p.data, InFlight(packets, false));
          out := out + p.data;
        }
        assert [] + InFlight(packets, !p.stderr) == InFlight(packets, !p.stderr);
      }
    }

    /** Up to k events come in. */
    method Deliver(k: nat)
      requires Valid()
      modifies this
      ensures Valid() && SameStreams() && Load() <= old(Load())
      ensures old(out) <= out && old(err) <= err && (old(eof) ==> eof)
    {
      var i := 0;
      while i < k && (packets != [] || (sendsEof && !eof))
        invariant Valid() && SameStreams() && Load() <= old(Load())
        invariant old(out) <= out && old(err) <= err && (old(eof) ==> eof)
      {
        DeliverOne();
        i := i + 1;
      }
    }

    /** `eof?`: the remote EOF has arrived and both buffers are empty.  It never raises. */
    method Eof(w: World) returns (b: bool)
      requires Valid()
      modifies this, w`turns
      ensures Valid() && SameStreams() && Load() <= old(Load())
      ensures w.turns == After(old(w.turns))
      ensures b == AtEof()
    {
      var ok, t := w.Next();
      if ok {
        Deliver(t.packets);
      }
      b := AtEof();
    }

    /** `Channel.select([channel], [], [], nil)`: returns only when data or EOF is present.
        When neither can ever come, the call is left by an exception only. */
    method Select(w: World) returns (ok: bool)
      requires Valid()
      modifies this, w`turns
      ensures Valid() && SameStreams() && Load() <= old(Load())
      ensures w.turns == After(old(w.turns))
      ensures ok ==> Available() && (old(Available()) || Load() < old(Load()))
      ensures !Failed(old(w.turns)) && sendsEof ==> ok
    {
      var t;
      ok, t := w.Next();
      if !ok {
        return;
      }
      while !Available() && (packets != [] || sendsEof)
        invariant Valid() && SameStreams() && Load() <= old(Load())
        invariant old(Available()) || (Available() ==> Load() < old(Load()))
        invariant old(Available()) ==> Available()
        invariant w.turns == After(old(w.turns))
        decreases Load()
      {
        DeliverOne();
      }
      if !Available() {
        return false;
      }
      Deliver(t.packets);
    }

    /** Removes the first k bytes of one buffer. */
    method Take(stderr: bool, k: nat) returns (got: Bytes)
      requires Valid() && k <= |Buffer(stderr)|
      modifies this
      ensures Valid() && |got| == k && eof == old(eof)
      ensures got + Undelivered(stderr) == old(Undelivered(stderr))
      ensures Undelivered(!stderr) == old(Undelivered(!stderr)) && Buffer(!stderr) == old(Buffer(!stderr))
      ensures Load() + k == old(Load())
    {
      var buffer := Buffer(stderr);
      got := buffer[..k];
      AppendAssoc(got, buffer[k..], InFlight(packets, stderr));
      assert got + buffer[k..] == buffer;
      if stderr {
        err := err[k..];
      } else {
        out := out[k..];
      }
    }

    /** `read_nonblocking(count, stderr)`: nil at EOF, otherwise the first bytes of that
        stream's buffer, at most count of them, and none only if it is empty. */
    method ReadNonblocking(w: World, count: nat, stderr: bool) returns (ok: bool, data: Option<Bytes>)
      requires Valid() && count > 0
      modifies this, w`turns
      ensures Valid() && ok == !Failed(old(w.turns)) && w.turns == After(old(w.turns))
      ensures Got(data) + Undelivered(stderr) == old(Undelivered(stderr))
      ensures Undelivered(!stderr) == old(Undelivered(!stderr)) && old(Buffer(!stderr)) <= Buffer(!stderr)
      ensures |Got(data)| <= count && Load() + |Got(data)| <= old(Load())
      ensures ok && old(Buffer(stderr)) != [] ==> Got(data) != []
      ensures ok && data.None? ==> eof && Buffer(stderr) == []
      ensures !ok ==> data == None
    {
      var t;
      ok, t := w.Next();
      data := None;
      if ok {
        Deliver(t.packets);
        if Buffer(stderr) != [] {
          var k := Min(if t.want == 0 then 1 else t.want, Min(count, |Buffer(stderr)|));
          var got := Take(stderr, k);
          data := Some(got);
        } else if !eof {
          data := Some([]);
        }
      }
    }
  }

  /** The bytes of a read; nil carries none. */
  function Got(data: Option<Bytes>): Bytes { if data.Some? then data.value else [] }

  /** The SSHKit command object: the chunks it was given and the status it was told. */
  class Command {
    var started: bool
    var onStdout: seq<Bytes>
    var onStderr: seq<Bytes>
    var exitStatus: Option<Option<int>>

    constructor ()
      ensures !started && onStdout == [] && onStderr == [] && exitStatus == None
    {
      started, onStdout, onStderr, exitStatus := false, [], [], None;
    }

    function Chunks(stderr: bool): seq<Bytes>
      reads this`onStdout, this`onStderr
    {
      if stderr then onStderr else onStdout
    }

    /** `on_stdout` or `on_stderr`, then the formatter; either may raise. */
    method OnData(w: World, stderr: bool, buf: Bytes) returns (ok: bool)
      modifies w`turns, this`onStdout, this`onStderr
      ensures Chunks(stderr) == old(Chunks(stderr)) + [buf] && Chunks(!stderr) == old(Chunks(!stderr))
      ensures Spent(old(w.turns), w.turns, 2, ok)
    {
      if stderr {
        onStderr := onStderr + [buf];
      } else {
        onStdout := onStdout + [buf];
      }
      ok := w.Try();
      if ok {
        ok := w.Try();
      }
    }
  }

  /** At most k turns were spent, and without a fault among them nothing raised. */
  ghost predicate Spent(before: seq<Turn>, now: seq<Turn>, k: nat, ok: bool) {
    NoFault(before) ==> NoFault(now) && |before| <= |now| + k && (|before| >= k ==> ok)
  }

  /** The command was told the reported code: nil stands for -1, any other code for itself. */
  predicate Told(status: Option<Option<int>>, code: int) {
    && (code == -1 ==> status == Some(None))
    && (code != -1 ==> status == Some(Some(code)))
  }

  /** Everything of one stream, from the first byte ever sent: handed over, buffered, in flight. */
  ghost function Whole(ch: Channel, cmd: Command, stderr: bool): Bytes
    reads ch, cmd`onStdout, cmd`onStderr
  {
    Flat(cmd.Chunks(stderr)) + ch.Undelivered(stderr)
  }

  lemma HandOver(chunks: seq<Bytes>, got: Bytes, rest: Bytes)
    ensures Flat(chunks + [got]) + rest == Flat(chunks) + (got + rest)
    ensures ChunkSizes(chunks) && 1 <= |got| <= BUFSIZ ==> ChunkSizes(chunks + [got])
  {
    FlatSnoc(chunks, got);
  }

  /** One read of one stream, handed to the command unless empty. */
  method Drain(w: World, ch: Channel, cmd: Command, stderr: bool) returns (ok: bool)
    requires ch.Valid() && ChunkSizes(cmd.Chunks(stderr))
    modifies w`turns, ch, cmd`onStdout, cmd`onStderr
    ensures ch.Valid() && ChunkSizes(cmd.Chunks(stderr)) && cmd.Chunks(!stderr) == old(cmd.Chunks(!stderr))
    ensures Whole(ch, cmd, stderr) == old(Whole(ch, cmd, stderr))
    ensures ch.Undelivered(!stderr) == old(ch.Undelivered(!stderr))
    ensures old(ch.Buffer(!stderr)) <= ch.Buffer(!stderr)
    ensures ch.Load() <= old(ch.Load())
    ensures ok && old(ch.Buffer(stderr)) != [] ==> ch.Load() < old(ch.Load())
    ensures Spent(old(w.turns), w.turns, 3, ok)
  {
    hide InFlight, Weight;
    ghost var chunks := cmd.Chunks(stderr);
    var buf;
    ok, buf := ch.ReadNonblocking(w, BUFSIZ, stderr);
    ghost var rest := ch.Undelivered(stderr);
    assert old(Whole(ch, cmd, stderr)) == Flat(chunks) + (Got(buf) + rest);
    if ok && Got(buf) != [] {
      HandOver(chunks, Got(buf), rest);
      ok := cmd.OnData(w, stderr, Got(buf));
      assert Whole(ch, cmd, stderr) == Flat(chunks + [Got(buf)]) + rest;
    } else {
      assert Got(buf) + rest == rest;
    }
  }

  /** The `until channel.eof?` loop.  Nothing of either stream is lost at any exit; at the
      normal one both streams were handed over completely.  Every pass after the select
      lowers the load, so the loop ends for every peer; and if the peer sends EOF, only a
      raising call can keep the loop from its normal exit. */
  method Pump(w: World, ch: Channel, cmd: Command) returns (ok: bool)
    requires ch.Valid() && ChunkSizes(cmd.onStdout) && ChunkSizes(cmd.onStderr)
    modifies w`turns, ch, cmd`onStdout, cmd`onStderr
    ensures ch.Valid() && ChunkSizes(cmd.onStdout) && ChunkSizes(cmd.onStderr)
    ensures Whole(ch, cmd, false) == old(Whole(ch, cmd, false))
    ensures Whole(ch, cmd, true) == old(Whole(ch, cmd, true))
    ensures ok ==> ch.sendsEof && ch.AtEof() && ch.Undelivered(false) == ch.Undelivered(true) == []
    ensures ch.sendsEof ==> Spent(old(w.turns), w.turns, 8 * old(ch.Load()) + 8, ok)
  {
    ghost var budget := 8 * ch.Load() + 8;
    var atEof := ch.Eof(w);
    while !atEof
      invariant ch.Valid() && ChunkSizes(cmd.onStdout) && ChunkSizes(cmd.onStderr)
      invariant Whole(ch, cmd, false) == old(Whole(ch, cmd, false))
      invariant Whole(ch, cmd, true) == old(Whole(ch, cmd, true))
      invariant atEof == ch.AtEof()
      invariant NoFault(old(w.turns)) ==> NoFault(w.turns) && |old(w.turns)| <= |w.turns| + budget - 8 * ch.Load() - 7
      decreases ch.Load()
    {
      ok := PumpOnce(w, ch, cmd);
      if !ok {
        return;
      }
      atEof := ch.Eof(w);
    }
    ok := true;
  }

  /** One pass of the loop, with data or EOF still to come. */
  method PumpOnce(w: World, ch: Channel, cmd: Command) returns (ok: bool)
    requires ch.Valid() && !ch.AtEof() && ChunkSizes(cmd.onStdout) && ChunkSizes(cmd.onStderr)
    modifies w`turns, ch, cmd`onStdout, cmd`onStderr
    ensures ch.Valid() && ChunkSizes(cmd.onStdout) && ChunkSizes(cmd.onStderr)
    ensures Whole(ch, cmd, false) == old(Whole(ch, cmd, false))
    ensures Whole(ch, cmd, true) == old(Whole(ch, cmd, true))
    ensures ch.Load() <= old(ch.Load()) && (ok ==> ch.Load() < old(ch.Load()))
    ensures ch.sendsEof ==> Spent(old(w.turns), w.turns, 7, ok)
    ensures NoFault(old(w.turns)) ==> NoFault(w.turns) && |old(w.turns)| <= |w.turns| + 7
  {
    ok := ch.Select(w);
    if ok {
      ok := Drain(w, ch, cmd, false);
    }
    if ok {
      ok := Drain(w, ch, cmd, true);
    }
  }
}
