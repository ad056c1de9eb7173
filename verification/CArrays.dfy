/** The loops over Ruby arrays in the C files: the NULL-terminated channel arrays of
    `Channel.select`, and the protocol list of `Session#protocol=`. */
module CArrays {
  import opened Base

  /** A native channel pointer; None is NULL, as in a Channel never initialized. */
  type Handle = Option<nat>

  /** An element of a Ruby array given to `select`: a Channel, or something else. */
  datatype Elem = ChannelObject(handle: Handle) | OtherObject

  /** An argument that should be a Ruby array. */
  datatype Arg<T> = RubyArray(elems: seq<T>) | NotAnArray

  predicate WellTyped(arg: Arg<Elem>) {
    arg.RubyArray? && forall i :: 0 <= i < |arg.elems| ==> arg.elems[i].ChannelObject?
  }

  function Handles(elems: seq<Elem>): (hs: seq<Handle>)
    requires forall i :: 0 <= i < |elems| ==> elems[i].ChannelObject?
  {
    seq(|elems|, i requires 0 <= i < |elems| => elems[i].handle)
  }

  /** What a C reader sees of an array: everything before the first NULL. */
  function Walk(a: seq<Handle>): seq<nat> {
    if a == [] || a[0].None? then [] else [a[0].value] + Walk(a[1..])
  }

  /** What the C reader sees of the array built from a list. */
  function Seen(elems: seq<Elem>): seq<nat>
    requires forall i :: 0 <= i < |elems| ==> elems[i].ChannelObject?
  {
    if elems == [] then [] else Walk(Handles(elems) + [None])
  }

  /** The walk of handles + [NULL] recovers them, in order, exactly if none of them is NULL;
      otherwise it stops short, at the first NULL. */
  lemma {:induction false} WalkRecoversIff(hs: seq<Handle>)
    ensures var seen := Walk(hs + [None]);
            && |seen| <= |hs|
            && (forall i :: 0 <= i < |seen| ==> hs[i] == Some(seen[i]))
            && (|seen| == |hs| <==> None !in hs)
            && (|seen| < |hs| ==> hs[|seen|].None?)
  {
    if hs == [] {
    } else {
      assert (hs + [None])[1..] == hs[1..] + [None];
      if hs[0].Some? {
        WalkRecoversIff(hs[1..]);
        assert forall h :: h in hs <==> h == hs[0] || h in hs[1..];
      }
    }
  }

  /** The C allocator: how many blocks are in use, and which were freed. */
  class Allocator {
    var live: int
    var freed: seq<array<Handle>>

    constructor ()
      ensures live == 0 && freed == []
    {
      live, freed := 0, [];
    }

    /** `ruby_xfree`; NULL is ignored. */
    method Free(block: array?<Handle>)
      modifies this
      ensures freed == old(freed) + BlockList(block) && live == old(live) - |BlockList(block)|
    {
      if block != null {
        live, freed := live - 1, freed + [block];
      }
    }
  }

  function BlockList(block: array?<Handle>): seq<array<Handle>> {
    if block == null then [] else [block]
  }

  /** `set_select_channels`: type errors raise before anything is allocated. */
  method SetSelectChannels(heap: Allocator, channels: Arg<Elem>) returns (ok: bool, block: array?<Handle>)
    modifies heap`live
    ensures ok <==> WellTyped(channels)
    ensures block == null <==> !ok || channels.elems == []
    ensures heap.live == old(heap.live) + |BlockList(block)|
    ensures block != null ==> fresh(block) && block.Length == |channels.elems| + 1
    ensures block != null ==> block[..] == Handles(channels.elems) + [None]
  {
    ok, block := false, null;
    if channels.NotAnArray? {
      return;
    }
    var rb, len := channels.elems, |channels.elems|;
    if len == 0 {
      return true, null;
    }
    var i := 0;
    while i < len
      invariant 0 <= i <= len
      invariant forall j :: 0 <= j < i ==> rb[j].ChannelObject?
    {
      if rb[i].OtherObject? {
        return;
      }
      i := i + 1;
    }
    var a := new Handle[len + 1](_ => None);
    i := 0;
    while i < len
      invariant 0 <= i <= len
      invariant a[..i] == Handles(rb)[..i]
      modifies a
    {
      a[i] := rb[i].handle;
      i := i + 1;
    }
    a[len] := None;
    heap.live := heap.live + 1;
    ok, block := true, a;
  }

  function SeenIn(block: array?<Handle>): seq<nat>
    reads block
  {
    if block == null then [] else Walk(block[..])
  }

  /** `Channel.select`.  A call that returns has freed each of the arrays it built exactly
      once, and leaves as many blocks in use as there were; one that raises on a list of the
      wrong type has freed nothing and leaves the arrays built from the lists before it. */
  method Select(heap: Allocator, reads_: Arg<Elem>, writes: Arg<Elem>, excepts: Arg<Elem>)
    returns (ok: bool, seenReads: seq<nat>, seenWrites: seq<nat>, seenExcepts: seq<nat>,
             ghost r: array?<Handle>, ghost w: array?<Handle>, ghost e: array?<Handle>)
    modifies heap
    ensures ok <==> WellTyped(reads_) && WellTyped(writes) && WellTyped(excepts)
    ensures ok ==> seenReads == Seen(reads_.elems) && seenWrites == Seen(writes.elems)
    ensures ok ==> seenExcepts == Seen(excepts.elems)
    ensures ok ==> heap.freed == old(heap.freed) + BlockList(r) + BlockList(w) + BlockList(e)
    ensures ok ==> |BlockList(r)| == Blocks(reads_) && |BlockList(w)| == Blocks(writes) && |BlockList(e)| == Blocks(excepts)
    ensures (r != null ==> r != w && r != e) && (w != null ==> w != e)
    ensures heap.live == old(heap.live) + (if ok then 0 else Leaked(reads_, writes))
    ensures !ok ==> heap.freed == old(heap.freed)
  {
    seenReads, seenWrites, seenExcepts := [], [], [];
    r, w, e := null, null, null;
    var readChannels, writeChannels, exceptChannels;
    ok, readChannels := SetSelectChannels(heap, reads_);
    if !ok {
      return;
    }
    ok, writeChannels := SetSelectChannels(heap, writes);
    if !ok {
      return;
    }
    ok, exceptChannels := SetSelectChannels(heap, excepts);
    if !ok {
      return;
    }
    r, w, e := readChannels, writeChannels, exceptChannels;
    seenReads, seenWrites, seenExcepts := SeenIn(readChannels), SeenIn(writeChannels), SeenIn(exceptChannels);
    heap.Free(readChannels);
    heap.Free(writeChannels);
    heap.Free(exceptChannels);
  }

  function Blocks(channels: Arg<Elem>): nat {
    if channels.RubyArray? && channels.elems != [] then 1 else 0
  }

  /** Blocks left behind by a raising `select`: one for each non-empty list before the bad one. */
  function Leaked(reads_: Arg<Elem>, writes: Arg<Elem>): nat {
    if !WellTyped(reads_) then 0
    else if !WellTyped(writes) then Blocks(reads_)
    else Blocks(reads_) + Blocks(writes)
  }

  // --------------------------------------------------------------- protocol

  datatype Number = Fixnum(n: int) | NotAFixnum

  predicate Protocols(arg: Arg<Number>) {
    arg.RubyArray? && forall i :: 0 <= i < |arg.elems| ==> arg.elems[i] == Fixnum(1) || arg.elems[i] == Fixnum(2)
  }

  /** The two options on the native session. */
  class ProtocolOptions {
    var ssh1: Option<bool>
    var ssh2: Option<bool>

    constructor ()
      ensures ssh1 == ssh2 == None
    {
      ssh1, ssh2 := None, None;
    }

    /** `protocol=`; fails1 and fails2 say that libssh refuses an option. */
    method SetProtocol(protocols: Arg<Number>, fails1: bool, fails2: bool) returns (ok: bool)
      modifies this
      ensures ok <==> Protocols(protocols) && !fails1 && !fails2
      ensures !Protocols(protocols) || fails1 ==> ssh1 == old(ssh1)
      ensures !ok ==> ssh2 == old(ssh2)
      ensures Protocols(protocols) && !fails1 ==> ssh1 == Some(Fixnum(1) in protocols.elems)
      ensures ok ==> ssh2 == Some(Fixnum(2) in protocols.elems)
    {
      if protocols.NotAnArray? {
        return false;
      }
      var one, two, i := false, false, 0;
      while i < |protocols.elems|
        invariant 0 <= i <= |protocols.elems|
        invariant forall j :: 0 <= j < i ==> protocols.elems[j] == Fixnum(1) || protocols.elems[j] == Fixnum(2)
        invariant one <==> Fixnum(1) in protocols.elems[..i]
        invariant two <==> Fixnum(2) in protocols.elems[..i]
      {
        match protocols.elems[i] {
          case NotAFixnum => return false;
          case Fixnum(n) =>
            if n == 1 {
              one := true;
            } else if n == 2 {
              two := true;
            } else {
              return false;
            }
        }
        i := i + 1;
      }
      assert protocols.elems[..i] == protocols.elems;
      if fails1 {
        return false;
      }
      ssh1 := Some(one);
      if fails2 {
        return false;
      }
      ssh2 := Some(two);
      ok := true;
    }
  }
}
