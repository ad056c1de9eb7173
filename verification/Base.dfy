/** Bytes, options and the environment's answers, shared by every other module. */
module Base {

  datatype Option<+T> = None | Some(value: T)

  newtype byte = b: int | 0 <= b < 256

  type Bytes = seq<byte>

  /** Chunk size of the SSHKit backend. */
  const BUFSIZ: nat := 16384

  function Min(a: nat, b: nat): nat { if a <= b then a else b }

  /** The chunks, glued together in order. */
  function Flat(chunks: seq<Bytes>): Bytes {
    if chunks == [] then [] else Flat(chunks[..|chunks| - 1]) + chunks[|chunks| - 1]
  }

  lemma FlatSnoc(chunks: seq<Bytes>, c: Bytes)
    ensures Flat(chunks + [c]) == Flat(chunks) + c
  {
    assert (chunks + [c])[..|chunks|] == chunks;
  }

  lemma {:induction false} FlatCons(c: Bytes, chunks: seq<Bytes>)
    ensures Flat([c] + chunks) == c + Flat(chunks)
  {
    if chunks == [] {
      FlatSnoc([], c);
    } else {
      var init, last := chunks[..|chunks| - 1], chunks[|chunks| - 1];
      assert [c] + chunks == ([c] + init) + [last];
      FlatSnoc([c] + init, last);
      FlatCons(c, init);
    }
  }

  ghost predicate ChunkSizes(chunks: seq<Bytes>) {
    forall i :: 0 <= i < |chunks| ==> 1 <= |chunks[i]| <= BUFSIZ
  }

  /** What the environment decides about one call: it fails, or it succeeds after
      `packets` peer packets have come in, with `want` the length it would like to
      hand over and `code` the status it reports.  Every claim is for all lists of turns. */
  datatype Turn = Fault | Go(packets: nat, want: nat, code: int)

  /** Does the next call raise?  A run that is cut short raises at its next call, so
      that the finite prefixes of endless runs are runs too. */
  predicate Failed(turns: seq<Turn>) { turns == [] || turns[0].Fault? }

  function After(turns: seq<Turn>): seq<Turn> { if turns == [] then [] else turns[1..] }

  predicate NoFault(turns: seq<Turn>) { forall i :: 0 <= i < |turns| ==> turns[i].Go? }

  /** The turns left after k calls that did not raise; None if one of them did. */
  function Calls(k: nat, turns: seq<Turn>): Option<seq<Turn>> {
    if k <= |turns| && NoFault(turns[..k]) then Some(turns[k..]) else None
  }

  lemma CallsFirst(k: nat, turns: seq<Turn>)
    requires k > 0
    ensures Calls(k, turns) == if Failed(turns) then None else Calls(k - 1, turns[1..])
  {
    if !Failed(turns) && k <= |turns| {
      assert turns[..k] == [turns[0]] + turns[1..][..k - 1];
      assert turns[k..] == turns[1..][k - 1..];
    }
  }

  lemma CallsLast(k: nat, turns: seq<Turn>)
    requires k > 0
    ensures Calls(k, turns) == match Calls(k - 1, turns)
                               case None => None
                               case Some(left) => if Failed(left) then None else Some(left[1..])
  {
    if k <= |turns| {
      assert turns[..k] == turns[..k - 1] + [turns[k - 1]];
      assert turns[k..] == turns[k - 1..][1..];
    }
  }
}
