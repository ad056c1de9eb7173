/** The two copy loops of the SSHKit backend as functions of the environment's turns,
    with the reference readers they are compared against. */
module TransferSpec {
  import opened Base
  import opened Utf8

  /** The largest size `Scp#read` can convert to a C int; a larger one raises. */
  const INT_MAX: nat := 0x7FFF_FFFF

  /** What one `scp.read(limit)` hands over of the unread part of the file: its first bytes,
      at most `limit` of them. */
  function ReadChunk(rest: Bytes, want: nat, limit: nat): (c: Bytes)
    ensures |c| <= limit && c <= rest
  {
    rest[..Min(want, Min(limit, |rest|))]
  }

  /** How a download loop ended: `finished` is its normal exit, the alternative is an
      exception. */
  datatype CopyEnd = CopyEnd(finished: bool, written: Bytes, turns: seq<Turn>)

  /** The download loop: n characters counted so far, `rest` not read yet. */
  function CopyRun(size: nat, n: nat, rest: Bytes, turns: seq<Turn>): CopyEnd
    decreases |turns|
  {
    if n >= size then CopyEnd(true, [], turns)
    else if size - n > INT_MAX then CopyEnd(false, [], turns)
    else if Failed(turns) then CopyEnd(false, [], After(turns))
    else
      var chunk := ReadChunk(rest, turns[0].want, size - n);
      if Failed(turns[1..]) then CopyEnd(false, [], After(turns[1..]))
      else
        var end := CopyRun(size, n + CharCount(chunk), rest[|chunk|..], turns[2..]);
        CopyEnd(end.finished, chunk + end.written, end.turns)
  }

  /** The download of a whole file. */
  function DownloadRun(file: Bytes, turns: seq<Turn>): CopyEnd {
    CopyRun(|file|, 0, file, turns)
  }

  /** The byte-exact reader the loop should be: it stops when nothing is left.  None when
      a call fails, or the turns end, before that. */
  function Chop(rest: Bytes, turns: seq<Turn>): (chunks: Option<seq<Bytes>>)
    ensures chunks.Some? ==> 2 * |chunks.value| <= |turns|
    decreases |turns|
  {
    if rest == [] then Some([])
    else if Failed(turns) || Failed(turns[1..]) then None
    else
      var k := Min(turns[0].want, |rest|);
      match Chop(rest[k..], turns[2..])
      case None => None
      case Some(cs) => Some([rest[..k]] + cs)
  }

  ghost predicate AllSingle(chunks: seq<Bytes>) {
    forall i :: 0 <= i < |chunks| ==> !Multibyte(chunks[i])
  }

  lemma AllSingleCons(c: Bytes, cs: seq<Bytes>)
    ensures AllSingle([c] + cs) <==> !Multibyte(c) && AllSingle(cs)
  {
    assert ([c] + cs)[0] == c;
    assert forall i :: 0 <= i < |cs| ==> ([c] + cs)[i + 1] == cs[i];
  }

  /** As long as no more characters than bytes are counted, what is written is a prefix of
      what was left, and a normal exit has written all of it. */
  lemma {:induction false} CopyExact(size: nat, n: nat, rest: Bytes, turns: seq<Turn>)
    requires n + |rest| <= size
    ensures CopyRun(size, n, rest, turns).written <= rest
    ensures CopyRun(size, n, rest, turns).finished ==> CopyRun(size, n, rest, turns).written == rest
    decreases |turns|
  {
    hide CharCount, ReadChunk;
    if n < size && size - n <= INT_MAX && !Failed(turns) && !Failed(turns[1..]) {
      var chunk := ReadChunk(rest, turns[0].want, size - n);
      var later := rest[|chunk|..];
      CopyExact(size, n + CharCount(chunk), later, turns[2..]);
      var end := CopyRun(size, n + CharCount(chunk), later, turns[2..]);
      assert CopyRun(size, n, rest, turns) == CopyEnd(end.finished, chunk + end.written, end.turns);
      assert rest == chunk + later;
    }
  }

  /** A normal exit has written the remote file byte for byte, whatever the chunking and
      the content, although the loop counts characters. */
  lemma FinishedMeansExact(file: Bytes, turns: seq<Turn>)
    ensures DownloadRun(file, turns).written <= file
    ensures DownloadRun(file, turns).finished ==> DownloadRun(file, turns).written == file
  {
    CopyExact(|file|, 0, file, turns);
  }

  /** Once the count lags behind the bytes the loop never leaves normally. */
  lemma {:induction false} LaggingNeverFinishes(size: nat, n: nat, rest: Bytes, turns: seq<Turn>)
    requires n + |rest| < size
    ensures !CopyRun(size, n, rest, turns).finished
    decreases |turns|
  {
    if size - n <= INT_MAX && !Failed(turns) && !Failed(turns[1..]) {
      var chunk := ReadChunk(rest, turns[0].want, size - n);
      LaggingNeverFinishes(size, n + CharCount(chunk), rest[|chunk|..], turns[2..]);
    }
  }

  /** After the last file byte a lagging loop only reads empty chunks until a call fails. */
  lemma {:induction false} SpinsAfterLastByte(size: nat, n: nat, turns: seq<Turn>)
    requires n < size
    ensures !CopyRun(size, n, [], turns).finished && CopyRun(size, n, [], turns).written == []
    decreases |turns|
  {
    if size - n <= INT_MAX && !Failed(turns) && !Failed(turns[1..]) {
      SpinsAfterLastByte(size, n, turns[2..]);
    }
  }

  /** The reads exhaust `rest`, and none of them holds a multibyte sequence. */
  ghost predicate CleanlyExhausted(rest: Bytes, turns: seq<Turn>) {
    match Chop(rest, turns)
    case None => false
    case Some(cs) => AllSingle(cs)
  }

  lemma CleanStep(rest: Bytes, turns: seq<Turn>)
    requires rest != [] && !Failed(turns) && !Failed(turns[1..])
    ensures var k := Min(turns[0].want, |rest|);
            CleanlyExhausted(rest, turns) <==> !Multibyte(rest[..k]) && CleanlyExhausted(rest[k..], turns[2..])
  {
    var k := Min(turns[0].want, |rest|);
    match Chop(rest[k..], turns[2..])
    case None =>
    case Some(cs) => AllSingleCons(rest[..k], cs);
  }

  lemma {:induction false} CopyFinishesFrom(size: nat, n: nat, rest: Bytes, turns: seq<Turn>)
    requires n + |rest| == size
    ensures CopyRun(size, n, rest, turns).finished <==>
            rest == [] || (|rest| <= INT_MAX && CleanlyExhausted(rest, turns))
    decreases |turns|
  {
    hide CharCount, Multibyte, HeadLength;
    if rest != [] && |rest| <= INT_MAX && !Failed(turns) && !Failed(turns[1..]) {
      var chunk := ReadChunk(rest, turns[0].want, size - n);
      var later := rest[|chunk|..];
      CleanStep(rest, turns);
      CountIsLengthIff(chunk);
      if Multibyte(chunk) {
        LaggingNeverFinishes(size, n + CharCount(chunk), later, turns[2..]);
      } else {
        CopyFinishesFrom(size, n + |chunk|, later, turns[2..]);
        assert later == [] ==> CleanlyExhausted(later, turns[2..]);
      }
    }
  }

  /** The download loop leaves normally exactly when there is nothing to read, or the size
      fits a C int, the reads exhaust the file, and no chunk holds a multibyte sequence. */
  lemma DownloadFinishesIff(file: Bytes, turns: seq<Turn>)
    ensures DownloadRun(file, turns).finished <==>
            file == [] || (|file| <= INT_MAX && CleanlyExhausted(file, turns))
  {
    CopyFinishesFrom(|file|, 0, file, turns);
  }

  predicate Reading(turns: seq<Turn>) {
    NoFault(turns) && forall i :: 0 <= i < |turns| ==> turns[i].Go? && turns[i].want >= 1
  }

  /** Non-empty reads exhaust the file: the bytes left are the measure. */
  lemma {:induction false} NonEmptyReadsExhaust(rest: Bytes, turns: seq<Turn>)
    requires Reading(turns) && |turns| >= 2 * |rest|
    ensures Chop(rest, turns).Some?
    decreases |rest|
  {
    if rest != [] {
      NonEmptyReadsExhaust(rest[Min(turns[0].want, |rest|)..], turns[2..]);
    }
  }

  lemma {:induction false} ChopKeepsSingle(rest: Bytes, turns: seq<Turn>)
    requires !Multibyte(rest) && Chop(rest, turns).Some?
    ensures AllSingle(Chop(rest, turns).value)
    decreases |turns|
  {
    if rest != [] {
      var k := Min(turns[0].want, |rest|);
      SliceKeepsSingle(rest, 0, k);
      assert rest[0..k] == rest[..k];
      SliceKeepsSingle(rest, k, |rest|);
      assert rest[k..|rest|] == rest[k..];
      ChopKeepsSingle(rest[k..], turns[2..]);
    }
  }

  /** A file without multibyte sequences is always downloaded, in at most |file| reads. */
  lemma SingleByteFilesAlwaysFinish(file: Bytes, turns: seq<Turn>)
    requires !Multibyte(file) && |file| <= INT_MAX
    requires Reading(turns) && |turns| >= 2 * |file|
    ensures DownloadRun(file, turns).finished
  {
    NonEmptyReadsExhaust(file, turns);
    ChopKeepsSingle(file, turns);
    DownloadFinishesIff(file, turns);
  }

  lemma {:induction false} OneByteChunks(rest: Bytes, turns: seq<Turn>)
    requires Reading(turns) && |turns| >= 2 * |rest|
    requires forall i :: 0 <= i < |turns| ==> turns[i].Go? && turns[i].want == 1
    ensures var cs := Chop(rest, turns);
            cs.Some? && forall i :: 0 <= i < |cs.value| ==> |cs.value[i]| == 1
    decreases |rest|
  {
    if rest != [] { OneByteChunks(rest[1..], turns[2..]); }
  }

  /** Whether a download ends is not decided by the file alone: every file that fits a C
      int ends when it comes byte by byte, and no file with a multibyte sequence ends when
      it comes in one piece. */
  lemma ChunkingDecides(file: Bytes, turns: seq<Turn>)
    requires |file| <= INT_MAX && Reading(turns) && |turns| >= 2 * |file|
    ensures (forall i :: 0 <= i < |turns| ==> turns[i].Go? && turns[i].want == 1) ==>
              DownloadRun(file, turns).finished
    ensures Multibyte(file) && turns[0].want >= |file| ==>
              !DownloadRun(file, turns).finished
  {
    DownloadFinishesIff(file, turns);
    if forall i :: 0 <= i < |turns| ==> turns[i].Go? && turns[i].want == 1 {
      OneByteChunks(file, turns);
      var cs := Chop(file, turns).value;
      forall i | 0 <= i < |cs| ensures !Multibyte(cs[i]) {
        assert forall k :: 0 <= k < |cs[i]| ==> |cs[i][k..]| == 1;
      }
    }
    if Multibyte(file) && turns[0].want >= |file| {
      NonEmptyReadsExhaust(file, turns);
      var cs := Chop(file, turns).value;
      assert file[..|file|] == file;
      assert cs[0] == file;
    }
  }

  /** The concrete failing case: the two bytes of U+00E9 in one chunk. */
  lemma AccentNeverFinishes(turns: seq<Turn>)
    requires !Failed(turns) && turns[0].want >= 2
    ensures !DownloadRun([0xC3, 0xA9], turns).finished
  {
    var file: Bytes := [0xC3, 0xA9];
    if !Failed(turns[1..]) {
      assert ReadChunk(file, turns[0].want, 2) == file;
      assert CharCount(file) == 1 by { assert HeadLength(file) == 2 && file[2..] == []; }
      LaggingNeverFinishes(2, 1, [], turns[2..]);
    }
  }

  /** The characters a normal exit has counted: the loop's n, recomputed chunk by chunk. */
  function Counted(chunks: seq<Bytes>): nat {
    if chunks == [] then 0 else CharCount(chunks[0]) + Counted(chunks[1..])
  }

  /** Over every chunking the count lies between the characters and the bytes of the file. */
  lemma {:induction false} CountSandwich(rest: Bytes, turns: seq<Turn>)
    requires Chop(rest, turns).Some?
    ensures CharCount(rest) <= Counted(Chop(rest, turns).value) <= |rest|
    decreases |turns|
  {
    hide HeadLength, CharCount;
    if rest != [] {
      var c := rest[..Min(turns[0].want, |rest|)];
      CountSandwich(rest[|c|..], turns[2..]);
      SplitCountsMore(c, rest[|c|..]);
      assert c + rest[|c|..] == rest;
      var tail := Chop(rest[|c|..], turns[2..]).value;
      assert ([c] + tail)[1..] == tail;
    }
  }

  // ---------------------------------------------------------------- upload

  /** What a reader positioned at pos still has to give. */
  function Remaining(content: Bytes, pos: nat): Bytes {
    if pos <= |content| then content[pos..] else []
  }

  /** `readpartial(BUFSIZ)` away from the end: between 1 and BUFSIZ bytes. */
  function PartialLength(want: nat, left: nat): (k: nat)
    requires left > 0
    ensures 1 <= k <= left && k <= BUFSIZ
  {
    if want == 0 then 1 else Min(want, Min(BUFSIZ, left))
  }

  /** `finished` is the exit by EOFError, which the backend rescues. */
  datatype UploadEnd = UploadEnd(finished: bool, chunks: seq<Bytes>, turns: seq<Turn>)

  function UploadRun(rest: Bytes, turns: seq<Turn>): UploadEnd
    decreases |turns|
  {
    if Failed(turns) then UploadEnd(false, [], After(turns))
    else if rest == [] then UploadEnd(true, [], turns[1..])
    else
      var k := PartialLength(turns[0].want, |rest|);
      if Failed(turns[1..]) then UploadEnd(false, [], After(turns[1..]))
      else
        var end := UploadRun(rest[k..], turns[2..]);
        UploadEnd(end.finished, [rest[..k]] + end.chunks, end.turns)
  }

  lemma UploadExactCons(rest: Bytes, k: nat, chunks: seq<Bytes>)
    requires 1 <= k <= |rest| && k <= BUFSIZ && ChunkSizes(chunks) && Flat(chunks) <= rest[k..]
    ensures ChunkSizes([rest[..k]] + chunks) && Flat([rest[..k]] + chunks) <= rest
    ensures Flat(chunks) == rest[k..] ==> Flat([rest[..k]] + chunks) == rest
  {
    hide Flat;
    FlatCons(rest[..k], chunks);
    assert rest == rest[..k] + rest[k..];
  }

  /** Chunks of 1 to BUFSIZ bytes; together a prefix of the remaining content, and all of it
      at the normal exit. */
  lemma {:induction false} UploadExact(rest: Bytes, turns: seq<Turn>)
    ensures ChunkSizes(UploadRun(rest, turns).chunks)
    ensures Flat(UploadRun(rest, turns).chunks) <= rest
    ensures UploadRun(rest, turns).finished ==> Flat(UploadRun(rest, turns).chunks) == rest
    decreases |turns|
  {
    if !Failed(turns) && rest != [] && !Failed(turns[1..]) {
      var k := PartialLength(turns[0].want, |rest|);
      UploadExact(rest[k..], turns[2..]);
      UploadExactCons(rest, k, UploadRun(rest[k..], turns[2..]).chunks);
    }
  }

  /** A finished upload sends as many bytes as `push_file` announced exactly when the reader
      started at offset 0, or there was nothing to send at all. */
  lemma AnnouncedIff(content: Bytes, pos: nat, turns: seq<Turn>)
    requires UploadRun(Remaining(content, pos), turns).finished
    ensures |Flat(UploadRun(Remaining(content, pos), turns).chunks)| == |content| <==>
            pos == 0 || content == []
  {
    UploadExact(Remaining(content, pos), turns);
  }

  /** The upload loop ends: each pair of turns sends at least one byte. */
  lemma {:induction false} UploadEnds(rest: Bytes, turns: seq<Turn>)
    requires NoFault(turns) && |turns| > 2 * |rest|
    ensures UploadRun(rest, turns).finished
    decreases |rest|
  {
    if rest != [] {
      UploadEnds(rest[PartialLength(turns[0].want, |rest|)..], turns[2..]);
    }
  }

  /** Upload, then download what arrived: the same bytes, for every two independent
      chunkings under which both loops leave normally. */
  lemma RoundTrip(content: Bytes, up: seq<Turn>, down: seq<Turn>)
    requires UploadRun(content, up).finished
    requires DownloadRun(Flat(UploadRun(content, up).chunks), down).finished
    ensures DownloadRun(Flat(UploadRun(content, up).chunks), down).written == content
  {
    UploadExact(content, up);
    FinishedMeansExact(Flat(UploadRun(content, up).chunks), down);
  }
}
