/** When the transfers return at all, rather than raise: read off the environment's turns. */
module Returns {
  import opened Base
  import opened Utf8
  import opened TransferSpec
  import opened Sessions

  // ---------------------------------------------------------------- upload

  /** The turns left by an upload that returns: `opens` calls, the loop, `closes` calls. */
  function UploadLeft(opens: nat, closes: nat, rest: Bytes, turns: seq<Turn>): Option<seq<Turn>> {
    match Calls(opens, turns)
    case None => None
    case Some(loop) =>
      var end := UploadRun(rest, loop);
      if end.finished then Calls(closes, end.turns) else None
  }

  lemma UploadLeftFirst(opens: nat, closes: nat, rest: Bytes, turns: seq<Turn>)
    requires opens > 0
    ensures UploadLeft(opens, closes, rest, turns)
            == if Failed(turns) then None else UploadLeft(opens - 1, closes, rest, turns[1..])
  {
    CallsFirst(opens, turns);
  }

  lemma UploadLeftLast(opens: nat, closes: nat, rest: Bytes, turns: seq<Turn>)
    requires closes > 0
    ensures UploadLeft(opens, closes, rest, turns)
            == match UploadLeft(opens, closes - 1, rest, turns)
               case None => None
               case Some(left) => if Failed(left) then None else Some(left[1..])
  {
    if Calls(opens, turns).Some? {
      CallsLast(closes, UploadRun(rest, Calls(opens, turns).value).turns);
    }
  }

  /** `left` is what remains of `turns` after calls none of which raised. */
  predicate Unraised(turns: seq<Turn>, left: seq<Turn>) {
    |left| <= |turns| && left == turns[|turns| - |left|..] && NoFault(turns[..|turns| - |left|])
  }

  lemma UnraisedTwice(turns: seq<Turn>, mid: seq<Turn>, left: seq<Turn>)
    requires Unraised(turns, mid) && Unraised(mid, left)
    ensures Unraised(turns, left)
  {
    var k, m := |turns| - |mid|, |turns| - |left|;
    assert forall i :: k <= i < m ==> turns[..m][i] == mid[..m - k][i - k];
  }

  /** A finished loop met no raising call, and took at most two calls a byte and one more. */
  lemma {:induction false} UploadSpends(rest: Bytes, turns: seq<Turn>)
    requires UploadRun(rest, turns).finished
    ensures Unraised(turns, UploadRun(rest, turns).turns)
    ensures |turns| <= |UploadRun(rest, turns).turns| + 2 * |rest| + 1
    decreases |turns|
  {
    if rest != [] {
      var k := PartialLength(turns[0].want, |rest|);
      UploadSpends(rest[k..], turns[2..]);
      UnraisedTwice(turns, turns[2..], UploadRun(rest[k..], turns[2..]).turns);
    }
  }

  /** An upload returns if there are calls enough and none of them raises ... */
  lemma UploadReturns(opens: nat, closes: nat, rest: Bytes, turns: seq<Turn>)
    requires NoFault(turns) && |turns| >= opens + 2 * |rest| + 1 + closes
    ensures UploadLeft(opens, closes, rest, turns).Some?
  {
    UploadEnds(rest, turns[opens..]);
    UploadSpends(rest, turns[opens..]);
  }

  /** ... and only then: one that returned met no raising call. */
  lemma UploadReturnsUnraised(opens: nat, closes: nat, rest: Bytes, turns: seq<Turn>)
    requires UploadLeft(opens, closes, rest, turns).Some?
    ensures Unraised(turns, UploadLeft(opens, closes, rest, turns).value)
  {
    var loop := Calls(opens, turns).value;
    var end := UploadRun(rest, loop).turns;
    UploadSpends(rest, loop);
    UnraisedTwice(turns, loop, end);
    UnraisedTwice(turns, end, end[closes..]);
  }

  /** The whole of `upload!` over a pooled session or one with n settings: `LibSSH::Scp.new`,
      `File.open` and `File.stat` for a path, `scp.init`, `push_file`, `info`, the loop, and
      the closing of what was opened. */
  function UploadCallLeft(pooled: bool, n: nat, isIo: bool, rest: Bytes, turns: seq<Turn>): Option<seq<Turn>> {
    match SessionLeft(pooled, n, turns)
    case None => None
    case Some(left) => if isIo then UploadLeft(4, 1, rest, left) else UploadLeft(6, 2, rest, left)
  }

  // -------------------------------------------------------------- download

  /** What `pull_request` can answer, with what the peer announces for a file. */
  datatype Request = NewFile(content: Bytes, mode: int) | NewDir | EndDir | Warning | Eof

  /** The requests after the first EOF, which ends the loop. */
  function AfterEof(requests: seq<Request>): Option<seq<Request>> {
    if requests == [] then None
    else if requests[0].Eof? then Some(requests[1..])
    else AfterEof(requests[1..])
  }

  /** The files before the first EOF. */
  function Files(requests: seq<Request>): seq<Bytes> {
    if requests == [] || requests[0].Eof? then []
    else if requests[0].NewFile? then [requests[0].content] + Files(requests[1..])
    else Files(requests[1..])
  }

  /** The turns left by a file that comes across: `opens` calls, the loop, `closes` calls. */
  function CopyLeft(opens: nat, closes: nat, file: Bytes, turns: seq<Turn>): Option<seq<Turn>> {
    match Calls(opens, turns)
    case None => None
    case Some(loop) =>
      var end := DownloadRun(file, loop);
      if end.finished then Calls(closes, end.turns) else None
  }

  lemma CopyLeftFirst(opens: nat, closes: nat, file: Bytes, turns: seq<Turn>)
    requires opens > 0
    ensures CopyLeft(opens, closes, file, turns)
            == if Failed(turns) then None else CopyLeft(opens - 1, closes, file, turns[1..])
  {
    CallsFirst(opens, turns);
  }

  lemma CopyLeftLast(opens: nat, closes: nat, file: Bytes, turns: seq<Turn>)
    requires closes > 0
    ensures CopyLeft(opens, closes, file, turns)
            == match CopyLeft(opens, closes - 1, file, turns)
               case None => None
               case Some(left) => if Failed(left) then None else Some(left[1..])
  {
    hide DownloadRun;
    if Calls(opens, turns).Some? {
      CallsLast(closes, DownloadRun(file, Calls(opens, turns).value).turns);
    }
  }

  /** One request: `pull_request`; for a file `info`, `request_permissions` and
      `accept_request`, the file opened and closed if it has a path; for a directory
      `deny_request`. */
  function RequestLeft(isIo: bool, r: Request, turns: seq<Turn>): Option<seq<Turn>> {
    match r
    case NewFile(content, _) => if isIo then CopyLeft(4, 0, content, turns) else CopyLeft(5, 1, content, turns)
    case NewDir => Calls(2, turns)
    case _ => Calls(1, turns)
  }

  /** The request loop: it returns by way of an EOF request. */
  function LoopLeft(isIo: bool, requests: seq<Request>, turns: seq<Turn>): Option<seq<Turn>> {
    if requests == [] then None
    else
      match RequestLeft(isIo, requests[0], turns)
      case None => None
      case Some(left) => if requests[0].Eof? then Some(left) else LoopLeft(isIo, requests[1..], left)
  }

  /** `calls` calls, the loop, and `scp.close`. */
  function ConversationLeft(calls: nat, isIo: bool, requests: seq<Request>, turns: seq<Turn>): Option<seq<Turn>> {
    match Calls(calls, turns)
    case None => None
    case Some(start) =>
      match LoopLeft(isIo, requests, start)
      case None => None
      case Some(end) => Calls(1, end)
  }

  /** The whole of `download!`: a session, `LibSSH::Scp.new`, `scp.init`, and so on. */
  function DownloadCallLeft(pooled: bool, n: nat, isIo: bool, requests: seq<Request>, turns: seq<Turn>): Option<seq<Turn>> {
    match SessionLeft(pooled, n, turns)
    case None => None
    case Some(left) => ConversationLeft(2, isIo, requests, left)
  }

  // ------------------------------------------- against a byte-exact download

  /** A file taken by the byte-exact reader under the same turns: its chunks, and the turns
      left. */
  function ChopLeft(opens: nat, closes: nat, file: Bytes, turns: seq<Turn>): Option<(seq<Bytes>, seq<Turn>)> {
    match Calls(opens, turns)
    case None => None
    case Some(loop) =>
      match Chop(file, loop)
      case None => None
      case Some(chunks) =>
        match Calls(closes, loop[2 * |chunks|..])
        case None => None
        case Some(left) => Some((chunks, left))
  }

  /** The request loop with the byte-exact reader: the chunks of each file, if it returns. */
  function ExactLoop(isIo: bool, requests: seq<Request>, turns: seq<Turn>): Option<seq<seq<Bytes>>> {
    if requests == [] then None
    else
      match requests[0]
      case Eof => if Failed(turns) then None else Some([])
      case NewFile(content, _) =>
        (match if isIo then ChopLeft(4, 0, content, turns) else ChopLeft(5, 1, content, turns)
         case None => None
         case Some((chunks, left)) =>
           match ExactLoop(isIo, requests[1..], left)
           case None => None
           case Some(more) => Some([chunks] + more))
      case NewDir =>
        (match Calls(2, turns)
         case None => None
         case Some(left) => ExactLoop(isIo, requests[1..], left))
      case _ =>
        (match Calls(1, turns)
         case None => None
         case Some(left) => ExactLoop(isIo, requests[1..], left))
  }

  lemma {:induction false} ChopExact(rest: Bytes, turns: seq<Turn>)
    requires Chop(rest, turns).Some?
    ensures Flat(Chop(rest, turns).value) == rest
    decreases |turns|
  {
    if rest != [] {
      var k := Min(turns[0].want, |rest|);
      ChopExact(rest[k..], turns[2..]);
      FlatCons(rest[..k], Chop(rest[k..], turns[2..]).value);
    }
  }

  /** The byte-exact loop takes exactly the files before EOF, every one of them whole. */
  lemma {:induction false} ExactLoopIsExact(isIo: bool, requests: seq<Request>, turns: seq<Turn>)
    requires ExactLoop(isIo, requests, turns).Some?
    ensures var chunks := ExactLoop(isIo, requests, turns).value;
            |chunks| == |Files(requests)| && forall i :: 0 <= i < |chunks| ==> Flat(chunks[i]) == Files(requests)[i]
  {
    hide Chop, Flat;
    match requests[0]
    case Eof =>
    case NewFile(content, _) =>
      var first := (if isIo then ChopLeft(4, 0, content, turns) else ChopLeft(5, 1, content, turns)).value;
      ExactLoopIsExact(isIo, requests[1..], first.1);
      ChopExact(content, Calls(if isIo then 4 else 5, turns).value);
    case NewDir => ExactLoopIsExact(isIo, requests[1..], turns[2..]);
    case _ => ExactLoopIsExact(isIo, requests[1..], turns[1..]);
  }

  /** A loop that finishes has spent the turns the byte-exact reader spends. */
  lemma {:induction false} FinishedTurns(size: nat, n: nat, rest: Bytes, turns: seq<Turn>)
    requires n + |rest| == size && CopyRun(size, n, rest, turns).finished
    ensures Chop(rest, turns).Some?
    ensures CopyRun(size, n, rest, turns).turns == turns[2 * |Chop(rest, turns).value|..]
    decreases |turns|
  {
    hide CharCount, Multibyte, HeadLength;
    if rest != [] {
      var chunk := ReadChunk(rest, turns[0].want, size - n);
      var later := rest[|chunk|..];
      CountIsLengthIff(chunk);
      if Multibyte(chunk) {
        LaggingNeverFinishes(size, n + CharCount(chunk), later, turns[2..]);
        assert false;
      }
      FinishedTurns(size, n + |chunk|, later, turns[2..]);
    }
  }

  /** One file: the copy comes across exactly if the byte-exact reader takes it in chunks
      without multibyte sequences and its size fits a C int; both leave the same turns. */
  lemma CopyLeftIff(opens: nat, closes: nat, file: Bytes, turns: seq<Turn>)
    ensures var exact := ChopLeft(opens, closes, file, turns);
            && (CopyLeft(opens, closes, file, turns).Some? <==> exact.Some? && AllSingle(exact.value.0) && |file| <= INT_MAX)
            && (CopyLeft(opens, closes, file, turns).Some? ==> CopyLeft(opens, closes, file, turns).value == exact.value.1)
  {
    hide CopyRun, Chop;
    if Calls(opens, turns).Some? {
      var loop := Calls(opens, turns).value;
      DownloadFinishesIff(file, loop);
      if DownloadRun(file, loop).finished {
        FinishedTurns(|file|, 0, file, loop);
      }
      if file == [] {
        EmptyChop(loop);
      }
    }
  }

  lemma EmptyChop(turns: seq<Turn>)
    ensures Chop([], turns) == Some([])
  {
  }

  ghost predicate Fit(files: seq<Bytes>) {
    forall i :: 0 <= i < |files| ==> |files[i]| <= INT_MAX
  }

  ghost predicate Clean(chunks: seq<seq<Bytes>>) {
    forall i :: 0 <= i < |chunks| ==> AllSingle(chunks[i])
  }

  lemma CleanCons(first: seq<Bytes>, more: seq<seq<Bytes>>)
    ensures Clean([first] + more) <==> AllSingle(first) && Clean(more)
  {
    assert ([first] + more)[0] == first;
    assert forall i :: 0 <= i < |more| ==> ([first] + more)[i + 1] == more[i];
  }

  lemma FitCons(first: Bytes, more: seq<Bytes>)
    ensures Fit([first] + more) <==> |first| <= INT_MAX && Fit(more)
  {
    assert ([first] + more)[0] == first;
    assert forall i :: 0 <= i < |more| ==> ([first] + more)[i + 1] == more[i];
  }

  /** The request loop of `download!` returns if and only if a byte-exact loop under the same
      turns returns, every file fits a C int, and no chunk holds a multibyte sequence. */
  lemma {:induction false} DownloadReturnsIff(isIo: bool, requests: seq<Request>, turns: seq<Turn>)
    ensures LoopLeft(isIo, requests, turns).Some? <==>
            var exact := ExactLoop(isIo, requests, turns);
            exact.Some? && Clean(exact.value) && Fit(Files(requests))
  {
    hide CopyLeft, ChopLeft, Clean, AllSingle;
    if requests != [] {
      match requests[0]
      case Eof =>
        CleanNothing();
      case NewFile(content, _) =>
        var opens, closes := if isIo then 4 else 5, if isIo then 0 else 1;
        CopyLeftIff(opens, closes, content, turns);
        FitCons(content, Files(requests[1..]));
        if ChopLeft(opens, closes, content, turns).Some? {
          var (chunks, left) := ChopLeft(opens, closes, content, turns).value;
          DownloadReturnsIff(isIo, requests[1..], left);
          if ExactLoop(isIo, requests[1..], left).Some? {
            CleanCons(chunks, ExactLoop(isIo, requests[1..], left).value);
          }
        }
      case NewDir =>
        if Calls(2, turns).Some? {
          DownloadReturnsIff(isIo, requests[1..], turns[2..]);
        }
      case _ =>
        if Calls(1, turns).Some? {
          DownloadReturnsIff(isIo, requests[1..], turns[1..]);
        }
    }
  }

  lemma CleanNothing()
    ensures Clean([]) && Fit([])
  {
  }

  // --------------------------------------------------- conditions in advance

  /** How many calls a conversation takes at most when reads are not empty. */
  function TotalCalls(requests: seq<Request>): nat {
    if requests == [] then 0
    else
      match requests[0]
      case Eof => 1
      case NewFile(content, _) => 6 + 2 * |content| + TotalCalls(requests[1..])
      case _ => 2 + TotalCalls(requests[1..])
  }

  lemma ReadingLater(turns: seq<Turn>, k: nat)
    requires Reading(turns) && k <= |turns|
    ensures Reading(turns[k..]) && Calls(k, turns) == Some(turns[k..])
  {
  }

  lemma {:induction false} ChopSpends(rest: Bytes, turns: seq<Turn>)
    requires Reading(turns) && Chop(rest, turns).Some?
    ensures |Chop(rest, turns).value| <= |rest|
    decreases |rest|
  {
    if rest != [] {
      ChopSpends(rest[Min(turns[0].want, |rest|)..], turns[2..]);
    }
  }

  lemma ChopLeftSpends(opens: nat, closes: nat, file: Bytes, turns: seq<Turn>)
    requires Reading(turns) && |turns| >= opens + 2 * |file| + closes
    ensures var exact := ChopLeft(opens, closes, file, turns);
            exact.Some? && Reading(exact.value.1) && |turns| <= |exact.value.1| + opens + 2 * |file| + closes
  {
    hide Chop, Reading, Calls;
    ReadingLater(turns, opens);
    var loop := turns[opens..];
    NonEmptyReadsExhaustTurns(file, loop);
    ChopSpends(file, loop);
    var spent := 2 * |Chop(file, loop).value|;
    ReadingLater(loop, spent);
    ReadingLater(loop[spent..], closes);
  }

  lemma NonEmptyReadsExhaustTurns(file: Bytes, turns: seq<Turn>)
    requires Reading(turns) && |turns| >= 2 * |file|
    ensures Chop(file, turns).Some?
  {
    NonEmptyReadsExhaust(file, turns);
  }

  /** With no raising call, non-empty reads and calls enough, the byte-exact loop returns. */
  lemma {:induction false} ExactLoopReturns(isIo: bool, requests: seq<Request>, turns: seq<Turn>)
    requires AfterEof(requests).Some? && Reading(turns) && |turns| >= TotalCalls(requests)
    ensures ExactLoop(isIo, requests, turns).Some?
  {
    hide ChopLeft;
    match requests[0]
    case Eof =>
    case NewFile(content, _) =>
      var opens, closes := if isIo then 4 else 5, if isIo then 0 else 1;
      ChopLeftSpends(opens, closes, content, turns);
      ExactLoopReturns(isIo, requests[1..], ChopLeft(opens, closes, content, turns).value.1);
    case NewDir =>
      ReadingLater(turns, 2);
      ExactLoopReturns(isIo, requests[1..], turns[2..]);
    case _ =>
      ReadingLater(turns, 1);
      ExactLoopReturns(isIo, requests[1..], turns[1..]);
  }

  ghost predicate NoMultibyte(files: seq<Bytes>) {
    forall i :: 0 <= i < |files| ==> !Multibyte(files[i])
  }

  /** Files without multibyte sequences come in chunks without them. */
  lemma SinglesStayClean(isIo: bool, requests: seq<Request>, turns: seq<Turn>)
    requires ExactLoop(isIo, requests, turns).Some? && NoMultibyte(Files(requests))
    ensures Clean(ExactLoop(isIo, requests, turns).value)
  {
    var chunks := ExactLoop(isIo, requests, turns).value;
    ExactLoopIsExact(isIo, requests, turns);
    forall i | 0 <= i < |chunks| ensures AllSingle(chunks[i]) {
      assert !Multibyte(Flat(chunks[i]));
      PartsStaySingle(chunks[i]);
    }
  }

  lemma {:induction false} PartsStaySingle(chunks: seq<Bytes>)
    requires !Multibyte(Flat(chunks))
    ensures AllSingle(chunks)
  {
    if chunks != [] {
      var init, last := chunks[..|chunks| - 1], chunks[|chunks| - 1];
      var all := Flat(chunks);
      assert all == Flat(init) + last;
      SliceKeepsSingle(all, 0, |Flat(init)|);
      assert all[0..|Flat(init)|] == Flat(init);
      SliceKeepsSingle(all, |Flat(init)|, |all|);
      assert all[|Flat(init)|..|all|] == last;
      PartsStaySingle(init);
      assert forall i :: 0 <= i < |init| ==> chunks[i] == init[i];
    }
  }

  /** Downloads of single-byte files return: for every request list with an EOF, if no call
      raises, reads are not empty, there are calls enough, and every file before the EOF fits a
      C int and holds no multibyte sequence. */
  lemma SingleByteDownloadsReturn(isIo: bool, requests: seq<Request>, turns: seq<Turn>)
    requires AfterEof(requests).Some? && Reading(turns) && |turns| >= TotalCalls(requests)
    requires Fit(Files(requests)) && NoMultibyte(Files(requests))
    ensures LoopLeft(isIo, requests, turns).Some?
  {
    ExactLoopReturns(isIo, requests, turns);
    SinglesStayClean(isIo, requests, turns);
    DownloadReturnsIff(isIo, requests, turns);
  }

  /** This file is finished from no point of the turns on. */
  ghost predicate NeverFinishes(file: Bytes, turns: seq<Turn>) {
    forall k :: 0 <= k <= |turns| ==> !DownloadRun(file, turns[k..]).finished
  }

  lemma {:induction false} CopyRunSuffix(size: nat, n: nat, rest: Bytes, turns: seq<Turn>) returns (k: nat)
    ensures k <= |turns| && CopyRun(size, n, rest, turns).turns == turns[k..]
    decreases |turns|
  {
    hide CharCount;
    if n < size && size - n <= INT_MAX && !Failed(turns) && !Failed(turns[1..]) {
      var chunk := ReadChunk(rest, turns[0].want, size - n);
      k := CopyRunSuffix(size, n + CharCount(chunk), rest[|chunk|..], turns[2..]);
      k := k + 2;
    } else if n >= size || size - n > INT_MAX {
      k := 0;
    } else if Failed(turns) {
      k := Min(1, |turns|);
    } else {
      k := Min(2, |turns|);
    }
  }

  lemma RequestLeftSuffix(isIo: bool, r: Request, turns: seq<Turn>) returns (k: nat)
    requires RequestLeft(isIo, r, turns).Some?
    ensures k <= |turns| && RequestLeft(isIo, r, turns).value == turns[k..]
  {
    hide CopyRun;
    match r
    case NewFile(content, _) =>
      var opens, closes := if isIo then 4 else 5, if isIo then 0 else 1;
      var loop := Calls(opens, turns).value;
      k := CopyRunSuffix(|content|, 0, content, loop);
      assert loop[k..][closes..] == turns[opens + k + closes..];
      k := opens + k + closes;
    case NewDir => k := 2;
    case _ => k := 1;
  }

  lemma NeverFinishesLater(file: Bytes, turns: seq<Turn>, m: nat)
    requires NeverFinishes(file, turns) && m <= |turns|
    ensures NeverFinishes(file, turns[m..])
  {
    forall k | 0 <= k <= |turns[m..]| ensures !DownloadRun(file, turns[m..][k..]).finished {
      assert turns[m..][k..] == turns[m + k..];
    }
  }

  /** With a file among them that is never finished, the download does not return. */
  lemma {:induction false} UnfinishableFileRaises(isIo: bool, requests: seq<Request>, turns: seq<Turn>, file: Bytes)
    requires file in Files(requests) && NeverFinishes(file, turns)
    ensures LoopLeft(isIo, requests, turns) == None
  {
    hide NeverFinishes, RequestLeft;
    if RequestLeft(isIo, requests[0], turns).Some? {
      if requests[0].NewFile? && requests[0].content == file {
        UnfinishableRequest(isIo, requests[0], turns);
        assert false;
      }
      var k := RequestLeftSuffix(isIo, requests[0], turns);
      NeverFinishesLater(file, turns, k);
      UnfinishableFileRaises(isIo, requests[1..], turns[k..], file);
    }
  }

  lemma UnfinishableRequest(isIo: bool, r: Request, turns: seq<Turn>)
    requires r.NewFile? && NeverFinishes(r.content, turns)
    ensures RequestLeft(isIo, r, turns) == None
  {
    hide DownloadRun;
  }

  /** Each read hands over all that is left. */
  predicate WholeReads(turns: seq<Turn>, files: seq<Bytes>) {
    forall i, j :: 0 <= i < |turns| && 0 <= j < |files| && turns[i].Go? ==> turns[i].want >= |files[j]|
  }

  lemma MultibyteInOnePiece(file: Bytes, turns: seq<Turn>)
    requires Multibyte(file) && forall i :: 0 <= i < |turns| && turns[i].Go? ==> turns[i].want >= |file|
    ensures NeverFinishes(file, turns)
  {
    forall k | 0 <= k <= |turns| ensures !DownloadRun(file, turns[k..]).finished {
      DownloadFinishesIff(file, turns[k..]);
      if Chop(file, turns[k..]).Some? {
        assert file[..|file|] == file;
        assert Chop(file, turns[k..]).value[0] == file;
      }
    }
  }

  lemma TooLongNeverFinishes(file: Bytes, turns: seq<Turn>)
    requires |file| > INT_MAX
    ensures NeverFinishes(file, turns)
  {
    forall k | 0 <= k <= |turns| ensures !DownloadRun(file, turns[k..]).finished {
      DownloadFinishesIff(file, turns[k..]);
    }
  }

  /** If nothing raises, reads hand over whole files and the peer sends EOF, `download!`
      returns if and only if every file fits a C int and none holds a multibyte sequence. */
  lemma WholeReadsReturnIff(isIo: bool, requests: seq<Request>, turns: seq<Turn>)
    requires AfterEof(requests).Some? && Reading(turns) && |turns| >= TotalCalls(requests)
    requires WholeReads(turns, Files(requests))
    ensures LoopLeft(isIo, requests, turns).Some? <==> Fit(Files(requests)) && NoMultibyte(Files(requests))
  {
    var files := Files(requests);
    if Fit(files) && NoMultibyte(files) {
      SingleByteDownloadsReturn(isIo, requests, turns);
    } else {
      var j :| 0 <= j < |files| && (|files[j]| > INT_MAX || Multibyte(files[j]));
      if |files[j]| > INT_MAX {
        TooLongNeverFinishes(files[j], turns);
      } else {
        MultibyteInOnePiece(files[j], turns);
      }
      UnfinishableFileRaises(isIo, requests, turns, files[j]);
    }
  }

  lemma {:induction false} LoopSpends(isIo: bool, requests: seq<Request>, turns: seq<Turn>)
    requires LoopLeft(isIo, requests, turns).Some? && Reading(turns) && |turns| >= TotalCalls(requests)
    ensures var left := LoopLeft(isIo, requests, turns).value;
            Reading(left) && |turns| <= |left| + TotalCalls(requests)
  {
    hide CopyLeft, ChopLeft, AllSingle;
    match requests[0]
    case Eof =>
      ReadingLater(turns, 1);
    case NewFile(content, _) =>
      var opens, closes := if isIo then 4 else 5, if isIo then 0 else 1;
      CopyLeftIff(opens, closes, content, turns);
      ChopLeftSpends(opens, closes, content, turns);
      LoopSpends(isIo, requests[1..], CopyLeft(opens, closes, content, turns).value);
    case NewDir =>
      ReadingLater(turns, 2);
      LoopSpends(isIo, requests[1..], turns[2..]);
    case _ =>
      ReadingLater(turns, 1);
      LoopSpends(isIo, requests[1..], turns[1..]);
  }

  /** The whole call returns once its session is there, if besides no call raises, reads are
      not empty, there are calls enough, and every file before EOF fits a C int and holds no
      multibyte sequence. */
  lemma DownloadCallReturns(pooled: bool, n: nat, isIo: bool, requests: seq<Request>, turns: seq<Turn>)
    requires pooled || Admitted(n, turns)
    requires var left := SessionLeft(pooled, n, turns).value; Reading(left) && |left| >= TotalCalls(requests) + 3
    requires AfterEof(requests).Some? && Fit(Files(requests)) && NoMultibyte(Files(requests))
    ensures DownloadCallLeft(pooled, n, isIo, requests, turns).Some?
  {
    hide Multibyte, LoopLeft, Fit, NoMultibyte, Admitted;
    var left := SessionLeft(pooled, n, turns).value;
    ReadingLater(left, 2);
    SingleByteDownloadsReturn(isIo, requests, left[2..]);
    LoopSpends(isIo, requests, left[2..]);
  }

  /** And it raises, whatever else happens, if a file among them is never finished. */
  lemma DownloadCallRaises(pooled: bool, n: nat, isIo: bool, requests: seq<Request>, turns: seq<Turn>, file: Bytes)
    requires file in Files(requests) && NeverFinishes(file, turns)
    ensures DownloadCallLeft(pooled, n, isIo, requests, turns) == None
  {
    hide NeverFinishes, LoopLeft;
    if SessionLeft(pooled, n, turns).Some? {
      var left := SessionLeft(pooled, n, turns).value;
      NeverFinishesLater(file, turns, if pooled then 0 else n + 3);
      if Calls(2, left).Some? {
        NeverFinishesLater(file, left, 2);
        UnfinishableFileRaises(isIo, requests, left[2..], file);
      }
    }
  }

  /** Likewise `upload!`. */
  lemma UploadCallReturns(pooled: bool, n: nat, isIo: bool, rest: Bytes, turns: seq<Turn>)
    requires pooled || Admitted(n, turns)
    requires var left := SessionLeft(pooled, n, turns).value; NoFault(left) && |left| >= 2 * |rest| + 9
    ensures UploadCallLeft(pooled, n, isIo, rest, turns).Some?
  {
    hide UploadLeft, Admitted;
    var left := SessionLeft(pooled, n, turns).value;
    if isIo {
      UploadReturns(4, 1, rest, left);
    } else {
      UploadReturns(6, 2, rest, left);
    }
  }
}
