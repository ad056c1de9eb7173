/** `upload!` and `download!` inside their brackets. */
module Transfers {
  import opened Base
  import opened Utf8
  import opened TransferSpec
  import opened Journal
  import opened Environment
  import opened Sessions
  import opened Returns

  // ---------------------------------------------------------------- upload

  /** The local side of an upload: an IO-like object at some offset, or a file at a path. */
  class LocalReader {
    const isIo: bool
    const content: Bytes
    const statMode: nat
    var pos: nat

    constructor (isIo: bool, content: Bytes, statMode: nat, pos: nat)
      ensures this.isIo == isIo && this.content == content && this.statMode == statMode && this.pos == pos
    {
      this.isIo, this.content, this.statMode, this.pos := isIo, content, statMode, pos;
    }

    function Rest(): Bytes
      reads this
    {
      Remaining(content, pos)
    }

    /** Where the upload starts reading: a freshly opened file starts at 0. */
    function Start(): nat
      reads this
    {
      if isIo then pos else 0
    }

    /** The permissions announced to the peer. */
    function Mode(): int { if isIo then 0x1A4 else statMode % 0x1000 }

    /** `readpartial(BUFSIZ)`: atEnd stands for EOFError. */
    method ReadPartial(w: World) returns (ok: bool, atEnd: bool, chunk: Bytes)
      modifies this, w`turns
      ensures ok == !Failed(old(w.turns)) && w.turns == After(old(w.turns))
      ensures ok ==> atEnd == (old(Rest()) == [])
      ensures ok && !atEnd ==> var k := PartialLength(old(w.turns)[0].want, |old(Rest())|);
                chunk == old(Rest())[..k] && Rest() == old(Rest())[k..]
      ensures !ok || atEnd ==> pos == old(pos)
    {
      var t;
      ok, t := w.Next();
      atEnd, chunk := pos >= |content|, [];
      if ok && !atEnd {
        var k := PartialLength(t.want, |content| - pos);
        chunk := content[pos..pos + k];
        pos := pos + k;
      }
    }
  }

  /** What the peer has received for the file being uploaded. */
  class RemoteSink {
    var chunks: seq<Bytes>

    constructor ()
      ensures chunks == []
    {
      chunks := [];
    }

    /** `scp.write`: all of it, or an exception. */
    method Write(w: World, chunk: Bytes) returns (ok: bool)
      modifies this, w`turns
      ensures ok == !Failed(old(w.turns)) && w.turns == After(old(w.turns))
      ensures chunks == old(chunks) + (if ok then [chunk] else [])
    {
      ok := w.Try();
      chunks := chunks + (if ok then [chunk] else []);
    }
  }

  /** With `done` sent already, `now` is what is left of the whole run. */
  ghost predicate Uploading(run: UploadEnd, done: seq<Bytes>, now: UploadEnd) {
    run == UploadEnd(now.finished, done + now.chunks, now.turns)
  }

  /** The ways out of the loop, and one turn of it. */
  lemma UploadStep(run: UploadEnd, done: seq<Bytes>, rest: Bytes, turns: seq<Turn>)
    requires Uploading(run, done, UploadRun(rest, turns))
    ensures Failed(turns) ==> run == UploadEnd(false, done, After(turns))
    ensures !Failed(turns) && rest == [] ==> run == UploadEnd(true, done, turns[1..])
    ensures !Failed(turns) && rest != [] && Failed(turns[1..]) ==> run == UploadEnd(false, done, After(turns[1..]))
    ensures !Failed(turns) && rest != [] && !Failed(turns[1..]) ==>
              var k := PartialLength(turns[0].want, |rest|);
              Uploading(run, done + [rest[..k]], UploadRun(rest[k..], turns[2..]))
  {
    if !Failed(turns) && rest != [] && !Failed(turns[1..]) {
      var k := PartialLength(turns[0].want, |rest|);
      var end := UploadRun(rest[k..], turns[2..]);
      assert done + ([rest[..k]] + end.chunks) == (done + [rest[..k]]) + end.chunks;
    }
  }

  /** The endless `scp.write(io.readpartial(BUFSIZ))` loop, left by EOFError or another
      exception. */
  method UploadLoop(w: World, io: LocalReader, sink: RemoteSink) returns (ok: bool)
    modifies w`turns, io, sink
    ensures ok == UploadRun(old(io.Rest()), old(w.turns)).finished
    ensures sink.chunks == old(sink.chunks) + UploadRun(old(io.Rest()), old(w.turns)).chunks
    ensures w.turns == UploadRun(old(io.Rest()), old(w.turns)).turns
  {
    hide UploadRun;
    ghost var run, done: seq<Bytes> := UploadRun(io.Rest(), w.turns), [];
    assert [] + run.chunks == run.chunks;
    while true
      invariant sink.chunks == old(sink.chunks) + done
      invariant Uploading(run, done, UploadRun(io.Rest(), w.turns))
      decreases |w.turns|
    {
      UploadStep(run, done, io.Rest(), w.turns);
      var chunk, atEnd;
      ok, atEnd, chunk := io.ReadPartial(w);
      if !ok || atEnd {
        return;
      }
      ok := sink.Write(w, chunk);
      if !ok {
        assert sink.chunks == old(sink.chunks) + done;
        return;
      }
      done := done + [chunk];
    }
  }

  lemma UploadLeftBare(rest: Bytes, turns: seq<Turn>)
    ensures UploadLeft(0, 0, rest, turns)
            == if UploadRun(rest, turns).finished then Some(UploadRun(rest, turns).turns) else None
  {
    assert turns[0..] == turns && turns[..0] == [];
    assert UploadRun(rest, turns).turns[0..] == UploadRun(rest, turns).turns;
  }

  /** Between the opened scp conversation and its close: `push_file`, then the loop. */
  method UploadBody(w: World, scp: Resource, io: LocalReader, mode: int, sink: RemoteSink) returns (ok: bool)
    requires w.Valid() && scp in w.Stack()
    modifies w`turns, w`log, io, sink
    ensures w.Valid() && w.Stack() == old(w.Stack())
    ensures w.log == old(w.log) + [Issued(scp, PushFile(|io.content|, mode))] && w.Files() == old(w.Files())
    ensures old(sink.chunks) == [] ==> ChunkSizes(sink.chunks) && Flat(sink.chunks) <= old(io.Rest())
    ensures ok && old(sink.chunks) == [] ==> Flat(sink.chunks) == old(io.Rest())
    ensures ok <==> UploadLeft(2, 0, old(io.Rest()), old(w.turns)).Some?
    ensures ok ==> w.turns == UploadLeft(2, 0, old(io.Rest()), old(w.turns)).value
  {
    hide Nest, Orderly, FileEvents, UploadLeft, UploadRun;
    ghost var rest := io.Rest();
    UploadLeftFirst(2, 0, rest, w.turns);
    var t;
    ok, t := w.Use(scp, PushFile(|io.content|, mode));
    if ok {
      UploadLeftFirst(1, 0, rest, w.turns);
      ok := w.Try();    // info "Uploading ..."
    }
    if ok {
      UploadExact(io.Rest(), w.turns);
      ghost var run := UploadRun(io.Rest(), w.turns);
      assert [] + run.chunks == run.chunks;
      UploadLeftBare(rest, w.turns);
      ok := UploadLoop(w, io, sink);
    }
  }

  lemma NothingSent()
    ensures ChunkSizes([]) && Flat([]) == []
  {
  }

  /** The scp conversation of an upload, closed however its block ends. */
  method UploadVia(w: World, s: SessionId, io: LocalReader, mode: int, sink: RemoteSink) returns (ok: bool)
    requires w.Valid() && Ready(w.log, s) && sink.chunks == []
    modifies w`turns, w`log, io, sink
    ensures w.Valid() && w.Stack() == old(w.Stack())
    ensures ok ==> w.log == old(w.log) + UploadEvents(s, |io.content|, mode, |old(w.log)|)
    ensures old(w.log) <= w.log && w.Files() == old(w.Files())
    ensures ChunkSizes(sink.chunks) && Flat(sink.chunks) <= old(io.Rest())
    ensures ok ==> Flat(sink.chunks) == old(io.Rest())
    ensures ok <==> UploadLeft(3, 1, old(io.Rest()), old(w.turns)).Some?
    ensures ok ==> w.turns == UploadLeft(3, 1, old(io.Rest()), old(w.turns)).value
  {
    hide Nest, Orderly, FileEvents, UploadLeft, Flat, ChunkSizes, Remaining, Ready;
    UploadLeftFirst(3, 1, io.Rest(), w.turns);
    NothingSent();
    var scp;
    ok, scp := w.Open(ScpOn(s));
    if ok {
      UploadLeftLast(2, 1, io.Rest(), w.turns);
      ok := UploadBody(w, scp, io, mode, sink);
      var closed := w.Close(scp);
      ok := ok && closed;
      assert w.log == old(w.log) + UploadEvents(s, |io.content|, mode, |old(w.log)|);
    }
  }

  /** The conversation of a complete upload, its scp handle opened at place `at`. */
  function UploadEvents(s: SessionId, size: nat, mode: int, at: nat): seq<Event> {
    var scp := Resource(ScpOn(s), at + 1);
    [Opening(ScpOn(s)), Opened(scp), Issued(scp, PushFile(size, mode)), Closing(scp)]
  }

  /** A local file opened at place `at`, and what happens inside its bracket. */
  function InFile(at: nat, events: seq<Event>): seq<Event> {
    var f := Resource(LocalFile, at + 1);
    [Opening(LocalFile), Opened(f)] + events + [Closing(f)]
  }

  lemma InFileConcat(before: seq<Event>, events: seq<Event>)
    ensures var f := Resource(LocalFile, |before| + 1);
            before + [Opening(LocalFile), Opened(f)] + events + [Closing(f)] == before + InFile(|before|, events)
  {
  }

  function UploadScript(s: SessionId, isIo: bool, size: nat, mode: int, at: nat): seq<Event> {
    if isIo then UploadEvents(s, size, mode, at)
    else InFile(at, UploadEvents(s, size, mode, at + 2))
  }

  /** The block given to `File.open`: the file is read from its start; `File.stat`, then the
      conversation. */
  method StatAndUpload(w: World, s: SessionId, io: LocalReader, sink: RemoteSink) returns (ok: bool)
    requires w.Valid() && Ready(w.log, s) && sink.chunks == []
    modifies w`turns, w`log, io, sink
    ensures w.Valid() && w.Stack() == old(w.Stack()) && old(w.log) <= w.log
    ensures ok ==> w.log == old(w.log)
                   + UploadEvents(s, |io.content|, io.statMode % 0x1000, |old(w.log)|)
    ensures ChunkSizes(sink.chunks) && Flat(sink.chunks) <= io.content
    ensures ok ==> Flat(sink.chunks) == io.content
    ensures ok <==> UploadLeft(4, 1, io.content, old(w.turns)).Some?
    ensures ok ==> w.turns == UploadLeft(4, 1, io.content, old(w.turns)).value
  {
    hide Nest, Orderly, FileEvents, UploadLeft;
    UploadLeftFirst(4, 1, io.content, w.turns);
    io.pos := 0;
    assert io.Rest() == io.content;
    ok := w.Try();
    if ok {
      ok := UploadVia(w, s, io, io.statMode % 0x1000, sink);
    }
  }

  /** `File.open(local, 'rb')` around the conversation. */
  method UploadFromPath(w: World, s: SessionId, io: LocalReader, sink: RemoteSink) returns (ok: bool)
    requires w.Valid() && Ready(w.log, s) && sink.chunks == [] && !io.isIo
    modifies w`turns, w`log, io, sink
    ensures w.Valid() && w.Stack() == old(w.Stack())
    ensures ok ==> w.log == old(w.log) + UploadScript(s, false, |io.content|, io.Mode(), |old(w.log)|)
    ensures old(w.log) <= w.log
    ensures ChunkSizes(sink.chunks) && Flat(sink.chunks) <= io.content
    ensures ok ==> Flat(sink.chunks) == io.content
    ensures ok <==> UploadLeft(5, 2, io.content, old(w.turns)).Some?
    ensures ok ==> w.turns == UploadLeft(5, 2, io.content, old(w.turns)).value
  {
    hide Nest, Orderly, FileEvents, UploadLeft, Flat, ChunkSizes, Ready, UploadEvents, InFile;
    UploadLeftFirst(5, 2, io.content, w.turns);
    NothingSent();
    var f;
    ok, f := w.Open(LocalFile);
    if ok {
      UploadLeftLast(4, 2, io.content, w.turns);
      ReadyGrows(old(w.log), w.log, s);
      ghost var inside := w.log;
      ok := StatAndUpload(w, s, io, sink);
      ghost var done := w.log;
      var closed := w.Close(f);
      if ok {
        ghost var events := UploadEvents(s, |io.content|, io.statMode % 0x1000, |inside|);
        assert done == inside + events;
        InFileConcat(old(w.log), events);
      }
      ok := ok && closed;
    }
  }

  /** The turns left by an upload that returns, from `wrap_local_reader` on. */
  function LocalLeft(isIo: bool, rest: Bytes, turns: seq<Turn>): Option<seq<Turn>> {
    if isIo then UploadLeft(3, 1, rest, turns) else UploadLeft(5, 2, rest, turns)
  }

  /** `wrap_local_reader` around the conversation. */
  method UploadLocal(w: World, s: SessionId, io: LocalReader, sink: RemoteSink) returns (ok: bool)
    requires w.Valid() && Ready(w.log, s) && sink.chunks == []
    modifies w`turns, w`log, io, sink
    ensures w.Valid() && w.Stack() == old(w.Stack())
    ensures ok ==> w.log == old(w.log) + UploadScript(s, io.isIo, |io.content|, io.Mode(), |old(w.log)|)
    ensures old(w.log) <= w.log && (io.isIo ==> w.Files() == old(w.Files()))
    ensures ChunkSizes(sink.chunks) && Flat(sink.chunks) <= Remaining(io.content, old(io.Start()))
    ensures ok ==> Flat(sink.chunks) == Remaining(io.content, old(io.Start()))
    ensures var left := LocalLeft(io.isIo, Remaining(io.content, old(io.Start())), old(w.turns));
            (ok <==> left.Some?) && (ok ==> w.turns == left.value)
  {
    hide Nest, Orderly, FileEvents, UploadLeft;
    if io.isIo {
      ok := UploadVia(w, s, io, 0x1A4, sink);
    } else {
      ok := UploadFromPath(w, s, io, sink);
    }
  }

  lemma FirstOfUpload(isIo: bool, rest: Bytes, turns: seq<Turn>)
    ensures (if isIo then UploadLeft(4, 1, rest, turns) else UploadLeft(6, 2, rest, turns))
            == if Failed(turns) then None else LocalLeft(isIo, rest, turns[1..])
  {
    UploadLeftFirst(4, 1, rest, turns);
    UploadLeftFirst(6, 2, rest, turns);
  }

  /** What `push_file` is told in these events: this size and this mode, and nothing else. */
  ghost predicate Announces(events: seq<Event>, size: nat, mode: int) {
    && (exists scp :: Issued(scp, PushFile(size, mode)) in events)
    && (forall scp, size', mode' :: Issued(scp, PushFile(size', mode')) in events ==> size' == size && mode' == mode)
  }

  lemma ScriptAnnounces(before: seq<Event>, setup: seq<Event>, s: SessionId, isIo: bool, size: nat, mode: int,
                        log: seq<Event>)
    requires log == before + setup + UploadScript(s, isIo, size, mode, |before + setup|)
    requires forall e :: e in setup ==> !e.Issued?
    ensures Announces(log[|before|..], size, mode)
  {
    var at := |before + setup|;
    var script := UploadScript(s, isIo, size, mode, at);
    var scp := Resource(ScpOn(s), if isIo then at + 1 else at + 3);
    assert log[|before|..] == setup + script;
    assert script[if isIo then 2 else 4] == Issued(scp, PushFile(size, mode));
    assert Issued(scp, PushFile(size, mode)) in setup + script;
    forall e | e in setup + script && e.Issued? ensures e.call == PushFile(size, mode) {
      assert e in script;
    }
  }

  /** `upload!`: after the set-up of session s, unless it came from the pool. */
  method Upload(w: World, pool: Pool, host: string, username: Option<string>, o: SshOptions,
                io: LocalReader, sink: RemoteSink)
    returns (ok: bool, ghost s: SessionId, ghost setup: seq<Event>, ghost pooled: bool)
    requires w.Valid() && AllReady(pool.idle, w.log) && sink.chunks == []
    modifies w`turns, w`log, w`nextSession, pool, io, sink
    ensures w.Valid() && w.Stack() == old(w.Stack()) && AllReady(pool.idle, w.log)
    ensures old(w.log) <= w.log && (io.isIo ==> w.Files() == old(w.Files()))
    ensures ok ==> if pooled then setup == [] else SetUpAs(setup, s, host, username, o)
    ensures ok ==> w.log == old(w.log) + setup
                   + UploadScript(s, io.isIo, |io.content|, io.Mode(), |old(w.log) + setup|)
    ensures ok ==> Announces(w.log[|old(w.log)|..], |io.content|, if io.isIo then 0x1A4 else io.statMode % 0x1000)
    ensures ok ==> s in pool.idle
    ensures ok <==> UploadCallLeft(pooled, |Settings(host, username, o)|, io.isIo,
                                   Remaining(io.content, old(io.Start())), old(w.turns)).Some?
    ensures ChunkSizes(sink.chunks) && Flat(sink.chunks) <= Remaining(io.content, old(io.Start()))
    ensures ok ==> Flat(sink.chunks) == Remaining(io.content, old(io.Start()))
  {
    hide Nest, Orderly, FileEvents, Ready, Setup, UploadScript, Settings, SetUpAs, UploadLeft, Admitted;
    ghost var rest := Remaining(io.content, io.Start());
    var session;
    ok, session, setup, pooled := pool.CheckOut(w, host, username, o);
    s := session;
    ghost var before := w.log;
    if ok {
      FirstOfUpload(io.isIo, rest, w.turns);
      ok := w.Try();    // LibSSH::Scp.new
      if ok {
        ok := UploadLocal(w, session, io, sink);
        if ok {
          ScriptAnnounces(old(w.log), setup, s, io.isIo, |io.content|, io.Mode(), w.log);
        }
      }
      AllReadyGrows(pool.idle, before, w.log);
      ReadyGrows(before, w.log, session);
      pool.CheckIn(session, w.log);
    }
  }

  // -------------------------------------------------------------- download

  /** The control side of a download: each request pulled, and how it was answered. */
  datatype Answer = Pulled(request: Request) | Accepted | Denied

  /** The peer of a download. */
  class ScpSource {
    var requests: seq<Request>
    var answers: seq<Answer>

    constructor (requests: seq<Request>)
      ensures this.requests == requests && answers == []
    {
      this.requests, answers := requests, [];
    }

    /** `pull_request`. */
    method Pull(w: World, scp: Resource) returns (ok: bool, r: Request)
      requires w.Valid() && scp in w.Stack() && requests != []
      modifies this, w`log, w`turns
      ensures w.Valid() && w.Stack() == old(w.Stack()) && old(w.log) <= w.log && w.Files() == old(w.Files())
      ensures ok == !Failed(old(w.turns)) && w.turns == After(old(w.turns))
      ensures ok ==> r == old(requests)[0] && requests == old(requests)[1..] && answers == old(answers) + [Pulled(r)]
      ensures !ok ==> requests == old(requests) && answers == old(answers)
    {
      var t;
      ok, t := w.Use(scp, PullRequest);
      r := requests[0];
      if ok {
        requests, answers := requests[1..], answers + [Pulled(r)];
      }
    }

    /** `accept_request`, or `deny_request`. */
    method Reply(w: World, scp: Resource, accept: bool) returns (ok: bool)
      requires w.Valid() && scp in w.Stack()
      modifies this`answers, w`log, w`turns
      ensures w.Valid() && w.Stack() == old(w.Stack()) && old(w.log) <= w.log && w.Files() == old(w.Files())
      ensures ok == !Failed(old(w.turns)) && w.turns == After(old(w.turns))
      ensures answers == old(answers) + (if !ok then [] else if accept then [Accepted] else [Denied])
    {
      var t;
      ok, t := w.Use(scp, if accept then AcceptRequest else DenyRequest);
      answers := answers + (if !ok then [] else if accept then [Accepted] else [Denied]);
    }
  }

  /** A local target: its bytes, and the mode of every `File.open(local, 'wb', mode)`. */
  datatype Target = Target(data: Bytes, modes: seq<int>)

  class LocalTarget {
    const isIo: bool
    var data: Bytes
    var modes: seq<int>

    constructor (isIo: bool, data: Bytes)
      ensures this.isIo == isIo && Now() == Target(data, [])
    {
      this.isIo, this.data, modes := isIo, data, [];
    }

    function Now(): Target
      reads this
    {
      Target(data, modes)
    }

    /** `io.write`: all of it, or an exception. */
    method Write(w: World, buf: Bytes) returns (ok: bool)
      modifies this`data, w`turns
      ensures ok == !Failed(old(w.turns)) && w.turns == After(old(w.turns))
      ensures data == old(data) + (if ok then buf else [])
    {
      ok := w.Try();
      data := data + (if ok then buf else []);
    }
  }

  /** The target as a NEWFILE starts on it: an IO-like object goes on where it is, a path is
      truncated. */
  function Begun(isIo: bool, t: Target, mode: int): Target {
    if isIo then t else Target([], t.modes + [mode])
  }

  /** One complete NEWFILE. */
  function Taken(isIo: bool, t: Target, content: Bytes, mode: int): Target {
    Target(Begun(isIo, t, mode).data + content, Begun(isIo, t, mode).modes)
  }

  /** A NEWFILE cut short by an exception leaves the target as it was, or begun and followed
      by a prefix of the file. */
  ghost predicate CutShort(isIo: bool, t: Target, content: Bytes, mode: int, t': Target) {
    || t' == t
    || (var b := Begun(isIo, t, mode);
        t'.modes == b.modes && b.data <= t'.data <= b.data + content)
  }

  /** The target after all requests up to the first EOF. */
  function Fold(isIo: bool, requests: seq<Request>, t: Target): Target {
    if requests == [] then t
    else
      match requests[0]
      case NewFile(content, mode) => Fold(isIo, requests[1..], Taken(isIo, t, content, mode))
      case Eof => t
      case _ => Fold(isIo, requests[1..], t)
  }

  /** The targets an interrupted download may leave. */
  ghost predicate Interrupted(isIo: bool, requests: seq<Request>, t: Target, t': Target) {
    || t' == t
    || (requests != [] && match requests[0]
        case NewFile(content, mode) =>
          CutShort(isIo, t, content, mode, t') || Interrupted(isIo, requests[1..], Taken(isIo, t, content, mode), t')
        case Eof => false
        case _ => Interrupted(isIo, requests[1..], t, t'))
  }

  /** How a request is answered: only files are accepted, only directories are denied. */
  function AnswersTo(r: Request): seq<Answer> {
    match r
    case NewFile(_, _) => [Pulled(r), Accepted]
    case NewDir => [Pulled(r), Denied]
    case _ => [Pulled(r)]
  }

  /** The whole control conversation, each request answered before the next is pulled. */
  function Answers(requests: seq<Request>): seq<Answer> {
    if requests == [] then []
    else AnswersTo(requests[0]) + (if requests[0].Eof? then [] else Answers(requests[1..]))
  }

  /** The last NEWFILE before EOF, if there is one. */
  function LastFile(requests: seq<Request>): Option<Bytes> {
    if requests == [] || requests[0].Eof? then None
    else if LastFile(requests[1..]).Some? then LastFile(requests[1..])
    else if requests[0].NewFile? then Some(requests[0].content)
    else None
  }

  /** All files before EOF, one after the other. */
  function AllFiles(requests: seq<Request>): Bytes {
    if requests == [] || requests[0].Eof? then []
    else (if requests[0].NewFile? then requests[0].content else []) + AllFiles(requests[1..])
  }

  /** The modes announced for the files before EOF, in order. */
  function FileModes(requests: seq<Request>): seq<int> {
    if requests == [] || requests[0].Eof? then []
    else if requests[0].NewFile? then [requests[0].mode] + FileModes(requests[1..])
    else FileModes(requests[1..])
  }

  /** A path is opened once for each file, with the mode announced for it; an IO-like target
      never. */
  lemma {:induction false} FoldModes(isIo: bool, requests: seq<Request>, t: Target)
    ensures Fold(isIo, requests, t).modes == t.modes + (if isIo then [] else FileModes(requests))
  {
    if requests == [] {
    } else if requests[0].NewFile? {
      FoldModes(isIo, requests[1..], Taken(isIo, t, requests[0].content, requests[0].mode));
    } else if !requests[0].Eof? {
      FoldModes(isIo, requests[1..], t);
    }
  }

  /** An IO-like target ends with all the files appended, a path with the last file alone. */
  lemma {:induction false} FoldMeaning(isIo: bool, requests: seq<Request>, t: Target)
    ensures isIo ==> Fold(isIo, requests, t).data == t.data + AllFiles(requests)
    ensures !isIo ==> Fold(isIo, requests, t).data == (if LastFile(requests).Some? then LastFile(requests).value else t.data)
  {
    if requests == [] {
    } else if requests[0].NewFile? {
      FoldMeaning(isIo, requests[1..], Taken(isIo, t, requests[0].content, requests[0].mode));
    } else if !requests[0].Eof? {
      FoldMeaning(isIo, requests[1..], t);
    }
  }

  /** Entry i of a conversation and its neighbours: an acceptance answers a file just pulled
      and a denial a directory just pulled, every file and every directory is answered so at
      once, and nothing follows EOF. */
  ghost predicate AnsweredAt(a: seq<Answer>, i: nat)
    requires i < |a|
  {
    match a[i]
    case Accepted => i > 0 && a[i - 1].Pulled? && a[i - 1].request.NewFile?
    case Denied => i > 0 && a[i - 1] == Pulled(NewDir)
    case Pulled(NewFile(_, _)) => i + 1 < |a| && a[i + 1] == Accepted
    case Pulled(NewDir) => i + 1 < |a| && a[i + 1] == Denied
    case Pulled(Eof) => i == |a| - 1
    case _ => true
  }

  lemma {:induction false} AnswersAreImmediate(requests: seq<Request>, i: nat)
    requires i < |Answers(requests)|
    ensures AnsweredAt(Answers(requests), i)
  {
    var now := AnswersTo(requests[0]);
    var later := if requests[0].Eof? then [] else Answers(requests[1..]);
    assert Answers(requests) == now + later;
    if i >= |now| {
      AnswersAreImmediate(requests[1..], i - |now|);
      assert i > |now| ==> (now + later)[i - 1] == later[i - |now| - 1];
    }
  }

  function PulledIn(answers: seq<Answer>): seq<Request> {
    if answers == [] then []
    else (if answers[0].Pulled? then [answers[0].request] else []) + PulledIn(answers[1..])
  }

  /** The requests are pulled in the order the peer makes them, up to the first EOF. */
  lemma {:induction false} PulledInOrder(requests: seq<Request>)
    ensures PulledIn(Answers(requests)) <= requests
    ensures AfterEof(requests).Some? ==> requests == PulledIn(Answers(requests)) + AfterEof(requests).value
  {
    hide AnswersTo;
    if requests != [] {
      var first, rest := requests[0], requests[1..];
      assert requests == [first] + rest;
      if first.Eof? {
        PulledCons(first, []);
      } else {
        PulledInOrder(rest);
        PulledCons(first, Answers(rest));
      }
    }
  }

  lemma PulledCons(r: Request, later: seq<Answer>)
    ensures PulledIn(AnswersTo(r) + later) == [r] + PulledIn(later)
  {
    var a := AnswersTo(r) + later;
    assert a[0] == Pulled(r);
    if |AnswersTo(r)| == 2 {
      assert a[1..][0] == AnswersTo(r)[1];
      assert a[1..][1..] == later;
    } else {
      assert a[1..] == later;
    }
  }

  /** With `done` written already, `now` is what is left of the whole run. */
  ghost predicate Continues(run: CopyEnd, done: Bytes, now: CopyEnd) {
    run == CopyEnd(now.finished, done + now.written, now.turns)
  }

  lemma CopyStart(content: Bytes, turns: seq<Turn>)
    ensures Continues(DownloadRun(content, turns), [], CopyRun(|content|, 0, content, turns))
  {
  }

  lemma CopyEnds(run: CopyEnd, done: Bytes, size: nat, n: nat, rest: Bytes, turns: seq<Turn>)
    requires Continues(run, done, CopyRun(size, n, rest, turns))
    requires n >= size || size - n > INT_MAX
    ensures run == CopyEnd(n >= size, done, turns)
  {
  }

  lemma CopyFails(run: CopyEnd, done: Bytes, size: nat, n: nat, rest: Bytes, turns: seq<Turn>)
    requires Continues(run, done, CopyRun(size, n, rest, turns)) && n < size && size - n <= INT_MAX
    requires Failed(turns) || Failed(turns[1..])
    ensures run == CopyEnd(false, done, AfterFailure(turns))
  {
  }

  lemma CopyGoesOn(run: CopyEnd, done: Bytes, size: nat, n: nat, rest: Bytes, turns: seq<Turn>)
    requires Continues(run, done, CopyRun(size, n, rest, turns)) && n < size && size - n <= INT_MAX
    requires !Failed(turns) && !Failed(turns[1..])
    ensures var buf := ReadChunk(rest, turns[0].want, size - n);
            Continues(run, done + buf, CopyRun(size, n + CharCount(buf), rest[|buf|..], turns[2..]))
  {
    hide CharCount;
  }

  /** The turns left when the first or the second call from here raised. */
  function AfterFailure(turns: seq<Turn>): seq<Turn>
    requires Failed(turns) || Failed(turns[1..])
  {
    if Failed(turns) then After(turns) else After(turns[1..])
  }

  /** `buf = scp.read(limit); io.write(buf)`. */
  method CopyChunk(w: World, rest: Bytes, limit: nat, target: LocalTarget) returns (ok: bool, buf: Bytes)
    modifies w`turns, target`data
    ensures ok == (!Failed(old(w.turns)) && !Failed(old(w.turns)[1..]))
    ensures ok ==> |old(w.turns)| >= 2 && old(w.turns)[0].Go?
    ensures ok ==> buf == ReadChunk(rest, old(w.turns)[0].want, limit) && w.turns == old(w.turns)[2..]
    ensures !ok ==> buf == [] && w.turns == AfterFailure(old(w.turns))
    ensures target.data == old(target.data) + buf
  {
    var t;
    ok, t := w.Next();
    buf := [];
    if ok {
      var chunk := ReadChunk(rest, t.want, limit);
      ok := target.Write(w, chunk);
      buf := if ok then chunk else [];
    }
  }

  /** `while n < size`: read, write, count characters. */
  method CopyLoop(w: World, content: Bytes, target: LocalTarget) returns (ok: bool)
    modifies w`turns, target`data
    ensures ok == DownloadRun(content, old(w.turns)).finished && w.turns == DownloadRun(content, old(w.turns)).turns
    ensures target.data == old(target.data) + DownloadRun(content, old(w.turns)).written
  {
    hide CharCount, ReadChunk, CopyRun, Continues, DownloadRun, AfterFailure, Failed;
    var size, n: nat, rest := |content|, 0, content;
    ghost var run, done: Bytes := DownloadRun(content, w.turns), [];
    CopyStart(content, w.turns);
    while n < size
      invariant target.data == old(target.data) + done
      invariant Continues(run, done, CopyRun(size, n, rest, w.turns))
      decreases |w.turns|
    {
      ghost var turns := w.turns;
      if size - n > INT_MAX {
        CopyEnds(run, done, size, n, rest, turns);
        return false;
      }
      var buf;
      ok, buf := CopyChunk(w, rest, size - n, target);
      if !ok {
        CopyFails(run, done, size, n, rest, turns);
        return;
      }
      CopyGoesOn(run, done, size, n, rest, turns);
      assert target.data == old(target.data) + (done + buf);
      done := done + buf;
      n, rest := n + CharCount(buf), rest[|buf|..];
    }
    CopyEnds(run, done, size, n, rest, w.turns);
    ok := true;
  }

  lemma NotCut(isIo: bool, t: Target, content: Bytes, mode: int)
    ensures CutShort(isIo, t, content, mode, t)
  {
  }

  /** `File.open(local, 'wb', mode)` around the copy loop. */
  method CopyToPath(w: World, content: Bytes, mode: int, target: LocalTarget) returns (ok: bool)
    requires w.Valid() && !target.isIo
    modifies w`turns, w`log, target
    ensures w.Valid() && w.Stack() == old(w.Stack()) && old(w.log) <= w.log
    ensures ok ==> w.log == old(w.log) + InFile(|old(w.log)|, [])
    ensures ok ==> target.Now() == Taken(false, old(target.Now()), content, mode)
    ensures CutShort(false, old(target.Now()), content, mode, target.Now())
    ensures var left := CopyLeft(1, 1, content, old(w.turns)); (ok <==> left.Some?) && (ok ==> w.turns == left.value)
  {
    hide Nest, Orderly, FileEvents, CutShort, Taken, CopyLeft;
    CopyLeftFirst(1, 1, content, w.turns);
    NotCut(false, target.Now(), content, mode);
    var f;
    ok, f := w.Open(LocalFile);
    if ok {
      CopyLeftLast(0, 1, content, w.turns);
      ok := TruncateAndCopy(w, content, mode, target);
      var closed := w.Close(f);
      ok := ok && closed;
    }
  }

  lemma CopyLeftBare(content: Bytes, turns: seq<Turn>)
    ensures CopyLeft(0, 0, content, turns)
            == if DownloadRun(content, turns).finished then Some(DownloadRun(content, turns).turns) else None
  {
    hide DownloadRun;
    assert turns[0..] == turns && turns[..0] == [];
    assert DownloadRun(content, turns).turns[0..] == DownloadRun(content, turns).turns;
  }

  /** The freshly opened file is empty; then the loop. */
  method TruncateAndCopy(w: World, content: Bytes, mode: int, target: LocalTarget) returns (ok: bool)
    requires !target.isIo
    modifies w`turns, target
    ensures ok ==> target.Now() == Taken(target.isIo, old(target.Now()), content, mode)
    ensures CutShort(target.isIo, old(target.Now()), content, mode, target.Now())
    ensures var left := CopyLeft(0, 0, content, old(w.turns)); (ok <==> left.Some?) && (ok ==> w.turns == left.value)
  {
    hide DownloadRun, CopyLeft;
    CopyLeftBare(content, w.turns);
    FinishedMeansExact(content, w.turns);
    target.data, target.modes := [], target.modes + [mode];
    ok := CopyLoop(w, content, target);
  }

  /** The turns left by a file that comes across after `calls` more calls, a path being opened
      and closed around it. */
  function FileLeft(isIo: bool, calls: nat, content: Bytes, turns: seq<Turn>): Option<seq<Turn>> {
    if isIo then CopyLeft(calls, 0, content, turns) else CopyLeft(calls + 1, 1, content, turns)
  }

  lemma FileLeftFirst(isIo: bool, calls: nat, content: Bytes, turns: seq<Turn>)
    requires calls > 0
    ensures FileLeft(isIo, calls, content, turns)
            == if Failed(turns) then None else FileLeft(isIo, calls - 1, content, turns[1..])
  {
    hide CopyLeft;
    CopyLeftFirst(calls, 0, content, turns);
    CopyLeftFirst(calls + 1, 1, content, turns);
  }

  /** `download_file` on an accepted NEWFILE. */
  method DownloadFile(w: World, scp: Resource, content: Bytes, mode: int, source: ScpSource, target: LocalTarget)
    returns (ok: bool)
    requires w.Valid() && scp in w.Stack()
    modifies w`turns, w`log, source`answers, target
    ensures w.Valid() && w.Stack() == old(w.Stack()) && old(w.log) <= w.log
    ensures target.isIo ==> w.Files() == old(w.Files())
    ensures source.answers == old(source.answers) || source.answers == old(source.answers) + [Accepted]
    ensures ok ==> source.answers == old(source.answers) + [Accepted]
    ensures ok ==> target.Now() == Taken(target.isIo, old(target.Now()), content, mode)
    ensures CutShort(target.isIo, old(target.Now()), content, mode, target.Now())
    ensures var left := FileLeft(target.isIo, 2, content, old(w.turns)); (ok <==> left.Some?) && (ok ==> w.turns == left.value)
  {
    hide Nest, Orderly, FileEvents, CopyLeft, DownloadRun;
    FileLeftFirst(target.isIo, 2, content, w.turns);
    ok := w.Try();    // request_permissions
    if !ok {
      return;
    }
    FileLeftFirst(target.isIo, 1, content, w.turns);
    ok := source.Reply(w, scp, true);
    if !ok {
      return;
    }
    if target.isIo {
      CopyLeftBare(content, w.turns);
      FinishedMeansExact(content, w.turns);
      ok := CopyLoop(w, content, target);
    } else {
      ok := CopyToPath(w, content, mode, target);
    }
  }

  /** Where a download stands: what the requests left will add, in answers and in the target,
      is what is missing from the whole. */
  ghost predicate Underway(isIo: bool, all: seq<Request>, answers0: seq<Answer>, t0: Target,
                           rest: seq<Request>, answers: seq<Answer>, t: Target)
  {
    && answers + Answers(rest) == answers0 + Answers(all)
    && Fold(isIo, rest, t) == Fold(isIo, all, t0)
    && AfterEof(rest) == AfterEof(all)
    && forall t' :: Interrupted(isIo, rest, t, t') ==> Interrupted(isIo, all, t0, t')
  }

  /** The target after one complete request. */
  function After1(isIo: bool, r: Request, t: Target): Target {
    if r.NewFile? then Taken(isIo, t, r.content, r.mode) else t
  }

  lemma InterruptedLater(isIo: bool, rest: seq<Request>, t: Target, t': Target)
    requires rest != [] && !rest[0].Eof?
    requires Interrupted(isIo, rest[1..], After1(isIo, rest[0], t), t')
    ensures Interrupted(isIo, rest, t, t')
  {
  }

  /** What the recursive descriptions say about a first request other than EOF. */
  lemma FirstRequest(isIo: bool, rest: seq<Request>, t: Target)
    requires rest != [] && !rest[0].Eof?
    ensures Answers(rest) == AnswersTo(rest[0]) + Answers(rest[1..])
    ensures Fold(isIo, rest, t) == Fold(isIo, rest[1..], After1(isIo, rest[0], t))
    ensures AfterEof(rest) == AfterEof(rest[1..])
  {
  }

  /** One request handled completely. */
  lemma UnderwayStep(isIo: bool, all: seq<Request>, answers0: seq<Answer>, t0: Target,
                     rest: seq<Request>, answers: seq<Answer>, t: Target)
    requires Underway(isIo, all, answers0, t0, rest, answers, t)
    requires rest != [] && !rest[0].Eof?
    ensures Underway(isIo, all, answers0, t0, rest[1..], answers + AnswersTo(rest[0]), After1(isIo, rest[0], t))
  {
    hide Answers, AnswersTo, Fold, AfterEof, Interrupted, After1;
    FirstRequest(isIo, rest, t);
    assert answers + AnswersTo(rest[0]) + Answers(rest[1..]) == answers + (AnswersTo(rest[0]) + Answers(rest[1..]));
    forall t' | Interrupted(isIo, rest[1..], After1(isIo, rest[0], t), t')
      ensures Interrupted(isIo, all, t0, t')
    {
      InterruptedLater(isIo, rest, t, t');
    }
  }

  /** The `loop do case scp.pull_request` loop. */
  method DownloadLoop(w: World, scp: Resource, source: ScpSource, target: LocalTarget) returns (ok: bool)
    requires w.Valid() && scp in w.Stack()
    modifies w`turns, w`log, source, target
    ensures w.Valid() && w.Stack() == old(w.Stack()) && old(w.log) <= w.log
    ensures target.isIo ==> w.Files() == old(w.Files())
    ensures source.answers <= old(source.answers) + Answers(old(source.requests))
    ensures Interrupted(target.isIo, old(source.requests), old(target.Now()), target.Now())
    ensures ok ==> AfterEof(old(source.requests)) == Some(source.requests)
    ensures ok ==> source.answers == old(source.answers) + Answers(old(source.requests))
    ensures ok ==> target.Now() == Fold(target.isIo, old(source.requests), old(target.Now()))
    ensures var left := LoopLeft(target.isIo, old(source.requests), old(w.turns)); (ok <==> left.Some?) && (ok ==> w.turns == left.value)
  {
    hide Nest, Orderly, FileEvents, RequestLeft;
    while source.requests != []
      invariant w.Valid() && w.Stack() == old(w.Stack()) && old(w.log) <= w.log
      invariant target.isIo ==> w.Files() == old(w.Files())
      invariant Underway(target.isIo, old(source.requests), old(source.answers), old(target.Now()),
                         source.requests, source.answers, target.Now())
      invariant LoopLeft(target.isIo, source.requests, w.turns)
                == LoopLeft(target.isIo, old(source.requests), old(w.turns))
      decreases |source.requests|
    {
      ghost var all, answers0, t0 := old(source.requests), old(source.answers), old(target.Now());
      ghost var rest, answers, t := source.requests, source.answers, target.Now();
      var atEof;
      ok, atEof := HandleRequest(w, scp, source, target);
      if atEof || !ok {
        return;
      }
      UnderwayStep(target.isIo, all, answers0, t0, rest, answers, t);
    }
    var t;
    ok, t := w.Use(scp, PullRequest);
    ok := false;    // the peer is gone
  }

  /** One turn of the loop: pull a request and act on it. */
  method HandleRequest(w: World, scp: Resource, source: ScpSource, target: LocalTarget)
    returns (ok: bool, atEof: bool)
    requires w.Valid() && scp in w.Stack() && source.requests != []
    modifies w`turns, w`log, source, target
    ensures w.Valid() && w.Stack() == old(w.Stack()) && old(w.log) <= w.log
    ensures target.isIo ==> w.Files() == old(w.Files())
    ensures ok ==> source.requests == old(source.requests)[1..]
    ensures ok ==> source.answers == old(source.answers) + AnswersTo(old(source.requests)[0])
    ensures source.answers <= old(source.answers) + AnswersTo(old(source.requests)[0])
    ensures atEof <==> ok && old(source.requests)[0] == Eof
    ensures ok ==> target.Now() == After1(target.isIo, old(source.requests)[0], old(target.Now()))
    ensures HandledTo(target.isIo, old(source.requests)[0], old(target.Now()), target.Now())
    ensures var left := RequestLeft(target.isIo, old(source.requests)[0], old(w.turns));
            (ok <==> left.Some?) && (ok ==> w.turns == left.value)
  {
    hide Nest, Orderly, FileEvents, CopyLeft, RequestLeft;
    atEof := false;
    RequestLeftFirst(target.isIo, source.requests[0], w.turns);
    var r;
    ok, r := source.Pull(w, scp);
    if ok {
      ok := Answering(w, scp, r, source, target);
      atEof := ok && r.Eof?;
    }
  }

  /** The turns left once a request just pulled has been acted on. */
  function AnswerLeft(isIo: bool, r: Request, turns: seq<Turn>): Option<seq<Turn>> {
    match r
    case NewFile(content, _) => FileLeft(isIo, 3, content, turns)
    case NewDir => if Failed(turns) then None else Some(turns[1..])
    case _ => Some(turns)
  }

  lemma RequestLeftFirst(isIo: bool, r: Request, turns: seq<Turn>)
    ensures RequestLeft(isIo, r, turns) == if Failed(turns) then None else AnswerLeft(isIo, r, turns[1..])
  {
    hide CopyLeft;
    match r
    case NewFile(content, _) => FileLeftFirst(isIo, 4, content, turns);
    case NewDir =>
      CallsFirst(2, turns);
      if !Failed(turns) { CallsFirst(1, turns[1..]); }
    case _ =>
      CallsFirst(1, turns);
  }

  /** The branches of the `case`. */
  method Answering(w: World, scp: Resource, r: Request, source: ScpSource, target: LocalTarget)
    returns (ok: bool)
    requires w.Valid() && scp in w.Stack()
    modifies w`turns, w`log, source`answers, target
    ensures w.Valid() && w.Stack() == old(w.Stack()) && old(w.log) <= w.log
    ensures target.isIo ==> w.Files() == old(w.Files())
    ensures ok ==> source.answers == old(source.answers) + AnswersTo(r)[1..]
    ensures source.answers <= old(source.answers) + AnswersTo(r)[1..]
    ensures ok ==> target.Now() == After1(target.isIo, r, old(target.Now()))
    ensures HandledTo(target.isIo, r, old(target.Now()), target.Now())
    ensures var left := AnswerLeft(target.isIo, r, old(w.turns)); (ok <==> left.Some?) && (ok ==> w.turns == left.value)
  {
    hide Nest, Orderly, FileEvents, CopyLeft, FileLeft;
    ok := true;
    match r
    case NewFile(content, mode) =>
      FileLeftFirst(target.isIo, 3, content, w.turns);
      ok := w.Try();    // info "Downloading ..."
      if ok {
        ok := DownloadFile(w, scp, content, mode, source, target);
      }
    case NewDir =>
      ok := source.Reply(w, scp, false);
    case _ =>
  }

  /** What one request, complete or interrupted, may make of the target. */
  ghost predicate HandledTo(isIo: bool, r: Request, t: Target, t': Target) {
    if r.NewFile? then CutShort(isIo, t, r.content, r.mode, t') else t' == t
  }

  /** What a download makes of its two ends.  Complete: everything up to EOF was answered and
      folded into the target.  In any case: a prefix of the answers, and the target as some
      interruption leaves it. */
  ghost predicate Fetched(isIo: bool, requests0: seq<Request>, answers0: seq<Answer>, t0: Target,
                          ok: bool, requests: seq<Request>, answers: seq<Answer>, t: Target)
  {
    && answers <= answers0 + Answers(requests0)
    && Interrupted(isIo, requests0, t0, t)
    && (ok ==>
          && AfterEof(requests0) == Some(requests)
          && answers == answers0 + Answers(requests0)
          && t == Fold(isIo, requests0, t0))
  }

  lemma NothingFetched(isIo: bool, requests: seq<Request>, answers: seq<Answer>, t: Target)
    ensures Fetched(isIo, requests, answers, t, false, requests, answers, t)
  {
  }

  /** The scp conversation of a download, closed however its block ends. */
  method DownloadVia(w: World, s: SessionId, source: ScpSource, target: LocalTarget) returns (ok: bool)
    requires w.Valid() && Ready(w.log, s)
    modifies w`turns, w`log, source, target
    ensures w.Valid() && w.Stack() == old(w.Stack()) && old(w.log) <= w.log
    ensures target.isIo ==> w.Files() == old(w.Files())
    ensures Fetched(target.isIo, old(source.requests), old(source.answers), old(target.Now()),
                    ok, source.requests, source.answers, target.Now())
    ensures var left := ConversationLeft(1, target.isIo, old(source.requests), old(w.turns));
            (ok <==> left.Some?) && (ok ==> w.turns == left.value)
  {
    hide Nest, Orderly, FileEvents, LoopLeft;
    CallsFirst(1, w.turns);
    var scp;
    ok, scp := w.Open(ScpOn(s));
    if !ok {
      return;
    }
    ok := DownloadLoop(w, scp, source, target);
    CallsFirst(1, w.turns);
    var closed := w.Close(scp);
    ok := ok && closed;
  }

  /** `download!`. */
  method Download(w: World, pool: Pool, host: string, username: Option<string>, o: SshOptions,
                  source: ScpSource, target: LocalTarget)
    returns (ok: bool, ghost s: SessionId, ghost setup: seq<Event>, ghost pooled: bool)
    requires w.Valid() && AllReady(pool.idle, w.log)
    modifies w`turns, w`log, w`nextSession, pool, source, target
    ensures w.Valid() && w.Stack() == old(w.Stack()) && AllReady(pool.idle, w.log)
    ensures old(w.log) <= w.log && (target.isIo ==> w.Files() == old(w.Files()))
    ensures Fetched(target.isIo, old(source.requests), old(source.answers), old(target.Now()),
                    ok, source.requests, source.answers, target.Now())
    ensures ok ==> if pooled then setup == [] else SetUpAs(setup, s, host, username, o)
    ensures ok ==> old(w.log) + setup <= w.log && s in pool.idle
    ensures ok <==> DownloadCallLeft(pooled, |Settings(host, username, o)|, target.isIo,
                                     old(source.requests), old(w.turns)).Some?
  {
    hide Nest, Orderly, FileEvents, Ready, Fetched, Setup, Settings, SetUpAs, ConversationLeft, Admitted;
    NothingFetched(target.isIo, source.requests, source.answers, target.Now());
    var session;
    ok, session, setup, pooled := pool.CheckOut(w, host, username, o);
    s := session;
    ghost var before := w.log;
    if ok {
      ConversationLeftFirst(2, target.isIo, source.requests, w.turns);
      ok := w.Try();    // LibSSH::Scp.new
      if ok {
        ok := DownloadVia(w, session, source, target);
      }
      AllReadyGrows(pool.idle, before, w.log);
      ReadyGrows(before, w.log, session);
      pool.CheckIn(session, w.log);
    }
  }

  lemma ConversationLeftFirst(calls: nat, isIo: bool, requests: seq<Request>, turns: seq<Turn>)
    requires calls > 0
    ensures ConversationLeft(calls, isIo, requests, turns)
            == if Failed(turns) then None else ConversationLeft(calls - 1, isIo, requests, turns[1..])
  {
    hide LoopLeft;
    CallsFirst(calls, turns);
  }
}
