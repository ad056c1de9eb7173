/** `execute_command`, and whole runs of the backend: any commands, one after the other, over
    one pool, the caller rescuing whatever they raise. */
module Backend {
  import opened Base
  import opened Journal
  import opened Environment
  import opened Sessions
  import opened Exec
  import R = Returns
  import T = Transfers
  import TS = TransferSpec

  /** The journal of a completed command whose channel is opened at place `at`. */
  function ExecScript(s: SessionId, pty: bool, code: int, at: nat): seq<Event> {
    var ch := Resource(ChannelOn(s), at + 1);
    [Opening(ChannelOn(s)), Opened(ch)] + (if pty then [Issued(ch, RequestPty)] else [])
    + ExecCalls(ch, code) + [Closing(ch)]
  }

  function ExecCalls(ch: Resource, code: int): seq<Event> {
    [Issued(ch, RequestExec), Issued(ch, ExecAccepted), Issued(ch, GetExitStatus), Issued(ch, ExitReported(code))]
  }

  lemma CallsConcat(before: seq<Event>, ch: Resource, code: int)
    ensures before + [Issued(ch, RequestExec), Issued(ch, ExecAccepted)]
            + [Issued(ch, GetExitStatus), Issued(ch, ExitReported(code))] == before + ExecCalls(ch, code)
  {
  }

  lemma ScriptConcat(before: seq<Event>, s: SessionId, pty: bool, code: int)
    ensures var ch := Resource(ChannelOn(s), |before| + 1);
            before + [Opening(ChannelOn(s)), Opened(ch)]
            + (if pty then [Issued(ch, RequestPty)] else []) + ExecCalls(ch, code) + [Closing(ch)]
            == before + ExecScript(s, pty, code, |before|)
  {
  }

  /** One of these events reports the code behind the status. */
  ghost predicate ReportedIn(events: seq<Event>, status: Option<Option<int>>) {
    exists r, code :: Issued(r, ExitReported(code)) in events && Told(status, code)
  }

  /** These events report this code, and no other. */
  ghost predicate Reports(events: seq<Event>, code: int) {
    && (exists r :: Issued(r, ExitReported(code)) in events)
    && (forall r, code' :: Issued(r, ExitReported(code')) in events ==> code' == code)
  }

  lemma ReportedGrows(log0: seq<Event>, log1: seq<Event>, log2: seq<Event>, log3: seq<Event>, status: Option<Option<int>>)
    requires log0 <= log1 <= log2 <= log3
    ensures ReportedIn(log2[|log1|..], status) ==> ReportedIn(log3[|log0|..], status)
  {
    if ReportedIn(log2[|log1|..], status) {
      var r, code :| Issued(r, ExitReported(code)) in log2[|log1|..] && Told(status, code);
      var i :| 0 <= i < |log2| - |log1| && log2[|log1|..][i] == Issued(r, ExitReported(code));
      assert log3[|log0|..][|log1| - |log0| + i] == Issued(r, ExitReported(code));
    }
  }

  lemma ScriptReports(before: seq<Event>, setup: seq<Event>, s: SessionId, pty: bool, code: int, log: seq<Event>)
    requires log == before + setup + ExecScript(s, pty, code, |before + setup|)
    requires forall e :: e in setup ==> !e.Issued?
    ensures Reports(log[|before|..], code)
  {
    var at := |before + setup|;
    var script, ch := ExecScript(s, pty, code, at), Resource(ChannelOn(s), at + 1);
    assert log[|before|..] == setup + script;
    assert script[if pty then 6 else 5] == Issued(ch, ExitReported(code));
    assert Issued(ch, ExitReported(code)) in setup + script;
    forall e | e in setup + script && e.Issued? && e.call.ExitReported? ensures e.call.code == code {
      assert e in script;
    }
  }

  /** Calls enough for the whole command, none of which raises: one before the session is at
      hand, and k after. */
  predicate Smooth(pooled: bool, n: nat, k: nat, turns: seq<Turn>) {
    && !Failed(turns)
    && var left := SessionLeft(pooled, n, turns[1..]);
       left.Some? && NoFault(left.value) && |left.value| >= k
  }

  /** `cmd.exit_status = channel.get_exit_status`, and `log_command_exit`. */
  method TakeStatus(w: World, r: Resource, cmd: Command) returns (ok: bool, ghost code: int)
    requires w.Valid() && r in w.Stack() && Issued(r, ExecAccepted) in w.log
    modifies w`turns, w`log, cmd`exitStatus
    ensures w.Valid() && w.Stack() == old(w.Stack()) && old(w.log) <= w.log
    ensures ok ==> w.log == old(w.log) + [Issued(r, GetExitStatus), Issued(r, ExitReported(code))]
    ensures ok && code == -1 ==> cmd.exitStatus == Some(None)
    ensures ok && code != -1 ==> cmd.exitStatus == Some(Some(code))
    ensures cmd.exitStatus == old(cmd.exitStatus) || ReportedIn(w.log[|old(w.log)|..], cmd.exitStatus)
    ensures Spent(old(w.turns), w.turns, 2, ok)
  {
    hide Nest, Orderly, FileEvents;
    var status;
    ok, status := w.AskExitStatus(r);
    code := status;
    if ok {
      assert w.log[|old(w.log)|..][1] == Issued(r, ExitReported(code));
      cmd.exitStatus := Some(if status == -1 then None else Some(status));
      ok := w.Try();    // output.log_command_exit
    }
  }

  /** `request_exec`, the output loop, `get_exit_status`. */
  method RunCommand(w: World, r: Resource, ch: Channel, cmd: Command) returns (ok: bool, ghost code: int)
    requires w.Valid() && r in w.Stack() && ch.Valid() && ChunkSizes(cmd.onStdout) && ChunkSizes(cmd.onStderr)
    modifies w`turns, w`log, ch, cmd
    ensures w.Valid() && w.Stack() == old(w.Stack()) && old(w.log) <= w.log
    ensures ok ==> w.log == old(w.log) + ExecCalls(r, code) && ch.sendsEof
    ensures ok && code == -1 ==> cmd.exitStatus == Some(None)
    ensures ok && code != -1 ==> cmd.exitStatus == Some(Some(code))
    ensures cmd.exitStatus == old(cmd.exitStatus) || ReportedIn(w.log[|old(w.log)|..], cmd.exitStatus)
    ensures StreamsKept(ch, cmd, old(Whole(ch, cmd, false)), old(Whole(ch, cmd, true)))
    ensures ok || cmd.exitStatus != old(cmd.exitStatus) ==> ch.Undelivered(false) == ch.Undelivered(true) == []
    ensures cmd.started == old(cmd.started)
    ensures ch.sendsEof ==> Spent(old(w.turns), w.turns, 8 * old(ch.Load()) + 11, ok)
  {
    hide Nest, Orderly, FileEvents, Ready, Whole, ChunkSizes, ExecCalls, ReportedIn;
    code := -1;
    ok := w.AskExec(r);
    if !ok {
      return;
    }
    ok := Pump(w, ch, cmd);
    if !ok {
      return;
    }
    ghost var accepted := w.log;
    assert accepted[|old(w.log)| + 1] == Issued(r, ExecAccepted);
    ok, code := TakeStatus(w, r, cmd);
    ReportedGrows(old(w.log), accepted, w.log, w.log, cmd.exitStatus);
    CallsConcat(old(w.log), r, code);
  }

  /** Both streams are still whole, and cut into chunks of 1 to BUFSIZ bytes. */
  ghost predicate StreamsKept(ch: Channel, cmd: Command, out: Bytes, err: Bytes)
    reads ch, cmd`onStdout, cmd`onStderr
  {
    && ch.Valid() && ChunkSizes(cmd.onStdout) && ChunkSizes(cmd.onStderr)
    && Whole(ch, cmd, false) == out && Whole(ch, cmd, true) == err
  }

  lemma StreamsAtFirst(ch: Channel, cmd: Command)
    requires ch.Valid() && ChunkSizes(cmd.onStdout) && ChunkSizes(cmd.onStderr)
    ensures StreamsKept(ch, cmd, Whole(ch, cmd, false), Whole(ch, cmd, true))
  {
  }

  /** `open_session` around the command, closed however its block ends. */
  method OpenAndRun(w: World, s: SessionId, pty: bool, ch: Channel, cmd: Command) returns (ok: bool, ghost code: int)
    requires w.Valid() && Ready(w.log, s)
    requires ch.Valid() && ChunkSizes(cmd.onStdout) && ChunkSizes(cmd.onStderr)
    modifies w`turns, w`log, ch, cmd
    ensures w.Valid() && w.Stack() == old(w.Stack()) && old(w.log) <= w.log
    ensures ok ==> w.log == old(w.log) + ExecScript(s, pty, code, |old(w.log)|) && Told(cmd.exitStatus, code) && ch.sendsEof
    ensures cmd.exitStatus == old(cmd.exitStatus) || ReportedIn(w.log[|old(w.log)|..], cmd.exitStatus)
    ensures StreamsKept(ch, cmd, old(Whole(ch, cmd, false)), old(Whole(ch, cmd, true)))
    ensures ok || cmd.exitStatus != old(cmd.exitStatus) ==> ch.Undelivered(false) == ch.Undelivered(true) == []
    ensures cmd.started == old(cmd.started)
    ensures ch.sendsEof ==> Spent(old(w.turns), w.turns, 8 * old(ch.Load()) + 14, ok)
  {
    hide Nest, Orderly, FileEvents, Ready, Whole, ChunkSizes, ExecScript, ReportedIn;
    code := -1;
    var r;
    ok, r := w.Open(ChannelOn(s));
    if ok {
      ghost var before := w.log;
      ok, code := PtyAndRun(w, r, pty, ch, cmd);
      ghost var after := w.log;
      var closed := w.Close(r);
      ReportedGrows(old(w.log), before, after, w.log, cmd.exitStatus);
      ScriptConcat(old(w.log), s, pty, code);
      ok := ok && closed;
    }
  }

  /** The block given to `open_session`. */
  method PtyAndRun(w: World, r: Resource, pty: bool, ch: Channel, cmd: Command) returns (ok: bool, ghost code: int)
    requires w.Valid() && r in w.Stack() && ch.Valid() && ChunkSizes(cmd.onStdout) && ChunkSizes(cmd.onStderr)
    modifies w`turns, w`log, ch, cmd
    ensures w.Valid() && w.Stack() == old(w.Stack()) && old(w.log) <= w.log
    ensures ok ==> w.log == old(w.log) + (if pty then [Issued(r, RequestPty)] else []) + ExecCalls(r, code)
    ensures ok ==> Told(cmd.exitStatus, code) && ch.sendsEof
    ensures cmd.exitStatus == old(cmd.exitStatus) || ReportedIn(w.log[|old(w.log)|..], cmd.exitStatus)
    ensures StreamsKept(ch, cmd, old(Whole(ch, cmd, false)), old(Whole(ch, cmd, true)))
    ensures ok || cmd.exitStatus != old(cmd.exitStatus) ==> ch.Undelivered(false) == ch.Undelivered(true) == []
    ensures cmd.started == old(cmd.started)
    ensures ch.sendsEof ==> Spent(old(w.turns), w.turns, 8 * old(ch.Load()) + 12, ok)
  {
    hide Nest, Orderly, FileEvents, Ready, Whole, ChunkSizes, ExecCalls, ReportedIn;
    ok, code := true, -1;
    if pty {
      var t;
      ok, t := w.Use(r, RequestPty);
    }
    if ok {
      ghost var before := w.log;
      ok, code := RunCommand(w, r, ch, cmd);
      ReportedGrows(old(w.log), before, w.log, w.log, cmd.exitStatus);
    }
  }

  /** The block given to `with_session`. */
  method InSession(w: World, s: SessionId, pty: bool, ch: Channel, cmd: Command) returns (ok: bool, ghost code: int)
    requires w.Valid() && Ready(w.log, s)
    requires ch.Valid() && ChunkSizes(cmd.onStdout) && ChunkSizes(cmd.onStderr)
    modifies w`turns, w`log, ch, cmd
    ensures w.Valid() && w.Stack() == old(w.Stack()) && old(w.log) <= w.log
    ensures ok ==> w.log == old(w.log) + ExecScript(s, pty, code, |old(w.log)|) && Told(cmd.exitStatus, code) && ch.sendsEof
    ensures cmd.exitStatus == old(cmd.exitStatus) || ReportedIn(w.log[|old(w.log)|..], cmd.exitStatus)
    ensures StreamsKept(ch, cmd, old(Whole(ch, cmd, false)), old(Whole(ch, cmd, true)))
    ensures ok || cmd.exitStatus != old(cmd.exitStatus) ==> ch.Undelivered(false) == ch.Undelivered(true) == []
    ensures cmd.started == old(cmd.started)
    ensures ch.sendsEof && NoFault(old(w.turns)) && |old(w.turns)| >= 8 * old(ch.Load()) + 15 ==> ok
  {
    hide Nest, Orderly, FileEvents, Ready, Whole, ChunkSizes, ExecScript, ReportedIn;
    code := -1;
    ok := w.Try();    // LibSSH::Channel.new
    if ok {
      ok, code := OpenAndRun(w, s, pty, ch, cmd);
    }
  }

  /** `execute_command`. */
  method ExecuteCommand(w: World, pool: Pool, host: string, username: Option<string>, o: SshOptions, pty: bool,
                        ch: Channel, cmd: Command)
    returns (ok: bool, ghost s: SessionId, ghost setup: seq<Event>, ghost pooled: bool, ghost code: int)
    requires w.Valid() && AllReady(pool.idle, w.log)
    requires ch.Valid() && ChunkSizes(cmd.onStdout) && ChunkSizes(cmd.onStderr)
    modifies w`turns, w`log, w`nextSession, pool, ch, cmd
    ensures w.Valid() && w.Stack() == old(w.Stack()) && AllReady(pool.idle, w.log) && old(w.log) <= w.log
    ensures ok ==> cmd.started && s in pool.idle && ch.sendsEof
    ensures ok ==> if pooled then setup == [] else SetUpAs(setup, s, host, username, o)
    ensures ok ==> w.log == old(w.log) + setup + ExecScript(s, pty, code, |old(w.log) + setup|)
    ensures ok ==> Reports(w.log[|old(w.log)|..], code)
    ensures ok && code == -1 ==> cmd.exitStatus == Some(None)
    ensures ok && code != -1 ==> cmd.exitStatus == Some(Some(code))
    ensures cmd.exitStatus == old(cmd.exitStatus) || ReportedIn(w.log[|old(w.log)|..], cmd.exitStatus)
    ensures ch.sendsEof && Smooth(pooled, |Settings(host, username, o)|, 8 * old(ch.Load()) + 15, old(w.turns)) ==> ok
    ensures StreamsKept(ch, cmd, old(Whole(ch, cmd, false)), old(Whole(ch, cmd, true)))
    ensures ok || cmd.exitStatus != old(cmd.exitStatus) ==> ch.Undelivered(false) == ch.Undelivered(true) == []
  {
    hide Nest, Orderly, FileEvents, Ready, Whole, ExecScript, Setup, Settings, SetUpAs, ChunkSizes, ReportedIn, Reports, Admitted, StreamsKept;
    s, setup, pooled, code := 0, [], false, -1;
    StreamsAtFirst(ch, cmd);
    ok := w.Try();    // output.log_command_start
    if ok {
      cmd.started := true;
      var session;
      ok, session, setup, pooled := pool.CheckOut(w, host, username, o);
      s := session;
      if ok {
        ghost var before := w.log;
        ok, code := InSession(w, session, pty, ch, cmd);
        ReportedGrows(old(w.log), before, w.log, w.log, cmd.exitStatus);
        if ok {
          ScriptReports(old(w.log), setup, s, pty, code, w.log);
        }
        AllReadyGrows(pool.idle, before, w.log);
        ReadyGrows(before, w.log, session);
        pool.CheckIn(session, w.log);
      }
    }
  }

  // ------------------------------------------------------------- whole runs

  /** One call of the backend, with the peer or local object it will meet. */
  datatype Op =
    | Execute(pty: bool, packets: seq<Packet>, sendsEof: bool)
    | Upload(readerIsIo: bool, content: Bytes, statMode: nat, pos: nat)
    | Download(targetIsIo: bool, requests: seq<R.Request>, data: Bytes)

  datatype Outcome =
    | Executed(ok: bool, stdout: Bytes, stderr: Bytes, exitStatus: Option<Option<int>>)
    | Sent(ok: bool, bytes: Bytes)
    | Received(ok: bool, target: T.Target, answers: seq<T.Answer>)

  /** One call seen from outside: the turns it met, where its session came from, and the part
      of the journal it wrote. */
  datatype Trace = Trace(turns: seq<Turn>, pooled: bool, events: seq<Event>)

  /** What a command owes its call: never a wrong byte; both streams whole if it returned or has a
      status; as status the one code the peer reported; and to return if the peer sends EOF
      and no call raises. */
  ghost predicate Ran(op: Op, outcome: Outcome, n: nat, trace: Trace)
    requires op.Execute?
  {
    && outcome.Executed?
    && outcome.stdout <= InFlight(op.packets, false) && outcome.stderr <= InFlight(op.packets, true)
    && (outcome.ok || outcome.exitStatus.Some? ==>
          outcome.stdout == InFlight(op.packets, false) && outcome.stderr == InFlight(op.packets, true))
    && (outcome.exitStatus.Some? ==> ReportedIn(trace.events, outcome.exitStatus))
    && (outcome.ok ==> exists code :: Reports(trace.events, code) && Told(outcome.exitStatus, code))
    && (op.sendsEof && Smooth(trace.pooled, n, 8 * Weight(op.packets) + 23, trace.turns) ==> outcome.ok)
  }

  /** What an upload owes its call: chunks of what the reader had left, all of it if it
      returned, after announcing the true size and the right mode; and to return exactly as its
      turns say. */
  ghost predicate Uploaded(op: Op, outcome: Outcome, n: nat, trace: Trace)
    requires op.Upload?
  {
    var rest := TS.Remaining(op.content, if op.readerIsIo then op.pos else 0);
    && outcome.Sent? && outcome.bytes <= rest
    && (outcome.ok ==> outcome.bytes == rest)
    && (outcome.ok ==> T.Announces(trace.events, |op.content|, if op.readerIsIo then 0x1A4 else op.statMode % 0x1000))
    && (outcome.ok <==> R.UploadCallLeft(trace.pooled, n, op.readerIsIo, rest, trace.turns).Some?)
  }

  /** What a download owes its call: a prefix of the answers and an interrupted target, or all of
      both if it returned; and to return exactly as its turns say. */
  ghost predicate Downloaded(op: Op, outcome: Outcome, n: nat, trace: Trace)
    requires op.Download?
  {
    var target := T.Target(op.data, []);
    && outcome.Received? && outcome.answers <= T.Answers(op.requests)
    && T.Interrupted(op.targetIsIo, op.requests, target, outcome.target)
    && (outcome.ok ==> outcome.answers == T.Answers(op.requests))
    && (outcome.ok ==> outcome.target == T.Fold(op.targetIsIo, op.requests, target))
    && (outcome.ok <==> R.DownloadCallLeft(trace.pooled, n, op.targetIsIo, op.requests, trace.turns).Some?)
  }

  ghost predicate Meets(op: Op, outcome: Outcome, n: nat, trace: Trace) {
    match op
    case Execute(_, _, _) => Ran(op, outcome, n, trace)
    case Upload(_, _, _, _) => Uploaded(op, outcome, n, trace)
    case Download(_, _, _) => Downloaded(op, outcome, n, trace)
  }

  method RunExecute(w: World, pool: Pool, host: string, username: Option<string>, o: SshOptions, op: Op)
    returns (outcome: Outcome, ghost trace: Trace)
    requires w.Valid() && AllReady(pool.idle, w.log) && op.Execute?
    modifies w, pool
    ensures w.Valid() && w.Stack() == old(w.Stack()) && AllReady(pool.idle, w.log)
    ensures w.log == old(w.log) + trace.events && trace.turns == old(w.turns)
    ensures Ran(op, outcome, |Settings(host, username, o)|, trace)
  {
    hide Nest, Orderly, FileEvents, Ready, Spent, Settings, SetUpAs, Setup, ReportedIn, Reports, Smooth, ExecScript;
    var ch := new Channel(op.packets, op.sendsEof);
    var cmd := new Command();
    assert [] + InFlight(op.packets, false) == InFlight(op.packets, false);
    assert [] + InFlight(op.packets, true) == InFlight(op.packets, true);
    ghost var load := ch.Load();
    var ok;
    ghost var s, setup, pooled, code;
    ok, s, setup, pooled, code := ExecuteCommand(w, pool, host, username, o, op.pty, ch, cmd);
    outcome := Executed(ok, Flat(cmd.onStdout), Flat(cmd.onStderr), cmd.exitStatus);
    trace := Trace(old(w.turns), pooled, w.log[|old(w.log)|..]);
    assert Whole(ch, cmd, false) == InFlight(op.packets, false) && Whole(ch, cmd, true) == InFlight(op.packets, true);
    SmoothLess(pooled, |Settings(host, username, o)|, 8 * load + 15, 8 * Weight(op.packets) + 23, old(w.turns));
  }

  lemma SmoothLess(pooled: bool, n: nat, less: nat, more: nat, turns: seq<Turn>)
    requires less <= more
    ensures Smooth(pooled, n, more, turns) ==> Smooth(pooled, n, less, turns)
  {
  }

  method RunUpload(w: World, pool: Pool, host: string, username: Option<string>, o: SshOptions, op: Op)
    returns (outcome: Outcome, ghost trace: Trace)
    requires w.Valid() && AllReady(pool.idle, w.log) && op.Upload?
    modifies w, pool
    ensures w.Valid() && w.Stack() == old(w.Stack()) && AllReady(pool.idle, w.log)
    ensures w.log == old(w.log) + trace.events && trace.turns == old(w.turns)
    ensures Uploaded(op, outcome, |Settings(host, username, o)|, trace)
  {
    hide Nest, Orderly, FileEvents, Ready, Settings, SetUpAs, Setup;
    var io := new T.LocalReader(op.readerIsIo, op.content, op.statMode, op.pos);
    var sink := new T.RemoteSink();
    var ok;
    ghost var s, setup, pooled;
    ok, s, setup, pooled := T.Upload(w, pool, host, username, o, io, sink);
    outcome := Sent(ok, Flat(sink.chunks));
    trace := Trace(old(w.turns), pooled, w.log[|old(w.log)|..]);
  }

  method RunDownload(w: World, pool: Pool, host: string, username: Option<string>, o: SshOptions, op: Op)
    returns (outcome: Outcome, ghost trace: Trace)
    requires w.Valid() && AllReady(pool.idle, w.log) && op.Download?
    modifies w, pool
    ensures w.Valid() && w.Stack() == old(w.Stack()) && AllReady(pool.idle, w.log)
    ensures w.log == old(w.log) + trace.events && trace.turns == old(w.turns)
    ensures Downloaded(op, outcome, |Settings(host, username, o)|, trace)
  {
    hide Nest, Orderly, FileEvents, Ready, Settings, SetUpAs, Setup;
    var source := new T.ScpSource(op.requests);
    var target := new T.LocalTarget(op.targetIsIo, op.data);
    var ok;
    ghost var s, setup, pooled;
    ok, s, setup, pooled := T.Download(w, pool, host, username, o, source, target);
    outcome := Received(ok, target.Now(), source.answers);
    trace := Trace(old(w.turns), pooled, w.log[|old(w.log)|..]);
    assert [] + T.Answers(op.requests) == T.Answers(op.requests);
  }

  /** The journals of the calls, one after the other. */
  function Glued(traces: seq<Trace>): seq<Event> {
    if traces == [] then [] else Glued(traces[..|traces| - 1]) + traces[|traces| - 1].events
  }

  lemma GluedSnoc(before: seq<Event>, traces: seq<Trace>, trace: Trace)
    ensures before + Glued(traces + [trace]) == before + Glued(traces) + trace.events
  {
    assert (traces + [trace])[..|traces|] == traces;
  }

  /** A whole run on a fresh world: every call meets its claim on its own part of the journal,
      every resource opened has been closed, and both disciplines held throughout. */
  method Run(w: World, host: string, username: Option<string>, o: SshOptions, ops: seq<Op>)
    returns (outcomes: seq<Outcome>, ghost traces: seq<Trace>)
    requires w.Valid() && w.Stack() == []
    modifies w
    ensures |outcomes| == |traces| == |ops| && w.log == old(w.log) + Glued(traces)
    ensures forall i :: 0 <= i < |ops| ==> Meets(ops[i], outcomes[i], |Settings(host, username, o)|, traces[i])
    ensures Nest(w.log) == Some([]) && Orderly(w.log)
    ensures forall r :: Opened(r) in w.log <==> Closing(r) in w.log
  {
    hide Ran, Uploaded, Downloaded, Settings;
    var pool := new Pool();
    outcomes, traces := [], [];
    while |outcomes| < |ops|
      invariant |outcomes| == |traces| <= |ops| && w.log == old(w.log) + Glued(traces)
      invariant forall i :: 0 <= i < |outcomes| ==> Meets(ops[i], outcomes[i], |Settings(host, username, o)|, traces[i])
      invariant w.Valid() && w.Stack() == [] && AllReady(pool.idle, w.log)
    {
      var op := ops[|outcomes|];
      var outcome;
      ghost var trace;
      match op {
        case Execute(_, _, _) => outcome, trace := RunExecute(w, pool, host, username, o, op);
        case Upload(_, _, _, _) => outcome, trace := RunUpload(w, pool, host, username, o, op);
        case Download(_, _, _) => outcome, trace := RunDownload(w, pool, host, username, o, op);
      }
      GluedSnoc(old(w.log), traces, trace);
      outcomes, traces := outcomes + [outcome], traces + [trace];
    }
    StackIsOpenSet(w.log);
  }
}
