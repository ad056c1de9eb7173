/** The environment a backend run meets, and the journal the run leaves behind. */
module Environment {
  import opened Base
  import opened Journal

  // The two answers `create_session` insists on.  libssh's own header gives the numbers.
  const SERVER_KNOWN_OK: int := 1
  const AUTH_SUCCESS: int := 0

  class World {
    var turns: seq<Turn>
    var log: seq<Event>
    var nextSession: SessionId

    constructor (turns: seq<Turn>)
      ensures this.turns == turns && log == [] && Valid()
    {
      this.turns := turns;
      log := [];
      nextSession := 0;
    }

    /** Both disciplines have held since the run began. */
    ghost predicate Valid()
      reads this
    {
      Nest(log).Some? && Orderly(log)
    }

    ghost function Stack(): seq<Resource>
      reads this
      requires Valid()
    {
      Nest(log).value
    }

    /** How often a local file was opened or closed. */
    ghost function Files(): nat
      reads this
    {
      FileEvents(log)
    }

    /** Any call that may raise: its outcome is the next turn. */
    method Next() returns (ok: bool, t: Turn)
      modifies this`turns
      ensures ok == !Failed(old(turns)) && turns == After(old(turns))
      ensures ok ==> t.Go? && t == old(turns)[0]
    {
      if turns == [] {
        return false, Fault;
      }
      ok, t, turns := turns[0].Go?, turns[0], turns[1..];
    }

    /** A call whose result does not matter. */
    method Try() returns (ok: bool)
      modifies this`turns
      ensures ok == !Failed(old(turns)) && turns == After(old(turns))
    {
      var ignored;
      ok, ignored := Next();
    }

    method Emit(e: Event)
      requires Valid() && Permitted(log, e) && NestStep(Stack(), |log|, e).Some?
      modifies this`log
      ensures Valid() && log == old(log) + [e]
      ensures Stack() == NestStep(old(Stack()), |old(log)|, e).value
      ensures Files() == old(Files()) + (if FileEvent(e) then 1 else 0)
    {
      FileEventsSnoc(log, e);
      NestSnoc(log, e);
      OrderlySnoc(log, e);
      log := log + [e];
    }

    /** Allocates the identity of a new `LibSSH::Session`. */
    method NewSession() returns (s: SessionId)
      modifies this`nextSession
      ensures s == old(nextSession) && nextSession == s + 1
    {
      s := nextSession;
      nextSession := nextSession + 1;
    }

    /** Opens a resource.  On success it becomes the innermost open one; on failure nothing
        is open that was not open before. */
    method Open(kind: Kind) returns (ok: bool, r: Resource)
      requires Valid()
      requires kind.LocalFile? || Ready(log, kind.session)
      modifies this`log, this`turns
      ensures Valid() && ok == !Failed(old(turns)) && turns == After(old(turns))
      ensures ok ==> r == Resource(kind, |old(log)| + 1)
      ensures ok ==> log == old(log) + [Opening(kind), Opened(r)] && Stack() == old(Stack()) + [r]
      ensures !ok ==> log == old(log) + [Opening(kind)] && Stack() == old(Stack())
      ensures !kind.LocalFile? ==> Files() == old(Files())
    {
      r := Resource(kind, |log| + 1);
      Emit(Opening(kind));
      ok := Try();
      if ok {
        Emit(Opened(r));
      }
    }

    /** The close that `rb_ensure` and `File.open` issue on the way out, however the block
        ended; the close itself may raise. */
    method Close(r: Resource) returns (ok: bool)
      requires Valid() && Stack() != [] && Stack()[|Stack()| - 1] == r
      modifies this`log, this`turns
      ensures Valid() && ok == !Failed(old(turns)) && turns == After(old(turns))
      ensures log == old(log) + [Closing(r)]
      ensures Stack() == old(Stack())[..|old(Stack())| - 1]
      ensures !r.kind.LocalFile? ==> Files() == old(Files())
    {
      Emit(Closing(r));
      ok := Try();
    }

    /** A call on an open resource. */
    method Use(r: Resource, call: Call) returns (ok: bool, t: Turn)
      requires Valid() && r in Stack()
      requires !call.GetExitStatus? && !call.ExitReported? && !call.ExecAccepted?
      modifies this`log, this`turns
      ensures Valid() && ok == !Failed(old(turns)) && turns == After(old(turns))
      ensures ok ==> t.Go? && t == old(turns)[0]
      ensures log == old(log) + [Issued(r, call)] && Stack() == old(Stack()) && Files() == old(Files())
    {
      Emit(Issued(r, call));
      ok, t := Next();
    }

    /** One option setter of `LibSSH::Session`. */
    method SetOption(s: SessionId, setting: Setting) returns (ok: bool)
      requires Valid()
      modifies this`log, this`turns
      ensures Valid() && ok == !Failed(old(turns)) && turns == After(old(turns))
      ensures log == old(log) + (if ok then [Configured(s, setting)] else []) && Stack() == old(Stack())
    {
      ok := Try();
      if ok {
        Emit(Configured(s, setting));
      } else {
        assert log == old(log) + [];
      }
    }

    /** `Session#connect`. */
    method Connect(s: SessionId) returns (ok: bool)
      requires Valid()
      modifies this`log, this`turns
      ensures Valid() && ok == !Failed(old(turns)) && turns == After(old(turns))
      ensures log == old(log) + (if ok then [Connected(s)] else []) && Stack() == old(Stack())
    {
      ok := Try();
      if ok {
        Emit(Connected(s));
      } else {
        assert log == old(log) + [];
      }
    }

    /** `Session#server_known`: the journal notes the answer SERVER_KNOWN_OK. */
    method ServerKnown(s: SessionId) returns (ok: bool, code: int)
      requires Valid() && Connected(s) in log
      modifies this`log, this`turns
      ensures Valid() && ok == !Failed(old(turns)) && turns == After(old(turns))
      ensures ok ==> code == old(turns)[0].code
      ensures log == old(log) + (if ok && code == SERVER_KNOWN_OK then [KnownOk(s)] else []) && Stack() == old(Stack())
    {
      var t;
      ok, t := Next();
      code := if ok then t.code else -1;
      if ok && code == SERVER_KNOWN_OK {
        Emit(KnownOk(s));
      } else {
        assert log == old(log) + [];
      }
    }

    /** `Session#userauth_publickey_auto`: the journal notes the answer AUTH_SUCCESS. */
    method UserauthPublickeyAuto(s: SessionId) returns (ok: bool, code: int)
      requires Valid() && KnownOk(s) in log
      modifies this`log, this`turns
      ensures Valid() && ok == !Failed(old(turns)) && turns == After(old(turns))
      ensures ok ==> code == old(turns)[0].code
      ensures log == old(log) + (if ok && code == AUTH_SUCCESS then [Authenticated(s)] else []) && Stack() == old(Stack())
    {
      var t;
      ok, t := Next();
      code := if ok then t.code else -1;
      if ok && code == AUTH_SUCCESS {
        Emit(Authenticated(s));
      } else {
        assert log == old(log) + [];
      }
    }

    /** `request_exec`: the journal notes whether the command was accepted. */
    method AskExec(r: Resource) returns (ok: bool)
      requires Valid() && r in Stack()
      modifies this`log, this`turns
      ensures Valid() && ok == !Failed(old(turns)) && turns == After(old(turns)) && Stack() == old(Stack())
      ensures ok ==> log == old(log) + [Issued(r, RequestExec), Issued(r, ExecAccepted)]
      ensures !ok ==> log == old(log) + [Issued(r, RequestExec)]
    {
      Emit(Issued(r, RequestExec));
      ok := Try();
      if ok {
        Emit(Issued(r, ExecAccepted));
      }
    }

    /** `get_exit_status`: blocks for ever unless a command was accepted on the channel. */
    method AskExitStatus(r: Resource) returns (ok: bool, code: int)
      requires Valid() && r in Stack() && Issued(r, ExecAccepted) in log
      modifies this`log, this`turns
      ensures Valid() && ok == !Failed(old(turns)) && turns == After(old(turns)) && Stack() == old(Stack())
      ensures ok ==> old(turns)[0].Go? && code == old(turns)[0].code
      ensures ok ==> log == old(log) + [Issued(r, GetExitStatus), Issued(r, ExitReported(code))]
      ensures !ok ==> log == old(log) + [Issued(r, GetExitStatus)]
    {
      Emit(Issued(r, GetExitStatus));
      var t;
      ok, t := Next();
      code := if ok then t.code else -1;
      if ok {
        Emit(Issued(r, ExitReported(code)));
      }
    }
  }
}
