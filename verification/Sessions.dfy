/** How the backend gets a session: create, configure, connect, check the host, authenticate;
    or take one that an earlier command gave back to the pool. */
module Sessions {
  import opened Base
  import opened Journal
  import opened Environment

  /** `ssh_options[:config]`: true (also the default), false or nil, or a path. */
  datatype ConfigChoice = DefaultConfig | NoConfig | ConfigAt(path: string)

  /** The options that reach `create_session`.  `user` is None when the hash has no :user
      key; a :user key may itself hold nil. */
  datatype SshOptions = SshOptions(user: Option<Option<string>>, port: Option<int>,
                                   keys: seq<string>, config: ConfigChoice)

  const DEFAULT_IDENTITY: string := "%d/id_ed25519"

  function Identities(keys: seq<string>): seq<Setting> {
    seq(|keys|, i requires 0 <= i < |keys| => Identity(keys[i]))
  }

  function UserSettings(username: Option<string>, o: SshOptions): seq<Setting> {
    var user := if o.user.Some? then o.user.value else username;
    if user.Some? then [User(user.value)] else []
  }

  function ConfigSettings(c: ConfigChoice): seq<Setting> {
    match c
    case DefaultConfig => [Config(None)]
    case NoConfig => []
    case ConfigAt(path) => [Config(Some(path))]
  }

  /** Everything that is set on a new session before it connects, in order. */
  function Settings(host: string, username: Option<string>, o: SshOptions): seq<Setting> {
    [Host(host)] + UserSettings(username, o)
    + (if o.port.Some? then [Port(o.port.value)] else [])
    + [Identity(DEFAULT_IDENTITY)] + Identities(o.keys) + ConfigSettings(o.config)
  }

  /** The identity files a session is told of, in order. */
  function IdentityPaths(events: seq<Event>): seq<string> {
    if events == [] then []
    else
      match events[0]
      case Configured(_, Identity(path)) => [path] + IdentityPaths(events[1..])
      case _ => IdentityPaths(events[1..])
  }

  /** What `create_session` owes its caller, read off its events alone: the host first and
      once; user, port, identities and configuration file exactly as the options ask, and
      nothing twice but identities; all of it before the connection, the answer of
      `server_known` and the authentication, which end it. */
  ghost predicate SetUpAs(events: seq<Event>, s: SessionId, host: string, username: Option<string>, o: SshOptions) {
    && |events| >= 4
    && events[|events| - 3..] == [Connected(s), KnownOk(s), Authenticated(s)]
    && (forall i :: 0 <= i < |events| - 3 ==> events[i].Configured? && events[i].session == s)
    && events[0] == Configured(s, Host(host))
    && (forall i :: 0 < i < |events| - 3 ==> !events[i].setting.Host?)
    && (forall u :: Configured(s, User(u)) in events <==> o.user == Some(Some(u)) || (o.user == None && username == Some(u)))
    && (forall port :: Configured(s, Port(port)) in events <==> o.port == Some(port))
    && IdentityPaths(events) == ["%d/id_ed25519"] + o.keys
    && (Configured(s, Config(None)) in events <==> o.config == DefaultConfig)
    && (forall path :: Configured(s, Config(Some(path))) in events <==> o.config == ConfigAt(path))
    && (forall i, j :: 0 <= i < j < |events| - 3 && !events[i].setting.Identity? ==> events[i] != events[j])
  }

  lemma {:induction false} IdentityPathsConcat(a: seq<Event>, b: seq<Event>)
    ensures IdentityPaths(a + b) == IdentityPaths(a) + IdentityPaths(b)
  {
    if a == [] {
      assert a + b == b;
    } else {
      IdentityPathsConcat(a[1..], b);
      assert (a + b)[1..] == a[1..] + b;
    }
  }

  lemma {:induction false} IdentityPathsOfKeys(s: SessionId, keys: seq<string>)
    ensures IdentityPaths(ConfiguredAll(s, Identities(keys))) == keys
  {
    if keys != [] {
      IdentityPathsOfKeys(s, keys[1..]);
      assert ConfiguredAll(s, Identities(keys))[1..] == ConfiguredAll(s, Identities(keys[1..]));
    } else {
      assert ConfiguredAll(s, Identities(keys)) == [];
    }
  }

  lemma {:induction false} NoIdentityPaths(events: seq<Event>)
    requires forall i :: 0 <= i < |events| && events[i].Configured? ==> !events[i].setting.Identity?
    ensures IdentityPaths(events) == []
  {
    if events != [] {
      NoIdentityPaths(events[1..]);
    }
  }

  /** The settings in front of the identities, and those behind. */
  function FrontSettings(host: string, username: Option<string>, o: SshOptions): seq<Setting> {
    [Host(host)] + UserSettings(username, o) + (if o.port.Some? then [Port(o.port.value)] else [])
  }

  lemma SetUpSplits(s: SessionId, host: string, username: Option<string>, o: SshOptions)
    ensures Setup(s, Settings(host, username, o))
            == ConfiguredAll(s, FrontSettings(host, username, o)) + ([Configured(s, Identity(DEFAULT_IDENTITY))]
               + (ConfiguredAll(s, Identities(o.keys)) + (ConfiguredAll(s, ConfigSettings(o.config)) + Handshake(s))))
  {
    hide UserSettings, ConfigSettings, Identities;
    assert Settings(host, username, o) == FrontSettings(host, username, o) + [Identity(DEFAULT_IDENTITY)]
                                          + Identities(o.keys) + ConfigSettings(o.config);
  }

  lemma SetUpIdentities(s: SessionId, host: string, username: Option<string>, o: SshOptions)
    ensures IdentityPaths(Setup(s, Settings(host, username, o))) == ["%d/id_ed25519"] + o.keys
  {
    hide IdentityPaths, Setup, Settings, Identities;
    var a := ConfiguredAll(s, FrontSettings(host, username, o));
    var b := [Configured(s, Identity(DEFAULT_IDENTITY))];
    var c := ConfiguredAll(s, Identities(o.keys));
    var d := ConfiguredAll(s, ConfigSettings(o.config)) + Handshake(s);
    NoIdentityPaths(a);
    NoIdentityPaths(d);
    IdentityPathsOfKeys(s, o.keys);
    DefaultIdentityPath(s);
    IdentityPathsConcat(a, b + (c + d));
    IdentityPathsConcat(b, c + d);
    IdentityPathsConcat(c, d);
    SetUpSplits(s, host, username, o);
  }

  lemma DefaultIdentityPath(s: SessionId)
    ensures IdentityPaths([Configured(s, Identity(DEFAULT_IDENTITY))]) == ["%d/id_ed25519"]
  {
  }

  lemma FrontMeans(host: string, username: Option<string>, o: SshOptions)
    ensures var front := FrontSettings(host, username, o);
            && front != [] && front[0] == Host(host) && (forall i :: 0 < i < |front| ==> front[i].User? || front[i].Port?)
            && (forall u :: User(u) in front <==> o.user == Some(Some(u)) || (o.user == None && username == Some(u)))
            && (forall port :: Port(port) in front <==> o.port == Some(port))
            && (forall i, j :: 0 <= i < j < |front| ==> front[i] != front[j])
  {
  }

  /** The settings say what the options ask for. */
  lemma SettingsMean(host: string, username: Option<string>, o: SshOptions)
    ensures var settings := Settings(host, username, o);
            && settings != [] && settings[0] == Host(host) && (forall i :: 0 < i < |settings| ==> !settings[i].Host?)
            && (forall u :: User(u) in settings <==> o.user == Some(Some(u)) || (o.user == None && username == Some(u)))
            && (forall port :: Port(port) in settings <==> o.port == Some(port))
            && (Config(None) in settings <==> o.config == DefaultConfig)
            && (forall path :: Config(Some(path)) in settings <==> o.config == ConfigAt(path))
            && (forall i, j :: 0 <= i < j < |settings| && !settings[i].Identity? ==> settings[i] != settings[j])
  {
    hide FrontSettings, UserSettings, Settings, Identities;
    var front, keys, config := FrontSettings(host, username, o), Identities(o.keys), ConfigSettings(o.config);
    var ids := [Identity(DEFAULT_IDENTITY)] + keys;
    FrontMeans(host, username, o);
    SettingsSplit(host, username, o);
    assert forall x :: x in Settings(host, username, o) <==> x in front || x in ids || x in config;
  }

  lemma SettingsSplit(host: string, username: Option<string>, o: SshOptions)
    ensures Settings(host, username, o) == FrontSettings(host, username, o)
              + ([Identity(DEFAULT_IDENTITY)] + Identities(o.keys)) + ConfigSettings(o.config)
    ensures forall i :: 0 <= i < |Identities(o.keys)| ==> Identities(o.keys)[i].Identity?
  {
    hide UserSettings, ConfigSettings;
  }

  /** The events of a set-up session, setting by setting. */
  lemma SetUpEvents(s: SessionId, settings: seq<Setting>)
    ensures var events := Setup(s, settings);
            && |events| == |settings| + 3 && events[|settings|..] == [Connected(s), KnownOk(s), Authenticated(s)]
            && (forall i :: 0 <= i < |settings| ==> events[i] == Configured(s, settings[i]))
            && (forall x :: Configured(s, x) in events <==> x in settings)
  {
    var events := Setup(s, settings);
    forall x | x in settings ensures Configured(s, x) in events {
      var i :| 0 <= i < |settings| && settings[i] == x;
      assert events[i] == Configured(s, x);
    }
  }

  lemma SetUpMeans(s: SessionId, host: string, username: Option<string>, o: SshOptions)
    ensures SetUpAs(Setup(s, Settings(host, username, o)), s, host, username, o)
  {
    hide Settings, IdentityPaths, Setup;
    SettingsMean(host, username, o);
    SetUpIdentities(s, host, username, o);
    SetUpEvents(s, Settings(host, username, o));
  }

  function ConfiguredAll(s: SessionId, settings: seq<Setting>): seq<Event> {
    seq(|settings|, i requires 0 <= i < |settings| => Configured(s, settings[i]))
  }

  /** The journal of a successful `create_session`. */
  function Setup(s: SessionId, settings: seq<Setting>): seq<Event> {
    ConfiguredAll(s, settings) + Handshake(s)
  }

  lemma SetupMakesReady(before: seq<Event>, s: SessionId, settings: seq<Setting>)
    ensures Ready(before + Setup(s, settings), s)
  {
    var log, a := before + Setup(s, settings), |before| + |settings|;
    assert log[a] == Connected(s) && log[a + 1] == KnownOk(s) && log[a + 2] == Authenticated(s);
  }

  /** Applies settings to the session, one call each; stops at the first that raises. */
  method Configure(w: World, s: SessionId, settings: seq<Setting>) returns (ok: bool)
    requires w.Valid()
    modifies w`log, w`turns
    ensures w.Valid() && w.Stack() == old(w.Stack())
    ensures ok ==> w.log == old(w.log) + ConfiguredAll(s, settings)
    ensures !ok ==> old(w.log) <= w.log < old(w.log) + ConfiguredAll(s, settings)
    ensures ok <==> Calls(|settings|, old(w.turns)).Some?
    ensures ok ==> w.turns == old(w.turns)[|settings|..]
  {
    hide Nest, Orderly, FileEvents;
    var i := 0;
    while i < |settings|
      invariant 0 <= i <= |settings|
      invariant w.Valid() && w.Stack() == old(w.Stack())
      invariant w.log == old(w.log) + ConfiguredAll(s, settings)[..i]
      invariant i <= |old(w.turns)| && w.turns == old(w.turns)[i..] && NoFault(old(w.turns)[..i])
    {
      ok := w.SetOption(s, settings[i]);
      if !ok {
        return;
      }
      assert ConfiguredAll(s, settings)[..i + 1] == ConfiguredAll(s, settings)[..i] + [Configured(s, settings[i])];
      i := i + 1;
    }
    ok := true;
  }

  /** n settings, `connect`, `server_known` and `userauth_publickey_auto`, and all goes well. */
  predicate Admitted(n: nat, turns: seq<Turn>) {
    && n + 3 <= |turns| && (forall i :: 0 <= i < n + 3 ==> turns[i].Go?)
    && turns[n + 1].code == SERVER_KNOWN_OK && turns[n + 2].code == AUTH_SUCCESS
  }

  function Handshake(s: SessionId): seq<Event> { [Connected(s), KnownOk(s), Authenticated(s)] }

  /** `connect`, `server_known`, `userauth_publickey_auto`: an unknown host, a refused key and
      anything that raises stop it at a proper prefix. */
  method Authorize(w: World, s: SessionId) returns (ok: bool)
    requires w.Valid()
    modifies w`log, w`turns
    ensures w.Valid() && w.Stack() == old(w.Stack())
    ensures ok ==> w.log == old(w.log) + Handshake(s)
    ensures !ok ==> old(w.log) <= w.log < old(w.log) + Handshake(s)
    ensures ok <==> Admitted(0, old(w.turns))
    ensures ok ==> w.turns == old(w.turns)[3..]
  {
    hide Nest, Orderly, FileEvents;
    ghost var before := w.log;
    ok := w.Connect(s);
    if !ok {
      return;
    }
    assert w.log[|before|] == Connected(s);
    var code;
    ok, code := w.ServerKnown(s);
    if !ok || code != SERVER_KNOWN_OK {
      return false;
    }
    assert w.log[|before| + 1] == KnownOk(s);
    ok, code := w.UserauthPublickeyAuto(s);
    if !ok || code != AUTH_SUCCESS {
      return false;
    }
  }

  /** `create_session` with `configure_session`.  It returns only a session that is
      configured, connected, known and authenticated, in that order; otherwise what was done
      is a proper prefix of that. */
  method CreateSession(w: World, host: string, username: Option<string>, o: SshOptions)
    returns (ok: bool, s: SessionId)
    requires w.Valid()
    modifies w`log, w`turns, w`nextSession
    ensures w.Valid() && w.Stack() == old(w.Stack())
    ensures s == old(w.nextSession) && w.nextSession == s + 1
    ensures ok ==> w.log == old(w.log) + Setup(s, Settings(host, username, o))
    ensures ok ==> SetUpAs(w.log[|old(w.log)|..], s, host, username, o)
    ensures !ok ==> old(w.log) <= w.log < old(w.log) + Setup(s, Settings(host, username, o))
    ensures ok <==> Admitted(|Settings(host, username, o)|, old(w.turns))
    ensures ok ==> w.turns == old(w.turns)[|Settings(host, username, o)| + 3..]
  {
    hide Nest, Orderly, FileEvents, Settings, SetUpAs;
    s := w.NewSession();
    ok := Configure(w, s, Settings(host, username, o));
    if ok {
      ghost var settings := ConfiguredAll(s, Settings(host, username, o));
      assert w.log == old(w.log) + settings;
      ok := Authorize(w, s);
      assert old(w.log) + (settings + Handshake(s)) == old(w.log) + settings + Handshake(s);
      SetUpMeans(s, host, username, o);
    }
  }

  /** Every session in the set was made ready. */
  ghost predicate AllReady(sessions: set<SessionId>, log: seq<Event>) {
    forall s :: s in sessions ==> Ready(log, s)
  }

  lemma AllReadyGrows(sessions: set<SessionId>, log: seq<Event>, more: seq<Event>)
    requires AllReady(sessions, log) && log <= more
    ensures AllReady(sessions, more)
  {
    forall s | s in sessions ensures Ready(more, s) {
      ReadyGrows(log, more, s);
    }
  }

  /** Session set-up opens no file and calls on no resource. */
  lemma SetupHasNoFile(before: seq<Event>, log: seq<Event>, s: SessionId, settings: seq<Setting>)
    requires before <= log <= before + Setup(s, settings)
    ensures FileEvents(log) == FileEvents(before)
    ensures forall e :: e in log[|before|..] ==> !e.Issued?
  {
    var whole := before + Setup(s, settings);
    forall i | |before| <= i < |log| ensures !FileEvent(log[i]) && !log[i].Issued? {
      assert log[i] == whole[i] == Setup(s, settings)[i - |before|];
    }
    NoneAddsNone(before, log);
  }

  /** The turns left once the caller has its session: one from the pool, or a new one with n
      settings; None if it gets none. */
  function SessionLeft(pooled: bool, n: nat, turns: seq<Turn>): Option<seq<Turn>> {
    if pooled then Some(turns) else if Admitted(n, turns) then Some(turns[n + 3..]) else None
  }

  /** The connection pool of the backend class: sessions given back and not in use. */
  class Pool {
    var idle: set<SessionId>

    constructor ()
      ensures idle == {}
    {
      idle := {};
    }

    /** `with_session` up to its yield: an idle session or a new one, as the pool likes. */
    method CheckOut(w: World, host: string, username: Option<string>, o: SshOptions)
      returns (ok: bool, s: SessionId, ghost setup: seq<Event>, ghost pooled: bool)
      requires w.Valid() && AllReady(idle, w.log)
      modifies this, w`log, w`turns, w`nextSession
      ensures w.Valid() && w.Stack() == old(w.Stack())
      ensures AllReady(idle, w.log) && idle <= old(idle)
      ensures w.log == old(w.log) + setup && w.Files() == old(w.Files())
      ensures ok ==> Ready(w.log, s)
      ensures pooled ==> setup == [] && s in old(idle) && s !in idle
      ensures ok && !pooled ==> setup == Setup(s, Settings(host, username, o)) && SetUpAs(setup, s, host, username, o)
      ensures forall e :: e in setup ==> !e.Issued?
      ensures ok <==> SessionLeft(pooled, |Settings(host, username, o)|, old(w.turns)).Some?
      ensures ok ==> w.turns == SessionLeft(pooled, |Settings(host, username, o)|, old(w.turns)).value
    {
      hide Nest, Orderly, FileEvents, Ready, Settings, Setup, SetUpAs, Admitted;
      setup, pooled := [], false;
      if idle != {} {
        if * {
          s :| s in idle;
          idle := idle - {s};
          return true, s, [], true;
        }
      }
      ok, s := CreateSession(w, host, username, o);
      setup := w.log[|old(w.log)|..];
      AllReadyGrows(idle, old(w.log), w.log);
      SetupHasNoFile(old(w.log), w.log, s, Settings(host, username, o));
      if ok {
        SetupMakesReady(old(w.log), s, Settings(host, username, o));
      }
    }

    /** `with_session` after its yield. */
    method CheckIn(s: SessionId, ghost log: seq<Event>)
      requires AllReady(idle, log) && Ready(log, s)
      modifies this
      ensures AllReady(idle, log) && idle == old(idle) + {s}
    {
      idle := idle + {s};
    }
  }
}
