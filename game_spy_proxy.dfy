/** The proxy that stands in for the GameSpy library: it translates result
    codes between the backend and the game, builds the session values the
    backend is handed, keeps the game's callback pointers and forwards each
    exported call to the backend when there is one. Function pointers are
    32-bit addresses (0 is null); what a game callback receives is described
    as a value. */
module GameSpyProxy {
  import opened Basics
  import opened Text
  import opened GameBackend
  import opened RevoraProtocol
  import opened RevoraBackend
  import opened ConfigParser
  import opened FunctionHook

  // ---- result codes ----

  /** `MapGameSpyErrorCode`: the game's codes 0 to 5, anything else unknown. */
  function MapGameSpyErrorCode(gameSpyErrorCode: int): (r: ResultCode)
    ensures (0 <= gameSpyErrorCode <= 5) <==> r != ErrorUnknown
  {
    match gameSpyErrorCode
    case 0 => Success
    case 1 => ErrorNetwork
    case 2 => ErrorAuthFailed
    case 3 => ErrorServerUnavailable
    case 4 => ErrorTimeout
    case 5 => ErrorNatFailure
    case _ => ErrorUnknown
  }

  /** `MapToGameSpyErrorCode`: the inverse on the six known codes, -1 for
      `ERROR_UNKNOWN`. */
  function MapToGameSpyErrorCode(resultCode: ResultCode): (r: int)
    ensures -1 <= r <= 5
    ensures r == -1 <==> resultCode == ErrorUnknown
  {
    match resultCode
    case Success => 0
    case ErrorNetwork => 1
    case ErrorAuthFailed => 2
    case ErrorServerUnavailable => 3
    case ErrorTimeout => 4
    case ErrorNatFailure => 5
    case ErrorUnknown => -1
  }

  /** The codes 0 to 5 in their documented order. */
  lemma KnownCodes()
    ensures MapGameSpyErrorCode(0) == Success
    ensures MapGameSpyErrorCode(1) == ErrorNetwork
    ensures MapGameSpyErrorCode(2) == ErrorAuthFailed
    ensures MapGameSpyErrorCode(3) == ErrorServerUnavailable
    ensures MapGameSpyErrorCode(4) == ErrorTimeout
    ensures MapGameSpyErrorCode(5) == ErrorNatFailure
  {
  }

  /** A game code survives the round trip exactly when it is known; every
      other code comes back as -1. */
  lemma GameCodeRoundTrip(x: int)
    ensures 0 <= x <= 5 ==> MapToGameSpyErrorCode(MapGameSpyErrorCode(x)) == x
    ensures (x < 0 || x > 5) ==> MapToGameSpyErrorCode(MapGameSpyErrorCode(x)) == -1
  {
  }

  /** Every result code survives the round trip, `ERROR_UNKNOWN` included. */
  lemma ResultCodeRoundTrip(r: ResultCode)
    ensures MapGameSpyErrorCode(MapToGameSpyErrorCode(r)) == r
  {
  }

  // ---- what the game's callbacks receive ----

  /** One call of a game callback, with its arguments. */
  datatype GameCall =
    | LoginCall(result: int, username: string, profileID: i32)
    | GameListCall(result: int, gameCount: int)
    | HostCall(result: int, gameID: i32)
    | JoinCall(result: int, gameID: i32, hostIP: string, hostPort: int)

  /** What the lambda the proxy registers passes on for one backend
      delivery: the code translated, 32-bit ids read as `int`. */
  function Forward(d: Delivery): (c: GameCall)
    ensures MapGameSpyErrorCode(c.result) == d.code
    ensures c.LoginCall? <==> d.LoginDelivery?
    ensures c.GameListCall? <==> d.GameListDelivery?
    ensures c.HostCall? <==> d.HostDelivery?
    ensures c.JoinCall? <==> d.JoinDelivery?
  {
    ResultCodeRoundTrip(d.code);
    match d
    case LoginDelivery(code, player) => LoginCall(MapToGameSpyErrorCode(code), player.username, ToI32(player.profileID))
    case GameListDelivery(code, games) => GameListCall(MapToGameSpyErrorCode(code), |games|)
    case HostDelivery(code, game) => HostCall(MapToGameSpyErrorCode(code), ToI32(game.sessionID))
    case JoinDelivery(code, game) => JoinCall(MapToGameSpyErrorCode(code), ToI32(game.sessionID), game.hostIP, game.hostPort)
  }

  /** The calls the game sees for one delivery, given the callback pointer
      stored for that kind at the time: none when it is null. */
  function GameCalls(d: Delivery, gameCallback: Addr): (calls: seq<GameCall>)
    ensures |calls| <= 1
    ensures |calls| == 1 <==> gameCallback != NULL
    ensures forall c :: c in calls ==> MapGameSpyErrorCode(c.result) == d.code
  {
    if gameCallback == NULL then [] else [Forward(d)]
  }

  /** A profile id is handed to the game's `int` parameter as the same
      32 bits: it reads back as the id after conversion to unsigned. */
  lemma ProfileIdBits(code: ResultCode, player: PlayerInfo)
    ensures ToU32(Forward(LoginDelivery(code, player)).profileID) == player.profileID
  {
  }

  // ---- the session values handed to the backend ----

  /** The game `GameSpy_HostGame` registers: the name and the player limit
      given (cut to 8 bits), one player, port 16000 and no session id. */
  function HostSessionInfo(gameName: string, maxPlayers: int): (g: GameSessionInfo)
    ensures g.sessionName == gameName && g.maxPlayers == ToU8(maxPlayers)
    ensures g.curPlayers == 1 && g.hostPort == 16000 && g.sessionID == 0
    ensures g == EmptySession.(sessionName := g.sessionName, maxPlayers := g.maxPlayers,
                               curPlayers := 1, hostPort := 16000)
  {
    EmptySession.(sessionName := gameName, maxPlayers := ToU8(maxPlayers), curPlayers := 1, hostPort := 16000)
  }

  /** The game `GameSpy_JoinGame` asks for: only the session id is set. */
  function JoinSessionInfo(gameID: int): (g: GameSessionInfo)
    ensures g == EmptySession.(sessionID := ToU32(gameID))
    ensures 0 <= gameID < TWO_32 ==> g.sessionID == gameID
  {
    EmptySession.(sessionID := ToU32(gameID))
  }

  /** A game hosted through the proxy always receives a drawn session id,
      since the proxy never supplies one. */
  lemma ProxyHostDrawsId(s: State, gameName: string, maxPlayers: int, connectOk: bool, drawn: u32)
    requires s.slots.master || connectOk
    requires ValidDraw(drawn)
    ensures HostGameSpec(s, HostSessionInfo(gameName, maxPlayers), true, connectOk, drawn).hostedGame
            == HostSessionInfo(gameName, maxPlayers).(sessionID := drawn)
  {
    HostAssignsSessionId(s, HostSessionInfo(gameName, maxPlayers), true, connectOk, drawn);
  }

  /** A join through the proxy negotiates with an empty address and port 0:
      the requested game is not looked up, so only its id is known. */
  lemma ProxyJoinHasNoAddress(s: State, gameID: int, connectOk: bool, cookie: string)
    requires connectOk
    ensures var t := JoinGameSpec(s, JoinSessionInfo(gameID), true, connectOk, cookie);
      t.natInfo.targetIP == "" && t.natInfo.targetPort == 0
  {
    JoinStartsNegotiation(s, JoinSessionInfo(gameID), true, connectOk, cookie);
  }

  /** The configuration the proxy starts the backend with: the file's
      settings when it opens, otherwise the defaults stored and read back. */
  function LoadedConfig(file: Option<seq<string>>, defaults: BackendConfig): BackendConfig {
    match file
    case Some(lines) => SettingsToBackendConfig(ApplyLines(map[], lines))
    case None => SettingsToBackendConfig(ConfigSettings(ConfigSettings(map[], defaults), defaults))
  }

  /** Without a file the backend runs with exactly the defaults. */
  lemma MissingFileUsesDefaults(defaults: BackendConfig)
    ensures LoadedConfig(None, defaults) == defaults
  {
    ConfigRoundTrip(ConfigSettings(map[], defaults), defaults);
  }

  /** A file that sets none of the configuration keys gives the Revora
      servers and ports. */
  lemma EmptyFileUsesRevora(lines: seq<string>)
    requires forall i, k :: 0 <= i < |lines| && k in CONFIG_KEYS ==> !Assigns(lines[i], k)
    ensures LoadedConfig(Some(lines), EmptyConfig) == BackendConfig(
      "Revora", "gpcm.gamespy.com", 29900, "peerchat.gamespy.com", 6667,
      "ccgenzh.ms6.gamespy.com", 28900, "natneg1.gamespy.com", 27901)
  {
    var m := ApplyLines(map[], lines);
    forall k | k in CONFIG_KEYS
      ensures k !in m
    {
      UnassignedKeyKept(map[], lines, k);
    }
    Defaults(m);
  }

  /** The backend right after `Initialize`: configured, and when the
      network starts, running with the invite callback registered. */
  function StartedBackend(config: BackendConfig, startupOk: bool): State {
    var s := InitializeSpec(Initial, config, startupOk).0;
    if startupOk then RegisterInviteCallbackSpec(s, true) else s
  }

  /** The part of `Initialize` after hooking: load the configuration, fall
      back to the defaults, create the backend, start it and, when it
      starts, register the invite callback. */
  method StartBackend(file: Option<seq<string>>, defaults: BackendConfig, startupOk: bool)
    returns (b: Backend, ok: bool)
    ensures ok == startupOk && fresh(b)
    ensures b.Snapshot() == StartedBackend(LoadedConfig(file, defaults), startupOk)
  {
    var parser := new Parser(defaults);
    var loaded := parser.LoadFromFile(file);
    if !loaded {
      parser.SetBackendConfig(defaults);
    }
    var config := parser.GetBackendConfig();
    b := new Backend();
    ok := b.Initialize(config, startupOk);
    if !ok {
      return;
    }
    b.RegisterInviteCallback(true);
  }

  // ---- the proxy ----

  /** The game's callback pointers, one per kind of completion. */
  datatype CallbackPointers = CallbackPointers(login: Addr, gameList: Addr, host: Addr, join: Addr, invite: Addr)

  /** `GameSpyProxy` with its globals: the backend pointer, the game's five
      callback pointers and the hook table. */
  class Proxy {
    var backend: Backend?
    var loginCallback: Addr
    var gameListCallback: Addr
    var hostGameCallback: Addr
    var joinGameCallback: Addr
    var inviteCallback: Addr
    const hooks: HookManager

    /** The five callback pointers the game has handed over. */
    ghost function Pointers(): CallbackPointers
      reads this
    {
      CallbackPointers(loginCallback, gameListCallback, hostGameCallback, joinGameCallback, inviteCallback)
    }

    ghost predicate Valid()
      reads this, hooks
    {
      hooks.Valid()
    }

    constructor(hooks: HookManager)
      requires hooks.Valid()
      ensures Valid() && this.hooks == hooks && backend == null
      ensures loginCallback == NULL && gameListCallback == NULL && hostGameCallback == NULL
      ensures joinGameCallback == NULL && inviteCallback == NULL
    {
      this.hooks := hooks;
      backend := null;
      loginCallback, gameListCallback, hostGameCallback, joinGameCallback, inviteCallback := NULL, NULL, NULL, NULL, NULL;
    }

    /** `Initialize`, with `file` the configuration file's lines (absent
        when it does not open), `defaults` the value of
        `BackendConfig::CreateDefaultRevora()` and `startupOk` the outcome
        of starting the network. A failed start keeps the backend. */
    method Initialize(file: Option<seq<string>>, defaults: BackendConfig, startupOk: bool) returns (ok: bool)
      modifies this
      ensures ok == startupOk
      ensures backend != null && fresh(backend)
      ensures backend.Snapshot() == StartedBackend(LoadedConfig(file, defaults), startupOk)
      ensures unchanged(hooks)
      ensures Pointers() == old(Pointers())
    {
      var hooked := hooks.Initialize();
      if !hooked {
        assert false;
      }
      var b;
      b, ok := StartBackend(file, defaults, startupOk);
      backend := b;
    }

    /** `Shutdown`: the hooks are removed, then the backend is shut down
        and dropped if there is one; a second call finds none. */
    method Shutdown(writable: Addr -> bool)
      requires Valid()
      modifies this, hooks, hooks.memory, backend
      ensures Valid() && backend == null
      ensures old(backend) != null ==> old(backend).Snapshot() == ShutdownSpec(old(backend.Snapshot()))
      ensures hooks.origFuncMap == Survivors(old(hooks.origFuncMap), {}, writable)
      ensures hooks.hookMap == Survivors(old(hooks.hookMap), {}, writable)
      ensures hooks.memory.bytes ==
        ShutdownMemory(old(hooks.memory.bytes), old(hooks.origFuncMap), old(hooks.origFuncMap.Keys), writable)
      ensures Pointers() == old(Pointers())
    {
      hooks.Shutdown(writable);
      if backend != null {
        backend.Shutdown();
        backend := null;
      }
    }

    method GameSpyInit() returns (r: int)
      ensures r == 0
    {
      return 0;
    }

    method GameSpyLogin(username: string, password: string, callback: Addr, connectOk: bool) returns (r: int)
      modifies this, backend
      ensures r == 0 && backend == old(backend)
      ensures Pointers() == old(Pointers()).(login := callback)
      ensures backend != null ==>
        backend.Snapshot() == LoginSpec(old(backend.Snapshot()), username, password, true, connectOk)
    {
      loginCallback := callback;
      if backend != null {
        backend.Login(username, password, true, connectOk);
      }
      return 0;
    }

    method GameSpyGetGameList(callback: Addr, connectOk: bool) returns (r: int)
      modifies this, backend
      ensures r == 0 && backend == old(backend)
      ensures Pointers() == old(Pointers()).(gameList := callback)
      ensures backend != null ==>
        backend.Snapshot() == FetchGameListSpec(old(backend.Snapshot()), true, connectOk)
    {
      gameListCallback := callback;
      if backend != null {
        backend.FetchGameList(true, connectOk);
      }
      return 0;
    }

    method GameSpyHostGame(gameName: string, maxPlayers: int, callback: Addr, connectOk: bool) returns (r: int)
      modifies this, backend
      ensures r == 0 && backend == old(backend)
      ensures Pointers() == old(Pointers()).(host := callback)
      ensures backend != null ==>
        exists drawn :: ValidDraw(drawn) &&
          backend.Snapshot() == HostGameSpec(old(backend.Snapshot()), HostSessionInfo(gameName, maxPlayers), true, connectOk, drawn)
    {
      hostGameCallback := callback;
      if backend != null {
        var gameInfo := EmptySession;
        gameInfo := gameInfo.(sessionName := gameName);
        gameInfo := gameInfo.(maxPlayers := ToU8(maxPlayers));
        gameInfo := gameInfo.(curPlayers := 1);
        gameInfo := gameInfo.(hostPort := 16000);
        ghost var drawn := backend.HostGame(gameInfo, true, connectOk);
      }
      return 0;
    }

    method GameSpyJoinGame(gameID: int, callback: Addr, connectOk: bool) returns (r: int)
      modifies this, backend
      ensures r == 0 && backend == old(backend)
      ensures Pointers() == old(Pointers()).(join := callback)
      ensures backend != null ==>
        exists cookie :: |cookie| == 10 && Alphanumeric(cookie) &&
          backend.Snapshot() == JoinGameSpec(old(backend.Snapshot()), JoinSessionInfo(gameID), true, connectOk, cookie)
    {
      joinGameCallback := callback;
      if backend != null {
        var gameInfo := EmptySession.(sessionID := ToU32(gameID));
        backend.JoinGame(gameInfo, true, connectOk);
      }
      return 0;
    }

    method GameSpySendInvite(username: string, gameID: int) returns (r: int)
      ensures r == 0
    {
      if backend != null {
        backend.SendInvite(username, ToU32(gameID));
      }
      return 0;
    }

    method GameSpyThink() returns (r: int)
      ensures r == 0
    {
      if backend != null {
        backend.PumpEvents();
      }
      return 0;
    }
  }

  /** Shutting down twice: the second call leaves the first backend as the
      first call left it. */
  method ShutdownTwice(p: Proxy, writable: Addr -> bool) returns (first: Backend?)
    requires p.Valid()
    modifies p, p.hooks, p.hooks.memory, p.backend
    ensures p.backend == null && first == old(p.backend)
    ensures first != null ==> first.Snapshot() == ShutdownSpec(old(p.backend.Snapshot()))
  {
    first := p.backend;
    p.Shutdown(writable);
    p.Shutdown(writable);
  }
}
