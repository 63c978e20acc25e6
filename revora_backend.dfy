/** The Revora backend: the client side of the session protocol, without its
    sockets and its thread. Each of the four server connections is a slot
    that is open or not; whether a connection attempt succeeds is an input,
    and so is whatever a readable slot yields. Every callback invocation is
    appended to a log of deliveries and every request sent is appended to a
    log of messages.

    The state is described twice: as the value `State`, with one pure
    transition function per operation (`LoginSpec`, `StepSpec`, ...), about
    which the lemmas below are stated, and as the class `Backend`, whose
    methods update their fields in place and are proved to perform exactly
    those transitions. */
module RevoraBackend {
  import opened Basics
  import opened Text
  import opened GameBackend
  import opened RevoraProtocol

  /** The four connections of the backend. */
  datatype Slot = LoginSlot | MasterSlot | ChatSlot | NatSlot

  /** One invocation of a stored callback, with what it was handed. */
  datatype Delivery =
    | LoginDelivery(code: ResultCode, player: PlayerInfo)
    | GameListDelivery(code: ResultCode, games: seq<GameSessionInfo>)
    | HostDelivery(code: ResultCode, game: GameSessionInfo)
    | JoinDelivery(code: ResultCode, game: GameSessionInfo)

  /** A request written to one of the connections. */
  datatype Message = Message(slot: Slot, text: string)

  /** One `recv` into the 4096-byte buffer yields at most 4095 bytes (one is
      kept for the terminating NUL). */
  const RECV_CAPACITY: nat := 4095
  type Chunk = s: string | |s| <= 4095

  /** What the background loop finds on one slot after `select`: not
      readable, the bytes `recv` returned (none when the peer closed the
      connection), would-block, or another receive error. */
  datatype SlotEvent = Idle | Bytes(data: Chunk) | WouldBlock | Failed

  datatype Events = Events(login: SlotEvent, master: SlotEvent, chat: SlotEvent, negotiation: SlotEvent)

  /** The session id drawn for a game registered without one. */
  predicate ValidDraw(id: u32) { 1000 <= id <= 9999999 }

  /** The local port announced in a NAT negotiation. */
  const NAT_LOCAL_PORT: u16 := 16500

  /** Which of the four sockets is open (not `INVALID_SOCKET`). */
  datatype Slots = Slots(login: bool, master: bool, chat: bool, negotiation: bool)

  const AllClosed: Slots := Slots(false, false, false, false)

  /** Which of the five stored callbacks is set (a non-empty `std::function`). */
  datatype Callbacks = Callbacks(login: bool, gameList: bool, join: bool, host: bool, invite: bool)

  /** The backend's fields: the configuration, the local player, the hosted
      game, the peer of the last NAT negotiation, the last game list, the
      four sockets, the callbacks, whether the background loop runs,
      whether an exception has ended the process, and the two logs. */
  datatype State = State(
    config: BackendConfig,
    localPlayer: PlayerInfo,
    hostedGame: GameSessionInfo,
    natInfo: NatNegotiationInfo,
    gameList: seq<GameSessionInfo>,
    slots: Slots,
    callbacks: Callbacks,
    running: bool,
    terminated: bool,
    deliveries: seq<Delivery>,
    sent: seq<Message>)

  /** A value-initialised configuration (the header that declares its
      defaults is not part of this model). */
  const EmptyConfig: BackendConfig := BackendConfig("", "", 0, "", 0, "", 0, "", 0)

  /** The constructor: every slot closed, no callback, no thread. */
  const Initial: State := State(
    EmptyConfig, EmptyPlayer, EmptySession, NatNegotiationInfo("", "", 0, 0), [],
    AllClosed, Callbacks(false, false, false, false, false),
    false, false, [], [])

  function IsOpen(sl: Slots, slot: Slot): bool {
    match slot
    case LoginSlot => sl.login
    case MasterSlot => sl.master
    case ChatSlot => sl.chat
    case NatSlot => sl.negotiation
  }

  /** The sockets with one of them opened or closed. */
  function WithSlot(sl: Slots, slot: Slot, open: bool): (r: Slots)
    ensures IsOpen(r, slot) == open
    ensures forall other :: other != slot ==> IsOpen(r, other) == IsOpen(sl, other)
  {
    match slot
    case LoginSlot => sl.(login := open)
    case MasterSlot => sl.(master := open)
    case ChatSlot => sl.(chat := open)
    case NatSlot => sl.(negotiation := open)
  }

  function SetOpen(s: State, slot: Slot, open: bool): State {
    s.(slots := WithSlot(s.slots, slot, open))
  }

  /** `CloseSocket` on one slot. */
  function Close(s: State, slot: Slot): State {
    SetOpen(s, slot, false)
  }

  /** The log after invoking a callback that may be unset. */
  function Deliver(s: State, isSet: bool, d: Delivery): seq<Delivery> {
    if isSet then s.deliveries + [d] else s.deliveries
  }

  function Send(s: State, slot: Slot, text: string): seq<Message> {
    s.sent + [Message(slot, text)]
  }

  // ---- the operations, as transitions ----

  function InitializeSpec(s: State, config: BackendConfig, startupOk: bool): (State, bool) {
    var s1 := s.(config := config);
    if startupOk then (s1.(running := true), true) else (s1, false)
  }

  function ShutdownSpec(s: State): State {
    s.(running := false, slots := AllClosed)
  }

  function LoginSpec(s: State, username: string, password: string, callback: bool, connectOk: bool): State {
    var player := EmptyPlayer.(username := username);
    var s1 := s.(callbacks := s.callbacks.(login := callback), localPlayer := player);
    if connectOk then
      s1.(slots := s.slots.(login := true), sent := Send(s1, LoginSlot, LoginRequest(username, password)))
    else
      s1.(slots := s.slots.(login := false), deliveries := Deliver(s1, callback, LoginDelivery(ErrorServerUnavailable, player)))
  }

  function LogoutSpec(s: State): State {
    s.(slots := s.slots.(login := false), localPlayer := s.localPlayer.(online := false))
  }

  /** `connectOk` is consulted only when the master slot is closed. */
  function FetchGameListSpec(s: State, callback: bool, connectOk: bool): State {
    var s1 := s.(callbacks := s.callbacks.(gameList := callback));
    if !s.slots.master && !connectOk then
      s1.(deliveries := Deliver(s1, callback, GameListDelivery(ErrorServerUnavailable, s.gameList)))
    else
      s1.(slots := s.slots.(master := true), sent := Send(s1, MasterSlot, GAME_LIST_REQUEST))
  }

  /** `SendHostGameRequest`: a hosted game still without a session id gets
      `drawn`, and the registration goes to the master server. */
  function SendHostSpec(s: State, drawn: u32): State {
    var g := if s.hostedGame.sessionID == 0 then s.hostedGame.(sessionID := drawn) else s.hostedGame;
    s.(hostedGame := g, sent := Send(s, MasterSlot, HostRequest(s.localPlayer.username, g)))
  }

  /** `drawn` is the random session id, used only when the game has none. */
  function HostGameSpec(s: State, game: GameSessionInfo, callback: bool, connectOk: bool, drawn: u32): State {
    var s1 := s.(callbacks := s.callbacks.(host := callback), hostedGame := game);
    if !s.slots.master && !connectOk then
      s1.(deliveries := Deliver(s1, callback, HostDelivery(ErrorServerUnavailable, game)))
    else
      SendHostSpec(s1.(slots := s.slots.(master := true)), drawn)
  }

  predicate Hosting(s: State) {
    s.slots.master && s.hostedGame.sessionID != 0
  }

  function CancelHostSpec(s: State): State {
    if Hosting(s) then s.(hostedGame := EmptySession) else s
  }

  /** `StartNatNegotiation`; `cookie` is the random string drawn once the
      connection stands. */
  function StartNatSpec(s: State, game: GameSessionInfo, connectOk: bool, cookie: string): State {
    if connectOk then
      var info := NatNegotiationInfo(cookie, game.hostIP, game.hostPort, NAT_LOCAL_PORT);
      s.(slots := s.slots.(negotiation := true), natInfo := info, sent := Send(s, NatSlot, NatNegRequest(info)))
    else
      s.(slots := s.slots.(negotiation := false),
         deliveries := Deliver(s, s.callbacks.join, JoinDelivery(ErrorServerUnavailable, game)))
  }

  /** `JoinGame`, which is `StartNatNegotiation` once the callback is stored. */
  function JoinGameSpec(s: State, game: GameSessionInfo, callback: bool, connectOk: bool, cookie: string): State {
    StartNatSpec(s.(callbacks := s.callbacks.(join := callback)), game, connectOk, cookie)
  }

  function HeartbeatSpec(s: State): State {
    if Hosting(s) then s.(sent := Send(s, MasterSlot, HeartbeatRequest(s.hostedGame.sessionID))) else s
  }

  function RegisterInviteCallbackSpec(s: State, callback: bool): State {
    s.(callbacks := s.callbacks.(invite := callback))
  }

  function LoginResponseSpec(s: State, response: string): State {
    match InterpretLogin(response)
    case AuthFailed(_) =>
      s.(deliveries := Deliver(s, s.callbacks.login, LoginDelivery(ErrorAuthFailed, s.localPlayer)))
    case ProfileOutOfRange => s.(terminated := true)
    case LoggedIn(id) =>
      var p := s.localPlayer.(profileID := id.GetOr(s.localPlayer.profileID), online := true);
      s.(localPlayer := p, deliveries := Deliver(s, s.callbacks.login, LoginDelivery(Success, p)))
  }

  /** The list `ProcessGameListResponse` fabricates. */
  function SyntheticList(): (games: seq<GameSessionInfo>)
    ensures |games| == 3
    ensures forall i :: 0 <= i < 3 ==> games[i] == SyntheticGame(i)
  {
    [SyntheticGame(0), SyntheticGame(1), SyntheticGame(2)]
  }

  /** The response's content is not looked at. */
  function GameListResponseSpec(s: State): State {
    s.(gameList := SyntheticList(),
       deliveries := Deliver(s, s.callbacks.gameList, GameListDelivery(Success, SyntheticList())))
  }

  function HostGameResponseSpec(s: State, response: string): State {
    var code := if HasError(response) then ErrorUnknown else Success;
    s.(deliveries := Deliver(s, s.callbacks.host, HostDelivery(code, s.hostedGame)))
  }

  /** The game handed to the join callback: only the address is filled in. */
  function Endpoint(ip: string, port: u16): GameSessionInfo {
    EmptySession.(hostIP := ip, hostPort := port)
  }

  function NatResponseSpec(s: State, response: string): State {
    match InterpretNat(response, s.natInfo)
    case NatFailed(_) =>
      s.(deliveries := Deliver(s, s.callbacks.join,
           JoinDelivery(ErrorNatFailure, Endpoint(s.natInfo.targetIP, s.natInfo.targetPort))))
    case PortOutOfRange => s.(terminated := true)
    case Negotiated(ip, port) =>
      s.(deliveries := Deliver(s, s.callbacks.join, JoinDelivery(Success, Endpoint(ip, port))))
  }

  /** The handler each slot's data is routed to; chat data is dropped. */
  function Handle(s: State, slot: Slot, response: string): State {
    match slot
    case LoginSlot => LoginResponseSpec(s, response)
    case MasterSlot => GameListResponseSpec(s)
    case ChatSlot => s
    case NatSlot => NatResponseSpec(s, response)
  }

  /** One slot's share of a loop iteration. */
  function PollSpec(s: State, slot: Slot, e: SlotEvent): State {
    if !IsOpen(s.slots, slot) then s
    else match e
      case Idle => s
      case WouldBlock => s
      case Failed => Close(s, slot)
      case Bytes(d) => if |d| == 0 then Close(s, slot) else Handle(s, slot, UpTo(d, '\0'))
  }

  /** One iteration of the background loop: nothing when `select` fails;
      otherwise the four slots in order, then the heartbeat when 20 seconds
      have passed. An exception in a handler ends everything after it. */
  function StepSpec(s: State, selectOk: bool, ev: Events, heartbeatDue: bool): State {
    if !s.running || s.terminated || !selectOk then s
    else
      var s1 := PollSpec(s, LoginSlot, ev.login);
      var s2 := if s1.terminated then s1 else PollSpec(s1, MasterSlot, ev.master);
      var s3 := if s2.terminated then s2 else PollSpec(s2, ChatSlot, ev.chat);
      var s4 := if s3.terminated then s3 else PollSpec(s3, NatSlot, ev.negotiation);
      if !s4.terminated && heartbeatDue then HeartbeatSpec(s4) else s4
  }

  // ---- what the transitions promise ----

  /** Logging in resets the player to the given name and, when the login
      server is reached, sends exactly the login request on its slot;
      otherwise the slot stays closed and the callback hears
      `ERROR_SERVER_UNAVAILABLE` once. */
  lemma LoginSends(s: State, username: string, password: string, callback: bool, connectOk: bool)
    ensures var t := LoginSpec(s, username, password, callback, connectOk);
      && t.localPlayer == PlayerInfo(username, 0, false)
      && t.slots.login == connectOk
      && (connectOk ==> t.sent == s.sent + [Message(LoginSlot, LoginRequest(username, password))]
                        && t.deliveries == s.deliveries)
      && (!connectOk ==> t.sent == s.sent
                         && t.deliveries == s.deliveries
                            + (if callback then [LoginDelivery(ErrorServerUnavailable, t.localPlayer)] else []))
  {
  }

  /** A login response carrying `\error\` reports `ERROR_AUTH_FAILED` once
      and changes nothing else, `online` included. */
  lemma LoginErrorReported(s: State, response: string)
    requires HasError(response)
    ensures LoginResponseSpec(s, response)
            == s.(deliveries := s.deliveries + (if s.callbacks.login then [LoginDelivery(ErrorAuthFailed, s.localPlayer)] else []))
  {
  }

  /** Any other login response marks the player online, takes the profile
      id from the first `\profileid\` field when there is one (keeping the
      previous id otherwise) and reports `SUCCESS`, unless the id does not
      fit an `unsigned long`, in which case the process ends. */
  lemma LoginSucceeds(s: State, response: string)
    requires !HasError(response)
    ensures var t := LoginResponseSpec(s, response);
      var c := Capture(response, PROFILE_KEY, Digits);
      && (c.None? ==> t.localPlayer == s.localPlayer.(online := true))
      && (c.Some? && DecimalValue(c.value) <= ULONG_MAX ==>
            t.localPlayer == s.localPlayer.(profileID := DecimalValue(c.value), online := true))
      && (c.Some? && DecimalValue(c.value) > ULONG_MAX ==> t == s.(terminated := true))
      && (!t.terminated ==> t.deliveries == s.deliveries
                              + (if s.callbacks.login then [LoginDelivery(Success, t.localPlayer)] else []))
  {
  }

  /** A successful login whose response names no profile id leaves the id
      at the value `Login` reset it to. */
  lemma LoginWithoutProfileId(s: State, username: string, password: string, callback: bool, response: string)
    requires !HasError(response)
    requires Capture(response, PROFILE_KEY, Digits).None?
    ensures LoginResponseSpec(LoginSpec(s, username, password, callback, true), response).localPlayer
            == PlayerInfo(username, 0, true)
  {
  }

  /** The game-list and host requests reuse an open master connection: the
      connection outcome matters only when the slot is closed. */
  lemma MasterConnectsOnlyWhenClosed(s: State, game: GameSessionInfo, callback: bool, drawn: u32)
    requires s.slots.master
    ensures FetchGameListSpec(s, callback, true) == FetchGameListSpec(s, callback, false)
    ensures HostGameSpec(s, game, callback, true, drawn) == HostGameSpec(s, game, callback, false, drawn)
  {
  }

  /** Failing to reach the master server leaves the slot closed, sends
      nothing and reports `ERROR_SERVER_UNAVAILABLE` once. */
  lemma MasterConnectFailure(s: State, game: GameSessionInfo, callback: bool, drawn: u32)
    requires !s.slots.master
    ensures var t := FetchGameListSpec(s, callback, false);
      && !t.slots.master && t.sent == s.sent
      && t.deliveries == s.deliveries + (if callback then [GameListDelivery(ErrorServerUnavailable, s.gameList)] else [])
    ensures var t := HostGameSpec(s, game, callback, false, drawn);
      && !t.slots.master && t.sent == s.sent && t.hostedGame == game
      && t.deliveries == s.deliveries + (if callback then [HostDelivery(ErrorServerUnavailable, game)] else [])
  {
  }

  /** Registering a game keeps a nonzero session id and otherwise takes the
      drawn one, so a registered game always has an id; the registration
      describes the stored game under the local player's name. */
  lemma HostAssignsSessionId(s: State, game: GameSessionInfo, callback: bool, connectOk: bool, drawn: u32)
    requires s.slots.master || connectOk
    requires ValidDraw(drawn)
    ensures var t := HostGameSpec(s, game, callback, connectOk, drawn);
      && (game.sessionID != 0 ==> t.hostedGame == game)
      && (game.sessionID == 0 ==> t.hostedGame == game.(sessionID := drawn))
      && t.hostedGame.sessionID != 0
      && t.slots.master && Hosting(t)
      && t.sent == s.sent + [Message(MasterSlot, HostRequest(s.localPlayer.username, t.hostedGame))]
      && t.deliveries == s.deliveries
  {
  }

  /** A heartbeat is sent exactly while a game with an id is registered on
      an open master connection, and it names that id. */
  lemma HeartbeatOnlyWhileHosting(s: State)
    ensures HeartbeatSpec(s).sent != s.sent <==> Hosting(s)
    ensures Hosting(s) ==> HeartbeatSpec(s).sent == s.sent + [Message(MasterSlot, HeartbeatRequest(s.hostedGame.sessionID))]
    ensures HeartbeatSpec(s).(sent := s.sent) == s
  {
    if Hosting(s) {
      assert |HeartbeatSpec(s).sent| == |s.sent| + 1;
    }
  }

  /** Cancelling clears the hosted game exactly when a game with an id is
      registered on an open master connection. */
  lemma CancelClears(s: State)
    ensures Hosting(s) ==> CancelHostSpec(s) == s.(hostedGame := EmptySession)
    ensures !Hosting(s) ==> CancelHostSpec(s) == s
    ensures !Hosting(CancelHostSpec(s))
  {
  }

  /** After a cancellation no heartbeat is sent. */
  lemma CancelThenNoHeartbeat(s: State)
    ensures HeartbeatSpec(CancelHostSpec(s)) == CancelHostSpec(s)
  {
    CancelClears(s);
  }

  /** Joining reaches the NAT server or reports `ERROR_SERVER_UNAVAILABLE`
      with the requested game; on success the negotiation targets the
      game's address from local port 16500 with the drawn cookie. */
  lemma JoinStartsNegotiation(s: State, game: GameSessionInfo, callback: bool, connectOk: bool, cookie: string)
    ensures var t := JoinGameSpec(s, game, callback, connectOk, cookie);
      && t.slots.negotiation == connectOk
      && (connectOk ==> t.natInfo == NatNegotiationInfo(cookie, game.hostIP, game.hostPort, 16500)
                        && t.sent == s.sent + [Message(NatSlot, NatNegRequest(t.natInfo))]
                        && t.deliveries == s.deliveries)
      && (!connectOk ==> t.natInfo == s.natInfo && t.sent == s.sent
                         && t.deliveries == s.deliveries
                            + (if callback then [JoinDelivery(ErrorServerUnavailable, game)] else []))
  {
  }

  /** A NAT response carrying `\error\` reports `ERROR_NAT_FAILURE` with
      the address the negotiation was for. */
  lemma NatErrorCarriesTarget(s: State, response: string)
    requires HasError(response)
    ensures NatResponseSpec(s, response)
            == s.(deliveries := s.deliveries
                  + (if s.callbacks.join then [JoinDelivery(ErrorNatFailure, Endpoint(s.natInfo.targetIP, s.natInfo.targetPort))] else []))
  {
  }

  /** Any other NAT response reports `SUCCESS` with the address it names,
      each part defaulting to the negotiation's target and the port reduced
      to 16 bits; a port beyond `INT_MAX` ends the process instead. */
  lemma NatSucceeds(s: State, response: string)
    requires !HasError(response)
    ensures var t := NatResponseSpec(s, response);
      var ip := Capture(response, IP_KEY, DigitsAndDots);
      var port := Capture(response, PORT_KEY, Digits);
      && (port.Some? && DecimalValue(port.value) > INT_MAX ==> t == s.(terminated := true))
      && (port.None? || DecimalValue(port.value) <= INT_MAX ==>
            t == s.(deliveries := s.deliveries
                      + (if s.callbacks.join then
                           [JoinDelivery(Success, Endpoint(ip.GetOr(s.natInfo.targetIP),
                              if port.Some? then DecimalValue(port.value) % TWO_16 else s.natInfo.targetPort))]
                         else [])))
  {
  }

  /** Any data on the master connection replaces the game list by the three
      fabricated entries and reports them with `SUCCESS`, whatever it says. */
  lemma MasterDataYieldsSyntheticList(s: State, d1: Chunk, d2: Chunk)
    requires s.slots.master && |d1| > 0 && |d2| > 0
    ensures PollSpec(s, MasterSlot, Bytes(d1)) == PollSpec(s, MasterSlot, Bytes(d2))
    ensures var t := PollSpec(s, MasterSlot, Bytes(d1));
      && |t.gameList| == 3
      && (forall i :: 0 <= i < 3 ==> t.gameList[i].sessionID == 1000 + i && t.gameList[i].hostPort == 16000)
      && t.deliveries == s.deliveries + (if s.callbacks.gameList then [GameListDelivery(Success, t.gameList)] else [])
  {
  }

  /** Data on the chat connection is dropped. */
  lemma ChatDataDropped(s: State, e: SlotEvent)
    requires e.Bytes? ==> |e.data| > 0
    requires !e.Failed?
    ensures PollSpec(s, ChatSlot, e) == s
  {
  }

  /** A peer that closes the connection, or a receive error other than
      would-block, closes exactly that slot and changes nothing else;
      would-block and an unreadable slot change nothing. */
  lemma SlotClosing(s: State, slot: Slot, e: SlotEvent)
    requires e.Failed? || e == Bytes([])
    ensures PollSpec(s, slot, e) == Close(s, slot)
    ensures !IsOpen(PollSpec(s, slot, e).slots, slot)
    ensures PollSpec(s, slot, WouldBlock) == s && PollSpec(s, slot, Idle) == s
  {
  }

  /** The slot whose handler produces a delivery of this kind. */
  predicate OfSlot(d: Delivery, slot: Slot) {
    match d
    case LoginDelivery(_, _) => slot == LoginSlot
    case GameListDelivery(_, _) => slot == MasterSlot
    case HostDelivery(_, _) => false
    case JoinDelivery(_, _) => slot == NatSlot
  }

  /** `after` is `before`, or `before` with one delivery of the slot's kind
      appended. */
  predicate AppendedFrom(before: seq<Delivery>, after: seq<Delivery>, slot: Slot) {
    after == before
    || (|after| == |before| + 1 && after[..|before|] == before && OfSlot(after[|before|], slot))
  }

  lemma LoginResponseShape(s: State, response: string)
    ensures var t := LoginResponseSpec(s, response);
      && t == s.(localPlayer := t.localPlayer, terminated := t.terminated, deliveries := t.deliveries)
      && AppendedFrom(s.deliveries, t.deliveries, LoginSlot)
  {
    match InterpretLogin(response) {
      case AuthFailed(_) =>
      case ProfileOutOfRange =>
      case LoggedIn(_) =>
    }
  }

  lemma NatResponseShape(s: State, response: string)
    ensures var t := NatResponseSpec(s, response);
      && t == s.(terminated := t.terminated, deliveries := t.deliveries)
      && AppendedFrom(s.deliveries, t.deliveries, NatSlot)
  {
    match InterpretNat(response, s.natInfo) {
      case NatFailed(_) =>
      case PortOutOfRange =>
      case Negotiated(_, _) =>
    }
  }

  /** A poll changes only the player, the game list, the slots, the
      termination flag and the deliveries, and it adds at most one delivery,
      of the polled slot's own kind. */
  lemma PollDeliversOwnKind(s: State, slot: Slot, e: SlotEvent)
    ensures var t := PollSpec(s, slot, e);
      && t == s.(localPlayer := t.localPlayer, gameList := t.gameList,
                 slots := t.slots,
                 terminated := t.terminated, deliveries := t.deliveries)
      && AppendedFrom(s.deliveries, t.deliveries, slot)
  {
    if IsOpen(s.slots, slot) && e.Bytes? && |e.data| > 0 {
      var r := UpTo(e.data, '\0');
      match slot {
        case LoginSlot => LoginResponseShape(s, r);
        case MasterSlot =>
        case ChatSlot =>
        case NatSlot => NatResponseShape(s, r);
      }
    }
  }

  /** A failing `select`, a stopped loop or an ended process leaves
      everything as it is. */
  lemma StepIdle(s: State, selectOk: bool, ev: Events, heartbeatDue: bool)
    requires !selectOk || !s.running || s.terminated
    ensures StepSpec(s, selectOk, ev, heartbeatDue) == s
  {
  }

  /** What a poll leaves alone, and the most it adds to the deliveries. */
  lemma PollKeeps(s: State, slot: Slot, e: SlotEvent)
    ensures var t := PollSpec(s, slot, e);
      && s.deliveries <= t.deliveries
      && |t.deliveries| <= |s.deliveries| + (if slot == ChatSlot then 0 else 1)
      && t.sent == s.sent && t.config == s.config && t.hostedGame == s.hostedGame
      && t.natInfo == s.natInfo && t.callbacks == s.callbacks && t.running == s.running
  {
    PollDeliversOwnKind(s, slot, e);
  }

  /** An iteration only appends to the two logs, at most one delivery per
      slot but the chat slot and no request but the heartbeat, and never
      touches the configuration, the callbacks or the hosted game. */
  lemma StepAppends(s: State, selectOk: bool, ev: Events, heartbeatDue: bool)
    ensures var t := StepSpec(s, selectOk, ev, heartbeatDue);
      && s.deliveries <= t.deliveries
      && |t.deliveries| <= |s.deliveries| + 3
      && (t.sent == s.sent || t.sent == s.sent + [Message(MasterSlot, HeartbeatRequest(s.hostedGame.sessionID))])
      && t.config == s.config && t.hostedGame == s.hostedGame && t.natInfo == s.natInfo
      && t.callbacks == s.callbacks && t.running == s.running
  {
    if s.running && !s.terminated && selectOk {
      var s1 := PollSpec(s, LoginSlot, ev.login);
      PollKeeps(s, LoginSlot, ev.login);
      var s2 := if s1.terminated then s1 else PollSpec(s1, MasterSlot, ev.master);
      PollKeeps(s1, MasterSlot, ev.master);
      var s3 := if s2.terminated then s2 else PollSpec(s2, ChatSlot, ev.chat);
      PollKeeps(s2, ChatSlot, ev.chat);
      var s4 := if s3.terminated then s3 else PollSpec(s3, NatSlot, ev.negotiation);
      PollKeeps(s3, NatSlot, ev.negotiation);
      assert s.deliveries <= s4.deliveries && |s4.deliveries| <= |s.deliveries| + 3;
      HeartbeatOnlyWhileHosting(s4);
    }
  }

  /** Once a handler's exception has ended the process, nothing more
      happens. */
  lemma TerminationIsFinal(s: State, selectOk: bool, ev: Events, heartbeatDue: bool)
    requires StepSpec(s, selectOk, ev, heartbeatDue).terminated
    ensures StepSpec(StepSpec(s, selectOk, ev, heartbeatDue), selectOk, ev, heartbeatDue)
            == StepSpec(s, selectOk, ev, heartbeatDue)
  {
  }

  // ---- the backend object ----

  class Backend {
    var config: BackendConfig
    var localPlayer: PlayerInfo
    var hostedGame: GameSessionInfo
    var natInfo: NatNegotiationInfo
    var gameList: seq<GameSessionInfo>
    var slots: Slots
    var callbacks: Callbacks
    var running: bool
    var terminated: bool
    var deliveries: seq<Delivery>
    var sent: seq<Message>

    /** The object's fields as a value. */
    function Snapshot(): State
      reads this
    {
      State(config, localPlayer, hostedGame, natInfo, gameList,
            slots, callbacks,
            running, terminated, deliveries, sent)
    }

    constructor()
      ensures Snapshot() == Initial
    {
      config := EmptyConfig;
      localPlayer := EmptyPlayer;
      hostedGame := EmptySession;
      natInfo := NatNegotiationInfo("", "", 0, 0);
      gameList := [];
      slots := AllClosed;
      callbacks := Callbacks(false, false, false, false, false);
      running, terminated := false, false;
      deliveries, sent := [], [];
    }

    /** `startupOk` is the outcome of `WSAStartup`. */
    method Initialize(cfg: BackendConfig, startupOk: bool) returns (ok: bool)
      modifies this
      ensures (Snapshot(), ok) == InitializeSpec(old(Snapshot()), cfg, startupOk)
    {
      config := cfg;
      if !startupOk {
        return false;
      }
      running := true;
      return true;
    }

    method Shutdown()
      modifies this
      ensures Snapshot() == ShutdownSpec(old(Snapshot()))
    {
      if running {
        running := false;
      }
      CloseSocket(LoginSlot);
      CloseSocket(MasterSlot);
      CloseSocket(ChatSlot);
      CloseSocket(NatSlot);
    }

    method CloseSocket(slot: Slot)
      modifies this
      ensures Snapshot() == Close(old(Snapshot()), slot)
    {
      match slot {
        case LoginSlot => slots := slots.(login := false);
        case MasterSlot => slots := slots.(master := false);
        case ChatSlot => slots := slots.(chat := false);
        case NatSlot => slots := slots.(negotiation := false);
      }
    }

    /** `ConnectToServer`: the slot is closed first and open afterwards
        exactly when the connection attempt (`connectOk`) succeeded. */
    method ConnectToServer(slot: Slot, connectOk: bool) returns (ok: bool)
      modifies this
      ensures ok == connectOk
      ensures Snapshot() == SetOpen(old(Snapshot()), slot, connectOk)
    {
      CloseSocket(slot);
      if !connectOk {
        return false;
      }
      match slot {
        case LoginSlot => slots := slots.(login := true);
        case MasterSlot => slots := slots.(master := true);
        case ChatSlot => slots := slots.(chat := true);
        case NatSlot => slots := slots.(negotiation := true);
      }
      return true;
    }

    method Login(username: string, password: string, callback: bool, connectOk: bool)
      modifies this
      ensures Snapshot() == LoginSpec(old(Snapshot()), username, password, callback, connectOk)
    {
      callbacks := callbacks.(login := callback);
      localPlayer := EmptyPlayer;
      localPlayer := localPlayer.(username := username);
      var ok := ConnectToServer(LoginSlot, connectOk);
      if !ok {
        if callbacks.login {
          deliveries := deliveries + [LoginDelivery(ErrorServerUnavailable, localPlayer)];
        }
        return;
      }
      sent := sent + [Message(LoginSlot, LoginRequest(username, password))];
    }

    method Logout()
      modifies this
      ensures Snapshot() == LogoutSpec(old(Snapshot()))
    {
      CloseSocket(LoginSlot);
      localPlayer := localPlayer.(online := false);
    }

    method FetchGameList(callback: bool, connectOk: bool)
      modifies this
      ensures Snapshot() == FetchGameListSpec(old(Snapshot()), callback, connectOk)
    {
      callbacks := callbacks.(gameList := callback);
      if !slots.master {
        var ok := ConnectToServer(MasterSlot, connectOk);
        if !ok {
          if callbacks.gameList {
            deliveries := deliveries + [GameListDelivery(ErrorServerUnavailable, gameList)];
          }
          return;
        }
      }
      sent := sent + [Message(MasterSlot, GAME_LIST_REQUEST)];
    }

    /** The session id is drawn from [1000, 9999999] when the game has none. */
    method HostGame(game: GameSessionInfo, callback: bool, connectOk: bool) returns (ghost drawn: u32)
      modifies this
      ensures ValidDraw(drawn) && Snapshot() == HostGameSpec(old(Snapshot()), game, callback, connectOk, drawn)
    {
      callbacks := callbacks.(host := callback);
      hostedGame := game;
      drawn := 1000;
      if !slots.master {
        var ok := ConnectToServer(MasterSlot, connectOk);
        if !ok {
          if callbacks.host {
            deliveries := deliveries + [HostDelivery(ErrorServerUnavailable, hostedGame)];
          }
          return;
        }
      }
      drawn := SendHostGameRequest();
    }

    /** The session id drawn, when one is, lies in the distribution's range. */
    method SendHostGameRequest() returns (ghost drawn: u32)
      modifies this
      ensures ValidDraw(drawn) && Snapshot() == SendHostSpec(old(Snapshot()), drawn)
    {
      assert ValidDraw(1000);
      var d: u32 :| ValidDraw(d);
      if hostedGame.sessionID == 0 {
        hostedGame := hostedGame.(sessionID := d);
      }
      sent := sent + [Message(MasterSlot, HostRequest(localPlayer.username, hostedGame))];
      drawn := d;
    }

    method CancelHost()
      modifies this
      ensures Snapshot() == CancelHostSpec(old(Snapshot()))
    {
      if slots.master && hostedGame.sessionID != 0 {
        hostedGame := EmptySession;
      }
    }

    /** `JoinGame`, carried out by `StartNatNegotiation`; the cookie is ten
        characters from the alphanumeric table. */
    method JoinGame(game: GameSessionInfo, callback: bool, connectOk: bool)
      modifies this
      ensures exists cookie :: |cookie| == 10 && Alphanumeric(cookie)
                && Snapshot() == JoinGameSpec(old(Snapshot()), game, callback, connectOk, cookie)
    {
      callbacks := callbacks.(join := callback);
      StartNatNegotiation(game, connectOk);
    }

    method StartNatNegotiation(game: GameSessionInfo, connectOk: bool)
      modifies this
      ensures exists cookie :: |cookie| == 10 && Alphanumeric(cookie)
                && Snapshot() == StartNatSpec(old(Snapshot()), game, connectOk, cookie)
    {
      ghost var s0 := Snapshot();
      var ok := ConnectToServer(NatSlot, connectOk);
      if !ok {
        if callbacks.join {
          deliveries := deliveries + [JoinDelivery(ErrorServerUnavailable, game)];
        }
        assert Alphanumeric("0000000000");
        assert Snapshot() == StartNatSpec(s0, game, connectOk, "0000000000");
        return;
      }
      var cookie := GenerateRandomString(10);
      natInfo := NatNegotiationInfo(cookie, game.hostIP, game.hostPort, NAT_LOCAL_PORT);
      sent := sent + [Message(NatSlot, NatNegRequest(natInfo))];
      assert Snapshot() == StartNatSpec(s0, game, connectOk, cookie);
    }

    method SendHeartbeat()
      modifies this
      ensures Snapshot() == HeartbeatSpec(old(Snapshot()))
    {
      if slots.master && hostedGame.sessionID != 0 {
        sent := sent + [Message(MasterSlot, HeartbeatRequest(hostedGame.sessionID))];
      }
    }

    /** `SendInvite` and `PumpEvents` do nothing yet. */
    method SendInvite(targetUser: string, sessionID: u32)
    {
    }

    method PumpEvents()
    {
    }

    method RegisterInviteCallback(callback: bool)
      modifies this
      ensures Snapshot() == RegisterInviteCallbackSpec(old(Snapshot()), callback)
    {
      callbacks := callbacks.(invite := callback);
    }

    method ProcessLoginResponse(response: string)
      modifies this
      ensures Snapshot() == LoginResponseSpec(old(Snapshot()), response)
    {
      if HasError(response) {
        if callbacks.login {
          deliveries := deliveries + [LoginDelivery(ErrorAuthFailed, localPlayer)];
        }
        return;
      }
      match Capture(response, PROFILE_KEY, Digits) {
        case Some(d) =>
          if DecimalValue(d) > ULONG_MAX {
            terminated := true;
            return;
          }
          localPlayer := localPlayer.(profileID := DecimalValue(d));
        case None =>
      }
      localPlayer := localPlayer.(online := true);
      if callbacks.login {
        deliveries := deliveries + [LoginDelivery(Success, localPlayer)];
      }
    }

    /** The fabricated list is built entry by entry. */
    method ProcessGameListResponse()
      modifies this
      ensures Snapshot() == GameListResponseSpec(old(Snapshot()))
    {
      var games := [];
      var i := 0;
      while i < 3
        invariant 0 <= i <= 3
        invariant games == SyntheticList()[..i]
      {
        games := games + [SyntheticGame(i)];
        i := i + 1;
      }
      gameList := games;
      if callbacks.gameList {
        deliveries := deliveries + [GameListDelivery(Success, gameList)];
      }
    }

    method ProcessHostGameResponse(response: string)
      modifies this
      ensures Snapshot() == HostGameResponseSpec(old(Snapshot()), response)
    {
      if HasError(response) {
        if callbacks.host {
          deliveries := deliveries + [HostDelivery(ErrorUnknown, hostedGame)];
        }
        return;
      }
      if callbacks.host {
        deliveries := deliveries + [HostDelivery(Success, hostedGame)];
      }
    }

    method ProcessNatNegotiationResponse(response: string)
      modifies this
      ensures Snapshot() == NatResponseSpec(old(Snapshot()), response)
    {
      if HasError(response) {
        if callbacks.join {
          deliveries := deliveries + [JoinDelivery(ErrorNatFailure, Endpoint(natInfo.targetIP, natInfo.targetPort))];
        }
        return;
      }
      var ip := natInfo.targetIP;
      var port := natInfo.targetPort;
      match Capture(response, IP_KEY, DigitsAndDots) {
        case Some(a) => ip := a;
        case None =>
      }
      match Capture(response, PORT_KEY, Digits) {
        case Some(d) =>
          if DecimalValue(d) > INT_MAX {
            terminated := true;
            return;
          }
          port := ToU16(DecimalValue(d));
        case None =>
      }
      if callbacks.join {
        deliveries := deliveries + [JoinDelivery(Success, Endpoint(ip, port))];
      }
    }

    /** One slot of a loop iteration. */
    method Poll(slot: Slot, e: SlotEvent)
      modifies this
      ensures Snapshot() == PollSpec(old(Snapshot()), slot, e)
    {
      if !IsOpen(slots, slot) {
        return;
      }
      match e
      case Idle =>
      case WouldBlock =>
      case Failed => CloseSocket(slot);
      case Bytes(d) =>
        if |d| == 0 {
          CloseSocket(slot);
        } else {
          var response := UpTo(d, '\0');
          match slot
          case LoginSlot => ProcessLoginResponse(response);
          case MasterSlot => ProcessGameListResponse();
          case ChatSlot =>
          case NatSlot => ProcessNatNegotiationResponse(response);
        }
    }

    /** One iteration of `BackgroundThreadFunc`'s loop: `selectOk` is the
        outcome of `select`, `ev` what each slot yields, `heartbeatDue`
        whether 20 seconds have passed since the last heartbeat. */
    method Step(selectOk: bool, ev: Events, heartbeatDue: bool)
      modifies this
      ensures Snapshot() == StepSpec(old(Snapshot()), selectOk, ev, heartbeatDue)
    {
      if !running || terminated || !selectOk {
        return;
      }
      Poll(LoginSlot, ev.login);
      if terminated { return; }
      Poll(MasterSlot, ev.master);
      if terminated { return; }
      Poll(ChatSlot, ev.chat);
      if terminated { return; }
      Poll(NatSlot, ev.negotiation);
      if terminated { return; }
      if heartbeatDue {
        SendHeartbeat();
      }
    }
  }

  /** Registering a game, cancelling it and then letting 20 seconds pass
      with nothing to read sends no heartbeat: the iteration leaves the log
      of requests as the cancellation left it. */
  method CancelThenTick(b: Backend, game: GameSessionInfo, connectOk: bool) returns (sentAfterCancel: seq<Message>)
    modifies b
    ensures b.sent == sentAfterCancel
    ensures !Hosting(b.Snapshot())
  {
    ghost var drawn := b.HostGame(game, false, connectOk);
    b.CancelHost();
    sentAfterCancel := b.sent;
    CancelThenNoHeartbeat(old(b.Snapshot()));
    ghost var cancelled := b.Snapshot();
    CancelClears(cancelled);
    b.Step(true, Events(Idle, Idle, Idle, Idle), true);
  }
}
