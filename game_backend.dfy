/** The backend interface's value types and the factory that picks a
    backend by name. The header declaring these types is not part of this
    model: field widths follow the conversions the implementation files
    apply to them (16-bit ports, 8-bit player counts, 32-bit ids). */
module GameBackend {
  import opened Basics
  import opened Text

  /** `ResultCode`: the outcome handed to every callback. */
  datatype ResultCode =
    | Success
    | ErrorNetwork
    | ErrorAuthFailed
    | ErrorServerUnavailable
    | ErrorTimeout
    | ErrorNatFailure
    | ErrorUnknown

  /** `PlayerInfo`; a value-initialised one has an empty name, id 0 and is
      offline. */
  datatype PlayerInfo = PlayerInfo(username: string, profileID: u32, online: bool)

  const EmptyPlayer: PlayerInfo := PlayerInfo("", 0, false)

  /** `GameSessionInfo`: one hosted or listed game. */
  datatype GameSessionInfo = GameSessionInfo(
    sessionID: u32,
    hostName: string,
    hostIP: string,
    hostPort: u16,
    sessionName: string,
    curPlayers: u8,
    maxPlayers: u8,
    requiresPassword: bool)

  const EmptySession: GameSessionInfo := GameSessionInfo(0, "", "", 0, "", 0, 0, false)

  /** `BackendConfig`: the backend's name and its four servers. */
  datatype BackendConfig = BackendConfig(
    name: string,
    loginServerHost: string, loginServerPort: u16,
    chatServerHost: string, chatServerPort: u16,
    masterServerHost: string, masterServerPort: u16,
    natNegServerHost: string, natNegServerPort: u16)

  /** `NatNegotiationInfo`: the peer a NAT negotiation is for. */
  datatype NatNegotiationInfo = NatNegotiationInfo(cookie: string, targetIP: string, targetPort: u16, localPort: u16)

  /** The implementations a factory can return: only the Revora backend exists. */
  datatype BackendKind = Revora

  datatype LogLevel = Info | Warning

  /** What `CreateBackend` does: the backend it allocates and the line it logs. */
  datatype Creation = Creation(kind: BackendKind, level: LogLevel, message: string)

  /** `GameBackend::CreateBackend(backendName)`. */
  function CreateBackend(backendName: string): (c: Creation)
    ensures c.kind == Revora
    ensures c.level == Info <==> Lowercase(backendName) == "revora"
  {
    var name := Lowercase(backendName);
    if name == "revora" then Creation(Revora, Info, "Creating Revora backend")
    else if name == "openspy" then Creation(Revora, Warning, "OpenSpy backend not fully implemented yet, falling back to Revora")
    else Creation(Revora, Warning, "Unknown backend: " + backendName + ", using Revora")
  }

  /** The choice depends on the name only up to ASCII case. */
  lemma CreateBackendIgnoresCase(a: string, b: string)
    requires Lowercase(a) == Lowercase(b)
    ensures CreateBackend(a).level == CreateBackend(b).level
  {
  }

  lemma RevoraAnyCase()
    ensures CreateBackend("REVORA").level == Info
    ensures CreateBackend("Revora").level == Info
    ensures CreateBackend("revora").level == Info
  {
    assert Lowercase("REVORA") == "revora";
    assert Lowercase("Revora") == "revora";
    assert Lowercase("revora") == "revora";
  }

  /** "openspy" in any case falls back to Revora with the fallback warning. */
  lemma OpenSpyFallsBack(name: string)
    requires Lowercase(name) == "openspy"
    ensures CreateBackend(name) == Creation(Revora, Warning, "OpenSpy backend not fully implemented yet, falling back to Revora")
  {
  }

  /** Any other name is reported, as given, in the warning. */
  lemma UnknownNameWarns(name: string)
    requires Lowercase(name) != "revora" && Lowercase(name) != "openspy"
    ensures CreateBackend(name).level == Warning
    ensures CreateBackend(name).message == "Unknown backend: " + name + ", using Revora"
  {
  }
}
