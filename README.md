# GameSpy replacement layer, STLport patcher and 3ds Max SDK stand-in, in Dafny

This project models the core of the GameSpy replacement library used by the game client. It also models two small tools from the same repository.

**The interception manager (`FunctionHook`).**
- It patches a target function with a 5-byte near relative jump: opcode 0xE9 and a little-endian 32-bit displacement.
- It saves the 10 bytes that were there, and puts the 5 overwritten ones back on unhook.
- Memory is a map from 32-bit address to byte.

**The Revora backend (`RevoraProtocol`, `RevoraBackend`).**
- The literal request strings, and the substring and regular-expression extractions applied to responses.
- The backend object with its player, hosted game, NAT target, game list, four connection slots and five callbacks.
- One iteration of the background loop.
- Every callback invocation is appended to a log of deliveries; every request sent is appended to a log of messages.

**The proxy (`GameSpyProxy`).**
- The result-code translation in both directions.
- The session values the exported entry points build.
- How a backend delivery reaches the game's callback.
- The lifecycle of the backend pointer.

**The settings parser (`ConfigParser`).**
- The `key = value` line parser.
- The typed lookups with their defaults.
- The conversion between the settings map and a `BackendConfig`.

**The backend factory (`GameBackend.CreateBackend`).**

**The STLport diff applier (`StlportDiff`).**
- Splits a unified diff into per-file patches.
- Gathers `@@ -a,b +c,d @@` hunks.
- Applies each hunk all or nothing after `rstrip` comparison.
- Counts the patched files of a directory.

**The 3ds Max SDK stand-in (`MaxSdk`, `StdMat`, `MaxFuncs`).**
- `BitArray` over 32-bit words, `Mesh`, `INode`, `IDerivedObject`, `StdMat2`, and the free functions of `maxfuncs.cpp`.

**How the model is built.**
- Operations that update state step by step are class methods. Each is proved to perform a pure transition function, whose properties are lemmas.
- Each C++ `std::map`, `std::vector` or Python list is a `map` or `seq` field that the methods reassign.
- `StdMat2`'s fixed arrays are Dafny arrays.
- The outcome of anything the code asks the operating system or the network is a parameter. That covers:
  - `VirtualProtect`, `LoadLibraryA` and `GetProcAddress`;
  - connecting, `select` and `recv`;
  - `WSAStartup`;
  - whether a file opens or can be written;
  - whether 20 seconds have passed.
- Random draws satisfy only the range or alphabet the code draws from.

In these places the code does something a reader may not expect, and the model follows the code:

- Unhooking restores the 5 overwritten bytes (`bytesOverwritten`), not the whole 10-byte snapshot.
- A login response without a `\profileid\` field still succeeds, and the player keeps the id 0 that `Login` reset it to.
- Data arriving on the master connection always goes to the game-list handler. So `ProcessHostGameResponse` is modelled, but nothing ever calls it, and the host callback never hears a success.
- `CancelHost` clears the hosted game only while the master connection is open and the game has a session id.
- The code has no generic message decoder. The model defines the field lists of each request and proves that splitting the request at backslashes gives them back.
- An out-of-range number in a `profileid` or `port` field makes `std::stoul`/`std::stoi` throw on the background thread. Nothing catches it, so the process ends. The model records this as a `terminated` flag. Once it is set, a loop iteration (`StepSpec`, `Backend.Step`) changes nothing. The API calls stay defined on such a state, but a state past termination describes nothing the program does.
- A NAT connection failure reports `ERROR_SERVER_UNAVAILABLE`, not `ERROR_NAT_FAILURE`.

## Model

| member | source | states |
|---|---|---|
| FunctionHook.JumpLandsOnReplacement | Support/GSReplacement/src/FunctionHook.cpp:117-119 | the displacement `jumpTo - target - 5` taken modulo 2^32, added to the address after the 5-byte jump, lands exactly on the replacement for every pair of addresses |
| FunctionHook.LittleEndianRoundTrip | Support/GSReplacement/src/FunctionHook.cpp:122 | reading the four stored bytes back as a little-endian DWORD gives the displacement |
| FunctionHook.JumpBytes | Support/GSReplacement/src/FunctionHook.cpp:114-122 | the patch is five bytes: 0xE9, then the little-endian displacement |
| FunctionHook.StoreReads | Support/GSReplacement/src/FunctionHook.cpp:110-122 | a byte copy stores each byte at its own address and leaves every other address as it was |
| FunctionHook.WriteJumpEffect | Support/GSReplacement/src/FunctionHook.cpp:114-122 | after patching, the target holds 0xE9, the next four bytes hold the displacement in little-endian order, and nothing outside the 5 bytes changes |
| FunctionHook.RestoreUndoesStore | Support/GSReplacement/src/FunctionHook.cpp:139 | copying back a prefix of the snapshot that covers everything written since makes all of memory read as it did before |
| FunctionHook.UnhookRestoresMemory | Support/GSReplacement/src/FunctionHook.cpp:88-95 | install followed by restoring the 5 saved bytes gives back every byte of memory |
| FunctionHook.Min | Support/GSReplacement/src/FunctionHook.cpp:19-24 | the key `Shutdown` visits next is the smallest one, matching `std::map` order |
| FunctionHook.ShutdownMemoryOutside | Support/GSReplacement/src/FunctionHook.cpp:17-27 | after `Shutdown`, an address outside every hooked target's 5-byte window reads as before |
| FunctionHook.ShutdownMemoryRestores | Support/GSReplacement/src/FunctionHook.cpp:17-27 | a target made writable, whose window no other target overlaps, reads back its saved bytes after `Shutdown` |
| FunctionHook.ProcessMemory.constructor | Support/GSReplacement/src/FunctionHook.cpp:110 | the process memory starts with the given bytes |
| FunctionHook.ProcessMemory.Copy | Support/GSReplacement/src/FunctionHook.cpp:139 | `memcpy` stores the given bytes from the address on |
| FunctionHook.HookManager.constructor | Support/GSReplacement/src/FunctionHook.cpp:8-9 | both tables start empty and satisfy the table invariant |
| FunctionHook.HookManager.Initialize | Support/GSReplacement/src/FunctionHook.cpp:11-15 | initialisation always succeeds |
| FunctionHook.HookManager.WriteJumpInstruction | Support/GSReplacement/src/FunctionHook.cpp:101-128 | it succeeds exactly when the memory can be made writable; on success the record holds the 10 bytes that were at the target with 5 overwritten, and memory holds the jump; on failure memory is unchanged |
| FunctionHook.HookManager.RestoreOriginalBytes | Support/GSReplacement/src/FunctionHook.cpp:130-145 | it succeeds exactly when the memory can be made writable, and then stores back the first `bytesOverwritten` saved bytes |
| FunctionHook.HookManager.HookFunction | Support/GSReplacement/src/FunctionHook.cpp:29-56 | it succeeds exactly when both pointers are non-null, the target is not hooked yet and the memory can be made writable; it then adds the record and the replacement under the target and patches memory; otherwise neither table nor memory changes; the two tables keep the same keys |
| FunctionHook.HookManager.HookExport | Support/GSReplacement/src/FunctionHook.cpp:58-76 | as `HookFunction` on the address the loader returns, and it fails with nothing changed when the module neither is loaded nor loads, or the export is missing |
| FunctionHook.HookManager.UnhookFunction | Support/GSReplacement/src/FunctionHook.cpp:78-99 | it succeeds exactly when the target is hooked and its bytes can be made writable; it then restores the 5 saved bytes and removes the target from both tables; otherwise nothing changes, so a failed restore keeps the record |
| FunctionHook.HookManager.Shutdown | Support/GSReplacement/src/FunctionHook.cpp:17-27 | every hooked target is visited once in increasing order; the tables keep exactly the targets whose restore failed, and memory is the result of the restores |
| FunctionHook.Survivors | Support/GSReplacement/src/FunctionHook.cpp:19-24 | the records left after the walk are a subset of the table, with their values unchanged |
| FunctionHook.HookThenUnhook | Support/GSReplacement/src/FunctionHook.cpp:29-99 | hooking and then unhooking a target leaves both tables as they were and every byte of memory reading as before |
| FunctionHook.HookTwice | Support/GSReplacement/src/FunctionHook.cpp:35-39 | a second install on a hooked target fails: the tables hold the target once and memory holds the first jump only |
| GameBackend.CreateBackend | Support/GSReplacement/src/GameBackend.cpp:9-27 | the result is always the Revora backend, and the log line is informational exactly when the lower-cased name is "revora" |
| GameBackend.CreateBackendIgnoresCase | Support/GSReplacement/src/GameBackend.cpp:11-12 | names equal up to ASCII case are treated alike |
| GameBackend.RevoraAnyCase | Support/GSReplacement/src/GameBackend.cpp:15-18 | "REVORA", "Revora" and "revora" take the Revora branch |
| GameBackend.OpenSpyFallsBack | Support/GSReplacement/src/GameBackend.cpp:19-22 | "openspy" in any case gives Revora with the fallback warning |
| GameBackend.UnknownNameWarns | Support/GSReplacement/src/GameBackend.cpp:23-26 | any other name gives Revora with a warning that quotes the name as given |
| RevoraProtocol.LoginRequestFields | Support/GSReplacement/src/RevoraBackend.cpp:287-302 | the login request is its fields joined by backslashes, and splitting it gives them back, including user name and password |
| RevoraProtocol.HostRequestFields | Support/GSReplacement/src/RevoraBackend.cpp:406-417 | the host registration is its fields joined by backslashes, and splitting it gives back the host name, port, player counts and password flag |
| RevoraProtocol.HeartbeatRequestFields | Support/GSReplacement/src/RevoraBackend.cpp:461-465 | the heartbeat is its fields joined by backslashes, and its `sesskey` field reads back as the session id |
| RevoraProtocol.NatNegRequestFields | Support/GSReplacement/src/RevoraBackend.cpp:490-496 | the NAT request is its fields joined by backslashes, and splitting it gives back the cookie, address and ports |
| RevoraProtocol.ErrorSearch | Support/GSReplacement/src/RevoraBackend.cpp:308-312 | `regex_search` for `\error\(.+?)\` finds the leftmost position where the pattern matches, with its capture, or reports that there is none |
| RevoraProtocol.ErrorTextShape | Support/GSReplacement/src/RevoraBackend.cpp:306-316 | a found message is non-empty, holds no line break and no backslash after its first character, and occurs between `\error\` and a backslash in the response |
| RevoraProtocol.ErrorTextOfMessage | Support/GSReplacement/src/RevoraBackend.cpp:306-316 | a response `\error\<message>\` is an error response that reports exactly the message |
| RevoraProtocol.BadPasswordText | Support/GSReplacement/src/RevoraBackend.cpp:306-316 | `\error\Bad Password\` is an error whose message is "Bad Password" |
| RevoraProtocol.BareErrorIsUnknown | Support/GSReplacement/src/RevoraBackend.cpp:312-316 | a bare `\error\` is an error whose message is "Unknown error" |
| RevoraProtocol.Capture | Support/GSReplacement/src/RevoraBackend.cpp:327-332 | group 1 of the leftmost match of `key(class+)` is a non-empty run of class characters, and it is present exactly when the pattern matches somewhere |
| RevoraProtocol.CaptureShape | Support/GSReplacement/src/RevoraBackend.cpp:527-545 | a capture is the longest run of class characters after the first occurrence of the key that has one |
| RevoraProtocol.InterpretLogin | Support/GSReplacement/src/RevoraBackend.cpp:304-342 | authentication fails exactly when the response contains `\error\`, with its message; otherwise the login succeeds with the first `\profileid\` value, or with no id when there is none; an id beyond `ULONG_MAX` throws |
| RevoraProtocol.LoginReportsProfile | Support/GSReplacement/src/RevoraBackend.cpp:327-332 | a response opening with a `\profileid\` field logs in with that number when it fits an `unsigned long`, and throws otherwise |
| RevoraProtocol.InterpretNat | Support/GSReplacement/src/RevoraBackend.cpp:504-555 | negotiation fails exactly on `\error\`; otherwise the address is the `\ip\` capture or the stored target, and the port is the `\port\` value cut to 16 bits or the stored target port; a port beyond `INT_MAX` throws |
| RevoraProtocol.NatDefaultsToTarget | Support/GSReplacement/src/RevoraBackend.cpp:530-545 | a response without `ip` and `port` fields completes with the stored target address |
| RevoraProtocol.NatExampleDefault | Support/GSReplacement/src/RevoraBackend.cpp:530-545 | joining 192.168.1.10:16000 with a reply that names no address completes with exactly that address |
| RevoraProtocol.NatPortField | Support/GSReplacement/src/RevoraBackend.cpp:541-542 | a lone port field throws beyond `INT_MAX` and is otherwise truncated to 16 bits, keeping the target address |
| RevoraProtocol.NatPortTruncates | Support/GSReplacement/src/RevoraBackend.cpp:542 | a reported port of 81536 reads as 16000 |
| RevoraProtocol.SyntheticGames | Support/GSReplacement/src/RevoraBackend.cpp:370-382 | the fabricated games have ids 1000+i, port 16000, one player of eight, and a password exactly on even i |
| RevoraProtocol.SyntheticHostsDistinct | Support/GSReplacement/src/RevoraBackend.cpp:374 | the fabricated host addresses `192.168.1.<10+i>` are pairwise distinct |
| RevoraProtocol.AlphabetIsAlphanumeric | Support/GSReplacement/src/RevoraBackend.cpp:36-39 | the 62-character table holds exactly the ASCII digits and letters |
| RevoraProtocol.GenerateRandomString | Support/GSReplacement/src/RevoraBackend.cpp:35-53 | the result has the requested length and every character comes from the table |
| RevoraProtocol.AlphanumericFree | Support/GSReplacement/src/RevoraBackend.cpp:484-496 | a drawn cookie holds no backslash, so it stays one field of the NAT request |
| RevoraBackend.WithSlot | Support/GSReplacement/src/RevoraBackend.cpp:237-285 | opening or closing one socket sets that slot and leaves the other three as they were |
| RevoraBackend.SyntheticList | Support/GSReplacement/src/RevoraBackend.cpp:366-382 | the list built holds the three fabricated games in order |
| Text.UpTo | Support/GSReplacement/src/RevoraBackend.cpp:609-614 | the text a handler sees is the longest prefix of what was received that holds no NUL, followed in the buffer by the NUL if there is one; `PathOf` uses the same function with a tab for `split('\t')[0]` (apply_stlport_diff.py:93) |
| RevoraBackend.LoginSends | Support/GSReplacement/src/RevoraBackend.cpp:118-138 | `Login` resets the player to the given name with id 0, offline. If the login server is reached, it sends exactly the login request. Otherwise the slot stays closed and the callback hears `ERROR_SERVER_UNAVAILABLE` once |
| RevoraBackend.LoginErrorReported | Support/GSReplacement/src/RevoraBackend.cpp:306-323 | an error response reports `ERROR_AUTH_FAILED` once and changes nothing else, `online` included |
| RevoraBackend.LoginSucceeds | Support/GSReplacement/src/RevoraBackend.cpp:325-341 | any other response marks the player online, takes the first profile id (or keeps the old one) and reports `SUCCESS`, unless the id overflows and the process ends |
| RevoraBackend.LoginWithoutProfileId | Support/GSReplacement/src/RevoraBackend.cpp:123-124 | a successful login whose response names no profile id leaves the id at 0 |
| RevoraBackend.MasterConnectsOnlyWhenClosed | Support/GSReplacement/src/RevoraBackend.cpp:150-191 | the game-list and host requests ignore the connection outcome while the master slot is open |
| RevoraBackend.MasterConnectFailure | Support/GSReplacement/src/RevoraBackend.cpp:155-161 | failing to reach the master server leaves the slot closed, sends nothing and reports `ERROR_SERVER_UNAVAILABLE` once |
| RevoraBackend.HostAssignsSessionId | Support/GSReplacement/src/RevoraBackend.cpp:391-424 | a nonzero session id is kept, a zero one is replaced by the drawn id, and the registration sent describes the stored game under the player's name |
| RevoraBackend.HeartbeatOnlyWhileHosting | Support/GSReplacement/src/RevoraBackend.cpp:455-472 | a heartbeat is sent exactly while a game with an id is registered on an open master connection; it names that id and changes nothing else |
| RevoraBackend.CancelClears | Support/GSReplacement/src/RevoraBackend.cpp:193-203 | cancelling clears the hosted game exactly while hosting, and afterwards nothing is hosted |
| RevoraBackend.CancelThenNoHeartbeat | Support/GSReplacement/src/RevoraBackend.cpp:193-203 | after a cancellation the heartbeat changes nothing |
| RevoraBackend.JoinStartsNegotiation | Support/GSReplacement/src/RevoraBackend.cpp:474-502 | joining either targets the game's address from local port 16500 with the drawn cookie and sends the NAT request, or reports `ERROR_SERVER_UNAVAILABLE` with the requested game |
| RevoraBackend.NatErrorCarriesTarget | Support/GSReplacement/src/RevoraBackend.cpp:506-527 | an error response reports `ERROR_NAT_FAILURE` with the stored target address |
| RevoraBackend.NatSucceeds | Support/GSReplacement/src/RevoraBackend.cpp:529-555 | any other response reports `SUCCESS` with the address it names, each part falling back to the target and the port cut to 16 bits; an overflowing port ends the process |
| RevoraBackend.MasterDataYieldsSyntheticList | Support/GSReplacement/src/RevoraBackend.cpp:622-633 | data on the master connection, whatever it says, replaces the list by the three fabricated games and reports them with `SUCCESS` |
| RevoraBackend.ChatDataDropped | Support/GSReplacement/src/RevoraBackend.cpp:635-647 | data on the chat connection changes nothing |
| RevoraBackend.SlotClosing | Support/GSReplacement/src/RevoraBackend.cpp:609-660 | a zero-byte read or a receive error other than would-block closes exactly that slot; would-block and an unreadable slot change nothing |
| RevoraBackend.LoginResponseShape | Support/GSReplacement/src/RevoraBackend.cpp:304-342 | a login response changes only the player, the termination flag and the deliveries, and adds at most one login delivery |
| RevoraBackend.NatResponseShape | Support/GSReplacement/src/RevoraBackend.cpp:504-555 | a NAT response changes only the termination flag and the deliveries, and adds at most one join delivery |
| RevoraBackend.PollDeliversOwnKind | Support/GSReplacement/src/RevoraBackend.cpp:609-660 | handling one slot adds at most one delivery, of that slot's own kind, and changes only the player, list, slots, termination flag and deliveries |
| RevoraBackend.StepIdle | Support/GSReplacement/src/RevoraBackend.cpp:600-606 | a failing `select`, a stopped loop or an ended process leaves everything as it is |
| RevoraBackend.PollKeeps | Support/GSReplacement/src/RevoraBackend.cpp:609-660 | handling one slot sends nothing, keeps configuration, hosted game, NAT target and callbacks, and only appends to the deliveries |
| RevoraBackend.StepAppends | Support/GSReplacement/src/RevoraBackend.cpp:566-676 | an iteration appends at most three deliveries and at most the heartbeat, and keeps configuration, callbacks, hosted game and NAT target |
| RevoraBackend.TerminationIsFinal | Support/GSReplacement/src/RevoraBackend.cpp:566-676 | once a handler's exception has ended the process, further iterations change nothing |
| RevoraBackend.Backend.constructor | Support/GSReplacement/src/RevoraBackend.cpp:55-70 | every socket closed, no callback set, no thread, an empty player and NAT target with ports 0 |
| RevoraBackend.Backend.Initialize | Support/GSReplacement/src/RevoraBackend.cpp:76-95 | the configuration is stored, and the loop runs exactly when the network starts |
| RevoraBackend.Backend.Shutdown | Support/GSReplacement/src/RevoraBackend.cpp:97-116 | the loop stops and all four sockets are closed |
| RevoraBackend.Backend.CloseSocket | Support/GSReplacement/src/RevoraBackend.cpp:280-285 | the slot is closed and nothing else changes |
| RevoraBackend.Backend.ConnectToServer | Support/GSReplacement/src/RevoraBackend.cpp:237-278 | the slot is open afterwards exactly when the attempt succeeded, and that is the result |
| RevoraBackend.Backend.Login | Support/GSReplacement/src/RevoraBackend.cpp:118-138 | performs the `Login` transition of `LoginSends` |
| RevoraBackend.Backend.Logout | Support/GSReplacement/src/RevoraBackend.cpp:140-148 | closes the login slot and marks the player offline |
| RevoraBackend.Backend.FetchGameList | Support/GSReplacement/src/RevoraBackend.cpp:150-168 | performs the transition of `MasterConnectsOnlyWhenClosed` and `MasterConnectFailure`: the list request on success, `ERROR_SERVER_UNAVAILABLE` with the old list otherwise |
| RevoraBackend.Backend.HostGame | Support/GSReplacement/src/RevoraBackend.cpp:170-191 | performs the transition of `HostAssignsSessionId` with a drawn id in [1000, 9999999] |
| RevoraBackend.Backend.SendHostGameRequest | Support/GSReplacement/src/RevoraBackend.cpp:391-424 | gives a hosted game without id a drawn one in [1000, 9999999] and sends the registration |
| RevoraBackend.Backend.CancelHost | Support/GSReplacement/src/RevoraBackend.cpp:193-203 | performs the transition of `CancelClears` |
| RevoraBackend.Backend.JoinGame | Support/GSReplacement/src/RevoraBackend.cpp:205-213 | stores the callback and performs the transition of `JoinStartsNegotiation` with some 10-character alphanumeric cookie |
| RevoraBackend.Backend.StartNatNegotiation | Support/GSReplacement/src/RevoraBackend.cpp:474-502 | performs the NAT transition with some 10-character alphanumeric cookie |
| RevoraBackend.Backend.SendHeartbeat | Support/GSReplacement/src/RevoraBackend.cpp:455-472 | performs the transition of `HeartbeatOnlyWhileHosting` |
| RevoraBackend.Backend.RegisterInviteCallback | Support/GSReplacement/src/RevoraBackend.cpp:221-223 | stores the invite callback and nothing else |
| RevoraBackend.Backend.ProcessLoginResponse | Support/GSReplacement/src/RevoraBackend.cpp:304-342 | performs the transition of `LoginErrorReported` and `LoginSucceeds` |
| RevoraBackend.Backend.ProcessGameListResponse | Support/GSReplacement/src/RevoraBackend.cpp:360-389 | builds the three fabricated games in a loop, stores them and reports them with `SUCCESS` |
| RevoraBackend.Backend.ProcessHostGameResponse | Support/GSReplacement/src/RevoraBackend.cpp:426-453 | reports `ERROR_UNKNOWN` on `\error\` and `SUCCESS` otherwise, with the hosted game |
| RevoraBackend.Backend.ProcessNatNegotiationResponse | Support/GSReplacement/src/RevoraBackend.cpp:504-555 | performs the transition of `NatErrorCarriesTarget` and `NatSucceeds` |
| RevoraBackend.Backend.Poll | Support/GSReplacement/src/RevoraBackend.cpp:609-660 | handles one slot's event as `SlotClosing`, `ChatDataDropped` and the handlers state |
| RevoraBackend.Backend.Step | Support/GSReplacement/src/RevoraBackend.cpp:566-676 | performs one loop iteration, whose effects `StepAppends`, `StepIdle` and `TerminationIsFinal` state |
| RevoraBackend.CancelThenTick | Support/GSReplacement/src/RevoraBackend.cpp:193-203 | after register, cancel and a due heartbeat with nothing to read, the request log is the one the cancellation left, and nothing is hosted |
| GameSpyProxy.MapGameSpyErrorCode | Support/GSReplacement/src/GameSpyProxy.cpp:79-91 | exactly the codes 0 to 5 map to a known result |
| GameSpyProxy.MapToGameSpyErrorCode | Support/GSReplacement/src/GameSpyProxy.cpp:93-105 | the result lies in -1..5 and is -1 exactly for `ERROR_UNKNOWN` |
| GameSpyProxy.KnownCodes | Support/GSReplacement/src/GameSpyProxy.cpp:81-87 | 0 to 5 map to SUCCESS, NETWORK, AUTH_FAILED, SERVER_UNAVAILABLE, TIMEOUT, NAT_FAILURE |
| GameSpyProxy.GameCodeRoundTrip | Support/GSReplacement/src/GameSpyProxy.cpp:79-105 | a game code survives the round trip exactly when it is in 0..5, and any other comes back as -1 |
| GameSpyProxy.ResultCodeRoundTrip | Support/GSReplacement/src/GameSpyProxy.cpp:79-105 | every result code, `ERROR_UNKNOWN` included, survives the round trip |
| GameSpyProxy.Forward | Support/GSReplacement/src/GameSpyProxy.cpp:163-247 | the call built for a delivery is of the matching kind and carries its code translated back |
| GameSpyProxy.GameCalls | Support/GSReplacement/src/GameSpyProxy.cpp:164-170 | a delivery reaches the game exactly once when its callback pointer is set, and not at all otherwise |
| GameSpyProxy.ProfileIdBits | Support/GSReplacement/src/GameSpyProxy.cpp:167-169 | the 32-bit profile id passed as `int` reads back as the same id |
| GameSpyProxy.HostSessionInfo | Support/GSReplacement/src/GameSpyProxy.cpp:208-212 | the hosted game has the given name and player limit (cut to 8 bits), one player, port 16000, id 0, and nothing else set |
| GameSpyProxy.JoinSessionInfo | Support/GSReplacement/src/GameSpyProxy.cpp:235-236 | the requested game has only its session id set |
| GameSpyProxy.ProxyHostDrawsId | Support/GSReplacement/src/GameSpyProxy.cpp:207-221 | a game hosted through the proxy always receives a drawn session id |
| GameSpyProxy.ProxyJoinHasNoAddress | Support/GSReplacement/src/GameSpyProxy.cpp:233-247 | a join through the proxy negotiates toward an empty address and port 0 |
| GameSpyProxy.MissingFileUsesDefaults | Support/GSReplacement/src/GameSpyProxy.cpp:37-45 | without a configuration file the backend gets exactly the defaults |
| GameSpyProxy.EmptyFileUsesRevora | Support/GSReplacement/src/GameSpyProxy.cpp:37-45 | a file that sets none of the nine keys gives the Revora servers and ports |
| GameSpyProxy.Proxy.constructor | Support/GSReplacement/src/GameSpyProxy.cpp:11-19 | no backend and every callback pointer null |
| GameSpyProxy.StartBackend | Support/GSReplacement/src/GameSpyProxy.cpp:36-60 | a new backend is configured from the file, or from the defaults when the file does not open; it runs with the invite callback registered exactly when the network starts, which is the result |
| GameSpyProxy.Proxy.Initialize | Support/GSReplacement/src/GameSpyProxy.cpp:24-62 | a new backend is configured, started and given the invite callback as `StartBackend` states; the hooks and the five callback pointers are untouched |
| GameSpyProxy.Proxy.Shutdown | Support/GSReplacement/src/GameSpyProxy.cpp:64-77 | the hook tables keep only the targets whose restore failed, and memory is restored, as after `HookManager.Shutdown`; the callback pointers are untouched; the backend, if any, is shut down (loop stopped, sockets closed) and dropped |
| GameSpyProxy.Proxy.GameSpyInit | Support/GSReplacement/src/GameSpyProxy.cpp:151-154 | returns 0 |
| GameSpyProxy.Proxy.GameSpyLogin | Support/GSReplacement/src/GameSpyProxy.cpp:156-175 | stores the login callback pointer and no other, performs the backend's `Login` when there is a backend, and returns 0 |
| GameSpyProxy.Proxy.GameSpyGetGameList | Support/GSReplacement/src/GameSpyProxy.cpp:177-199 | stores the game-list callback pointer and no other, performs `FetchGameList` when there is a backend, and returns 0 |
| GameSpyProxy.Proxy.GameSpyHostGame | Support/GSReplacement/src/GameSpyProxy.cpp:201-225 | stores the host callback pointer and no other, hosts the game `HostSessionInfo` builds when there is a backend, and returns 0 |
| GameSpyProxy.Proxy.GameSpyJoinGame | Support/GSReplacement/src/GameSpyProxy.cpp:227-251 | stores the join callback pointer and no other, joins the game `JoinSessionInfo` builds when there is a backend, and returns 0 |
| GameSpyProxy.Proxy.GameSpySendInvite | Support/GSReplacement/src/GameSpyProxy.cpp:253-261 | returns 0 |
| GameSpyProxy.Proxy.GameSpyThink | Support/GSReplacement/src/GameSpyProxy.cpp:263-270 | returns 0 |
| GameSpyProxy.ShutdownTwice | Support/GSReplacement/src/GameSpyProxy.cpp:69-73 | a second `Shutdown` finds no backend and leaves the first one as the first call left it |
| ConfigParser.FirstNonBlank | Support/GSReplacement/src/ConfigParser.cpp:127 | the position of the first character that is neither space nor tab |
| ConfigParser.EndNonBlank | Support/GSReplacement/src/ConfigParser.cpp:128 | one past the last character that is neither space nor tab |
| ConfigParser.TrimShape | Support/GSReplacement/src/ConfigParser.cpp:127-130 | trimming keeps a middle part whose cut-off sides are all blank and whose ends are not |
| ConfigParser.TrimIdempotent | Support/GSReplacement/src/ConfigParser.cpp:127-130 | trimming twice is trimming once |
| ConfigParser.FirstEquals | Support/GSReplacement/src/ConfigParser.cpp:117 | the position of the first `=`, or none when there is no `=` |
| ConfigParser.IgnoredLines | Support/GSReplacement/src/ConfigParser.cpp:112-120 | empty lines, comments and lines without `=` store nothing |
| ConfigParser.StoredLine | Support/GSReplacement/src/ConfigParser.cpp:117-135 | a line stores its trimmed key and trimmed value, split at the first `=`, unless the trimmed key is empty |
| ConfigParser.UnassignedKeyKept | Support/GSReplacement/src/ConfigParser.cpp:133-135 | a key no line assigns keeps its earlier value, or stays absent |
| ConfigParser.LastAssignmentWins | Support/GSReplacement/src/ConfigParser.cpp:133-135 | a key holds the value of the last line that assigns it |
| ConfigParser.GetStringSetting | Support/GSReplacement/src/ConfigParser.cpp:64-70 | the stored text when the key is present, the default otherwise |
| ConfigParser.SpaceRun | Support/GSReplacement/src/ConfigParser.cpp:76 | `stoi` skips exactly the leading white space |
| ConfigParser.Stoi | Support/GSReplacement/src/ConfigParser.cpp:76 | `std::stoi` yields a value only when the text holds a digit |
| ConfigParser.StoiOfRendering | Support/GSReplacement/src/ConfigParser.cpp:76 | `stoi` reads back what `to_string` wrote for any non-negative `int` |
| ConfigParser.StoiOfDigits | Support/GSReplacement/src/ConfigParser.cpp:76 | `stoi` of an unsigned run of digits within range is its value |
| ConfigParser.StoiNeedsDigits | Support/GSReplacement/src/ConfigParser.cpp:75-79 | text without a digit makes `stoi` throw |
| ConfigParser.GetIntSetting | Support/GSReplacement/src/ConfigParser.cpp:72-82 | the parsed value when the key is present and `stoi` accepts it, the default when the key is missing or `stoi` throws |
| ConfigParser.BoolWords | Support/GSReplacement/src/ConfigParser.cpp:84-96 | in any letter case true/1/yes/y read as true and false/0/no/n as false; any other value, or a missing key, gives the default |
| ConfigParser.BoolIgnoresCase | Support/GSReplacement/src/ConfigParser.cpp:88 | "YES" reads as true and "No" as false, whatever the default |
| ConfigParser.BoolRoundTrip | Support/GSReplacement/src/ConfigParser.cpp:106-108 | what `SetBoolSetting` stores, `GetBoolSetting` reads back |
| ConfigParser.Defaults | Support/GSReplacement/src/ConfigParser.cpp:138-152 | with none of the nine keys present the configuration is Revora, gpcm.gamespy.com:29900, peerchat.gamespy.com:6667, ccgenzh.ms6.gamespy.com:28900, natneg1.gamespy.com:27901 |
| ConfigParser.PortTruncated | Support/GSReplacement/src/ConfigParser.cpp:143 | a readable port setting is cut to 16 bits, negative and large values wrapping around |
| ConfigParser.UnreadablePortDefaults | Support/GSReplacement/src/ConfigParser.cpp:147 | a port setting `stoi` rejects falls back to the default port |
| ConfigParser.PortReadBack | Support/GSReplacement/src/ConfigParser.cpp:157-163 | a 16-bit port stored in decimal reads back unchanged |
| ConfigParser.ConfigSettingsHold | Support/GSReplacement/src/ConfigParser.cpp:154-164 | after storing a configuration each of the nine keys holds its field's text |
| ConfigParser.ConfigRoundTrip | Support/GSReplacement/src/ConfigParser.cpp:138-164 | storing a configuration and reading it back gives the same configuration, whatever else the settings hold |
| ConfigParser.ConfigSettingsFrame | Support/GSReplacement/src/ConfigParser.cpp:154-164 | storing a configuration touches only its nine keys |
| ConfigParser.Parser.constructor | Support/GSReplacement/src/ConfigParser.cpp:9-12 | the settings start as the defaults stored under the nine keys |
| ConfigParser.Parser.SetStringSetting | Support/GSReplacement/src/ConfigParser.cpp:98-100 | the key takes the text |
| ConfigParser.Parser.SetIntSetting | Support/GSReplacement/src/ConfigParser.cpp:102-104 | the key takes the decimal text of the value |
| ConfigParser.Parser.SetBoolSetting | Support/GSReplacement/src/ConfigParser.cpp:106-108 | the key takes "true" or "false" |
| ConfigParser.Parser.BackendConfigToSettings | Support/GSReplacement/src/ConfigParser.cpp:154-164 | the nine keys are overwritten with the configuration's fields |
| ConfigParser.Parser.SetBackendConfig | Support/GSReplacement/src/ConfigParser.cpp:60-62 | as `BackendConfigToSettings` |
| ConfigParser.Parser.ParseLine | Support/GSReplacement/src/ConfigParser.cpp:110-136 | the settings change as `IgnoredLines` and `StoredLine` state |
| ConfigParser.Parser.LoadFromFile | Support/GSReplacement/src/ConfigParser.cpp:18-34 | loading succeeds exactly when the file opens; it then clears the settings and parses every line in order, and otherwise leaves them alone |
| ConfigParser.SetThenGet | Support/GSReplacement/src/ConfigParser.cpp:56-62 | `SetBackendConfig` then `GetBackendConfig` gives back the configuration |
| ConfigParser.LoadForgets | Support/GSReplacement/src/ConfigParser.cpp:24-30 | two parsers that load the same lines hold the same settings, whatever they held before |
| StlportDiff.RStripPrefix | Support/STLportPatching/apply_stlport_diff.py:239 | what `rstrip` leaves is a prefix of the line |
| StlportDiff.RStripEnd | Support/STLportPatching/apply_stlport_diff.py:239 | what `rstrip` leaves does not end in white space |
| StlportDiff.RStripTail | Support/STLportPatching/apply_stlport_diff.py:239 | what `rstrip` removes is all white space |
| StlportDiff.LStrip | Support/STLportPatching/apply_stlport_diff.py:93 | `lstrip` removes a blank prefix and leaves a line that does not start with white space |
| StlportDiff.Body | Support/STLportPatching/apply_stlport_diff.py:107-111 | a patch keeps only hunk headers, context, additions and removals from its lines |
| StlportDiff.HeaderEnd | Support/STLportPatching/apply_stlport_diff.py:107 | a patch body runs to the next `--- ` line or the end |
| StlportDiff.IndexOfPath | Support/STLportPatching/apply_stlport_diff.py:115 | the dictionary entry for a path is the first with that key, if any |
| StlportDiff.PutIsAssignment | Support/STLportPatching/apply_stlport_diff.py:114-115 | `patches[path] = lines` replaces an existing entry in place or adds one at the end, and keys stay distinct |
| StlportDiff.PatchesWellFormed | Support/STLportPatching/apply_stlport_diff.py:74-122 | every patch starts with its `--- ` and `+++ ` lines, names a non-empty path, holds only hunk material, and no two name the same file |
| StlportDiff.UnpairedHeaderSkipsNext | Support/STLportPatching/apply_stlport_diff.py:101-104 | a `--- ` line without `+++ ` yields nothing, and the line after it is skipped too |
| StlportDiff.ReadPatchBody | Support/STLportPatching/apply_stlport_diff.py:107-111 | the inner loop collects the kept lines up to the next `--- ` line and stops there |
| StlportDiff.PairedHeaderStep | Support/STLportPatching/apply_stlport_diff.py:91-118 | a `--- `/`+++ ` pair stores its patch under its path, when that is non-empty, and parsing resumes at the next `--- ` line |
| StlportDiff.ParseDiffFile | Support/STLportPatching/apply_stlport_diff.py:74-122 | the while loop computes the patches `ParseDiff` defines |
| StlportDiff.HeaderRoundTrip | Support/STLportPatching/apply_stlport_diff.py:194-196 | a header written for a range is matched by the pattern and parses back to that range |
| StlportDiff.NumberLiteral | Support/STLportPatching/apply_stlport_diff.py:196 | a written number followed by a non-digit reads back |
| StlportDiff.PairLiteral | Support/STLportPatching/apply_stlport_diff.py:194-196 | two written numbers with a comma between read back |
| StlportDiff.BodyJoinsOpenHunk | Support/STLportPatching/apply_stlport_diff.py:205-206 | lines that are not `@@` lines all join the open hunk |
| StlportDiff.NoHeaderNoHunks | Support/STLportPatching/apply_stlport_diff.py:191-206 | lines before the first matching header are dropped |
| StlportDiff.BadHeaderDropped | Support/STLportPatching/apply_stlport_diff.py:192-195 | a `@@` line the pattern does not match is dropped, and later lines keep joining the previous hunk |
| StlportDiff.AppendHunkText | Support/STLportPatching/apply_stlport_diff.py:191-206 | a hunk written out after any lines is gathered as the last hunk |
| StlportDiff.CollectRoundTrip | Support/STLportPatching/apply_stlport_diff.py:191-206 | writing hunks out after lines without a header and gathering them again gives the same hunks |
| StlportDiff.CollectHunks | Support/STLportPatching/apply_stlport_diff.py:191-206 | the loop gathers the hunks `Collect` defines |
| StlportDiff.PyPrefix | Support/STLportPatching/apply_stlport_diff.py:231 | `s[:n]` is the first n elements, or all of them when n is too large |
| StlportDiff.PySuffix | Support/STLportPatching/apply_stlport_diff.py:267 | `s[n:]` is the rest after n elements, or nothing when n is too large |
| StlportDiff.TryHunk | Support/STLportPatching/apply_stlport_diff.py:226-268 | the loop over a hunk's lines computes `ApplyHunk`, with `break` as failure and the `IndexError` as a raise |
| StlportDiff.StrippedPointwise | Support/STLportPatching/apply_stlport_diff.py:239 | stripping a list strips each line |
| StlportDiff.LinesMatchWindow | Support/STLportPatching/apply_stlport_diff.py:239-250 | matching line by line is matching the stripped window of the file |
| StlportDiff.WalkMatches | Support/STLportPatching/apply_stlport_diff.py:237-258 | from a line inside the file the walk never raises; it gets through exactly when the old side matches there after `rstrip`, and ends just after it |
| StlportDiff.WalkOutput | Support/STLportPatching/apply_stlport_diff.py:238-260 | what the walk produces is the new side (file text for context, added text for additions), trailing white space aside |
| StlportDiff.WalkExact | Support/STLportPatching/apply_stlport_diff.py:238-260 | when the file holds the old side exactly, the walk produces exactly the new side |
| StlportDiff.WalkRaisesIff | Support/STLportPatching/apply_stlport_diff.py:245 | the walk raises exactly from line -1 over an empty file when the hunk has an old side |
| StlportDiff.HunkAppliesIff | Support/STLportPatching/apply_stlport_diff.py:226-268 | a hunk with `old_start` at least 1 applies exactly when its old side matches from `old_start - 1`, and never raises |
| StlportDiff.HunkRaisesIff | Support/STLportPatching/apply_stlport_diff.py:226-258 | `IndexError` arises exactly for `old_start` 0 with an old side on an empty file |
| StlportDiff.HunkReplacesRegion | Support/STLportPatching/apply_stlport_diff.py:231-268 | an applied hunk keeps the lines before `old_start - 1` and after its old side, and puts its new side in between |
| StlportDiff.ApplyAllCounts | Support/STLportPatching/apply_stlport_diff.py:225-268 | at most every hunk succeeds, and when none does the content is the file's own |
| StlportDiff.ApplyAllNoCrash | Support/STLportPatching/apply_stlport_diff.py:225-268 | hunks starting at line 1 or later never raise |
| StlportDiff.UnadjustedStart | Support/STLportPatching/apply_stlport_diff.py:226-227 | hunks use their unadjusted `old_start` on the modified content, so after a hunk that adds a line the next one looks one line early and fails |
| StlportDiff.AddXApplies | Support/STLportPatching/apply_stlport_diff.py:237-268 | a hunk of context `a` and addition `x` inserts `x` after a first line `a` |
| StlportDiff.ReappliedHunkAddsAgain | Support/STLportPatching/apply_stlport_diff.py:225-268 | nothing records an applied hunk: applied again it adds its lines a second time |
| StlportDiff.ApplyHunks | Support/STLportPatching/apply_stlport_diff.py:225-268 | the loop over the hunks computes `ApplyAll` |
| StlportDiff.ApplyPatch | Support/STLportPatching/apply_stlport_diff.py:177-287 | `apply_patch` computes `PatchSpec` |
| StlportDiff.PatchOkIff | Support/STLportPatching/apply_stlport_diff.py:263-287 | a patch counts as applied exactly when the file was there, some hunk succeeded and, outside a dry run, writing succeeded; a file is written only outside a dry run by a successful patch, and what is written is what the hunks made |
| StlportDiff.PatchRaisesOnlyAtZero | Support/STLportPatching/apply_stlport_diff.py:226-258 | with no hunk at `old_start` 0 a patch never raises |
| StlportDiff.ApplyPatchesToDir | Support/STLportPatching/apply_stlport_diff.py:289-321 | the directory loop computes `DirSpec` |
| StlportDiff.OutcomeFrame | Support/STLportPatching/apply_stlport_diff.py:313-318 | writing one file does not change the outcome of a patch for another file |
| StlportDiff.TallyRaisedIff | Support/STLportPatching/apply_stlport_diff.py:313-318 | the loop raises exactly when some patch raises against the directory as it was |
| StlportDiff.TallyCountIff | Support/STLportPatching/apply_stlport_diff.py:312-321 | the count is at most the number of patches, and positive exactly when some patch returned true |
| StlportDiff.TallyFiles | Support/STLportPatching/apply_stlport_diff.py:313-318 | each patched file ends with what its own patch wrote, and every other file is as it was |
| StlportDiff.TallyDryRun | Support/STLportPatching/apply_stlport_diff.py:271-280 | a dry run writes no file |
| StlportDiff.DirOkIff | Support/STLportPatching/apply_stlport_diff.py:289-321 | the directory result is true exactly when the diff and directory exist, no patch raises and some patch returns true |
| StlportDiff.DirRaisedIff | Support/STLportPatching/apply_stlport_diff.py:289-321 | the directory step raises exactly when both exist and some patch raises |
| StlportDiff.DirDryRun | Support/STLportPatching/apply_stlport_diff.py:289-321 | with `--dry-run` the directory is left as it was |
| MaxSdk.Resized | GeneralsMD/Code/Libraries/Max4SDK/include/Max.h:167 | `resize(n, fill)` keeps the first n elements and fills new ones |
| MaxSdk.DeleteAt | GeneralsMD/Code/Libraries/Max4SDK/include/modstack.h:56-61 | erasing index i drops that element and keeps the rest in order; out of range nothing changes |
| MaxSdk.DeleteLastPushed | GeneralsMD/Code/Libraries/Max4SDK/include/modstack.h:51-61 | erasing what was just pushed gives back the vector |
| MaxSdk.DeleteAtMultiset | GeneralsMD/Code/Libraries/Max4SDK/include/modstack.h:59-60 | erasing removes one occurrence of the element and nothing else |
| MaxSdk.WordCount | GeneralsMD/Code/Libraries/Max4SDK/include/Max.h:167 | `(size + 31) / 32`, truncating, is the least number of words that hold size bits, and 0 for sizes up to 0 |
| MaxSdk.WordSetBit | GeneralsMD/Code/Libraries/Max4SDK/include/Max.h:177 | OR with `1 << b` sets bit b of a word and no other |
| MaxSdk.WordClearBit | GeneralsMD/Code/Libraries/Max4SDK/include/Max.h:183 | AND with `~(1 << b)` clears bit b of a word and no other |
| MaxSdk.TestBit | GeneralsMD/Code/Libraries/Max4SDK/include/Max.h:187-192 | `operator[]` is true only in range |
| MaxSdk.SetBit | GeneralsMD/Code/Libraries/Max4SDK/include/Max.h:175-179 | setting keeps the word count right |
| MaxSdk.ClearBit | GeneralsMD/Code/Libraries/Max4SDK/include/Max.h:181-185 | clearing keeps the word count right |
| MaxSdk.SetBitMeaning | GeneralsMD/Code/Libraries/Max4SDK/include/Max.h:175-192 | after `Set(i)`, bit i reads true when in range and every other bit reads as before |
| MaxSdk.ClearBitMeaning | GeneralsMD/Code/Libraries/Max4SDK/include/Max.h:181-192 | after `Clear(i)`, bit i reads false and every other bit reads as before |
| MaxSdk.Resize | GeneralsMD/Code/Libraries/Max4SDK/include/Max.h:170-173 | `SetSize` leaves as many words as the new size needs |
| MaxSdk.ResizeMeaning | GeneralsMD/Code/Libraries/Max4SDK/include/Max.h:170-173 | after `SetSize(m)` a bit in range reads what its old word held there, and a bit in a new word reads false |
| MaxSdk.ShrunkBitsComeBack | GeneralsMD/Code/Libraries/Max4SDK/include/Max.h:170-173 | shrinking within the last word does not clear the bits cut off: growing back shows them set again |
| MaxSdk.BitArray.constructor | GeneralsMD/Code/Libraries/Max4SDK/include/Max.h:165 | a default array has no bits |
| MaxSdk.BitArray.WithSize | GeneralsMD/Code/Libraries/Max4SDK/include/Max.h:166-168 | `BitArray(size)` has size bits in the right number of zero words, all reading false |
| MaxSdk.BitArray.SetSize | GeneralsMD/Code/Libraries/Max4SDK/include/Max.h:170-173 | the bit count becomes size and the words are resized, new ones zero |
| MaxSdk.BitArray.Set | GeneralsMD/Code/Libraries/Max4SDK/include/Max.h:175-179 | bit i reads true when in range, every other bit as before, size unchanged |
| MaxSdk.BitArray.Clear | GeneralsMD/Code/Libraries/Max4SDK/include/Max.h:181-185 | bit i reads false, every other bit as before, size unchanged |
| MaxSdk.Mesh.constructor | GeneralsMD/Code/Libraries/Max4SDK/include/Max.h:212 | all four vectors start empty |
| MaxSdk.Mesh.SetNumVerts | GeneralsMD/Code/Libraries/Max4SDK/include/Max.h:219 | `getNumVerts()` becomes n, old vertices kept, new ones at the origin, other vectors untouched |
| MaxSdk.Mesh.SetNumFaces | GeneralsMD/Code/Libraries/Max4SDK/include/Max.h:220 | `getNumFaces()` becomes n, old faces kept, new ones zero, other vectors untouched |
| MaxSdk.Mesh.SetNumTVerts | GeneralsMD/Code/Libraries/Max4SDK/include/Max.h:221 | `getNumTVerts()` becomes n, old texture vertices kept, new ones at the origin, other vectors untouched |
| MaxSdk.Mesh.BuildNormals | GeneralsMD/Code/Libraries/Max4SDK/include/Max.h:226-229 | there is one normal per vertex afterwards, the existing normals kept and new ones at the origin; vertices, texture vertices and faces are untouched |
| MaxSdk.TriObject.constructor | GeneralsMD/Code/Libraries/Max4SDK/include/Max.h:233-239 | a triangle object owns a new mesh |
| MaxSdk.ConvertToType | GeneralsMD/Code/Libraries/Max4SDK/include/Max.h:251 | the base conversion gives null |
| MaxSdk.IDerivedObject.constructor | GeneralsMD/Code/Libraries/Max4SDK/include/modstack.h:39 | the given base object and two empty stacks |
| MaxSdk.IDerivedObject.GetModifier | GeneralsMD/Code/Libraries/Max4SDK/include/modstack.h:44-49 | the modifier at i when in range, null otherwise |
| MaxSdk.IDerivedObject.AddModifier | GeneralsMD/Code/Libraries/Max4SDK/include/modstack.h:51-54 | both vectors grow by the pair, so `NumModifiers` grows by one and the last modifier is the new one; the vectors keep equal length |
| MaxSdk.IDerivedObject.DeleteModifier | GeneralsMD/Code/Libraries/Max4SDK/include/modstack.h:56-62 | index i is erased from both vectors in order, or nothing happens out of range; the vectors keep equal length |
| MaxSdk.IDerivedObject.SetBaseObject | GeneralsMD/Code/Libraries/Max4SDK/include/modstack.h:64-65 | `GetBaseObject` then returns the object, and the stacks are untouched |
| MaxSdk.INode.constructor | GeneralsMD/Code/Libraries/Max4SDK/include/Max.h:264 | no name, object, parent or children |
| MaxSdk.INode.SetName | GeneralsMD/Code/Libraries/Max4SDK/include/Max.h:268 | only the name changes |
| MaxSdk.INode.SetObjectRef | GeneralsMD/Code/Libraries/Max4SDK/include/Max.h:272-273 | only the object changes, and `GetObjectRef` returns it |
| MaxSdk.INode.SetParent | GeneralsMD/Code/Libraries/Max4SDK/include/Max.h:280-281 | only the parent changes |
| MaxSdk.INode.AddChild | GeneralsMD/Code/Libraries/Max4SDK/include/Max.h:282-284 | the child goes last and `NumChildren` grows by one; neither this node's nor the child's parent changes |
| MaxSdk.CreateDerivedObject | GeneralsMD/Code/Libraries/Max4SDK/include/maxfuncs.cpp:36-38 | a new derived object over the object, with no modifiers |
| StdMat.StdMat2.constructor | GeneralsMD/Code/Libraries/Max4SDK/include/stdmat.h:36-41 | all ten slots start with no texmap and switched off |
| StdMat.StdMat2.GetTexmap | GeneralsMD/Code/Libraries/Max4SDK/include/stdmat.h:54-59 | null outside slots 0 to 9 |
| StdMat.StdMat2.GetTexmapOn | GeneralsMD/Code/Libraries/Max4SDK/include/stdmat.h:67-72 | false outside slots 0 to 9 |
| StdMat.StdMat2.SetTexmap | GeneralsMD/Code/Libraries/Max4SDK/include/stdmat.h:48-52 | within 0 to 9 the slot then reads the texmap; every other slot is unchanged; out of range nothing changes; the flags are untouched |
| StdMat.StdMat2.SetTexmapOn | GeneralsMD/Code/Libraries/Max4SDK/include/stdmat.h:61-65 | within 0 to 9 the flag then reads the value; every other flag is unchanged; out of range nothing changes; the texmaps are untouched |
| MaxFuncs.GetTicksPerFrame | GeneralsMD/Code/Libraries/Max4SDK/include/maxfuncs.cpp:14-16 | 160 ticks a frame, which at 30 frames a second is 4800 ticks a second |
| MaxFuncs.GetTriObjectFromNode | GeneralsMD/Code/Libraries/Max4SDK/include/maxfuncs.cpp:19-27 | no node yields a triangle object: the conversion it delegates to is never overridden |
| MaxFuncs.FindModifier | GeneralsMD/Code/Libraries/Max4SDK/include/maxfuncs.cpp:41-57 | -1 for a null object or modifier and for an object that is not derived; otherwise the first index holding the modifier, and -1 exactly when no index holds it |

## Left out

- Winsock: name resolution, `socket`, `connect`, `send`, `recv`, `select`, `ioctlsocket` and `WSAStartup`/`WSACleanup` are not modelled. Their outcomes are inputs: `connectOk`, `startupOk`, `selectOk`, and a `SlotEvent` per slot. A sent request is appended to the `sent` log whether or not `send` succeeds.
- The background thread, its 100 ms and 10 ms sleeps and its clock: one loop iteration is `Backend.Step`, and the 20-second heartbeat timer is the input `heartbeatDue`. Concurrency between the caller's thread and the loop is not modelled.
- `GenerateMD5Hash` and `HashPassword`: a placeholder that no request uses; it is not part of this model.
- `SendInvite`, `PumpEvents`, `SendInviteRequest` and `ProcessInviteResponse` do nothing in the source. The first two are empty methods, and the last two are not modelled.
- `GetLocalPlayer` is a field read: `Snapshot().localPlayer`.
- Backend.HostGame: the session id drawn by `std::uniform_int_distribution` is only constrained to [1000, 9999999]. Its uniformity is not modelled.
- RevoraProtocol.GenerateRandomString: the characters are only constrained to come from the 62-character table. The Mersenne Twister draw is not modelled.
- RevoraProtocol.InterpretLogin: `unsigned long` is taken as 32 bits wide, as on the Windows targets.
- Logging everywhere (`Logger`): file and console output, levels and timestamps are not modelled. Only `CreateBackend`'s log level and message are kept, as part of its result.
- `VirtualProtect` is the oracle `writable`. The second call, which restores the old protection, is ignored by the source and is not modelled. `GetModuleHandleA`, `LoadLibraryA` and `GetProcAddress` are the oracles of `HookExport`.
- FunctionHook: the source takes no lock around its two tables, and concurrent hooking is not modelled.
- Function-pointer casts, `DllMain`, `SetupExportFunctions` (empty) and the invite-forwarding lambda are not modelled. The game's callbacks are 32-bit addresses, and what they would receive is the value `Forward` builds.
- GameBackend: `GameBackend.h` is not part of this model, so the field widths of its records and the all-zero `EmptySession` are inferred. The model takes `sessionID` as 32 bits, the ports as 16 bits and the player counts as 8 bits. The evidence is the `(int)` casts of the player counts (RevoraBackend.cpp:413-414), `uint16_t negotiatedPort` (RevoraBackend.cpp:535-550) and `uniform_int_distribution<uint32_t>` for the session id (RevoraBackend.cpp:401). HostSessionInfo's cut of the player limit to 8 bits rests on this inference.
- StlportDiff: Python's `\d` and `int()` accept every Unicode decimal digit, but `Text.IsDigit` accepts only ASCII `0`-`9` (apply_stlport_diff.py:194-196). A hunk header written with other decimal digits is a hunk in Python and is dropped by the model.
- Proxy.Initialize: `ConfigParser::SaveToFile`, which writes the defaults back when the file does not open, is not modelled (file output).
- ConfigParser: `SaveToFile` is not modelled, and file opening is the absent file.
- StlportDiff: `parse_args`, `find_stlport_dirs` (`os.walk`), `main` and all printing are not modelled.
- StlportDiff: `map_diff_path_to_actual_path` is not modelled. Files are looked up by the path the diff names, and a missing or unreadable file is an absent entry.
- StlportDiff: decoding with `errors='ignore'` is not modelled, and lines are given as text.
- StlportDiff.ApplyPatch: a write that fails after opening leaves the file as it was in the model. Python would already have truncated it.
- Max SDK floating point: `Point2`/`Point3`/`Color` arithmetic, `Matrix3`, `GetNodeTM`/`SetNodeTM`, the `StdMat` colour and shininess parameters, `UVGen`/`XYZGen` and `Modifier` parameters are not modelled.
- Max SDK: the references `getVert`/`getFace` return are not modelled; the vectors are fields. `GetName` is not modelled; it returns a C string.
- The `Object` virtuals `NumPoints`/`GetPoint`/`SetPoint`, `ReleaseTriObject`, `GetCOREInterface` and the `Mtl`/`BitmapTex` classes are not modelled; they are empty stand-ins.
- MaxSdk.BitArray.WithSize: sizes below -62 are excluded, because `resize` is then asked for a huge count and throws. Sizes within 31 of `INT_MAX` are also excluded, because `size + 31` overflows.
- MaxSdk.BitArray.SetSize: the same two size ranges are excluded, for the same reasons.
- MaxSdk.Mesh.SetNumVerts: a negative count is excluded, because `resize` throws `length_error`. The same holds for `SetNumFaces` and `SetNumTVerts`.
- MaxSdk.INode.GetChildNode: the index is required to be in range, because the source indexes the vector unchecked.
- MaxSdk.Mask: `1 << 31` on a 32-bit `int` is the sign bit, taken as bit 31 of the `DWORD` as the compilers targeted do.
