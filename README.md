# UNET over Steamworks: the lobby / P2P session state machine

This project models the core of `UNETSteamworks.NetworkManager`, the Unity
component that connects two players through a Steam lobby and Steam P2P
packets and then runs UNET on top. The model covers:

- the lobby connection state (`SessionConnectionState`, seven values);
- the lobby id, the `JoinFriendTriggered` and `p2pConnectionEstablished`
  flags, the `myClient` UNET client;
- the registry `steamIdUnetConnectionMap` from Steam ids to UNET connections.

Every event handler is a method of the class `UnetSteamworks.NetworkManager`.
The handlers are lobby join and create, lobby entered, P2P session request,
the client's wait for the host's acceptance packet, spawn request, UNET
Connect, `Disconnect`, the per-frame `Update` and the launch-argument scan
in `Start`. What the handlers ask Steamworks or UNET is passed in as a
parameter. That covers `SteamManager.Initialized`, `NetworkServer.active`,
the lobby owner, the local Steam id, the lobby member list, the sender of a
packet, the P2P session state and whether the client is connected. What
they ask Steamworks or UNET to do comes back as a result: the matchmaking
call issued, the packet handed to a connection, the spawn message sent.

Files:

- `wrappers.dfy`: `Option`.
- `steam_ids.dfy`: Steam ids as 64-bit unsigned integers; `ulong.TryParse`
  and `ulong.ToString` on decimal digit strings, and their round trips.
- `launch_arguments.dfy`: the `+connect_lobby <id>` scan of `Start`.
- `network_manager.dfy`: the state, the connection registry and the handlers.
- `scenarios.dfy`: client code driving a host (id 100) and a client (id 200)
  through one lobby, using only the handlers' contracts.

Two fields exist only in the model:

- `waitingForP2PAcceptance` is true while the client coroutine
  `DoWaitForP2PSessionAcceptedAndConnect` is suspended. The step that
  resumes it requires the flag and clears it, because the coroutine never
  retries.
- `connectionsCreated` counts connection objects allocated so far. Each new
  connection carries the count as its identity. This makes "a new
  connection replaces the old one" visible in the contracts.

The class invariant `Valid()` has three parts. The state is never
`CANCELLED` or `DISCONNECTING`, because no code path sets either. The
registry is consistent: a Steam connection is registered under its own
remote id, no connection object appears under two ids, and every registered
connection was allocated earlier. The connection of `myClient`, if there is
one, was allocated earlier too.

## Behaviour of the code worth noting

- `Disconnect` goes straight to `DISCONNECTED`, never through `DISCONNECTING`.
- `Disconnect` does not stop a client that is still waiting for the
  acceptance packet, so `waitingForP2PAcceptance` survives it.
- `OnLobbyEntered` sets `CONNECTED` from whatever state it finds.
- `Update` hands every packet to `myClient`'s connection whatever its
  sender. On the host, `myClient` is the local client from
  `StartUnetServerForSteam`.

## Model

| member | source | states |
|---|---|---|
| `UnetSteamworks.NetworkManager.constructor` | Assets/Scripts/NetworkManager.cs:33-41 | the component starts `UNDEFINED`, with a nil lobby id, both flags false, an empty registry and no client |
| `UnetSteamworks.NetworkManager.Start` | Assets/Scripts/NetworkManager.cs:66-89 | a join happens only when the scanned value parses as a ulong; then `JoinFriendTriggered` is set, the lobby id is that value, and the join runs. Otherwise nothing changes and no lobby call is made |
| `LaunchArguments.ScanConnectLobbyArgument` | Assets/Scripts/NetworkManager.cs:68-74 | the index loop computes exactly `ChosenArgument(args)` |
| `LaunchArguments.ChosenArgumentAfterLastFlag` | Assets/Scripts/NetworkManager.cs:70-74 | if the last `+connect_lobby` with a following argument is at k, the value picked up is `args[k+1]`: the last such occurrence wins |
| `LaunchArguments.ChosenArgumentWithoutFlag` | Assets/Scripts/NetworkManager.cs:69-74 | with no `+connect_lobby` that has an argument after it, the value stays empty |
| `SteamIds.FormatDecimal` | Assets/Scripts/NetworkManager.cs:418 | `ToString` of an id is a non-empty digit string with a leading zero only for zero |
| `SteamIds.FormatDecimalValue` | Assets/Scripts/NetworkManager.cs:418 | the digits `ToString` produces denote the id itself |
| `SteamIds.ParseFormatRoundTrip` | Assets/Scripts/NetworkManager.cs:418 | the id the client sends as text is parsed back to the same id by `ulong.Parse` in the host's spawn handler (line 327) |
| `SteamIds.ParseUInt64` | Assets/Scripts/NetworkManager.cs:81 | `ulong.TryParse` (and `ulong.Parse` at line 327) succeeds if and only if the text is a non-empty digit string whose value is below 2^64, and then yields that value. Every such string parses; empty text, non-digits and values of 2^64 or more fail |
| `SteamIds.ParseDigitsFromValue` | Assets/Scripts/NetworkManager.cs:81 | the left-to-right digit loop with an overflow check at each digit, started on a digit prefix and its value, succeeds exactly on 64-bit digit strings and yields their value |
| `SteamIds.ParseUInt64Samples` | Assets/Scripts/NetworkManager.cs:327 | leading zeros are accepted ("007" gives 7); "", "-5" and "12a" are rejected |
| `SteamIds.FormatInvertsParse` | Assets/Scripts/NetworkManager.cs:81 | on digit strings without a superfluous leading zero, `ToString` of the parsed value gives the string back |
| `UnetSteamworks.NetworkManager.Update` | Assets/Scripts/NetworkManager.cs:91-136 | a packet is delivered exactly when Steam is initialised, the P2P flag is set, the client exists and is connected, and a packet was read. It goes to `myClient`'s connection whatever the sender, with its bytes unchanged. The manager's state is not modified |
| `UnetSteamworks.NetworkManager.Disconnect` | Assets/Scripts/NetworkManager.cs:145-163 | afterwards the state is `DISCONNECTED`, the registry is empty, the lobby id is nil and the P2P flag is false. The server is shut down iff it was active; the client is disconnected iff one exists. On an already disconnected manager it changes nothing, so calling it twice equals calling it once |
| `UnetSteamworks.NetworkManager.JoinFriendLobby` | Assets/Scripts/NetworkManager.cs:166-176 | without Steam, the state becomes `FAILED` and no lobby call is made. Otherwise it becomes `CONNECTING` and the stored lobby is joined. Only the state field may change |
| `UnetSteamworks.NetworkManager.CreateLobbyAndInviteFriend` | Assets/Scripts/NetworkManager.cs:178-188 | without Steam, the state becomes `FAILED` and no lobby call is made. Otherwise it becomes `CONNECTING` and a private lobby of 2 is created. Only the state field may change |
| `UnetSteamworks.NetworkManager.OnLobbyEntered` | Assets/Scripts/NetworkManager.cs:190-227 | without Steam: `FAILED` and nothing else. Otherwise the lobby is recorded and the state is `CONNECTED`. When owner == self, the host path registers self → a new local connection. Otherwise the client path clears `JoinFriendTriggered`, requests acceptance from the owner and starts waiting, with the registry untouched |
| `UnetSteamworks.OnlyOwnerIsHost` | Assets/Scripts/NetworkManager.cs:202-204 | `RoleOf`, the owner test at line 204, gives the host role to exactly one member of a lobby: its owner |
| `UnetSteamworks.NetworkManager.GetUnetConnectionForSteamUser` | Assets/Scripts/NetworkManager.cs:229-240 | returns the registered connection iff the id is a key, and null otherwise; it modifies nothing |
| `UnetSteamworks.NetworkManager.OnP2PSessionRequested` | Assets/Scripts/NetworkManager.cs:260-293 | accepts iff the server is active, Steam is initialised and the remote is a lobby member. On accepting, it sets the P2P flag and maps the remote to a new connection, replacing any earlier one. In every other case nothing changes |
| `UnetSteamworks.FindLobbyMember` | Assets/Scripts/NetworkManager.cs:267-273 | the member loop finds the remote iff it is in the member list, at its first index |
| `UnetSteamworks.RegisterFresh` | Assets/Scripts/NetworkManager.cs:283 | registering a newly allocated connection under its peer's id keeps the registry consistent |
| `UnetSteamworks.NetworkManager.StartUnetServerForSteam` | Assets/Scripts/NetworkManager.cs:296-320 | `myClient` becomes a new local client, and its connection is registered under the host's own id |
| `UnetSteamworks.NetworkManager.OnSpawnRequested` | Assets/Scripts/NetworkManager.cs:322-338 | a malformed id spawns nothing. An id with no registry entry spawns nothing. A registered id gets its own connection. The registry is only read |
| `UnetSteamworks.NetworkManager.DoWaitForP2PSessionAcceptedAndConnect` | Assets/Scripts/NetworkManager.cs:343-378 | the wait ends in every case. A first packet from anyone but the owner changes neither the registry nor the flag. A packet from the owner sets the flag even if the session query fails. Only when the session-state query succeeds is owner → new connection registered and a client made |
| `UnetSteamworks.NetworkManager.OnGameLobbyJoinRequested` | Assets/Scripts/NetworkManager.cs:380-386 | always sets `JoinFriendTriggered`, records the lobby and joins it: `CONNECTING` with a join call, or `FAILED` without Steam |
| `UnetSteamworks.NetworkManager.ConnectToUnetServerForSteam` | Assets/Scripts/NetworkManager.cs:388-406 | registers host → a new Steam connection and makes `myClient` a client on it with the Connect handler registered |
| `UnetSteamworks.NetworkManager.OnConnect` | Assets/Scripts/NetworkManager.cs:408-422 | runs only while the Connect handler is registered and unregisters it, so it runs at most once per client. On a Steam connection it sends `SpawnMsg` carrying the local id as text |
| `Scenarios.HostSession` | Assets/Scripts/NetworkManager.cs:260-293 | host 100 accepts member 200, ending with registry {100: local, 200: new Steam connection} and the flag set. It ignores non-member 999, whose request leaves the registry exactly as it was. Two disconnects leave the registry empty and the state `DISCONNECTED` |
| `Scenarios.ClientSession` | Assets/Scripts/NetworkManager.cs:343-422 | client 200 ends with registry {100: Steam connection} and the flag set, and sends the spawn request "200". The host resolves that request to the Steam connection it allocated for 200 |
| `Scenarios.ClientRejectsStranger` | Assets/Scripts/NetworkManager.cs:356-377 | a first packet from a non-owner leaves the client with no connection and the flag unset, and the wait is over |

## Left out

- `Awake`: registering the Steam callbacks and the player prefab. Each callback is a method here; how Steam dispatches them is not part of this model.
- Steamworks and UNET calls are not modelled inside; their answers are parameters and their requests are results. This covers `JoinLobby`, `CreateLobby`, `SendP2PPacket`, `AcceptP2PSessionWithUser`, `NetworkServer.Configure`/`Listen`/`AddExternalConnection`/`SetClientReady`/`SpawnWithClientAuthority`/`Shutdown`, `NetworkClient.Connect`/`Send`/`Disconnect`, `TransportReceive` and `CreateTopology`.
- `DoShowInviteDialogWhenReady`: the invite overlay is UI. Its wait for the server changes none of the modelled state.
- Coroutine scheduling: the client's wait is one step, taken on the tick a packet is available. Two waits running at once, after two client-path lobby entries, are collapsed into one flag.
- The registration of `OnSpawnRequested` with `NetworkServer` and the handlers of a client object after `myClient` is replaced are not tracked. `OnSpawnRequested` models the handler once UNET dispatches to it.
- `SteamIds.ParseUInt64`: does not accept the leading or trailing white space or the sign that `ulong.TryParse` tolerates under its default culture rules. Only a plain decimal digit string below 2^64 parses.
- `UnetSteamworks.NetworkManager.Update`: `IsP2PPacketAvailable` and `ReadP2PPacket` are merged into one optional datagram, with a failed read counted as no packet. Packet bytes are opaque, and logging and the text decoding of the packet are left out.
- `Debug.LogError` output and `GameObject.Instantiate` are left out: logging and rendering.
- The type `CSteamID` is not part of this model. A cleared id is taken to be the nil id 0.
