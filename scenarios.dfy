/**
 * Client code that drives NetworkManager through the two-peer session:
 * Steam id 100 owns lobby 7, Steam id 200 joins it. Everything asserted
 * here follows from the handlers' contracts alone.
 */
module Scenarios {
  import opened Wrappers
  import opened SteamIds
  import opened UnetSteamworks

  const HostId: SteamId := 100
  const ClientId: SteamId := 200
  const StrangerId: SteamId := 999
  const LobbyId: SteamId := 7

  /**
   * The host creates the lobby, enters it as owner, accepts the member 200,
   * ignores the non-member 999, and is then disconnected twice.
   */
  method HostSession()
    returns (registry: map<SteamId, Conn>, established: bool, strangerAccepted: bool,
             afterStranger: map<SteamId, Conn>, afterDisconnect: map<SteamId, Conn>, stateAfterDisconnect: SessionConnectionState)
    ensures registry.Keys == {HostId, ClientId}
    ensures registry[HostId].LocalConnection?
    ensures registry[ClientId] == SteamNetworkConnection(ClientId, 1)
    ensures established && !strangerAccepted && afterStranger == registry
    ensures afterDisconnect == map[] && stateAfterDisconnect == DISCONNECTED
  {
    var host := new NetworkManager();
    var call := host.CreateLobbyAndInviteFriend(true);
    assert call == CreateLobby(Private, LobbyCapacity) && host.lobbyConnectionState == CONNECTING;
    var entry := host.OnLobbyEntered(true, LobbyId, HostId, HostId);
    assert entry == ServerStarted && host.lobbyConnectionState == CONNECTED;
    var accepted := host.OnP2PSessionRequested(true, true, [HostId, ClientId], ClientId);
    assert ClientId in [HostId, ClientId];
    assert accepted;
    registry := host.steamIdUnetConnectionMap;
    strangerAccepted := host.OnP2PSessionRequested(true, true, [HostId, ClientId], StrangerId);
    afterStranger := host.steamIdUnetConnectionMap;
    established := host.p2pConnectionEstablished;
    var shutdown, disconnected := host.Disconnect(true);
    shutdown, disconnected := host.Disconnect(false);
    afterDisconnect := host.steamIdUnetConnectionMap;
    stateAfterDisconnect := host.lobbyConnectionState;
  }

  /**
   * The client accepts an invite, enters the lobby owned by 100, receives
   * the empty acceptance packet from 100 with the session-state query
   * succeeding, connects, and on UNET's Connect sends its spawn request;
   * the host that accepted 200 resolves the request to 200's connection.
   */
  method ClientSession()
    returns (registry: map<SteamId, Conn>, established: bool, request: Option<NetworkMessage>,
             spawn: SpawnOutcome)
    ensures registry == map[HostId := SteamNetworkConnection(HostId, 0)]
    ensures established
    ensures request == Some(NetworkMessage(SpawnMsg, FormatDecimal(ClientId)))
    ensures spawn == Spawned(ClientId, SteamNetworkConnection(ClientId, 1))
  {
    var client := new NetworkManager();
    var call := client.OnGameLobbyJoinRequested(LobbyId, true);
    assert call == JoinLobby(LobbyId);
    var entry := client.OnLobbyEntered(true, LobbyId, HostId, ClientId);
    assert entry == AcceptanceRequested(HostId) && !client.JoinFriendTriggered;
    var connecting := client.DoWaitForP2PSessionAcceptedAndConnect(Some(HostId), HostId, true);
    assert connecting;
    registry := client.steamIdUnetConnectionMap;
    established := client.p2pConnectionEstablished;
    request := client.OnConnect(ClientId);
    assert !client.myClient.value.connectHandlerRegistered;

    var host := new NetworkManager();
    var entered := host.OnLobbyEntered(true, LobbyId, HostId, HostId);
    assert ClientId in [HostId, ClientId];
    var accepted := host.OnP2PSessionRequested(true, true, [HostId, ClientId], ClientId);
    ParseFormatRoundTrip(ClientId);
    spawn := host.OnSpawnRequested(request.value.value);
  }

  /** A first packet from anyone but the owner ends the wait without a connection. */
  method ClientRejectsStranger()
    returns (connecting: bool, registry: map<SteamId, Conn>, established: bool, stillWaiting: bool)
    ensures !connecting && registry == map[] && !established && !stillWaiting
  {
    var client := new NetworkManager();
    var entry := client.OnLobbyEntered(true, LobbyId, HostId, ClientId);
    connecting := client.DoWaitForP2PSessionAcceptedAndConnect(Some(StrangerId), HostId, true);
    registry := client.steamIdUnetConnectionMap;
    established := client.p2pConnectionEstablished;
    stillWaiting := client.waitingForP2PAcceptance;
  }
}
