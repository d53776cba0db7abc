/**
 * The lobby / P2P session state machine of UNETSteamworks.NetworkManager and
 * its registry from Steam ids to UNET connections. Every Steamworks or UNET
 * query the handlers make is a parameter of the method that models the
 * handler; calls into those libraries are results.
 */
module UnetSteamworks {
  import opened Wrappers
  import opened SteamIds
  import LaunchArguments

  /** Message type of the spawn request the client sends and the host handles. */
  const SpawnMsg: int := 1002

  /** Member limit of the lobby CreateLobbyAndInviteFriend creates. */
  const LobbyCapacity: nat := 2

  datatype SessionConnectionState =
    | UNDEFINED
    | CONNECTING
    | CANCELLED
    | CONNECTED
    | FAILED
    | DISCONNECTING
    | DISCONNECTED

  /**
   * A UNET connection object. `serial` stands for its identity: every
   * connection the manager allocates gets the next serial, so two
   * allocations are never equal.
   */
  datatype Conn =
    | LocalConnection(serial: nat)                       // ClientScene.ConnectLocalServer()
    | SteamNetworkConnection(remote: SteamId, serial: nat)

  /** The UNET client object `myClient` refers to, and whether its Connect handler is registered. */
  datatype NetworkClient = NetworkClient(connection: Conn, connectHandlerRegistered: bool)

  /** Steam's ELobbyType. */
  datatype LobbyType = Private | FriendsOnly | Public | Invisible

  /** The matchmaking call a handler issues, if any. */
  datatype LobbyCall = NoLobbyCall | JoinLobby(lobby: SteamId) | CreateLobby(lobbyType: LobbyType, maxMembers: nat)

  datatype Role = Host | Client

  /** The lobby owner hosts; every other member is a client. */
  function RoleOf(ownerId: SteamId, selfId: SteamId): Role {
    if ownerId == selfId then Host else Client
  }

  /** What OnLobbyEntered went on to do. */
  datatype LobbyEntry =
    | EntryFailed                        // Steam not initialised
    | ServerStarted                      // host: UNET server started, self registered
    | AcceptanceRequested(host: SteamId) // client: empty packet sent to the host, wait begun

  /** A datagram read from the Steam P2P queue. */
  datatype Datagram = Datagram(sender: SteamId, payload: seq<bv8>)

  /** Bytes handed to a connection's TransportReceive. */
  datatype Delivery = Delivery(connection: Conn, payload: seq<bv8>)

  datatype SpawnOutcome =
    | MalformedRequest                         // ulong.Parse throws, the handler stops
    | SpawnTargetMissing(id: SteamId)
    | Spawned(id: SteamId, connection: Conn)   // SetClientReady and spawn on that connection

  /** A UNET message carrying a string (StringMessage). */
  datatype NetworkMessage = NetworkMessage(msgType: int, value: string)

  /** The source never sets CANCELLED or DISCONNECTING. */
  predicate ReachableState(s: SessionConnectionState) {
    s != CANCELLED && s != DISCONNECTING
  }

  /**
   * Every registered connection was allocated before (its serial is below
   * `created`), a Steam connection is registered under its own remote id,
   * and no connection object is registered under two ids.
   */
  ghost predicate RegistryConsistent(registry: map<SteamId, Conn>, created: nat) {
    && (forall id :: id in registry ==> registry[id].serial < created)
    && (forall id :: id in registry && registry[id].SteamNetworkConnection? ==> registry[id].remote == id)
    && (forall a, b :: a in registry && b in registry && a != b ==> registry[a] != registry[b])
  }

  /** Registering a freshly allocated connection keeps the registry consistent. */
  lemma RegisterFresh(registry: map<SteamId, Conn>, created: nat, id: SteamId, conn: Conn)
    requires RegistryConsistent(registry, created)
    requires conn.serial == created
    requires conn.SteamNetworkConnection? ==> conn.remote == id
    ensures RegistryConsistent(registry[id := conn], created + 1)
  {
  }

  /** Among the members of a lobby, exactly the owner takes the host path. */
  lemma OnlyOwnerIsHost(members: set<SteamId>, ownerId: SteamId)
    requires ownerId in members
    ensures (set m | m in members && RoleOf(ownerId, m) == Host) == {ownerId}
  {
  }

  /**
   * The search OnP2PSessionRequested makes through the lobby member list
   * (GetNumLobbyMembers / GetLobbyMemberByIndex): the first index holding
   * the remote id, if any.
   */
  method FindLobbyMember(members: seq<SteamId>, remote: SteamId) returns (index: Option<nat>)
    ensures index.Some? <==> remote in members
    ensures index.Some? ==> index.value < |members| && members[index.value] == remote
    ensures index.Some? ==> remote !in members[..index.value]
  {
    var i := 0;
    while i < |members|
      invariant 0 <= i <= |members|
      invariant remote !in members[..i]
    {
      if members[i] == remote {
        return Some(i);
      }
      assert members[..i + 1] == members[..i] + [members[i]];
      i := i + 1;
    }
    assert members[..i] == members;
    return None;
  }

  class NetworkManager {
    var lobbyConnectionState: SessionConnectionState
    var steamLobbyId: SteamId
    var JoinFriendTriggered: bool
    var p2pConnectionEstablished: bool
    var steamIdUnetConnectionMap: map<SteamId, Conn>
    var myClient: Option<NetworkClient>
    /** The client's wait for the host's acceptance packet is suspended and will resume. */
    var waitingForP2PAcceptance: bool
    /** How many connection objects have been allocated: the next one's identity. */
    var connectionsCreated: nat

    ghost predicate Valid()
      reads this
    {
      && ReachableState(lobbyConnectionState)
      && RegistryConsistent(steamIdUnetConnectionMap, connectionsCreated)
      && (myClient.Some? ==> myClient.value.connection.serial < connectionsCreated)
    }

    /** The state Disconnect leaves behind. */
    predicate IsDisconnected()
      reads this
    {
      && lobbyConnectionState == DISCONNECTED
      && steamIdUnetConnectionMap == map[]
      && steamLobbyId == NilSteamId
      && !p2pConnectionEstablished
    }

    /** A freshly loaded component: C# default field values. */
    constructor ()
      ensures Valid()
      ensures lobbyConnectionState == UNDEFINED && steamLobbyId == NilSteamId
      ensures !JoinFriendTriggered && !p2pConnectionEstablished
      ensures steamIdUnetConnectionMap == map[] && myClient == None
      ensures !waitingForP2PAcceptance && connectionsCreated == 0
    {
      lobbyConnectionState := UNDEFINED;
      steamLobbyId := NilSteamId;
      JoinFriendTriggered := false;
      p2pConnectionEstablished := false;
      steamIdUnetConnectionMap := map[];
      myClient := None;
      waitingForP2PAcceptance := false;
      connectionsCreated := 0;
    }

    /**
     * Start: scan the arguments for "+connect_lobby <id>"; when the value is
     * a valid ulong, record the lobby, mark the join as invite-triggered and
     * join it.
     */
    method Start(args: seq<string>, steamInitialized: bool) returns (call: LobbyCall)
      requires Valid()
      modifies this`JoinFriendTriggered, this`steamLobbyId, this`lobbyConnectionState
      ensures Valid()
      ensures ParseUInt64(LaunchArguments.ChosenArgument(args)).None? ==>
        call == NoLobbyCall && unchanged(this)
      ensures ParseUInt64(LaunchArguments.ChosenArgument(args)).Some? ==>
        var id := ParseUInt64(LaunchArguments.ChosenArgument(args)).value;
        && JoinFriendTriggered
        && steamLobbyId == id
        && lobbyConnectionState == (if steamInitialized then CONNECTING else FAILED)
        && call == (if steamInitialized then JoinLobby(id) else NoLobbyCall)
    {
      var input := LaunchArguments.ScanConnectLobbyArgument(args);
      call := NoLobbyCall;
      if input != "" {
        var lobbyId := ParseUInt64(input);
        if lobbyId.Some? {
          JoinFriendTriggered := true;
          steamLobbyId := lobbyId.value;
          call := JoinFriendLobby(steamInitialized);
        }
      }
    }

    /**
     * Update: a packet waiting in the Steam P2P queue is read and handed to
     * myClient's connection only when Steam is initialised, the P2P flag is
     * set and the client exists and is connected. The sender is not looked
     * at. Nothing in the manager changes.
     */
    method Update(steamInitialized: bool, clientConnected: bool, available: Option<Datagram>)
      returns (delivery: Option<Delivery>)
      ensures delivery.Some? <==>
        steamInitialized && p2pConnectionEstablished && myClient.Some? && clientConnected && available.Some?
      ensures delivery.Some? ==>
        delivery.value.connection == myClient.value.connection && delivery.value.payload == available.value.payload
    {
      if !steamInitialized {
        return None;
      }
      if !p2pConnectionEstablished {
        return None;
      }
      if myClient.None? || !clientConnected {
        return None;
      }
      delivery := None;
      if available.Some? {
        delivery := Some(Delivery(myClient.value.connection, available.value.payload));
      }
    }

    /**
     * Disconnect: straight to DISCONNECTED, registry emptied, lobby id
     * cleared, P2P flag reset; shuts the server down if it is active and
     * disconnects myClient if there is one. On a manager already in that
     * state it changes nothing, so a second call is a no-op.
     */
    method Disconnect(serverActive: bool) returns (serverShutdown: bool, clientDisconnected: bool)
      requires Valid()
      modifies this`lobbyConnectionState, this`steamIdUnetConnectionMap, this`steamLobbyId,
        this`p2pConnectionEstablished
      ensures Valid()
      ensures IsDisconnected()
      ensures old(IsDisconnected()) ==> unchanged(this)
      ensures serverShutdown == serverActive
      ensures clientDisconnected == myClient.Some?
    {
      lobbyConnectionState := DISCONNECTED;
      serverShutdown := serverActive;
      clientDisconnected := myClient.Some?;
      steamIdUnetConnectionMap := map[];
      steamLobbyId := NilSteamId;
      p2pConnectionEstablished := false;
    }

    /** JoinFriendLobby: FAILED without Steam; otherwise CONNECTING and JoinLobby(steamLobbyId). */
    method JoinFriendLobby(steamInitialized: bool) returns (call: LobbyCall)
      requires Valid()
      modifies this`lobbyConnectionState
      ensures Valid()
      ensures lobbyConnectionState == (if steamInitialized then CONNECTING else FAILED)
      ensures call == (if steamInitialized then JoinLobby(steamLobbyId) else NoLobbyCall)
    {
      if !steamInitialized {
        lobbyConnectionState := FAILED;
        return NoLobbyCall;
      }
      lobbyConnectionState := CONNECTING;
      call := JoinLobby(steamLobbyId);
    }

    /** CreateLobbyAndInviteFriend: FAILED without Steam; otherwise CONNECTING and CreateLobby(Private, 2). */
    method CreateLobbyAndInviteFriend(steamInitialized: bool) returns (call: LobbyCall)
      requires Valid()
      modifies this`lobbyConnectionState
      ensures Valid()
      ensures lobbyConnectionState == (if steamInitialized then CONNECTING else FAILED)
      ensures call == (if steamInitialized then CreateLobby(Private, LobbyCapacity) else NoLobbyCall)
    {
      if !steamInitialized {
        lobbyConnectionState := FAILED;
        return NoLobbyCall;
      }
      lobbyConnectionState := CONNECTING;
      call := CreateLobby(Private, LobbyCapacity);
    }

    /**
     * OnLobbyEntered: without Steam, FAILED and nothing else. Otherwise the
     * lobby is recorded and the state is CONNECTED; the owner of the lobby
     * starts the UNET server and registers itself, any other member clears
     * JoinFriendTriggered, sends an empty packet to the owner and begins
     * waiting for the acceptance packet.
     */
    method OnLobbyEntered(steamInitialized: bool, enteredLobby: SteamId, ownerId: SteamId, selfId: SteamId)
      returns (entry: LobbyEntry)
      requires Valid()
      modifies this`lobbyConnectionState, this`steamLobbyId, this`JoinFriendTriggered,
        this`steamIdUnetConnectionMap, this`myClient, this`waitingForP2PAcceptance, this`connectionsCreated
      ensures Valid()
      ensures !steamInitialized ==>
        && entry == EntryFailed
        && lobbyConnectionState == FAILED
        && unchanged(this`steamLobbyId, this`JoinFriendTriggered, this`steamIdUnetConnectionMap,
             this`myClient, this`waitingForP2PAcceptance, this`connectionsCreated)
      ensures steamInitialized ==> lobbyConnectionState == CONNECTED && steamLobbyId == enteredLobby
      ensures steamInitialized && RoleOf(ownerId, selfId) == Host ==>
        var local := LocalConnection(old(connectionsCreated));
        && entry == ServerStarted
        && steamIdUnetConnectionMap == old(steamIdUnetConnectionMap)[selfId := local]
        && myClient == Some(NetworkClient(local, false))
        && connectionsCreated == old(connectionsCreated) + 1
        && unchanged(this`JoinFriendTriggered, this`waitingForP2PAcceptance)
      ensures steamInitialized && RoleOf(ownerId, selfId) == Client ==>
        && entry == AcceptanceRequested(ownerId)
        && !JoinFriendTriggered
        && waitingForP2PAcceptance
        && unchanged(this`steamIdUnetConnectionMap, this`myClient, this`connectionsCreated)
    {
      if !steamInitialized {
        lobbyConnectionState := FAILED;
        return EntryFailed;
      }
      steamLobbyId := enteredLobby;
      lobbyConnectionState := CONNECTED;
      if ownerId == selfId {
        StartUnetServerForSteam(selfId);
        entry := ServerStarted;
      } else {
        JoinFriendTriggered := false;
        waitingForP2PAcceptance := true;
        entry := AcceptanceRequested(ownerId);
      }
    }

    /** The registry part of StartUnetServerForSteam: a local client whose connection is registered under the host's own id. */
    method StartUnetServerForSteam(selfId: SteamId)
      requires Valid()
      modifies this`steamIdUnetConnectionMap, this`myClient, this`connectionsCreated
      ensures Valid()
      ensures var local := LocalConnection(old(connectionsCreated));
        && steamIdUnetConnectionMap == old(steamIdUnetConnectionMap)[selfId := local]
        && myClient == Some(NetworkClient(local, false))
        && connectionsCreated == old(connectionsCreated) + 1
    {
      var local := LocalConnection(connectionsCreated);
      RegisterFresh(steamIdUnetConnectionMap, connectionsCreated, selfId, local);
      connectionsCreated := connectionsCreated + 1;
      myClient := Some(NetworkClient(local, false));
      steamIdUnetConnectionMap := steamIdUnetConnectionMap[selfId := local];
    }

    /** GetUnetConnectionForSteamUser: the registered connection, or null. */
    method GetUnetConnectionForSteamUser(userId: SteamId) returns (result: Option<Conn>)
      ensures result.Some? <==> userId in steamIdUnetConnectionMap
      ensures result.Some? ==> result.value == steamIdUnetConnectionMap[userId]
    {
      if userId in steamIdUnetConnectionMap {
        return Some(steamIdUnetConnectionMap[userId]);
      }
      return None;
    }

    /**
     * OnP2PSessionRequested: only with the server active, Steam initialised
     * and the remote among the lobby members is the session accepted; then
     * the P2P flag is set and a new Steam connection for the remote replaces
     * whatever was registered for it. Otherwise nothing changes.
     */
    method OnP2PSessionRequested(serverActive: bool, steamInitialized: bool, members: seq<SteamId>, remote: SteamId)
      returns (accepted: bool)
      requires Valid()
      modifies this`p2pConnectionEstablished, this`steamIdUnetConnectionMap, this`connectionsCreated
      ensures Valid()
      ensures accepted == (serverActive && steamInitialized && remote in members)
      ensures accepted ==>
        && p2pConnectionEstablished
        && steamIdUnetConnectionMap ==
             old(steamIdUnetConnectionMap)[remote := SteamNetworkConnection(remote, old(connectionsCreated))]
        && connectionsCreated == old(connectionsCreated) + 1
      ensures !accepted ==> unchanged(this)
    {
      if serverActive && steamInitialized {
        var index := FindLobbyMember(members, remote);
        if index.Some? {
          var member := members[index.value];
          p2pConnectionEstablished := true;
          var conn := SteamNetworkConnection(member, connectionsCreated);
          RegisterFresh(steamIdUnetConnectionMap, connectionsCreated, member, conn);
          connectionsCreated := connectionsCreated + 1;
          steamIdUnetConnectionMap := steamIdUnetConnectionMap[member := conn];
          return true;
        }
      }
      return false;
    }

    /**
     * OnSpawnRequested (host): the message names a Steam id in decimal; a
     * malformed one makes ulong.Parse throw, an unregistered one spawns
     * nothing, a registered one gets a player on its connection. The
     * registry is only read.
     */
    method OnSpawnRequested(value: string) returns (outcome: SpawnOutcome)
      ensures ParseUInt64(value).None? ==> outcome == MalformedRequest
      ensures ParseUInt64(value).Some? ==>
        var id := ParseUInt64(value).value;
        outcome == if id in steamIdUnetConnectionMap
                   then Spawned(id, steamIdUnetConnectionMap[id])
                   else SpawnTargetMissing(id)
    {
      var steamId := ParseUInt64(value);
      if steamId.None? {
        return MalformedRequest;
      }
      var conn := GetUnetConnectionForSteamUser(steamId.value);
      if conn.Some? {
        outcome := Spawned(steamId.value, conn.value);
      } else {
        outcome := SpawnTargetMissing(steamId.value);
      }
    }

    /**
     * DoWaitForP2PSessionAcceptedAndConnect, resumed on the tick a packet is
     * available: `sender` is the sender if ReadP2PPacket succeeded, `ownerId`
     * the lobby owner at that moment, `sessionStateFound` whether
     * GetP2PSessionState returned true (a session record with the owner exists;
     * whether it is active is not looked at). The wait ends whatever happens: no retry. A packet
     * from the owner sets the P2P flag; only when the session-state query
     * succeeds does the client connect to the UNET server.
     */
    method DoWaitForP2PSessionAcceptedAndConnect(sender: Option<SteamId>, ownerId: SteamId, sessionStateFound: bool)
      returns (connecting: bool)
      requires Valid()
      requires waitingForP2PAcceptance
      modifies this`waitingForP2PAcceptance, this`p2pConnectionEstablished, this`steamIdUnetConnectionMap,
        this`myClient, this`connectionsCreated
      ensures Valid()
      ensures !waitingForP2PAcceptance
      ensures p2pConnectionEstablished == (old(p2pConnectionEstablished) || sender == Some(ownerId))
      ensures connecting == (sender == Some(ownerId) && sessionStateFound)
      ensures connecting ==>
        var conn := SteamNetworkConnection(ownerId, old(connectionsCreated));
        && steamIdUnetConnectionMap == old(steamIdUnetConnectionMap)[ownerId := conn]
        && myClient == Some(NetworkClient(conn, true))
        && connectionsCreated == old(connectionsCreated) + 1
      ensures !connecting ==>
        unchanged(this`steamIdUnetConnectionMap, this`myClient, this`connectionsCreated)
    {
      waitingForP2PAcceptance := false;
      connecting := false;
      if sender.Some? {
        if sender.value == ownerId {
          p2pConnectionEstablished := true;
          if sessionStateFound {
            ConnectToUnetServerForSteam(ownerId);
            connecting := true;
          }
        }
      }
    }

    /**
     * OnGameLobbyJoinRequested: an invite accepted while running always
     * records the lobby, marks the join as invite-triggered and joins.
     */
    method OnGameLobbyJoinRequested(lobby: SteamId, steamInitialized: bool) returns (call: LobbyCall)
      requires Valid()
      modifies this`JoinFriendTriggered, this`steamLobbyId, this`lobbyConnectionState
      ensures Valid()
      ensures JoinFriendTriggered && steamLobbyId == lobby
      ensures lobbyConnectionState == (if steamInitialized then CONNECTING else FAILED)
      ensures call == (if steamInitialized then JoinLobby(lobby) else NoLobbyCall)
    {
      JoinFriendTriggered := true;
      steamLobbyId := lobby;
      call := JoinFriendLobby(steamInitialized);
    }

    /**
     * The registry part of ConnectToUnetServerForSteam: a new Steam
     * connection to the host, registered under the host's id, wrapped in a
     * new client with the Connect handler registered.
     */
    method ConnectToUnetServerForSteam(hostSteamId: SteamId)
      requires Valid()
      modifies this`steamIdUnetConnectionMap, this`myClient, this`connectionsCreated
      ensures Valid()
      ensures var conn := SteamNetworkConnection(hostSteamId, old(connectionsCreated));
        && steamIdUnetConnectionMap == old(steamIdUnetConnectionMap)[hostSteamId := conn]
        && myClient == Some(NetworkClient(conn, true))
        && connectionsCreated == old(connectionsCreated) + 1
    {
      var conn := SteamNetworkConnection(hostSteamId, connectionsCreated);
      RegisterFresh(steamIdUnetConnectionMap, connectionsCreated, hostSteamId, conn);
      connectionsCreated := connectionsCreated + 1;
      steamIdUnetConnectionMap := steamIdUnetConnectionMap[hostSteamId := conn];
      myClient := Some(NetworkClient(conn, true));
    }

    /**
     * OnConnect, dispatched by UNET only while the Connect handler is
     * registered: it unregisters the handler, so it cannot run again for
     * this client, and when the client's connection is a Steam connection
     * it sends the spawn request carrying the local Steam id as text.
     */
    method OnConnect(selfId: SteamId) returns (sent: Option<NetworkMessage>)
      requires Valid()
      requires myClient.Some? && myClient.value.connectHandlerRegistered
      modifies this`myClient
      ensures Valid()
      ensures myClient == Some(old(myClient).value.(connectHandlerRegistered := false))
      ensures sent == if myClient.value.connection.SteamNetworkConnection?
                      then Some(NetworkMessage(SpawnMsg, FormatDecimal(selfId)))
                      else None
    {
      myClient := Some(myClient.value.(connectHandlerRegistered := false));
      sent := None;
      if myClient.value.connection.SteamNetworkConnection? {
        sent := Some(NetworkMessage(SpawnMsg, FormatDecimal(selfId)));
      }
    }
  }
}
