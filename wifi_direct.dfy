/** The WiFi Direct transport of go/internal/p2p/wifi_direct.go: a running
    flag, a listener, and a table of connected peers that a connection
    handler fills and empties. The platform support check, the listen call,
    reads and writes become parameters. */
module WifiDirect {
  import opened Common
  import opened Discovery

  datatype WifiDirectConfig = WifiDirectConfig(groupOwner: bool, serviceName: string, listenPort: int, maxConnections: int)

  /** The configuration `GetWiFiDirectManager` starts from. */
  function DefaultConfig(): (c: WifiDirectConfig)
    ensures c.groupOwner && c.serviceName == "BitShare" && c.listenPort == 9001 && c.maxConnections == 10
  {
    WifiDirectConfig(true, "BitShare", 9001, 10)
  }

  /** A `WiFiDirectPeer`; `connOpen` is whether its connection is open. */
  datatype WifiDirectPeer = WifiDirectPeer(id: string, name: string, address: string, connOpen: bool, lastSeen: int, signalDbm: int)

  datatype StartFailure = ListenFailed | ClientModeNotImplemented

  datatype WifiDirectError =
    | AlreadyRunning
    | SupportCheckFailed
    | NotSupported
    | StartFailed(cause: StartFailure)
    | PeerNotConnected(peerId: string)
    | WriteFailed

  /** The identifier an accepted connection gets: "wd-" and the hexadecimal
      nanosecond clock. */
  function AcceptedPeerId(nanos: nat): (id: string)
    ensures HasPrefix(id, "wd-") && |id| > 3
  {
    "wd-" + NatToHex(nanos)
  }

  class WifiDirectManager {
    var isRunning: bool
    var listenerOpen: bool
    var connectedPeers: map<string, WifiDirectPeer>
    var config: WifiDirectConfig

    constructor ()
      ensures !isRunning && !listenerOpen && connectedPeers == map[] && config == DefaultConfig()
    {
      isRunning, listenerOpen := false, false;
      connectedPeers := map[];
      config := DefaultConfig();
    }

    /** `Start`. `support` is the answer of the support check (None when the
        check itself fails). A group owner listens on its port; a client
        always fails, since joining a group is not implemented. */
    method Start(support: Option<bool>, listenOk: bool) returns (err: Option<WifiDirectError>)
      modifies this
      ensures old(isRunning) ==> err == Some(AlreadyRunning)
      ensures !old(isRunning) && support.None? ==> err == Some(SupportCheckFailed)
      ensures !old(isRunning) && support == Some(false) ==> err == Some(NotSupported)
      ensures !old(isRunning) && support == Some(true) && !config.groupOwner ==>
        err == Some(StartFailed(ClientModeNotImplemented))
      ensures !old(isRunning) && support == Some(true) && config.groupOwner && !listenOk ==>
        err == Some(StartFailed(ListenFailed))
      ensures isRunning <==> old(isRunning) || err == None
      ensures err == None <==> !old(isRunning) && support == Some(true) && config.groupOwner && listenOk
      ensures err == None ==> listenerOpen
      ensures err != None ==> listenerOpen == old(listenerOpen)
      ensures connectedPeers == old(connectedPeers) && config == old(config)
    {
      if isRunning {
        return Some(AlreadyRunning);
      }
      if support.None? {
        return Some(SupportCheckFailed);
      }
      if !support.value {
        return Some(NotSupported);
      }
      if config.groupOwner {
        if !listenOk {
          return Some(StartFailed(ListenFailed));
        }
        listenerOpen := true;
      } else {
        return Some(StartFailed(ClientModeNotImplemented));
      }
      isRunning := true;
      err := None;
    }

    /** `Stop`: close the listener and every connection. The entries stay in
        the table until their handlers end. */
    method Stop() returns (err: Option<WifiDirectError>)
      modifies this
      ensures err == None && !isRunning && config == old(config)
      ensures !old(isRunning) ==> listenerOpen == old(listenerOpen) && connectedPeers == old(connectedPeers)
      ensures old(isRunning) ==> !listenerOpen && connectedPeers.Keys == old(connectedPeers).Keys
      ensures old(isRunning) ==>
        forall id :: id in connectedPeers ==> connectedPeers[id] == old(connectedPeers)[id].(connOpen := false)
    {
      if !isRunning {
        return None;
      }
      listenerOpen := false;
      connectedPeers := map id | id in connectedPeers :: connectedPeers[id].(connOpen := false);
      isRunning := false;
      err := None;
    }

    /** `Discover`: the placeholder answer, the same two peers whatever the
        timeout and whether or not the service runs. */
    method Discover(timeoutNs: int, now: int) returns (peers: seq<PeerInfo>, err: Option<WifiDirectError>)
      ensures err == None && |peers| == 2
      ensures peers[0].id == "wd-device1" && peers[1].id == "wd-device2" && peers[0].id != peers[1].id
      ensures forall i :: 0 <= i < |peers| ==> 0 <= peers[i].signalStrength <= 100
      ensures forall i :: 0 <= i < |peers| ==> peers[i].protocol == "wifi-direct" && peers[i].lastSeen == now
    {
      peers := [
        PeerInfo("wd-device1", "Laptop-ABC", "192.168.49.10", "wifi-direct", 85, now, ["transfer", "mesh"]),
        PeerInfo("wd-device2", "Tablet-XYZ", "192.168.49.11", "wifi-direct", 70, now, ["transfer"])
      ];
      err := None;
    }

    /** `Connect`: a placeholder that accepts every peer identifier and
        changes nothing. */
    method Connect(peerId: string) returns (err: Option<WifiDirectError>)
      ensures err == None
    {
      err := None;
    }

    /** `SendData`: only a peer in the table can be written to. A write on
        a connection that `Stop` closed always fails; `writeOk` is whether a
        write on an open connection succeeds. */
    method SendData(peerId: string, data: seq<byte>, writeOk: bool) returns (err: Option<WifiDirectError>)
      ensures peerId !in connectedPeers ==> err == Some(PeerNotConnected(peerId))
      ensures peerId in connectedPeers ==> (err == None <==> connectedPeers[peerId].connOpen && writeOk)
      ensures peerId in connectedPeers && !(connectedPeers[peerId].connOpen && writeOk) ==> err == Some(WriteFailed)
    {
      if peerId !in connectedPeers {
        return Some(PeerNotConnected(peerId));
      }
      var open := connectedPeers[peerId].connOpen;
      err := if open && writeOk then None else Some(WriteFailed);
    }

    /** The bookkeeping step of the read loop: a peer's last-seen time moves
        forward only while its entry is still in the table. */
    method TouchPeer(id: string, now: int)
      modifies this
      ensures id in old(connectedPeers) ==> connectedPeers == old(connectedPeers)[id := old(connectedPeers)[id].(lastSeen := now)]
      ensures id !in old(connectedPeers) ==> connectedPeers == old(connectedPeers)
      ensures isRunning == old(isRunning) && listenerOpen == old(listenerOpen) && config == old(config)
    {
      if id in connectedPeers {
        connectedPeers := connectedPeers[id := connectedPeers[id].(lastSeen := now)];
      }
    }

    /** `handleConnection`: register the peer under an identifier made from
        the clock, keep its last-seen time current for every successful read
        (`readSizes` lists the byte counts of the reads before the failing one,
        `clock(k)` the time of read k), and remove its entry once a read
        fails. */
    method HandleConnection(remoteAddr: string, nanos: nat, readSizes: seq<nat>, clock: nat -> int)
      returns (id: string)
      modifies this
      ensures id == AcceptedPeerId(nanos)
      ensures connectedPeers == old(connectedPeers) - {id}
      ensures isRunning == old(isRunning) && listenerOpen == old(listenerOpen) && config == old(config)
    {
      id := AcceptedPeerId(nanos);
      var peer := WifiDirectPeer(id, "Peer-" + remoteAddr, remoteAddr, true, nanos, -50);
      connectedPeers := connectedPeers[id := peer];
      var k := 0;
      while k < |readSizes|
        invariant 0 <= k <= |readSizes|
        invariant id in connectedPeers && connectedPeers - {id} == old(connectedPeers) - {id}
        invariant isRunning == old(isRunning) && listenerOpen == old(listenerOpen) && config == old(config)
      {
        TouchPeer(id, clock(k));
        k := k + 1;
      }
      connectedPeers := connectedPeers - {id};
    }
  }

  /** Stopping the manager closes every connection, so a later send to a
      peer that was connected fails in the write. */
  method StopThenSend(m: WifiDirectManager, peerId: string, data: seq<byte>, writeOk: bool) returns (err: Option<WifiDirectError>)
    requires m.isRunning && peerId in m.connectedPeers
    modifies m
    ensures err == Some(WriteFailed)
  {
    var _ := m.Stop();
    err := m.SendData(peerId, data, writeOk);
  }
}
