/** The Bluetooth transport of go/internal/p2p/bluetooth.go: a running flag
    and a table of connected peers. The radio is a placeholder in the
    source: connecting only records the peer, and sending only checks that
    the peer is recorded. The support check and service initialisation are
    parameters. */
module Bluetooth {
  import opened Common
  import opened Discovery

  const ServiceName: string := "BitShare"
  const ServiceUuid: string := "94f39d29-7d6d-437d-973b-fba39e49d4ee"

  /** A `BluetoothPeer`. */
  datatype BluetoothPeer = BluetoothPeer(id: string, name: string, macAddress: string, lastSeen: int, rssi: int)

  datatype BluetoothError =
    | AlreadyRunning
    | SupportCheckFailed
    | NotSupported
    | InitFailed
    | NotRunning
    | PeerNotConnected(peerId: string)

  /** The identifier a peer is recorded under: "bt-" and its MAC address. */
  function PeerIdOf(macAddress: string): (id: string)
    ensures HasPrefix(id, "bt-") && id[3..] == macAddress
  {
    "bt-" + macAddress
  }

  /** Different MAC addresses are recorded under different identifiers. */
  lemma PeerIdInjective(a: string, b: string)
    requires PeerIdOf(a) == PeerIdOf(b)
    ensures a == b
  {
    assert a == PeerIdOf(a)[3..];
  }

  class BluetoothManager {
    var isRunning: bool
    var connectedPeers: map<string, BluetoothPeer>
    var serviceName: string
    var serviceUuid: string

    constructor ()
      ensures !isRunning && connectedPeers == map[] && serviceName == ServiceName && serviceUuid == ServiceUuid
    {
      isRunning := false;
      connectedPeers := map[];
      serviceName, serviceUuid := ServiceName, ServiceUuid;
    }

    /** `Start`. `support` is the answer of the support check (None when the
        check itself fails) and `initOk` whether the service initialised. */
    method Start(support: Option<bool>, initOk: bool) returns (err: Option<BluetoothError>)
      modifies this
      ensures old(isRunning) ==> err == Some(AlreadyRunning)
      ensures !old(isRunning) && support.None? ==> err == Some(SupportCheckFailed)
      ensures !old(isRunning) && support == Some(false) ==> err == Some(NotSupported)
      ensures !old(isRunning) && support == Some(true) && !initOk ==> err == Some(InitFailed)
      ensures err == None <==> !old(isRunning) && support == Some(true) && initOk
      ensures isRunning <==> old(isRunning) || err == None
      ensures connectedPeers == old(connectedPeers)
    {
      if isRunning {
        return Some(AlreadyRunning);
      }
      if support.None? {
        return Some(SupportCheckFailed);
      }
      if !support.value {
        return Some(NotSupported);
      }
      if !initOk {
        return Some(InitFailed);
      }
      isRunning := true;
      err := None;
    }

    /** `Stop`: clears the flag; the recorded peers stay in the table. */
    method Stop() returns (err: Option<BluetoothError>)
      modifies this
      ensures err == None && !isRunning && connectedPeers == old(connectedPeers)
    {
      if !isRunning {
        return None;
      }
      isRunning := false;
      err := None;
    }

    /** `Discover`: refused while the service is stopped; otherwise the one
        placeholder peer. */
    method Discover(timeoutNs: int, now: int) returns (peers: seq<PeerInfo>, err: Option<BluetoothError>)
      ensures !isRunning ==> err == Some(NotRunning) && peers == []
      ensures isRunning ==> err == None && |peers| == 1
      ensures isRunning ==> peers[0].id == "bt-abc123" && peers[0].signalStrength == 50
      ensures isRunning ==> peers[0].protocol == "bluetooth" && peers[0].lastSeen == now
    {
      if !isRunning {
        return [], Some(NotRunning);
      }
      peers := [PeerInfo("bt-abc123", "Phone-BT", "00:11:22:33:44:55", "bluetooth", 50, now, ["transfer"])];
      err := None;
    }

    /** `Connect`: record (or replace) the peer "bt-<mac>", whether or not
        the service runs. */
    method Connect(macAddress: string, now: int) returns (err: Option<BluetoothError>)
      modifies this
      ensures err == None && isRunning == old(isRunning)
      ensures connectedPeers == old(connectedPeers)[PeerIdOf(macAddress) :=
        BluetoothPeer(PeerIdOf(macAddress), "BT-Peer-" + macAddress, macAddress, now, -70)]
    {
      var id := PeerIdOf(macAddress);
      connectedPeers := connectedPeers[id := BluetoothPeer(id, "BT-Peer-" + macAddress, macAddress, now, -70)];
      err := None;
    }

    /** `SendData`: succeeds exactly for a recorded peer. */
    method SendData(peerId: string, data: seq<byte>) returns (err: Option<BluetoothError>)
      ensures peerId !in connectedPeers ==> err == Some(PeerNotConnected(peerId))
      ensures peerId in connectedPeers ==> err == None
    {
      if peerId !in connectedPeers {
        return Some(PeerNotConnected(peerId));
      }
      err := None;
    }
  }

  /** Once a MAC address is connected, sending to "bt-<mac>" succeeds. */
  method ConnectThenSend(m: BluetoothManager, macAddress: string, data: seq<byte>, now: int)
    returns (err: Option<BluetoothError>)
    modifies m
    ensures err == None
    ensures PeerIdOf(macAddress) in m.connectedPeers
  {
    var _ := m.Connect(macAddress, now);
    err := m.SendData(PeerIdOf(macAddress), data);
  }
}
