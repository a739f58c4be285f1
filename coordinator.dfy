/** The mesh coordinator of go/internal/mesh/coordinator.go. The package's
    global state (configuration, running flag, node identifier, directory of
    known peers, connection information) is the state of one `MeshNode`.
    Go's map iteration order is arbitrary; the loops over the directory pick
    each next key with `:|`, so every contract holds whatever the order.
    Network probes and connection attempts are parameters. */
module MeshCoordinator {
  import opened Common

  datatype Config = Config(
    nodeName: string,
    nodeId: string,
    listenPort: int,
    enableWiFiDirect: bool,
    enableBluetooth: bool,
    enableTcp: bool,
    enableRelay: bool,
    relayServers: seq<string>,
    dataDir: string)

  function ZeroConfig(): Config
  {
    Config("", "", 0, false, false, false, false, [], "")
  }

  const DefaultRelayServers: seq<string> := ["relay1.bitshare.net:9100", "relay2.bitshare.net:9100"]

  datatype NetworkMode = DirectMode | RelayMode | MixedMode

  /** The integer values of the `NetworkMode` constants. */
  function ModeCode(m: NetworkMode): (code: int)
    ensures 0 <= code <= 2
  {
    match m
    case DirectMode => 0
    case RelayMode => 1
    case MixedMode => 2
  }

  datatype ConnectionInfo = ConnectionInfo(
    mode: NetworkMode,
    clientIsolation: bool,
    natType: string,
    publicIp: string,
    relayAvailable: bool,
    lastConnectivityCheck: int)

  datatype Route = Route(destinationId: string, nextHop: string, hopCount: int, quality: int)

  datatype Peer = Peer(
    id: string,
    name: string,
    address: string,
    protocol: string,
    isOnline: bool,
    lastSeen: int,
    signalStrength: int,
    connectionQuality: string,
    routes: seq<Route>)

  /** What the network probes of `detectNetworkConditions` report: the public
      address ("" when it could not be found), whether clients are isolated
      from each other, the NAT type, and which relay servers answer. */
  datatype NetworkProbe = NetworkProbe(publicIp: string, isolated: bool, natType: string, relayReachable: string -> bool)

  /** How one connection attempt ends. */
  datatype Outcome = Succeeded | FailedWith(message: string)

  datatype Strategy = Direct | ViaWifiDirect | ViaRelay

  datatype MeshError =
    | AlreadyRunning
    | NotRunning
    | AmbiguousName(query: string)
    | NoSuchPeer(query: string)
    | DirectFailed(cause: string)
    | RelayFailed(cause: string)

  /** The network mode chosen from the isolation finding and the enabled
      transports. */
  function DecideMode(isolated: bool, enableRelay: bool, enableWiFiDirect: bool): (m: NetworkMode)
    ensures m == DirectMode <==> !isolated
    ensures m == MixedMode <==> isolated && !enableRelay && enableWiFiDirect
    ensures m == RelayMode <==> isolated && (enableRelay || !enableWiFiDirect)
  {
    if isolated then
      if enableRelay then RelayMode
      else if enableWiFiDirect then MixedMode
      else RelayMode
    else DirectMode
  }

  /** The node identifier generated from the nanosecond clock. */
  function GeneratedNodeId(nanos: nat): (id: string)
    ensures HasPrefix(id, "node-") && |id| > 5
  {
    "node-" + NatToHex(nanos)
  }

  /** The configuration a node actually runs with: a generated identifier if
      none was given, and the two default relays if relaying is on and no
      relay was given. */
  function EffectiveConfig(config: Config, nanos: nat): (c: Config)
    ensures c.nodeId != ""
    ensures config.nodeId != "" ==> c.nodeId == config.nodeId
    ensures c.enableRelay ==> |c.relayServers| > 0
    ensures |config.relayServers| > 0 || !config.enableRelay ==> c.relayServers == config.relayServers
    ensures c.(nodeId := config.nodeId, relayServers := config.relayServers) == config
  {
    var withId := if config.nodeId == "" then config.(nodeId := GeneratedNodeId(nanos)) else config;
    if withId.enableRelay && |withId.relayServers| == 0 then withId.(relayServers := DefaultRelayServers) else withId
  }

  /** The keys of `m` whose peer name folds to `query`. */
  function NameMatches(m: map<string, Peer>, query: string): set<string>
  {
    MatchesAmong(m, query, m.Keys)
  }

  /** The keys among `keys` whose peer in `m` has a name folding to
      `query`. */
  function MatchesAmong(m: map<string, Peer>, query: string, keys: set<string>): set<string>
  {
    set id | id in keys && id in m && EqualFold(m[id].name, query)
  }

  class MeshNode {
    var meshConfig: Config
    var isRunning: bool
    var nodeId: string
    var knownPeers: map<string, Peer>
    var connectionInfo: ConnectionInfo

    /** The zero state of the package's globals. */
    constructor ()
      ensures meshConfig == ZeroConfig() && !isRunning && nodeId == "" && knownPeers == map[]
      ensures connectionInfo == ConnectionInfo(DirectMode, false, "", "", false, 0)
    {
      meshConfig := ZeroConfig();
      isRunning := false;
      nodeId := "";
      knownPeers := map[];
      connectionInfo := ConnectionInfo(DirectMode, false, "", "", false, 0);
    }

    /** `detectNetworkConditions`: record the check time, the isolation
        finding and the NAT type, keep the old public address unless a new
        one was found, choose the mode, and ask the first relay server whether
        it answers only when relaying is on and a server is configured. */
    method DetectNetworkConditions(probe: NetworkProbe, now: int)
      modifies this
      ensures connectionInfo.lastConnectivityCheck == now
      ensures connectionInfo.publicIp == if probe.publicIp != "" then probe.publicIp else old(connectionInfo.publicIp)
      ensures connectionInfo.clientIsolation == probe.isolated && connectionInfo.natType == probe.natType
      ensures connectionInfo.mode == DecideMode(probe.isolated, meshConfig.enableRelay, meshConfig.enableWiFiDirect)
      ensures connectionInfo.relayAvailable ==
        if meshConfig.enableRelay && |meshConfig.relayServers| > 0
        then probe.relayReachable(meshConfig.relayServers[0])
        else old(connectionInfo.relayAvailable)
      ensures meshConfig == old(meshConfig) && isRunning == old(isRunning)
      ensures nodeId == old(nodeId) && knownPeers == old(knownPeers)
    {
      var info := connectionInfo.(lastConnectivityCheck := now);
      if probe.publicIp != "" {
        info := info.(publicIp := probe.publicIp);
      }
      info := info.(clientIsolation := probe.isolated, natType := probe.natType);
      info := info.(mode := DecideMode(probe.isolated, meshConfig.enableRelay, meshConfig.enableWiFiDirect));
      if meshConfig.enableRelay && |meshConfig.relayServers| > 0 {
        info := info.(relayAvailable := probe.relayReachable(meshConfig.relayServers[0]));
      }
      connectionInfo := info;
    }

    /** `StartMeshNode`: refused while running; otherwise adopt the effective
        configuration, probe the network and mark the node running. */
    method StartMeshNode(config: Config, nanos: nat, probe: NetworkProbe, now: int) returns (err: Option<MeshError>)
      modifies this
      ensures old(isRunning) ==> err == Some(AlreadyRunning)
      ensures old(isRunning) ==> meshConfig == old(meshConfig) && nodeId == old(nodeId)
      ensures old(isRunning) ==> connectionInfo == old(connectionInfo)
      ensures !old(isRunning) ==> err == None && meshConfig == EffectiveConfig(config, nanos)
      ensures !old(isRunning) ==> nodeId == meshConfig.nodeId && nodeId != ""
      ensures !old(isRunning) ==> connectionInfo.lastConnectivityCheck == now
      ensures !old(isRunning) ==> connectionInfo.mode == DecideMode(probe.isolated, config.enableRelay, config.enableWiFiDirect)
      ensures !old(isRunning) ==>
        connectionInfo.clientIsolation == probe.isolated && connectionInfo.natType == probe.natType
      ensures !old(isRunning) ==>
        connectionInfo.publicIp == if probe.publicIp != "" then probe.publicIp else old(connectionInfo.publicIp)
      ensures !old(isRunning) ==>
        connectionInfo.relayAvailable ==
          if meshConfig.enableRelay && |meshConfig.relayServers| > 0
          then probe.relayReachable(meshConfig.relayServers[0])
          else old(connectionInfo.relayAvailable)
      ensures isRunning && knownPeers == old(knownPeers)
    {
      if isRunning {
        return Some(AlreadyRunning);
      }
      meshConfig := EffectiveConfig(config, nanos);
      nodeId := meshConfig.nodeId;
      DetectNetworkConditions(probe, now);
      isRunning := true;
      err := None;
    }

    /** `StopMeshNode`: the node is stopped afterwards, whatever it was. */
    method StopMeshNode()
      modifies this
      ensures !isRunning
      ensures meshConfig == old(meshConfig) && nodeId == old(nodeId)
      ensures knownPeers == old(knownPeers) && connectionInfo == old(connectionInfo)
    {
      if !isRunning {
        return;
      }
      isRunning := false;
    }

    /** `GetKnownPeers`: one copy of every directory entry, in the map's
        order (`ids` is that order). */
    method GetKnownPeers() returns (peers: seq<Peer>, ghost ids: seq<string>, err: Option<MeshError>)
      ensures !isRunning ==> err == Some(NotRunning) && peers == []
      ensures isRunning ==> err == None
      ensures isRunning ==> |ids| == |peers| == |knownPeers| && forall id :: id in knownPeers <==> id in ids
      ensures isRunning ==> forall i :: 0 <= i < |ids| ==> ids[i] in knownPeers && peers[i] == knownPeers[ids[i]]
      ensures isRunning ==> forall i, j :: 0 <= i < j < |ids| ==> ids[i] != ids[j]
    {
      if !isRunning {
        return [], [], Some(NotRunning);
      }
      peers, ids := ListPeers(knownPeers);
      err := None;
    }

    /** `FindPeerByIdOrName`: refused while stopped; then an exact
        identifier, then an identifier equal up to case, then a peer named
        exactly so, then the only peer whose name folds to the query. */
    method FindPeerByIdOrName(query: string) returns (r: Result<Peer, MeshError>)
      ensures !isRunning ==> r == Err(NotRunning)
      ensures isRunning && query in knownPeers ==> r == Ok(knownPeers[query])
      ensures isRunning && query !in knownPeers && (exists id :: id in knownPeers && EqualFold(id, query)) ==>
        r.Ok? && exists id :: id in knownPeers && EqualFold(id, query) && r.value == knownPeers[id]
      ensures isRunning && (forall id :: id in knownPeers ==> !EqualFold(id, query)) ==>
        (exists id :: id in knownPeers && knownPeers[id].name == query) ==>
        r.Ok? && r.value.name == query && r.value in knownPeers.Values
      ensures isRunning && (forall id :: id in knownPeers ==> !EqualFold(id, query) && knownPeers[id].name != query) ==>
        && (|NameMatches(knownPeers, query)| == 1 ==> r.Ok? && exists id :: NameMatches(knownPeers, query) == {id} && r.value == knownPeers[id])
        && (|NameMatches(knownPeers, query)| > 1 ==> r == Err(AmbiguousName(query)))
        && (|NameMatches(knownPeers, query)| == 0 ==> r == Err(NoSuchPeer(query)))
      ensures r.Err? ==> r.error in {NotRunning, AmbiguousName(query), NoSuchPeer(query)}
    {
      if !isRunning {
        return Err(NotRunning);
      }
      if query in knownPeers {
        return Ok(knownPeers[query]);
      }
      var id := FindIdIgnoringCase(knownPeers, query);
      if id.Some? {
        return Ok(knownPeers[id.value]);
      }
      r := FindByName(knownPeers, query);
    }

    /** `ConnectToPeer`: resolve the peer, then try a direct connection, then
        WiFi Direct only when clients are isolated and WiFi Direct is on, then
        a relay when relaying is on. The first success ends the attempt. When
        all fail, the relay's error is returned if relaying is on, and
        otherwise the direct error, even when WiFi Direct was tried too. */
    method ConnectToPeer(query: string, direct: Outcome, wifiDirect: Outcome, relay: Outcome)
      returns (err: Option<MeshError>, attempts: seq<Strategy>)
      ensures !FindPeerResolves(query) ==> attempts == [] && err.Some?
      ensures !FindPeerResolves(query) ==> err.value in {NotRunning, AmbiguousName(query), NoSuchPeer(query)}
      ensures FindPeerResolves(query) ==>
        && attempts != [] && attempts[0] == Direct
        && (ViaWifiDirect in attempts <==>
              direct.FailedWith? && connectionInfo.clientIsolation && meshConfig.enableWiFiDirect)
        && (ViaRelay in attempts <==>
              direct.FailedWith? && !(connectionInfo.clientIsolation && meshConfig.enableWiFiDirect && wifiDirect == Succeeded)
              && meshConfig.enableRelay)
        && (err == None <==>
              direct == Succeeded
              || (connectionInfo.clientIsolation && meshConfig.enableWiFiDirect && wifiDirect == Succeeded)
              || (meshConfig.enableRelay && relay == Succeeded))
        && (err.Some? ==> err == if meshConfig.enableRelay then Some(RelayFailed(relay.message))
                                else Some(DirectFailed(direct.message)))
    {
      attempts := [];
      var resolved := FindPeerByIdOrName(query);
      if resolved.Err? {
        return Some(resolved.error), attempts;
      }
      attempts := [Direct];
      if direct == Succeeded {
        return None, attempts;
      }
      if connectionInfo.clientIsolation && meshConfig.enableWiFiDirect {
        attempts := attempts + [ViaWifiDirect];
        if wifiDirect == Succeeded {
          return None, attempts;
        }
      }
      if meshConfig.enableRelay {
        attempts := attempts + [ViaRelay];
        if relay == Succeeded {
          return None, attempts;
        }
        return Some(RelayFailed(relay.message)), attempts;
      }
      err := Some(DirectFailed(direct.message));
    }

    /** Whether `FindPeerByIdOrName` finds a peer for the query. */
    predicate FindPeerResolves(query: string)
      reads this
    {
      isRunning
      && (query in knownPeers
          || (exists id :: id in knownPeers && EqualFold(id, query))
          || (exists id :: id in knownPeers && knownPeers[id].name == query)
          || |NameMatches(knownPeers, query)| == 1)
    }
  }

  /** The loop of `GetKnownPeers`: every entry of the directory, once, in
      the map's order (`ids`). */
  method ListPeers(m: map<string, Peer>) returns (peers: seq<Peer>, ghost ids: seq<string>)
    ensures |ids| == |peers| == |m| && forall id :: id in m <==> id in ids
    ensures forall i :: 0 <= i < |ids| ==> ids[i] in m && peers[i] == m[ids[i]]
    ensures forall i, j :: 0 <= i < j < |ids| ==> ids[i] != ids[j]
    ensures |peers| == |m| && forall p :: p in peers <==> p in m.Values
  {
    peers, ids := [], [];
    var remaining := m.Keys;
    while remaining != {}
      invariant remaining <= m.Keys
      invariant forall id :: id in m ==> (id in ids <==> id !in remaining)
      invariant |ids| == |peers| && |ids| + |remaining| == |m|
      invariant forall i :: 0 <= i < |ids| ==> ids[i] in m && peers[i] == m[ids[i]]
      invariant forall i, j :: 0 <= i < j < |ids| ==> ids[i] != ids[j]
      decreases |remaining|
    {
      var id :| id in remaining;
      peers := peers + [m[id]];
      ids := ids + [id];
      remaining := remaining - {id};
    }
    ListedValues(m, peers, ids);
  }

  /** A listing that pairs every key with its peer holds exactly the map's
      peers. */
  lemma ListedValues(m: map<string, Peer>, peers: seq<Peer>, ids: seq<string>)
    requires |ids| == |peers| && forall id :: id in m <==> id in ids
    requires forall i :: 0 <= i < |ids| ==> ids[i] in m && peers[i] == m[ids[i]]
    ensures forall p :: p in peers <==> p in m.Values
  {
    forall p | p in m.Values
      ensures p in peers
    {
      var id :| id in m && m[id] == p;
      var i :| 0 <= i < |ids| && ids[i] == id;
      assert peers[i] == p;
    }
    forall p | p in peers
      ensures p in m.Values
    {
      var i :| 0 <= i < |peers| && peers[i] == p;
      assert m[ids[i]] == p;
    }
  }

  /** The second stage of `FindPeerByIdOrName`: some identifier equal to the
      query up to case, if there is one. */
  method FindIdIgnoringCase(m: map<string, Peer>, query: string) returns (found: Option<string>)
    ensures found.Some? ==> found.value in m && EqualFold(found.value, query)
    ensures found.None? ==> forall id :: id in m ==> !EqualFold(id, query)
  {
    var remaining := m.Keys;
    while remaining != {}
      invariant remaining <= m.Keys
      invariant forall id :: id in m && id !in remaining ==> !EqualFold(id, query)
      decreases |remaining|
    {
      var id :| id in remaining;
      if EqualFold(id, query) {
        return Some(id);
      }
      remaining := remaining - {id};
    }
    found := None;
  }

  /** The name stages of `FindPeerByIdOrName`: a peer named exactly as the
      query wins at once; otherwise the peers whose names fold to the query
      are counted, and only a single one is an answer. */
  method FindByName(m: map<string, Peer>, query: string) returns (r: Result<Peer, MeshError>)
    ensures (exists id :: id in m && m[id].name == query) ==>
      r.Ok? && r.value.name == query && r.value in m.Values
    ensures (forall id :: id in m ==> m[id].name != query) ==>
      && (|NameMatches(m, query)| == 1 ==> r.Ok? && exists id :: NameMatches(m, query) == {id} && r.value == m[id])
      && (|NameMatches(m, query)| > 1 ==> r == Err(AmbiguousName(query)))
      && (|NameMatches(m, query)| == 0 ==> r == Err(NoSuchPeer(query)))
  {
    var exact, matchCount, matchedPeer, matchedId := ScanNames(m, query);
    if exact.Some? {
      return Ok(exact.value);
    }
    if matchCount == 1 {
      SingletonSet(NameMatches(m, query), matchedId);
      return Ok(matchedPeer.value);
    } else if matchCount > 1 {
      return Err(AmbiguousName(query));
    }
    r := Err(NoSuchPeer(query));
  }

  /** The loop over the peers of `FindByName`: it stops at the first exact
      name, and otherwise counts the case-insensitive name matches,
      remembering the last one. */
  method ScanNames(m: map<string, Peer>, query: string)
    returns (exact: Option<Peer>, matchCount: nat, matchedPeer: Option<Peer>, ghost matchedId: string)
    ensures exact.Some? ==> exact.value.name == query && exact.value in m.Values
    ensures exact.None? ==> forall id :: id in m ==> m[id].name != query
    ensures exact.None? ==> matchCount == |NameMatches(m, query)|
    ensures exact.None? && matchCount > 0 ==> matchedId in NameMatches(m, query) && matchedPeer == Some(m[matchedId])
  {
    exact, matchCount, matchedPeer, matchedId := None, 0, None, "";
    ghost var done: set<string> := {};
    var remaining := m.Keys;
    ScanStart(m, query);
    while remaining != {}
      invariant Scanned(m, query, done, remaining, matchCount, matchedPeer, matchedId)
      decreases |remaining|
    {
      var id :| id in remaining;
      var peer := m[id];
      if peer.name == query {
        return Some(peer), matchCount, matchedPeer, matchedId;
      }
      if EqualFold(peer.name, query) {
        ScanHit(m, query, done, remaining, matchCount, matchedPeer, matchedId, id);
        matchedPeer := Some(peer);
        matchedId := id;
        matchCount := matchCount + 1;
      } else {
        ScanMiss(m, query, done, remaining, matchCount, matchedPeer, matchedId, id);
      }
      done := done + {id};
      remaining := remaining - {id};
    }
    ScanEnd(m, query, done, matchCount, matchedPeer, matchedId);
  }

  /** The state of `ScanNames` after visiting the keys `done` of `m`, with
      `remaining` still to visit: no visited peer has the exact name, and
      the count and the remembered peer describe the visited matches. */
  ghost predicate Scanned(m: map<string, Peer>, query: string, done: set<string>, remaining: set<string>,
                          count: nat, peer: Option<Peer>, id: string)
  {
    && done + remaining == m.Keys && done !! remaining
    && (forall k :: k in done ==> k in m && m[k].name != query)
    && count == |MatchesAmong(m, query, done)|
    && (count > 0 ==> id in MatchesAmong(m, query, done) && peer == Some(m[id]))
  }

  lemma ScanStart(m: map<string, Peer>, query: string)
    ensures Scanned(m, query, {}, m.Keys, 0, None, "")
  {
    assert MatchesAmong(m, query, {}) == {};
  }

  /** Visiting a key whose name folds to the query, but is not the query. */
  lemma ScanHit(m: map<string, Peer>, query: string, done: set<string>, remaining: set<string>,
                count: nat, peer: Option<Peer>, id: string, k: string)
    requires Scanned(m, query, done, remaining, count, peer, id)
    requires k in remaining && k in m && m[k].name != query && EqualFold(m[k].name, query)
    ensures Scanned(m, query, done + {k}, remaining - {k}, count + 1, Some(m[k]), k)
  {
    MatchesAmongAdd(m, query, done, k);
    VisitOne(m, done, remaining, k);
    assert k in MatchesAmong(m, query, done + {k});
  }

  /** Visiting a key whose name does not fold to the query. */
  lemma ScanMiss(m: map<string, Peer>, query: string, done: set<string>, remaining: set<string>,
                 count: nat, peer: Option<Peer>, id: string, k: string)
    requires Scanned(m, query, done, remaining, count, peer, id)
    requires k in remaining && k in m && !EqualFold(m[k].name, query)
    ensures Scanned(m, query, done + {k}, remaining - {k}, count, peer, id)
  {
    MatchesAmongAdd(m, query, done, k);
    VisitOne(m, done, remaining, k);
  }

  /** Moving one key from the unvisited to the visited keys keeps the two
      a partition of the map's keys. */
  lemma VisitOne(m: map<string, Peer>, done: set<string>, remaining: set<string>, k: string)
    requires done + remaining == m.Keys && done !! remaining && k in remaining
    ensures (done + {k}) + (remaining - {k}) == m.Keys && (done + {k}) !! (remaining - {k})
  {
  }

  lemma ScanEnd(m: map<string, Peer>, query: string, done: set<string>, count: nat, peer: Option<Peer>, id: string)
    requires Scanned(m, query, done, {}, count, peer, id)
    ensures forall k :: k in m ==> m[k].name != query
    ensures count == |NameMatches(m, query)|
    ensures count > 0 ==> id in NameMatches(m, query) && peer == Some(m[id])
  {
    assert done == m.Keys;
  }

  /** Looking at one more key adds it to the matches exactly when its name
      folds to the query. */
  lemma MatchesAmongAdd(m: map<string, Peer>, query: string, keys: set<string>, id: string)
    requires id !in keys && id in m
    ensures EqualFold(m[id].name, query) ==>
      MatchesAmong(m, query, keys + {id}) == MatchesAmong(m, query, keys) + {id}
      && |MatchesAmong(m, query, keys + {id})| == |MatchesAmong(m, query, keys)| + 1
    ensures !EqualFold(m[id].name, query) ==> MatchesAmong(m, query, keys + {id}) == MatchesAmong(m, query, keys)
  {
    var before := MatchesAmong(m, query, keys);
    var after := MatchesAmong(m, query, keys + {id});
    if EqualFold(m[id].name, query) {
      assert after == before + {id};
      assert id !in before;
    } else {
      assert after == before;
    }
  }

  lemma SingletonSet(s: set<string>, x: string)
    requires |s| == 1 && x in s
    ensures s == {x}
  {
    if y :| y in s && y != x {
      assert {x, y} <= s;
      assert |{x, y}| == 2;
      SubsetCard({x, y}, s);
      assert false;
    }
  }

  lemma SubsetCard(a: set<string>, b: set<string>)
    requires a <= b
    ensures |a| <= |b|
  {
    assert b == a + (b - a);
  }

  /** The mode table of `detectNetworkConditions`, row by row. */
  lemma ModeTable(enableRelay: bool, enableWiFiDirect: bool)
    ensures DecideMode(false, enableRelay, enableWiFiDirect) == DirectMode
    ensures DecideMode(true, true, enableWiFiDirect) == RelayMode
    ensures DecideMode(true, false, true) == MixedMode
    ensures DecideMode(true, false, false) == RelayMode
  {
  }
}
