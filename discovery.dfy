/** Peer discovery of go/internal/p2p/discovery.go: one scan fans out to the
    enabled transports, collects whatever they report until every scanner
    has answered or the timer fires, and then merges previously seen peers
    from a cache without duplicating an identifier. Which scanner answers
    when is an input: `arrivals` lists, in order, the answers that arrive
    before the timer fires. */
module Discovery {
  import opened Common

  const NanosPerSecond: int := 1_000_000_000

  /** `PeerInfo`; `lastSeen` is a time in nanoseconds. */
  datatype PeerInfo = PeerInfo(
    id: string,
    name: string,
    address: string,
    protocol: string,
    signalStrength: int,
    lastSeen: int,
    capabilities: seq<string>)

  datatype ScanOptions = ScanOptions(
    timeoutNs: int,
    wifiDirect: bool,
    bluetooth: bool,
    tcp: bool,
    maxDistance: int,
    includeCache: bool)

  /** `DefaultScanOptions`: a 30 second timeout, every transport, distance
      100, and the cache included. */
  function DefaultScanOptions(): (o: ScanOptions)
    ensures o.timeoutNs == 30 * NanosPerSecond
    ensures o.wifiDirect && o.bluetooth && o.tcp && o.includeCache && o.maxDistance == 100
  {
    ScanOptions(30 * NanosPerSecond, true, true, true, 100, true)
  }

  /** What one scanner sends back: its peers, or an error message. */
  datatype Arrival = Found(peers: seq<PeerInfo>) | ScanFailed(message: string)

  /** The error returned when the timer fires first; it carries the scanner
      errors collected so far. */
  datatype ScanError = ScanTimeout(errors: seq<string>)

  /** The number of scanners a scan waits for. */
  function EnabledScanners(o: ScanOptions): (n: nat)
    ensures n <= 3
    ensures n == 0 <==> !o.wifiDirect && !o.bluetooth && !o.tcp
    ensures n == 3 <==> o.wifiDirect && o.bluetooth && o.tcp
  {
    (if o.wifiDirect then 1 else 0) + (if o.bluetooth then 1 else 0) + (if o.tcp then 1 else 0)
  }

  /** The peers of the given answers, concatenated in arrival order. */
  function Gathered(arrivals: seq<Arrival>): seq<PeerInfo>
  {
    if arrivals == [] then []
    else
      var last := arrivals[|arrivals| - 1];
      Gathered(arrivals[..|arrivals| - 1]) + (if last.Found? then last.peers else [])
  }

  /** The error messages of the given answers, in arrival order. */
  function Errors(arrivals: seq<Arrival>): seq<string>
  {
    if arrivals == [] then []
    else
      var last := arrivals[|arrivals| - 1];
      Errors(arrivals[..|arrivals| - 1]) + (if last.ScanFailed? then [last.message] else [])
  }

  /** Every live peer that a scanner reported is kept, without dropping or
      merging duplicates. */
  lemma {:induction false} GatheredLength(arrivals: seq<Arrival>)
    ensures |Gathered(arrivals)| == PeerCount(arrivals)
  {
    if arrivals != [] {
      GatheredLength(arrivals[..|arrivals| - 1]);
    }
  }

  function PeerCount(arrivals: seq<Arrival>): nat
  {
    if arrivals == [] then 0
    else
      var last := arrivals[|arrivals| - 1];
      PeerCount(arrivals[..|arrivals| - 1]) + (if last.Found? then |last.peers| else 0)
  }

  predicate HasId(peers: seq<PeerInfo>, id: string)
  {
    exists j :: 0 <= j < |peers| && peers[j].id == id
  }

  /** The cache merge: each cached peer, in order, is appended with signal 0
      unless a peer with its identifier is already in the list. */
  function MergeCache(results: seq<PeerInfo>, cached: seq<PeerInfo>): seq<PeerInfo>
    decreases |cached|
  {
    if cached == [] then results
    else
      var p := cached[0];
      MergeCache(if HasId(results, p.id) then results else results + [p.(signalStrength := 0)], cached[1..])
  }

  /** The outcome of a scan: the peers returned and the error returned. */
  function ScanOutcome(options: ScanOptions, arrivals: seq<Arrival>, cached: seq<PeerInfo>): (seq<PeerInfo>, Option<ScanError>)
  {
    var pending := EnabledScanners(options);
    if |arrivals| < pending then (Gathered(arrivals), Some(ScanTimeout(Errors(arrivals))))
    else
      var live := Gathered(arrivals[..pending]);
      (if options.includeCache then MergeCache(live, cached) else live, None)
  }

  /** `ScanForPeersWithOptions`. The loop takes one answer per pending
      scanner; if the answers run out first the timer has fired, and the peers
      gathered so far come back with a timeout error and without the cache.
      Otherwise scanner errors are only collected, the returned error is nil,
      and cached peers are merged in if asked for. */
  method ScanForPeersWithOptions(options: ScanOptions, arrivals: seq<Arrival>, cached: seq<PeerInfo>)
    returns (results: seq<PeerInfo>, err: Option<ScanError>)
    ensures (results, err) == ScanOutcome(options, arrivals, cached)
  {
    results := [];
    var errors: seq<string> := [];
    var activeScanners := 0;
    if options.wifiDirect {
      activeScanners := activeScanners + 1;
    }
    if options.bluetooth {
      activeScanners := activeScanners + 1;
    }
    if options.tcp {
      activeScanners := activeScanners + 1;
    }

    var i := 0;
    while activeScanners > 0
      invariant 0 <= i <= |arrivals| && i + activeScanners == EnabledScanners(options)
      invariant results == Gathered(arrivals[..i]) && errors == Errors(arrivals[..i])
    {
      if i == |arrivals| {
        assert arrivals[..i] == arrivals;
        return results, Some(ScanTimeout(errors));
      }
      assert arrivals[..i + 1][..i] == arrivals[..i];
      match arrivals[i] {
        case ScanFailed(message) =>
          errors := errors + [message];
        case Found(peers) =>
          results := results + peers;
      }
      activeScanners := activeScanners - 1;
      i := i + 1;
    }

    if options.includeCache {
      results := MergeCached(results, cached);
    }
    err := None;
  }

  /** The merge loop of `ScanForPeersWithOptions`: for each cached peer a
      linear search of the list for its identifier, then an append with
      signal 0 when none was found. */
  method MergeCached(live: seq<PeerInfo>, cached: seq<PeerInfo>) returns (results: seq<PeerInfo>)
    ensures results == MergeCache(live, cached)
  {
    results := live;
    var c := 0;
    while c < |cached|
      invariant 0 <= c <= |cached|
      invariant MergeCache(results, cached[c..]) == MergeCache(live, cached)
    {
      var peer := cached[c];
      var isDuplicate := false;
      var j := 0;
      while j < |results|
        invariant 0 <= j <= |results|
        invariant !isDuplicate
        invariant forall k :: 0 <= k < j ==> results[k].id != peer.id
      {
        if peer.id == results[j].id {
          isDuplicate := true;
          break;
        }
        j := j + 1;
      }
      assert isDuplicate <==> HasId(results, peer.id);
      assert cached[c..][1..] == cached[c + 1..];
      if !isDuplicate {
        results := results + [peer.(signalStrength := 0)];
      }
      c := c + 1;
    }
    assert cached[c..] == [];
  }

  // -----------------------------------------------------------------------
  // Properties of the merge
  // -----------------------------------------------------------------------

  /** The merge keeps the live results untouched at the front, and whatever
      it appends is a cached peer with signal 0 whose identifier was not yet
      in the list. */
  lemma {:induction false} MergeAppendsFreshCachedPeers(results: seq<PeerInfo>, cached: seq<PeerInfo>)
    ensures var m := MergeCache(results, cached);
      && |results| <= |m| <= |results| + |cached|
      && m[..|results|] == results
      && (forall k :: |results| <= k < |m| ==>
            m[k].signalStrength == 0 && !HasId(m[..k], m[k].id)
            && exists c :: 0 <= c < |cached| && m[k] == cached[c].(signalStrength := 0))
    decreases |cached|
  {
    if cached != [] {
      var p := cached[0];
      var next := if HasId(results, p.id) then results else results + [p.(signalStrength := 0)];
      MergeAppendsFreshCachedPeers(next, cached[1..]);
      var m := MergeCache(results, cached);
      assert m == MergeCache(next, cached[1..]);
      assert m[..|next|] == next;
      assert m[..|results|] == results by {
        assert next[..|results|] == results;
      }
      forall k | |results| <= k < |m|
        ensures m[k].signalStrength == 0 && !HasId(m[..k], m[k].id)
        ensures exists c :: 0 <= c < |cached| && m[k] == cached[c].(signalStrength := 0)
      {
        if k < |next| {
          assert k == |results| && m[k] == p.(signalStrength := 0);
          assert m[..k] == results;
          assert m[k] == cached[0].(signalStrength := 0);
        } else {
          var c' :| 0 <= c' < |cached[1..]| && m[k] == cached[1..][c'].(signalStrength := 0);
          assert m[k] == cached[c' + 1].(signalStrength := 0);
        }
      }
    }
  }

  /** After the merge, every cached identifier is present. */
  lemma {:induction false} MergeCoversCache(results: seq<PeerInfo>, cached: seq<PeerInfo>)
    ensures forall c :: 0 <= c < |cached| ==> HasId(MergeCache(results, cached), cached[c].id)
    decreases |cached|
  {
    if cached != [] {
      var p := cached[0];
      var next := if HasId(results, p.id) then results else results + [p.(signalStrength := 0)];
      MergeCoversCache(next, cached[1..]);
      MergeAppendsFreshCachedPeers(next, cached[1..]);
      var m := MergeCache(next, cached[1..]);
      assert HasId(next, p.id) by {
        if !HasId(results, p.id) {
          assert next[|results|].id == p.id;
        }
      }
      assert HasId(m, p.id) by {
        var j :| 0 <= j < |next| && next[j].id == p.id;
        assert m[..|next|][j] == m[j];
      }
      forall c | 0 <= c < |cached|
        ensures HasId(MergeCache(results, cached), cached[c].id)
      {
        if c > 0 {
          assert cached[c] == cached[1..][c - 1];
        }
      }
    }
  }

  /** If the live results hold no identifier twice, neither does the merge. */
  lemma MergeKeepsIdsUnique(results: seq<PeerInfo>, cached: seq<PeerInfo>)
    requires forall a, b :: 0 <= a < b < |results| ==> results[a].id != results[b].id
    ensures var m := MergeCache(results, cached);
      forall a, b :: 0 <= a < b < |m| ==> m[a].id != m[b].id
  {
    var m := MergeCache(results, cached);
    MergeAppendsFreshCachedPeers(results, cached);
    forall a, b | 0 <= a < b < |m|
      ensures m[a].id != m[b].id
    {
      if b >= |results| {
        assert m[..b][a] == m[a];
      } else {
        assert m[a] == results[a] && m[b] == results[b];
      }
    }
  }

  /** The timer firing skips the cache: the result is exactly what the
      scanners reported so far. */
  lemma TimeoutSkipsCache(options: ScanOptions, arrivals: seq<Arrival>, cached: seq<PeerInfo>)
    requires |arrivals| < EnabledScanners(options)
    ensures ScanOutcome(options, arrivals, cached).0 == Gathered(arrivals)
    ensures ScanOutcome(options, arrivals, cached).1 == Some(ScanTimeout(Errors(arrivals)))
  {
  }

  /** When every scanner answered, the error is nil even if some scanners
      failed, and the live peers come first, unchanged. */
  lemma CompletedScanHasNoError(options: ScanOptions, arrivals: seq<Arrival>, cached: seq<PeerInfo>)
    requires |arrivals| >= EnabledScanners(options)
    ensures ScanOutcome(options, arrivals, cached).1 == None
    ensures var live := Gathered(arrivals[..EnabledScanners(options)]);
      var out := ScanOutcome(options, arrivals, cached).0;
      |live| <= |out| && out[..|live|] == live
  {
    var live := Gathered(arrivals[..EnabledScanners(options)]);
    MergeAppendsFreshCachedPeers(live, cached);
  }
}
