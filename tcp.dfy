/** The TCP transport of go/internal/p2p/tcp.go: the length-prefixed frame
    format, the per-peer read loop that splits a byte stream into messages,
    the dispatch of one message, and the manager's running flag and table of
    connected peers. Sockets become explicit inputs: the bytes a peer sends
    are a sequence, and whether a listen, dial or write succeeds is a
    parameter. JSON decoding of a message's "type" field is the parameter
    `jsonType` (None when the message is not valid JSON). */
module TcpTransport {
  import opened Common

  /** `maxMessageSize`: 100 MiB. */
  const MaxMessageSize: int := 100 * 1024 * 1024
  const TwoTo32: int := 0x1_0000_0000
  const DefaultDiscoveryAddr: string := "255.255.255.255:9876"
  const DefaultListenPort: int := 9002
  const OpenBrace: byte := 123

  // -----------------------------------------------------------------------
  // Frames
  // -----------------------------------------------------------------------

  /** `binary.BigEndian.PutUint32`. */
  function EncodeUint32BE(n: nat): (b: seq<byte>)
    requires n < TwoTo32
    ensures |b| == 4
  {
    var q1 := n / 256;
    var q2 := q1 / 256;
    var q3 := q2 / 256;
    [q3 as byte, (q2 % 256) as byte, (q1 % 256) as byte, (n % 256) as byte]
  }

  /** `binary.BigEndian.Uint32`. */
  function DecodeUint32BE(b: seq<byte>): (n: nat)
    requires |b| == 4
    ensures n < TwoTo32
  {
    ((b[0] as int * 256 + b[1] as int) * 256 + b[2] as int) * 256 + b[3] as int
  }

  lemma DecodeEncode(n: nat)
    requires n < TwoTo32
    ensures DecodeUint32BE(EncodeUint32BE(n)) == n
  {
    var q1 := n / 256;
    var q2 := q1 / 256;
    assert n == q1 * 256 + n % 256;
    assert q1 == q2 * 256 + q1 % 256;
    assert q2 == (q2 / 256) * 256 + q2 % 256;
  }

  lemma EncodeDecode(b: seq<byte>)
    requires |b| == 4
    ensures EncodeUint32BE(DecodeUint32BE(b)) == b
  {
    var n := DecodeUint32BE(b);
    var q2 := b[0] as int * 256 + b[1] as int;
    var q1 := q2 * 256 + b[2] as int;
    assert n == q1 * 256 + b[3] as int;
    assert n / 256 == q1 && n % 256 == b[3] as int;
    assert q1 / 256 == q2 && q1 % 256 == b[2] as int;
    assert q2 / 256 == b[0] as int && q2 % 256 == b[1] as int;
  }

  /** `packMessage`: the length of `data`, truncated to 32 bits, in four
      big-endian bytes, followed by `data`. */
  function PackMessage(data: seq<byte>): (frame: seq<byte>)
    ensures |frame| == 4 + |data| && frame[4..] == data
    ensures frame[..4] == EncodeUint32BE(|data| % TwoTo32)
  {
    EncodeUint32BE(|data| % TwoTo32) + data
  }

  /** Reading the length back from a packed message gives the length of the
      payload, as long as that fits in 32 bits. */
  lemma PackMessageRoundTrip(data: seq<byte>)
    requires |data| < TwoTo32
    ensures DecodeUint32BE(PackMessage(data)[..4]) == |data|
    ensures PackMessage(data)[4..4 + |data|] == data
  {
    DecodeEncode(|data|);
  }

  /** How the read loop of a connection ends: the stream ran out where a
      length was expected, a length above the limit was announced, or the
      stream ran out inside a payload. */
  datatype LoopEnd = HeaderEnded | Oversized | PayloadCut

  /** The messages the read loop of `handlePeer` takes from `stream`, in
      order, and how the loop ends. A zero length is skipped. */
  function Frames(stream: seq<byte>): (seq<seq<byte>>, LoopEnd)
    decreases |stream|
  {
    if |stream| < 4 then ([], HeaderEnded)
    else
      var length := DecodeUint32BE(stream[..4]);
      if length == 0 then Frames(stream[4..])
      else if length > MaxMessageSize then ([], Oversized)
      else if |stream| - 4 < length then ([], PayloadCut)
      else
        var rest := Frames(stream[4 + length..]);
        ([stream[4..4 + length]] + rest.0, rest.1)
  }

  function ConcatFrames(msgs: seq<seq<byte>>): seq<byte>
  {
    if msgs == [] then [] else PackMessage(msgs[0]) + ConcatFrames(msgs[1..])
  }

  predicate ValidMessage(m: seq<byte>) { 0 < |m| <= MaxMessageSize }

  /** A stream of packed messages, each non-empty and within the limit, is
      read back as exactly those messages, and the loop ends at the end of the
      stream. */
  lemma {:induction false} FramesOfPackedMessages(msgs: seq<seq<byte>>, tail: seq<byte>)
    requires forall i :: 0 <= i < |msgs| ==> ValidMessage(msgs[i])
    requires |tail| < 4
    ensures Frames(ConcatFrames(msgs) + tail) == (msgs, HeaderEnded)
  {
    if msgs != [] {
      var m := msgs[0];
      var s := ConcatFrames(msgs) + tail;
      var rest := ConcatFrames(msgs[1..]) + tail;
      assert s == PackMessage(m) + rest;
      PackMessageRoundTrip(m);
      assert s[..4] == PackMessage(m)[..4];
      assert s[4..4 + |m|] == m;
      assert s[4 + |m|..] == rest;
      FramesOfPackedMessages(msgs[1..], tail);
      assert [m] + msgs[1..] == msgs;
    }
  }

  /** A frame announcing zero bytes is skipped and reading goes on. */
  lemma EmptyFrameSkipped(rest: seq<byte>)
    ensures Frames(PackMessage([]) + rest) == Frames(rest)
  {
    var s := PackMessage([]) + rest;
    assert s[..4] == EncodeUint32BE(0);
    assert s[4..] == rest;
  }

  /** A length above 100 MiB ends the connection, whatever follows it. */
  lemma OversizedFrameEndsLoop(length: nat, rest: seq<byte>)
    requires MaxMessageSize < length < TwoTo32
    ensures Frames(EncodeUint32BE(length) + rest) == ([], Oversized)
  {
    var s := EncodeUint32BE(length) + rest;
    assert s[..4] == EncodeUint32BE(length);
    DecodeEncode(length);
  }

  /** A payload cut short ends the loop without delivering it. */
  lemma ShortPayloadEndsLoop(m: seq<byte>, k: nat)
    requires ValidMessage(m) && k < |m|
    ensures Frames(PackMessage(m)[..4 + k]) == ([], PayloadCut)
  {
    var s := PackMessage(m)[..4 + k];
    PackMessageRoundTrip(m);
    assert s[..4] == PackMessage(m)[..4];
  }

  /** Every message the loop delivers is non-empty and within the limit. */
  lemma {:induction false} FramesAreValid(stream: seq<byte>)
    ensures forall i :: 0 <= i < |Frames(stream).0| ==> ValidMessage(Frames(stream).0[i])
    decreases |stream|
  {
    if |stream| >= 4 {
      var length := DecodeUint32BE(stream[..4]);
      if length == 0 {
        FramesAreValid(stream[4..]);
      } else if length <= MaxMessageSize && |stream| - 4 >= length {
        FramesAreValid(stream[4 + length..]);
      }
    }
  }

  // -----------------------------------------------------------------------
  // Dispatch of one message
  // -----------------------------------------------------------------------

  /** What `processMessage` does with a message. */
  datatype Dispatch = ReplyPong | Route(kind: string) | IgnoredJson | BinaryMessage

  /** `processMessage`: a message starting with '{' that decodes as JSON is
      dispatched on its type (PING is answered, DATA_TRANSFER and MESH_ROUTE
      are routed, anything else is dropped); every other message goes to the
      binary handler. */
  function ProcessMessage(message: seq<byte>, jsonType: seq<byte> -> Option<string>): Dispatch
  {
    if |message| > 0 && message[0] == OpenBrace && jsonType(message).Some? then
      var t := jsonType(message).value;
      if t == "PING" then ReplyPong
      else if t == "DATA_TRANSFER" || t == "MESH_ROUTE" then Route(t)
      else IgnoredJson
    else BinaryMessage
  }

  /** The dispatch table, case by case. */
  lemma ProcessMessageCases(message: seq<byte>, jsonType: seq<byte> -> Option<string>)
    ensures ProcessMessage(message, jsonType) == BinaryMessage <==>
      (|message| == 0 || message[0] != OpenBrace || jsonType(message).None?)
    ensures ProcessMessage(message, jsonType) == ReplyPong <==>
      (|message| > 0 && message[0] == OpenBrace && jsonType(message) == Some("PING"))
    ensures ProcessMessage(message, jsonType).Route? <==>
      (|message| > 0 && message[0] == OpenBrace
       && (jsonType(message) == Some("DATA_TRANSFER") || jsonType(message) == Some("MESH_ROUTE")))
    ensures ProcessMessage(message, jsonType).Route? ==>
      jsonType(message) == Some(ProcessMessage(message, jsonType).kind)
    ensures ProcessMessage(message, jsonType) == IgnoredJson <==>
      (|message| > 0 && message[0] == OpenBrace && jsonType(message).Some?
       && jsonType(message).value !in {"PING", "DATA_TRANSFER", "MESH_ROUTE"})
  {
  }

  const PongPrefix: string := "{\"type\":\"PONG\",\"time\":"

  /** The text of the answer to PING: the JSON object of type PONG with
      the Unix time in decimal. */
  function PongText(unixTime: int): string
  {
    PongPrefix + IntToDecimal(unixTime) + "}"
  }

  /** The body of the answer to PING, as bytes. */
  function PongBody(unixTime: int): (b: seq<byte>)
    ensures |b| > 0 && b[0] == OpenBrace
  {
    PongTextIsAscii(unixTime);
    AsciiBytes(PongText(unixTime))
  }

  lemma PongPrefixIsAscii()
    ensures IsAscii(PongPrefix) && |PongPrefix| > 0 && PongPrefix[0] as int == OpenBrace as int
  {
  }

  lemma PongTextIsAscii(unixTime: int)
    ensures IsAscii(PongText(unixTime)) && PongText(unixTime)[0] as int == OpenBrace as int
  {
    PongPrefixIsAscii();
    var p, d := PongPrefix, IntToDecimal(unixTime);
    var s := PongText(unixTime);
    forall i | 0 <= i < |s|
      ensures s[i] as int < 128
    {
      if i < |p| {
        assert s[i] == p[i];
      } else if i < |p| + |d| {
        assert s[i] == d[i - |p|];
      }
    }
  }

  /** The PONG frame carries its body behind the body's length. */
  lemma PongFrameRoundTrip(unixTime: int)
    requires |PongBody(unixTime)| < TwoTo32
    ensures var f := PackMessage(PongBody(unixTime));
      DecodeUint32BE(f[..4]) == |PongBody(unixTime)| && f[4..] == PongBody(unixTime)
  {
    PackMessageRoundTrip(PongBody(unixTime));
  }

  /** `isFatalError`: no processing error is fatal. */
  predicate IsFatalError(e: TcpError) { false }

  /** The frames written back for the first messages of a connection: one
      PONG frame per PING, stamped with the time it was answered. */
  function Replies(msgs: seq<seq<byte>>, jsonType: seq<byte> -> Option<string>, clock: nat -> int): seq<seq<byte>>
  {
    if msgs == [] then []
    else
      var k := |msgs| - 1;
      Replies(msgs[..k], jsonType, clock)
        + (if ProcessMessage(msgs[k], jsonType) == ReplyPong then [PackMessage(PongBody(clock(k)))] else [])
  }

  lemma RepliesSnoc(msgs: seq<seq<byte>>, m: seq<byte>, jsonType: seq<byte> -> Option<string>, clock: nat -> int)
    ensures Replies(msgs + [m], jsonType, clock) == Replies(msgs, jsonType, clock)
      + (if ProcessMessage(m, jsonType) == ReplyPong then [PackMessage(PongBody(clock(|msgs|)))] else [])
  {
    assert (msgs + [m])[..|msgs|] == msgs;
  }

  /** Replies answer PINGs only: there are never more replies than messages. */
  lemma {:induction false} RepliesBound(msgs: seq<seq<byte>>, jsonType: seq<byte> -> Option<string>, clock: nat -> int)
    ensures |Replies(msgs, jsonType, clock)| <= |msgs|
  {
    if msgs != [] {
      RepliesBound(msgs[..|msgs| - 1], jsonType, clock);
    }
  }

  /** The read loop of `handlePeer`: read frames from the peer's stream
      until it ends or announces an oversized message, and answer every PING.
      Errors from processing never end the loop. `clock(k)` is the Unix time
      at which message k is processed and `writeOk(k)` whether the answer to
      it could be written. */
  method ReadLoop(stream: seq<byte>, jsonType: seq<byte> -> Option<string>, clock: nat -> int, writeOk: nat -> bool)
    returns (processed: seq<seq<byte>>, replies: seq<seq<byte>>, end: LoopEnd)
    ensures (processed, end) == Frames(stream)
    ensures replies == Replies(processed, jsonType, clock)
  {
    processed, replies := [], [];
    var unread := stream;
    OutcomeStart(stream);
    while true
      invariant Outcome(processed, unread) == Frames(stream)
      invariant replies == Replies(processed, jsonType, clock)
      decreases |unread|
    {
      if |unread| < 4 {
        OutcomeEnd(processed, unread);
        end := HeaderEnded;
        break;
      }
      FrameStep(processed, unread);
      var length := DecodeUint32BE(unread[..4]);
      if length <= 0 || length > MaxMessageSize {
        if length > MaxMessageSize {
          end := Oversized;
          break;
        }
        unread := unread[4..];
        continue;
      }
      if |unread| - 4 < length {
        end := PayloadCut;
        break;
      }
      var message := unread[4..4 + length];
      var k := |processed|;
      RepliesSnoc(processed, message, jsonType, clock);
      processed := processed + [message];
      var reply, err := HandleMessage(message, k, jsonType, clock, writeOk);
      replies := replies + reply;
      unread := unread[4 + length..];
      if err.Some? && IsFatalError(err.value) {
        break;
      }
    }
  }

  /** What the read loop returns when `processed` have been handed on and
      `unread` is left. */
  function Outcome(processed: seq<seq<byte>>, unread: seq<byte>): (seq<seq<byte>>, LoopEnd)
  {
    (processed + Frames(unread).0, Frames(unread).1)
  }

  lemma OutcomeStart(stream: seq<byte>)
    ensures Outcome([], stream) == Frames(stream)
  {
    assert [] + Frames(stream).0 == Frames(stream).0;
  }

  lemma OutcomeEnd(processed: seq<seq<byte>>, unread: seq<byte>)
    requires |unread| < 4
    ensures Outcome(processed, unread) == (processed, HeaderEnded)
  {
    assert processed + [] == processed;
  }

  /** One turn of the read loop, as `Frames` sees it. */
  lemma FrameStep(processed: seq<seq<byte>>, u: seq<byte>)
    requires |u| >= 4
    ensures var length := DecodeUint32BE(u[..4]);
      && (length == 0 ==> Outcome(processed, u) == Outcome(processed, u[4..]))
      && (length > MaxMessageSize ==> Outcome(processed, u) == (processed, Oversized))
      && (0 < length <= MaxMessageSize && |u| - 4 < length ==> Outcome(processed, u) == (processed, PayloadCut))
      && (0 < length <= MaxMessageSize && length <= |u| - 4 ==>
            Outcome(processed, u) == Outcome(processed + [u[4..4 + length]], u[4 + length..]))
  {
    var length := DecodeUint32BE(u[..4]);
    assert processed + [] == processed;
    if 0 < length <= MaxMessageSize && length <= |u| - 4 {
      var rest := Frames(u[4 + length..]).0;
      assert processed + ([u[4..4 + length]] + rest) == (processed + [u[4..4 + length]]) + rest;
    }
  }

  /** `processMessage` for message `k` of a connection: a PING is answered
      with a PONG frame, and a failed write is reported as an error. */
  method HandleMessage(message: seq<byte>, k: nat, jsonType: seq<byte> -> Option<string>,
                       clock: nat -> int, writeOk: nat -> bool)
    returns (reply: seq<seq<byte>>, err: Option<TcpError>)
    ensures reply == (if ProcessMessage(message, jsonType) == ReplyPong then [PackMessage(PongBody(clock(k)))] else [])
    ensures err == None || err == Some(WriteFailed)
    ensures err == Some(WriteFailed) <==> ProcessMessage(message, jsonType) == ReplyPong && !writeOk(k)
  {
    reply, err := [], None;
    if ProcessMessage(message, jsonType) == ReplyPong {
      reply := [PackMessage(PongBody(clock(k)))];
      if !writeOk(k) {
        err := Some(WriteFailed);
      }
    }
  }

  // -----------------------------------------------------------------------
  // The manager
  // -----------------------------------------------------------------------

  datatype TcpError =
    | AlreadyRunning
    | ListenFailed(port: int)
    | DialFailed
    | PeerNotConnected(peerId: string)
    | WriteFailed

  /** A `TCPPeer`; `connOpen` is whether its connection is still open. */
  datatype TcpPeer = TcpPeer(id: string, name: string, address: string, connOpen: bool, lastSeen: int)

  /** The identifier `Connect` gives a dialled peer. */
  function DialedPeerId(address: string, port: int): string
  {
    "tcp-" + address + "-" + IntToDecimal(port)
  }

  class TcpManager {
    var isRunning: bool
    var listenerOpen: bool
    var connectedPeers: map<string, TcpPeer>
    var discoveryAddr: string
    var listenPort: int

    /** The singleton `GetTCPManager` creates. */
    constructor ()
      ensures !isRunning && !listenerOpen && connectedPeers == map[]
      ensures discoveryAddr == DefaultDiscoveryAddr && listenPort == DefaultListenPort
    {
      isRunning, listenerOpen := false, false;
      connectedPeers := map[];
      discoveryAddr, listenPort := DefaultDiscoveryAddr, DefaultListenPort;
    }

    /** `Start`. A positive port replaces the listen port before listening,
        and stays replaced even if listening then fails; the service runs
        only once listening succeeded. */
    method Start(port: int, listenOk: bool) returns (err: Option<TcpError>)
      modifies this
      ensures old(isRunning) ==> err == Some(AlreadyRunning) && isRunning
      ensures old(isRunning) ==> listenPort == old(listenPort) && listenerOpen == old(listenerOpen)
      ensures !old(isRunning) ==> listenPort == (if port > 0 then port else old(listenPort))
      ensures !old(isRunning) && !listenOk ==>
        err == Some(ListenFailed(listenPort)) && !isRunning && listenerOpen == old(listenerOpen)
      ensures !old(isRunning) && listenOk ==> err == None && isRunning && listenerOpen
      ensures connectedPeers == old(connectedPeers) && discoveryAddr == old(discoveryAddr)
    {
      if isRunning {
        return Some(AlreadyRunning);
      }
      if port > 0 {
        listenPort := port;
      }
      if !listenOk {
        return Some(ListenFailed(listenPort));
      }
      listenerOpen := true;
      isRunning := true;
      err := None;
    }

    /** `Stop`: closes the listener and every connection; the entries stay
        in the table until their read loops end. */
    method Stop() returns (err: Option<TcpError>)
      modifies this
      ensures err == None && !isRunning
      ensures !old(isRunning) ==> listenerOpen == old(listenerOpen) && connectedPeers == old(connectedPeers)
      ensures old(isRunning) ==> !listenerOpen && connectedPeers.Keys == old(connectedPeers).Keys
      ensures old(isRunning) ==>
        forall id :: id in connectedPeers ==> connectedPeers[id] == old(connectedPeers)[id].(connOpen := false)
      ensures listenPort == old(listenPort) && discoveryAddr == old(discoveryAddr)
    {
      if !isRunning {
        return None;
      }
      listenerOpen := false;
      connectedPeers := map id | id in connectedPeers :: connectedPeers[id].(connOpen := false);
      isRunning := false;
      err := None;
    }

    /** `Connect`: dial the peer and register it under "tcp-<addr>-<port>",
        replacing any entry of that name. The running flag is not checked. */
    method Connect(address: string, port: int, dialOk: bool, now: int) returns (err: Option<TcpError>)
      modifies this
      ensures !dialOk ==> err == Some(DialFailed) && connectedPeers == old(connectedPeers)
      ensures dialOk ==> err == None
      ensures dialOk ==>
        var id := DialedPeerId(address, port);
        connectedPeers == old(connectedPeers)[id := TcpPeer(id, "Peer-" + address, address, true, now)]
      ensures isRunning == old(isRunning) && listenerOpen == old(listenerOpen) && listenPort == old(listenPort)
    {
      if !dialOk {
        return Some(DialFailed);
      }
      var id := DialedPeerId(address, port);
      connectedPeers := connectedPeers[id := TcpPeer(id, "Peer-" + address, address, true, now)];
      err := None;
    }

    /** `SendData`: only a peer in the table can be written to. A write on
        a connection that `Stop` closed always fails; `writeOk` is whether a
        write on an open connection succeeds. */
    method SendData(peerId: string, data: seq<byte>, writeOk: bool) returns (err: Option<TcpError>)
      ensures peerId !in connectedPeers ==> err == Some(PeerNotConnected(peerId))
      ensures peerId in connectedPeers ==> (err == None <==> connectedPeers[peerId].connOpen && writeOk)
      ensures peerId in connectedPeers && !(connectedPeers[peerId].connOpen && writeOk) ==> err == Some(WriteFailed)
    {
      if peerId !in connectedPeers {
        return Some(PeerNotConnected(peerId));
      }
      var open := connectedPeers[peerId].connOpen;
      err := if open && writeOk then None else Some(WriteFailed);
    }

    /** `handlePeer`: run the read loop over the peer's stream, then remove
        the peer's entry from the table. */
    method HandlePeer(peerId: string, stream: seq<byte>, jsonType: seq<byte> -> Option<string>,
                      clock: nat -> int, writeOk: nat -> bool)
      returns (processed: seq<seq<byte>>, replies: seq<seq<byte>>, end: LoopEnd)
      modifies this
      ensures (processed, end) == Frames(stream)
      ensures replies == Replies(processed, jsonType, clock)
      ensures connectedPeers == old(connectedPeers) - {peerId}
      ensures isRunning == old(isRunning) && listenerOpen == old(listenerOpen) && listenPort == old(listenPort)
    {
      processed, replies, end := ReadLoop(stream, jsonType, clock, writeOk);
      connectedPeers := connectedPeers - {peerId};
    }

    /** `handleConnection`: an accepted connection is registered under
        "tcp-" and the hexadecimal nanosecond clock `nanos`, served by the
        frame loop, and removed when the loop ends. */
    method HandleConnection(remoteAddr: string, nanos: nat, stream: seq<byte>,
                            jsonType: seq<byte> -> Option<string>, clock: nat -> int, writeOk: nat -> bool)
      returns (id: string, processed: seq<seq<byte>>, end: LoopEnd)
      modifies this
      ensures id == "tcp-" + NatToHex(nanos)
      ensures (processed, end) == Frames(stream)
      ensures connectedPeers == old(connectedPeers) - {id}
      ensures isRunning == old(isRunning) && listenerOpen == old(listenerOpen) && listenPort == old(listenPort)
    {
      id := "tcp-" + NatToHex(nanos);
      connectedPeers := connectedPeers[id := TcpPeer(id, "Peer-" + remoteAddr, remoteAddr, true, nanos)];
      var replies;
      processed, replies, end := HandlePeer(id, stream, jsonType, clock, writeOk);
    }
  }

  /** Stopping the manager closes every connection, so a later send to a
      peer that was connected fails in the write. */
  method StopThenSend(m: TcpManager, peerId: string, data: seq<byte>, writeOk: bool) returns (err: Option<TcpError>)
    requires m.isRunning && peerId in m.connectedPeers
    modifies m
    ensures err == Some(WriteFailed)
  {
    var _ := m.Stop();
    err := m.SendData(peerId, data, writeOk);
  }
}
