/** The per-frame step of a traffic-engine worker (oob/engine.go, worker):
    the decoder's reused layer buffers, the fold of the decoded layer list
    into the frame's network identity, the choice of exactly one handler
    chain, and the short-circuiting TCP chain that may emit one forged RST. */
module Engine {
  import opened Wire
  import opened NetIP
  import opened Layers
  import opened Rst

  /** A TCP handler decides whether the flow is to be reset. */
  type TcpHandler = (IP, IP, Bytes) -> bool
  /** UDP and generic-IP handlers only observe: they return nothing. */
  type UdpHandler = (IP, IP, Bytes) -> ()
  type IpHandler = (IP, IP, Bytes) -> ()

  /** The handler registries, in registration order. */
  datatype TrafficEngine = TrafficEngine(tcpHandlers: seq<TcpHandler>,
                                         udpHandlers: seq<UdpHandler>,
                                         ipHandlers: seq<IpHandler>)

  datatype Chain = TcpChain | UdpChain | IpChain

  /** One handler invocation: which registry, which position in it, and the
      arguments it was given. */
  datatype Call = Call(chain: Chain, index: nat, src: IP, dst: IP, payload: Bytes)

  /** What one frame causes: the handler invocations in order, and the frames
      sent to the output queue. */
  datatype Outcome = Outcome(trace: seq<Call>, out: seq<Bytes>)

  // ---------------------------------------------------------------------
  // Decoding into reused buffers
  // ---------------------------------------------------------------------

  /** The decoder's layer buffers, one per layer type, owned by one worker and
      reused for every frame it handles. */
  datatype DecodeBuffers = DecodeBuffers(eth: Ethernet, ip4: IPv4, ip6: IPv6, tcp: TCP, udp: UDP,
                                         payload: Bytes)

  /** The buffers as Go zero-initialises them. */
  const ZeroBuffers: DecodeBuffers :=
    DecodeBuffers(Ethernet([], [], 0), IPv4(0, 0, 0, 0, [], []), IPv6(0, 0, 0, 0, [], []),
                  TCP(0, 0, 0, 0, {}, 0, []), UDP(0, 0, []), [])

  /** Decoding one layer overwrites the buffer of its type. */
  function Store(b: DecodeBuffers, l: Layer): DecodeBuffers
  {
    match l
    case EthernetLayer(x) => b.(eth := x)
    case IPv4Layer(x) => b.(ip4 := x)
    case IPv6Layer(x) => b.(ip6 := x)
    case TCPLayer(x) => b.(tcp := x)
    case UDPLayer(x) => b.(udp := x)
    case PayloadLayer(x) => b.(payload := x)
  }

  /** The content of the buffer for layer type k, as a layer. */
  function Slot(b: DecodeBuffers, k: LayerType): (l: Layer)
    ensures TypeOf(l) == k
  {
    match k
    case EthernetType => EthernetLayer(b.eth)
    case IPv4Type => IPv4Layer(b.ip4)
    case IPv6Type => IPv6Layer(b.ip6)
    case TCPType => TCPLayer(b.tcp)
    case UDPType => UDPLayer(b.udp)
    case PayloadType => PayloadLayer(b.payload)
  }

  /** The parser's effect on the buffers: every decoded layer, in order, is
      written into the buffer of its type; buffers of types not decoded keep
      whatever an earlier frame left in them. */
  function Decode(b: DecodeBuffers, decoded: seq<Layer>): (r: DecodeBuffers)
    ensures forall k | k !in Kinds(decoded) :: Slot(r, k) == Slot(b, k)
    ensures decoded != [] ==> Slot(r, TypeOf(decoded[|decoded| - 1])) == decoded[|decoded| - 1]
  {
    if decoded == [] then b
    else
      var init, last := decoded[..|decoded| - 1], decoded[|decoded| - 1];
      assert Kinds(decoded) == Kinds(init) + [TypeOf(last)];
      Store(Decode(b, init), last)
  }

  /** The last decoded layer of type k, if any. */
  function LastOf(decoded: seq<Layer>, k: LayerType): (r: Option<Layer>)
    ensures r.None? <==> k !in Kinds(decoded)
    ensures r.Some? ==> TypeOf(r.value) == k && r.value in decoded
    ensures r.Some? ==>
      exists i | 0 <= i < |decoded| ::
        && decoded[i] == r.value
        && forall j | i < j < |decoded| :: TypeOf(decoded[j]) != k
  {
    if decoded == [] then None
    else if TypeOf(decoded[|decoded| - 1]) == k then Some(decoded[|decoded| - 1])
    else
      var r := LastOf(decoded[..|decoded| - 1], k);
      assert Kinds(decoded) == Kinds(decoded[..|decoded| - 1]) + [TypeOf(decoded[|decoded| - 1])];
      r
  }

  /** After decoding, the buffer of each type holds the last layer of that
      type in the frame, or, when the frame had none, what it held before. */
  lemma {:induction false} DecodeKeepsLast(b: DecodeBuffers, decoded: seq<Layer>, k: LayerType)
    ensures Slot(Decode(b, decoded), k) == if LastOf(decoded, k).Some? then LastOf(decoded, k).value else Slot(b, k)
  {
    if decoded != [] {
      DecodeKeepsLast(b, decoded[..|decoded| - 1], k);
    }
  }

  // ---------------------------------------------------------------------
  // Classification: folding the decoded layer list
  // ---------------------------------------------------------------------

  /** The per-frame locals src, dst, ttl, id, flowLabel, isTCP and isUDP;
      None stands for a nil address. */
  datatype View = View(src: Option<IP>, dst: Option<IP>, ttl: uint8, id: uint16, flowLabel: uint32,
                       isTCP: bool, isUDP: bool)

  /** The locals as they are reset for every frame. */
  const ZeroView: View := View(None, None, 0, 0, 0, false, false)

  /** One iteration of the fold: the layer type says which buffer is read. */
  function FoldStep(v: View, b: DecodeBuffers, k: LayerType): View
  {
    match k
    case IPv4Type => v.(src := Some(b.ip4.src), dst := Some(b.ip4.dst), ttl := b.ip4.ttl, id := b.ip4.id)
    case IPv6Type => v.(src := Some(b.ip6.src), dst := Some(b.ip6.dst), ttl := b.ip6.hopLimit,
                        flowLabel := b.ip6.flowLabel)
    case TCPType => v.(isTCP := true)
    case UDPType => v.(isUDP := true)
    case _ => v
  }

  /** The locals after the loop over the decoded layer types. */
  function Fold(b: DecodeBuffers, ks: seq<LayerType>): (r: View)
    ensures r.src.Some? <==> IPv4Type in ks || IPv6Type in ks
    ensures r.dst.Some? <==> r.src.Some?
  {
    if ks == [] then ZeroView
    else
      var init, k := ks[..|ks| - 1], ks[|ks| - 1];
      assert ks == init + [k];
      FoldStep(Fold(b, init), b, k)
  }

  /** The last network-layer type in the list, if any. */
  function LastNetworkKind(ks: seq<LayerType>): (r: Option<LayerType>)
    ensures r.None? <==> IPv4Type !in ks && IPv6Type !in ks
    ensures r.Some? ==> (r.value == IPv4Type || r.value == IPv6Type) && r.value in ks
  {
    if ks == [] then None
    else if ks[|ks| - 1] == IPv4Type || ks[|ks| - 1] == IPv6Type then Some(ks[|ks| - 1])
    else
      var r := LastNetworkKind(ks[..|ks| - 1]);
      assert ks == ks[..|ks| - 1] + [ks[|ks| - 1]];
      r
  }

  /** The addresses and TTL the fold yields come from the last network
      layer, and stay nil when there is none. */
  lemma {:induction false} FoldAddresses(b: DecodeBuffers, ks: seq<LayerType>)
    ensures var v := Fold(b, ks);
      && (LastNetworkKind(ks).None? ==> v.src.None? && v.dst.None? && v.ttl == 0)
      && (LastNetworkKind(ks) == Some(IPv4Type) ==>
            v.src == Some(b.ip4.src) && v.dst == Some(b.ip4.dst) && v.ttl == b.ip4.ttl)
      && (LastNetworkKind(ks) == Some(IPv6Type) ==>
            v.src == Some(b.ip6.src) && v.dst == Some(b.ip6.dst) && v.ttl == b.ip6.hopLimit)
  {
    if ks != [] {
      var init, k := ks[..|ks| - 1], ks[|ks| - 1];
      FoldAddresses(b, init);
      assert ks == init + [k];
      assert Fold(b, ks) == FoldStep(Fold(b, init), b, k);
      assert LastNetworkKind(ks) == if k == IPv4Type || k == IPv6Type then Some(k) else LastNetworkKind(init);
    }
  }

  /** The identification, flow label and transport markers the fold yields:
      set by any layer of their type, zero or false otherwise. */
  lemma {:induction false} FoldMarkers(b: DecodeBuffers, ks: seq<LayerType>)
    ensures var v := Fold(b, ks);
      && v.id == (if IPv4Type in ks then b.ip4.id else 0)
      && v.flowLabel == (if IPv6Type in ks then b.ip6.flowLabel else 0)
      && (v.isTCP <==> TCPType in ks)
      && (v.isUDP <==> UDPType in ks)
  {
    if ks != [] {
      var init, k := ks[..|ks| - 1], ks[|ks| - 1];
      FoldMarkers(b, init);
      assert ks == init + [k];
      assert forall x :: x in ks <==> x in init || x == k;
      assert Fold(b, ks) == FoldStep(Fold(b, init), b, k);
    }
  }

  /** What the fold computes: the addresses and TTL of the last network layer
      (nil when there is none), the IPv4 identification and IPv6 flow label
      of any such layer (zero otherwise), and whether TCP and UDP layers
      were decoded. */
  lemma {:induction false} FoldCharacterised(b: DecodeBuffers, ks: seq<LayerType>)
    ensures var v := Fold(b, ks);
      && (LastNetworkKind(ks).None? ==> v.src.None? && v.dst.None? && v.ttl == 0)
      && (LastNetworkKind(ks) == Some(IPv4Type) ==>
            v.src == Some(b.ip4.src) && v.dst == Some(b.ip4.dst) && v.ttl == b.ip4.ttl)
      && (LastNetworkKind(ks) == Some(IPv6Type) ==>
            v.src == Some(b.ip6.src) && v.dst == Some(b.ip6.dst) && v.ttl == b.ip6.hopLimit)
      && v.id == (if IPv4Type in ks then b.ip4.id else 0)
      && v.flowLabel == (if IPv6Type in ks then b.ip6.flowLabel else 0)
      && (v.isTCP <==> TCPType in ks)
      && (v.isUDP <==> UDPType in ks)
  {
    FoldAddresses(b, ks);
    FoldMarkers(b, ks);
  }

  /** The classification loop over the decoded layer types. */
  method Classify(b: DecodeBuffers, ks: seq<LayerType>) returns (v: View)
    ensures v == Fold(b, ks)
    ensures v.src.Some? <==> IPv4Type in ks || IPv6Type in ks
    ensures v.dst.Some? <==> v.src.Some?
    ensures v.isTCP <==> TCPType in ks
    ensures v.isUDP <==> UDPType in ks
  {
    var src: Option<IP>, dst: Option<IP> := None, None;
    var ttl: uint8, id: uint16, flowLabel: uint32 := 0, 0, 0;
    var isTCP, isUDP := false, false;
    for i := 0 to |ks|
      invariant View(src, dst, ttl, id, flowLabel, isTCP, isUDP) == Fold(b, ks[..i])
    {
      assert ks[..i + 1][..i] == ks[..i];
      match ks[i]
      case IPv4Type =>
        src, dst, ttl, id := Some(b.ip4.src), Some(b.ip4.dst), b.ip4.ttl, b.ip4.id;
      case IPv6Type =>
        src, dst, ttl, flowLabel := Some(b.ip6.src), Some(b.ip6.dst), b.ip6.hopLimit, b.ip6.flowLabel;
      case TCPType =>
        isTCP := true;
      case UDPType =>
        isUDP := true;
      case _ =>
    }
    assert ks[..|ks|] == ks;
    v := View(src, dst, ttl, id, flowLabel, isTCP, isUDP);
    FoldCharacterised(b, ks);
  }

  // ---------------------------------------------------------------------
  // Handler dispatch
  // ---------------------------------------------------------------------

  /** The position of the first TCP handler, from position `from` on, that
      asks for a reset. */
  function FirstRst(hs: seq<TcpHandler>, src: IP, dst: IP, payload: Bytes, from: nat): (r: Option<nat>)
    requires from <= |hs|
    ensures r.Some? ==> from <= r.value < |hs| && hs[r.value](src, dst, payload)
    ensures r.Some? ==> forall j | from <= j < r.value :: !hs[j](src, dst, payload)
    ensures r.None? ==> forall j | from <= j < |hs| :: !hs[j](src, dst, payload)
    decreases |hs| - from
  {
    if from == |hs| then None
    else if hs[from](src, dst, payload) then Some(from)
    else FirstRst(hs, src, dst, payload, from + 1)
  }

  /** The invocations of the first n handlers of a chain, in order. */
  function Calls(chain: Chain, n: nat, src: IP, dst: IP, payload: Bytes): (cs: seq<Call>)
    ensures |cs| == n
    ensures forall i | 0 <= i < n :: cs[i] == Call(chain, i, src, dst, payload)
  {
    seq(n, i requires 0 <= i < n => Call(chain, i, src, dst, payload))
  }

  /** What one classified frame causes: nothing without a network address;
      otherwise the TCP chain (up to and including the first handler asking
      for a reset, then the serialized reset if serialization succeeds), else
      the whole UDP chain, else the whole generic-IP chain. */
  function Dispatch(e: TrafficEngine, serialize: Serializer, b: DecodeBuffers, v: View): (r: Outcome)
    ensures v.src.None? || v.dst.None? ==> r == Outcome([], [])
    ensures forall c | c in r.trace ::
      && c.chain == (if v.isTCP then TcpChain else if v.isUDP then UdpChain else IpChain)
      && Some(c.src) == v.src && Some(c.dst) == v.dst && c.payload == b.payload
    ensures |r.out| <= 1
    ensures r.out != [] ==> v.isTCP && r.trace != []
  {
    if v.src.None? || v.dst.None? then Outcome([], [])
    else
      var src, dst := v.src.value, v.dst.value;
      if v.isTCP then
        match FirstRst(e.tcpHandlers, src, dst, b.payload, 0)
        case None => Outcome(Calls(TcpChain, |e.tcpHandlers|, src, dst, b.payload), [])
        case Some(k) =>
          var rst := TcpRst(serialize, b.eth.srcMAC, b.eth.dstMAC, src, dst, v.ttl, v.id, v.flowLabel, b.tcp);
          Outcome(Calls(TcpChain, k + 1, src, dst, b.payload), if rst.Some? then [rst.value] else [])
      else if v.isUDP then Outcome(Calls(UdpChain, |e.udpHandlers|, src, dst, b.payload), [])
      else Outcome(Calls(IpChain, |e.ipHandlers|, src, dst, b.payload), [])
  }

  /** The dispatch code: the TCP loop with its early exit, or the UDP or IP
      observer loop. */
  method RunHandlers(e: TrafficEngine, serialize: Serializer, b: DecodeBuffers, v: View)
    returns (trace: seq<Call>, out: seq<Bytes>)
    ensures Outcome(trace, out) == Dispatch(e, serialize, b, v)
  {
    trace, out := [], [];
    if v.src.None? || v.dst.None? {
      return;
    }
    var src, dst := v.src.value, v.dst.value;
    if v.isTCP {
      var hs := e.tcpHandlers;
      var i := 0;
      while i < |hs|
        invariant 0 <= i <= |hs|
        invariant forall j | 0 <= j < i :: !hs[j](src, dst, b.payload)
        invariant trace == Calls(TcpChain, i, src, dst, b.payload)
        invariant out == []
      {
        trace := trace + [Call(TcpChain, i, src, dst, b.payload)];
        if hs[i](src, dst, b.payload) {
          var rst := TcpRst(serialize, b.eth.srcMAC, b.eth.dstMAC, src, dst, v.ttl, v.id, v.flowLabel, b.tcp);
          if rst.Some? {
            out := out + [rst.value];
          }
          assert FirstRst(hs, src, dst, b.payload, 0) == Some(i);
          return;
        }
        i := i + 1;
      }
    } else if v.isUDP {
      for i := 0 to |e.udpHandlers|
        invariant trace == Calls(UdpChain, i, src, dst, b.payload)
      {
        trace := trace + [Call(UdpChain, i, src, dst, b.payload)];
      }
    } else {
      for i := 0 to |e.ipHandlers|
        invariant trace == Calls(IpChain, i, src, dst, b.payload)
      {
        trace := trace + [Call(IpChain, i, src, dst, b.payload)];
      }
    }
  }

  /** A frame without an IPv4 or IPv6 layer invokes no handler of any kind
      and sends nothing, whatever the buffers held before. */
  lemma NonIpFrameIsDropped(e: TrafficEngine, serialize: Serializer, b0: DecodeBuffers, decoded: seq<Layer>)
    requires forall l | l in decoded :: !l.IPv4Layer? && !l.IPv6Layer?
    ensures var b := Decode(b0, decoded);
      Dispatch(e, serialize, b, Fold(b, Kinds(decoded))) == Outcome([], [])
  {
    FoldCharacterised(Decode(b0, decoded), Kinds(decoded));
  }

  /** For a frame with network addresses exactly one chain runs: TCP if a TCP
      layer was decoded, else UDP if a UDP layer was decoded, else generic IP.
      The UDP and IP chains invoke every handler once, in order, and never
      send anything. */
  lemma ExactlyOneChain(e: TrafficEngine, serialize: Serializer, b: DecodeBuffers, v: View)
    requires v.src.Some? && v.dst.Some?
    ensures var o := Dispatch(e, serialize, b, v);
      var chain := if v.isTCP then TcpChain else if v.isUDP then UdpChain else IpChain;
      forall c | c in o.trace :: c.chain == chain
    ensures var o := Dispatch(e, serialize, b, v);
      !v.isTCP ==>
        && o.out == []
        && |o.trace| == (if v.isUDP then |e.udpHandlers| else |e.ipHandlers|)
        && forall i | 0 <= i < |o.trace| ::
             o.trace[i] == Call(if v.isUDP then UdpChain else IpChain, i, v.src.value, v.dst.value, b.payload)
  {
    var o := Dispatch(e, serialize, b, v);
    var chain := if v.isTCP then TcpChain else if v.isUDP then UdpChain else IpChain;
    forall c | c in o.trace
      ensures c.chain == chain
    {
      var i :| 0 <= i < |o.trace| && o.trace[i] == c;
    }
  }

  /** The TCP chain runs in registration order and stops at the first handler
      asking for a reset: every invoked handler but the last declined, the
      chain ends early only because the last invoked handler asked for a
      reset, and some handler asks for a reset exactly when the last invoked
      one did. At most one frame is sent: the serialized reset, when some
      handler asked for it and serialization succeeded. */
  lemma TcpChainShortCircuits(e: TrafficEngine, serialize: Serializer, b: DecodeBuffers, v: View)
    requires v.src.Some? && v.dst.Some? && v.isTCP
    ensures var o := Dispatch(e, serialize, b, v);
      var hs, src, dst := e.tcpHandlers, v.src.value, v.dst.value;
      var rst := TcpRst(serialize, b.eth.srcMAC, b.eth.dstMAC, src, dst, v.ttl, v.id, v.flowLabel, b.tcp);
      && |o.trace| <= |hs|
      && (forall i | 0 <= i < |o.trace| :: o.trace[i] == Call(TcpChain, i, src, dst, b.payload))
      && (forall j | 0 <= j < |o.trace| - 1 :: !hs[j](src, dst, b.payload))
      && (|o.trace| < |hs| ==> 0 < |o.trace| && hs[|o.trace| - 1](src, dst, b.payload))
      && ((exists k | 0 <= k < |hs| :: hs[k](src, dst, b.payload)) <==>
            0 < |o.trace| && hs[|o.trace| - 1](src, dst, b.payload))
      && |o.out| <= 1
      && (o.out != [] <==> (exists k | 0 <= k < |hs| :: hs[k](src, dst, b.payload)) && rst.Some?)
      && (o.out != [] ==> o.out == [rst.value])
  {
  }

  // ---------------------------------------------------------------------
  // The worker
  // ---------------------------------------------------------------------

  /** One worker: its decode buffers live as long as the worker and are
      overwritten in place by every frame it decodes. */
  class Worker {
    var eth: Ethernet
    var ip4: IPv4
    var ip6: IPv6
    var tcp: TCP
    var udp: UDP
    var payload: Bytes

    function Buffers(): DecodeBuffers
      reads this
    {
      DecodeBuffers(eth, ip4, ip6, tcp, udp, payload)
    }

    constructor ()
      ensures Buffers() == ZeroBuffers
    {
      eth, ip4, ip6 := ZeroBuffers.eth, ZeroBuffers.ip4, ZeroBuffers.ip6;
      tcp, udp, payload := ZeroBuffers.tcp, ZeroBuffers.udp, ZeroBuffers.payload;
    }

    /** Handles one frame, given the layers the parser decoded from it:
        decode into the buffers, classify, dispatch. */
    method ProcessFrame(e: TrafficEngine, serialize: Serializer, decoded: seq<Layer>)
      returns (trace: seq<Call>, out: seq<Bytes>)
      modifies this
      ensures Buffers() == Decode(old(Buffers()), decoded)
      ensures Outcome(trace, out) == Dispatch(e, serialize, Buffers(), Fold(Buffers(), Kinds(decoded)))
      ensures (forall l | l in decoded :: !l.IPv4Layer? && !l.IPv6Layer?) ==> trace == [] && out == []
      ensures |out| <= 1
    {
      var b := Decode(Buffers(), decoded);
      eth, ip4, ip6, tcp, udp, payload := b.eth, b.ip4, b.ip6, b.tcp, b.udp, b.payload;
      var v := Classify(b, Kinds(decoded));
      trace, out := RunHandlers(e, serialize, b, v);
      if forall l | l in decoded :: !l.IPv4Layer? && !l.IPv6Layer? {
        NonIpFrameIsDropped(e, serialize, old(Buffers()), decoded);
      }
      if v.src.Some? && v.dst.Some? && v.isTCP {
        TcpChainShortCircuits(e, serialize, b, v);
      }
    }
  }

  // ---------------------------------------------------------------------
  // The payload buffer is not reset between frames
  // ---------------------------------------------------------------------

  /** The payload a frame itself carries: its last Payload layer, or none. */
  function FramePayload(decoded: seq<Layer>): Bytes
  {
    match LastOf(decoded, PayloadType)
    case Some(PayloadLayer(x)) => x
    case _ => []
  }

  /** A decoded layer list as the worker's parser produces it: decoding starts
      at the Ethernet layer, so a non-empty list begins with it. */
  predicate ParserShaped(decoded: seq<Layer>)
  {
    |decoded| > 0 ==> decoded[0].EthernetLayer?
  }

  /** Decoding with the payload buffer cleared first, as the other per-frame
      locals are. */
  function DecodeFresh(b: DecodeBuffers, decoded: seq<Layer>): (r: DecodeBuffers)
    ensures r.payload == FramePayload(decoded)
  {
    DecodeKeepsLast(b.(payload := []), decoded, PayloadType);
    Decode(b.(payload := []), decoded)
  }

  /** The fold reads a network-layer buffer only for a type that was
      decoded, so buffers that agree on those give the same view. */
  lemma {:induction false} FoldReadsDecodedOnly(b1: DecodeBuffers, b2: DecodeBuffers, ks: seq<LayerType>)
    requires IPv4Type in ks ==> b1.ip4 == b2.ip4
    requires IPv6Type in ks ==> b1.ip6 == b2.ip6
    ensures Fold(b1, ks) == Fold(b2, ks)
  {
    if ks != [] {
      var init := ks[..|ks| - 1];
      assert ks == init + [ks[|ks| - 1]];
      FoldReadsDecodedOnly(b1, b2, init);
    }
  }

  /** With the payload buffer cleared per frame, what a frame causes depends on
      that frame alone: two workers with different histories invoke the same
      handlers with the same arguments and send the same frames. */
  lemma FreshDecodeIgnoresHistory(e: TrafficEngine, serialize: Serializer, b1: DecodeBuffers,
                                  b2: DecodeBuffers, decoded: seq<Layer>)
    requires ParserShaped(decoded)
    ensures var x1, x2 := DecodeFresh(b1, decoded), DecodeFresh(b2, decoded);
      Dispatch(e, serialize, x1, Fold(x1, Kinds(decoded))) == Dispatch(e, serialize, x2, Fold(x2, Kinds(decoded)))
  {
    var x1, x2 := DecodeFresh(b1, decoded), DecodeFresh(b2, decoded);
    var ks := Kinds(decoded);
    forall k | k in ks
      ensures Slot(x1, k) == Slot(x2, k)
    {
      DecodeKeepsLast(b1.(payload := []), decoded, k);
      DecodeKeepsLast(b2.(payload := []), decoded, k);
    }
    if IPv4Type in ks {
      assert Slot(x1, IPv4Type) == Slot(x2, IPv4Type);
    }
    if IPv6Type in ks {
      assert Slot(x1, IPv6Type) == Slot(x2, IPv6Type);
    }
    FoldReadsDecodedOnly(x1, x2, ks);
    var v := Fold(x1, ks);
    FoldCharacterised(x1, ks);
    if v.src.Some? {
      assert ks[0] == EthernetType;
      assert Slot(x1, EthernetType) == Slot(x2, EthernetType);
    }
    if v.isTCP {
      assert Slot(x1, TCPType) == Slot(x2, TCPType);
    }
  }

  // ---------------------------------------------------------------------
  // The forged frame, seen by the decoder
  // ---------------------------------------------------------------------

  /** The address the serializer writes into an IP header: an IPv4 header
      holds the 4-byte To4 form, an IPv6 header only a 16-byte address; for
      any other address serialization fails (None). */
  function HeaderAddress(v4: bool, a: IP): (r: Option<IP>)
    ensures v4 ==> r == To4(a)
    ensures !v4 ==> (r.Some? <==> |a| == 16) && (r.Some? ==> r.value == a)
  {
    if v4 then To4(a) else if |a| == 16 then Some(a) else None
  }

  /** The layers a decoder finds in a serialized forged frame: Ethernet, the
      IP header with the addresses as serialized and the TCP header, and no
      payload layer; None when an address cannot be serialized. */
  function RstLayers(f: Frame): Option<seq<Layer>>
  {
    match f.net
    case V4(x) =>
      var s, d := HeaderAddress(true, x.src), HeaderAddress(true, x.dst);
      if s.Some? && d.Some? then Some([EthernetLayer(f.eth), IPv4Layer(x.(src := s.value, dst := d.value)), TCPLayer(f.tcp)])
      else None
    case V6(y) =>
      var s, d := HeaderAddress(false, y.src), HeaderAddress(false, y.dst);
      if s.Some? && d.Some? then Some([EthernetLayer(f.eth), IPv6Layer(y), TCPLayer(f.tcp)])
      else None
  }

  /** Decoded again, a forged reset classifies as a TCP frame of the same
      flow: the addresses as the serializer wrote them (the To4 form in an
      IPv4 reset, so an IPv4-mapped source comes back as 4 bytes), the same
      ports and MACs, and the TTL or hop limit of the original. A reset
      whose addresses cannot be written has no frame. */
  lemma RstClassifiesAsSameFlow(b0: DecodeBuffers, srcMAC: MAC, dstMAC: MAC, src: IP, dst: IP,
                                ttl: uint8, id: uint16, flowLabel: uint32, tcp: TCP)
    ensures var f := RstHeaders(srcMAC, dstMAC, src, dst, ttl, id, flowLabel, tcp);
      var v4 := f.net.V4?;
      var d := RstLayers(f);
      && (d.Some? <==> HeaderAddress(v4, src).Some? && HeaderAddress(v4, dst).Some?)
      && (d.Some? ==>
            var b := Decode(b0, d.value);
            var v := Fold(b, Kinds(d.value));
            && v.src == HeaderAddress(v4, src) && v.dst == HeaderAddress(v4, dst) && v.ttl == ttl
            && v.isTCP && !v.isUDP
            && b.eth.srcMAC == srcMAC && b.eth.dstMAC == dstMAC
            && b.tcp.srcPort == tcp.srcPort && b.tcp.dstPort == tcp.dstPort
            && b.tcp.flags == {RST} && |b.tcp.payload| == 0)
  {
    var f := RstHeaders(srcMAC, dstMAC, src, dst, ttl, id, flowLabel, tcp);
    if RstLayers(f).None? {
      return;
    }
    var d := RstLayers(f).value;
    assert d[..2] == [d[0], d[1]] && d[..2][..1] == [d[0]] && d[..2][..1][..0] == [];
    var ks := Kinds(d);
    assert ks[..2] == [ks[0], ks[1]] && ks[..2][..1] == [ks[0]] && ks[..2][..1][..0] == [];
    var b1 := Store(b0, d[0]);
    assert Decode(b0, d[..2][..1]) == b1;
    var b2 := Store(b1, d[1]);
    assert Decode(b0, d[..2]) == b2;
    var b := Store(b2, d[2]);
    assert Decode(b0, d) == b;
    assert b.eth == f.eth && b.tcp == f.tcp;
    var v1 := FoldStep(ZeroView, b, ks[0]);
    assert Fold(b, ks[..2][..1]) == v1;
    var v2 := FoldStep(v1, b, ks[1]);
    assert Fold(b, ks[..2]) == v2;
    assert Fold(b, ks) == FoldStep(v2, b, ks[2]);
  }
}
