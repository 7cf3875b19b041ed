/** The sample policy that ships with the engine (main.go: reset every TCP
    flow whose payload carries the Host line of 192.168.1.1) and concrete
    frames run through the model. */
module Scenarios {
  import opened Wire
  import opened NetIP
  import opened Layers
  import opened Rst
  import opened Engine

  /** bytes.Contains: the needle occurs in the haystack. */
  predicate Contains(hay: Bytes, needle: Bytes)
    decreases |hay|
  {
    |needle| <= |hay| && (hay[..|needle|] == needle || Contains(hay[1..], needle))
  }

  /** The needle occurs in the haystack at position i. */
  predicate OccursAt(hay: Bytes, needle: Bytes, i: int)
  {
    0 <= i <= |hay| - |needle| && hay[i..i + |needle|] == needle
  }

  /** Contains holds exactly when the needle occurs somewhere in the
      haystack. */
  lemma {:induction false} ContainsIsSubslice(hay: Bytes, needle: Bytes)
    ensures Contains(hay, needle) <==> exists i :: OccursAt(hay, needle, i)
    decreases |hay|
  {
    if |needle| <= |hay| {
      if hay[..|needle|] == needle {
        assert OccursAt(hay, needle, 0);
      } else {
        ContainsIsSubslice(hay[1..], needle);
        if i :| OccursAt(hay, needle, i) {
          assert i != 0;
          assert hay[1..][i - 1..i - 1 + |needle|] == hay[i..i + |needle|];
          assert OccursAt(hay[1..], needle, i - 1);
        }
        if j :| OccursAt(hay[1..], needle, j) {
          assert hay[j + 1..j + 1 + |needle|] == hay[1..][j..j + |needle|];
          assert OccursAt(hay, needle, j + 1);
        }
      }
    } else {
      if i :| OccursAt(hay, needle, i) {
        assert false;
      }
    }
  }

  /** "\r\nHost: 192.168.1.1\r\n" in ASCII. */
  const HostLine: Bytes :=
    [13, 10, 72, 111, 115, 116, 58, 32, 49, 57, 50, 46, 49, 54, 56, 46, 49, 46, 49, 13, 10]

  /** The sample TCP handler: reset when the payload carries the Host line. */
  function HostMatch(src: IP, dst: IP, payload: Bytes): bool
  {
    Contains(payload, HostLine)
  }

  const SampleEngine: TrafficEngine := TrafficEngine([HostMatch], [], [])

  const MacA: MAC := [2, 0, 0, 0, 0, 1]
  const MacB: MAC := [2, 0, 0, 0, 0, 2]
  const AddrA: IP := [192, 168, 1, 10]
  const AddrB: IP := [192, 168, 1, 1]
  const AddrC: IP := [192, 168, 1, 11]
  const AddrD: IP := [10, 0, 0, 1]

  const RequestTcp: TCP := TCP(40000, 80, 1000, 5000, {PSH, ACK}, 512, HostLine)
  const SynTcp: TCP := TCP(40001, 443, 77, 0, {SYN}, 512, [])

  /** An HTTP request to 192.168.1.1 carrying the Host line. */
  const Request: seq<Layer> :=
    [EthernetLayer(Ethernet(MacA, MacB, EtherTypeIPv4)),
     IPv4Layer(IPv4(4, 7, 64, IPProtocolTCP, AddrA, AddrB)),
     TCPLayer(RequestTcp),
     PayloadLayer(HostLine)]

  /** A connection opening on another flow: a TCP segment without data, so
      the parser stops after the TCP layer. */
  const Syn: seq<Layer> :=
    [EthernetLayer(Ethernet(MacA, MacB, EtherTypeIPv4)),
     IPv4Layer(IPv4(4, 9, 64, IPProtocolTCP, AddrC, AddrD)),
     TCPLayer(SynTcp)]

  lemma DecodeThree(b: DecodeBuffers, x: Layer, y: Layer, z: Layer)
    ensures Decode(b, [x, y, z]) == Store(Store(Store(b, x), y), z)
    ensures Kinds([x, y, z]) == [TypeOf(x), TypeOf(y), TypeOf(z)]
  {
    var d := [x, y, z];
    assert d[..2] == [x, y] && d[..2][..1] == [x] && d[..2][..1][..0] == [];
    assert Decode(b, d[..2][..1]) == Store(b, x);
    assert Decode(b, d[..2]) == Store(Store(b, x), y);
  }

  lemma FoldThree(b: DecodeBuffers, p: LayerType, q: LayerType, r: LayerType)
    ensures Fold(b, [p, q, r]) == FoldStep(FoldStep(FoldStep(ZeroView, b, p), b, q), b, r)
  {
    var ks := [p, q, r];
    assert ks[..2] == [p, q] && ks[..2][..1] == [p] && ks[..2][..1][..0] == [];
    assert Fold(b, ks[..2][..1]) == FoldStep(ZeroView, b, p);
    assert Fold(b, ks[..2]) == FoldStep(FoldStep(ZeroView, b, p), b, q);
  }

  /** As written, a worker that has just handled the request hands the
      request's payload to the handlers for the payload-less Syn of another
      flow, so the sample policy forges a reset for that flow. */
  lemma StalePayloadReachesHandlers(serialize: Serializer)
    ensures var b1 := Decode(ZeroBuffers, Request);
      var b2 := Decode(b1, Syn);
      var o := Dispatch(SampleEngine, serialize, b2, Fold(b2, Kinds(Syn)));
      && FramePayload(Syn) == []
      && o.trace == [Call(TcpChain, 0, AddrC, AddrD, HostLine)]
      && var rst := serialize(RstHeaders(MacA, MacB, AddrC, AddrD, 64, 9, 0, SynTcp));
         o.out == (if rst.Some? then [rst.value] else [])
  {
    var b1 := Decode(ZeroBuffers, Request);
    assert Request == Request[..3] + [Request[3]];
    assert b1.payload == HostLine;
    DecodeThree(b1, Syn[0], Syn[1], Syn[2]);
    var b2 := Decode(b1, Syn);
    FoldThree(b2, EthernetType, IPv4Type, TCPType);
    assert Contains(HostLine, HostLine);
    assert FirstRst(SampleEngine.tcpHandlers, AddrC, AddrD, HostLine, 0) == Some(0);
    assert Kinds(Syn)[2] == TCPType;
    assert PayloadType !in Kinds(Syn);
  }

  /** With the payload buffer cleared per frame the same Syn reaches the
      handler with its own (empty) payload and nothing is sent. */
  lemma FreshPayloadSpareOtherFlows(serialize: Serializer)
    ensures var b1 := DecodeFresh(ZeroBuffers, Request);
      var b2 := DecodeFresh(b1, Syn);
      var o := Dispatch(SampleEngine, serialize, b2, Fold(b2, Kinds(Syn)));
      && o.trace == [Call(TcpChain, 0, AddrC, AddrD, [])]
      && o.out == []
  {
    var b1 := DecodeFresh(ZeroBuffers, Request);
    DecodeThree(b1.(payload := []), Syn[0], Syn[1], Syn[2]);
    var b2 := DecodeFresh(b1, Syn);
    FoldThree(b2, EthernetType, IPv4Type, TCPType);
    assert !Contains([], HostLine);
    assert FirstRst(SampleEngine.tcpHandlers, AddrC, AddrD, [], 0) == None;
  }

  function Never(src: IP, dst: IP, payload: Bytes): bool { false }
  function Always(src: IP, dst: IP, payload: Bytes): bool { true }

  /** Two TCP handlers, the first always declining and the second always
      asking for a reset: both run, in that order, and the frame sent is the
      serialized reset of that frame, or nothing when serialization fails. */
  lemma DeclineThenReset(serialize: Serializer, b: DecodeBuffers, v: View)
    requires v.src.Some? && v.dst.Some? && v.isTCP
    ensures var o := Dispatch(TrafficEngine([Never, Always], [], []), serialize, b, v);
      && o.trace == [Call(TcpChain, 0, v.src.value, v.dst.value, b.payload),
                     Call(TcpChain, 1, v.src.value, v.dst.value, b.payload)]
      && var rst := TcpRst(serialize, b.eth.srcMAC, b.eth.dstMAC, v.src.value, v.dst.value,
                           v.ttl, v.id, v.flowLabel, b.tcp);
         o.out == (if rst.Some? then [rst.value] else [])
  {
    var hs: seq<TcpHandler> := [Never, Always];
    assert !hs[0](v.src.value, v.dst.value, b.payload);
    assert FirstRst(hs, v.src.value, v.dst.value, b.payload, 0) == Some(1);
  }

  /** The request itself is reset by the sample policy with the IPv4 reset
      whose sequence number lies just past the request's payload. */
  lemma RequestIsReset(serialize: Serializer, b0: DecodeBuffers)
    ensures var b := Decode(b0, Request);
      var o := Dispatch(SampleEngine, serialize, b, Fold(b, Kinds(Request)));
      var f := RstHeaders(MacA, MacB, AddrA, AddrB, 64, 7, 0, RequestTcp);
      && o.trace == [Call(TcpChain, 0, AddrA, AddrB, HostLine)]
      && o.out == (if serialize(f).Some? then [serialize(f).value] else [])
      && f.net == V4(IPv4(4, 8, 64, IPProtocolTCP, AddrA, AddrB))
      && f.tcp == TCP(40000, 80, 1021, 5000, {RST}, 512, [])
  {
    var d := Request;
    assert d[..3] == [d[0], d[1], d[2]];
    DecodeThree(b0, d[0], d[1], d[2]);
    var b := Decode(b0, d);
    assert b == Store(Decode(b0, d[..3]), d[3]);
    var ks := Kinds(d);
    assert ks[..3] == Kinds(d[..3]);
    FoldThree(b, EthernetType, IPv4Type, TCPType);
    assert Fold(b, ks) == FoldStep(Fold(b, ks[..3]), b, PayloadType);
    assert Contains(HostLine, HostLine);
    assert To4(AddrA).Some?;
  }
}
