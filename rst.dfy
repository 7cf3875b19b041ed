/** The forged TCP reset (oob/engine.go, tcpRST): header records derived from
    the triggering frame, then one serialization step that either yields the
    whole frame's bytes or fails. */
module Rst {
  import opened Wire
  import opened NetIP
  import opened Layers

  /** The network-layer header of the forged frame. */
  datatype Network = V4(ip4: IPv4) | V6(ip6: IPv6)

  /** The layers handed to the serializer, outermost first. */
  datatype Frame = Frame(eth: Ethernet, net: Network, tcp: TCP, payload: Bytes)

  /** gopacket.SerializeLayers with lengths and checksums computed fresh:
      the frame's bytes, or None when serialization reports an error. */
  type Serializer = Frame -> Option<Bytes>

  /** The headers of the forged RST: same link and network addresses as the
      triggering frame (not swapped), same IP version as the source address
      says, ports, acknowledgment number and window copied, sequence number
      advanced past the observed payload, RST the only control bit, no data. */
  function RstHeaders(srcMAC: MAC, dstMAC: MAC, src: IP, dst: IP, ttl: uint8, id: uint16,
                      flowLabel: uint32, tcp: TCP): (f: Frame)
    ensures f.eth.srcMAC == srcMAC && f.eth.dstMAC == dstMAC
    ensures f.eth.etherType == EtherTypeIPv4 <==> To4(src).Some?
    ensures f.eth.etherType == EtherTypeIPv6 <==> To4(src).None?
    ensures f.net.V4? <==> f.eth.etherType == EtherTypeIPv4
    ensures f.net.V6? <==> f.eth.etherType == EtherTypeIPv6
    ensures f.net.V4? ==> f.net.ip4 == IPv4(4, (id + 1) % 0x1_0000, ttl, IPProtocolTCP, src, dst)
    ensures f.net.V6? ==> f.net.ip6 == IPv6(6, flowLabel, IPProtocolTCP, ttl, src, dst)
    ensures f.tcp.srcPort == tcp.srcPort && f.tcp.dstPort == tcp.dstPort
    ensures f.tcp.seqNum == (tcp.seqNum + |tcp.payload|) % 0x1_0000_0000
    ensures f.tcp.ackNum == tcp.ackNum && f.tcp.window == tcp.window
    ensures f.tcp.flags == {RST} && f.tcp.payload == [] && f.payload == []
  {
    var eth := Ethernet(srcMAC, dstMAC, if To4(src).Some? then EtherTypeIPv4 else EtherTypeIPv6);
    var ntcp := TCP(tcp.srcPort, tcp.dstPort, Wrap32(tcp.seqNum + Wrap32(|tcp.payload|)),
                    tcp.ackNum, {RST}, tcp.window, []);
    if eth.etherType == EtherTypeIPv4 then
      Frame(eth, V4(IPv4(4, Wrap16(id + 1), ttl, IPProtocolTCP, src, dst)), ntcp, [])
    else
      Frame(eth, V6(IPv6(6, flowLabel, IPProtocolTCP, ttl, src, dst)), ntcp, [])
  }

  /** tcpRST: the serialized forged frame, or None (Go: nil) when
      serialization fails. */
  function TcpRst(serialize: Serializer, srcMAC: MAC, dstMAC: MAC, src: IP, dst: IP, ttl: uint8,
                  id: uint16, flowLabel: uint32, tcp: TCP): (r: Option<Bytes>)
    ensures r.None? <==> serialize(RstHeaders(srcMAC, dstMAC, src, dst, ttl, id, flowLabel, tcp)).None?
    ensures r.Some? ==>
      exists f: Frame ::
        && serialize(f) == r
        && f.eth.srcMAC == srcMAC && f.eth.dstMAC == dstMAC
        && f.tcp.srcPort == tcp.srcPort && f.tcp.dstPort == tcp.dstPort
        && f.tcp.flags == {RST} && f.payload == []
  {
    serialize(RstHeaders(srcMAC, dstMAC, src, dst, ttl, id, flowLabel, tcp))
  }

  /** The reset is an IPv4 frame exactly when the source address is a 4-byte
      address or an IPv4-mapped IPv6 address; every other source address
      gives an IPv6 frame. */
  lemma RstVersionFollowsSource(srcMAC: MAC, dstMAC: MAC, src: IP, dst: IP, ttl: uint8, id: uint16,
                                flowLabel: uint32, tcp: TCP)
    ensures var f := RstHeaders(srcMAC, dstMAC, src, dst, ttl, id, flowLabel, tcp);
      && (f.net.V4? <==> |src| == 4 || (|src| == 16 && src[..12] == V4InV6Prefix))
      && (f.net.V6? <==> !(|src| == 4 || (|src| == 16 && src[..12] == V4InV6Prefix)))
  {
    To4Characterised(src);
  }

  /** The reset's sequence number is the one the original sender's next
      segment would carry: it lies exactly |payload| past the original's
      in the 32-bit sequence space. */
  lemma RstSeqIsNextSegment(srcMAC: MAC, dstMAC: MAC, src: IP, dst: IP, ttl: uint8, id: uint16,
                            flowLabel: uint32, tcp: TCP)
    ensures var f := RstHeaders(srcMAC, dstMAC, src, dst, ttl, id, flowLabel, tcp);
      && (f.tcp.seqNum - tcp.seqNum) % 0x1_0000_0000 == |tcp.payload| % 0x1_0000_0000
      && (|tcp.payload| % 0x1_0000_0000 == 0 <==> f.tcp.seqNum == tcp.seqNum)
  {
    var f := RstHeaders(srcMAC, dstMAC, src, dst, ttl, id, flowLabel, tcp);
    var m := 0x1_0000_0000;
    var r := |tcp.payload| % m;
    assert f.tcp.seqNum == (tcp.seqNum + r) % m;
    if tcp.seqNum + r >= m {
      assert f.tcp.seqNum - tcp.seqNum == r - m;
    }
  }

  /** An IPv4 reset carries the identification that follows the original's:
      one more, wrapping from 0xffff to 0, so never the original's own. */
  lemma RstIdFollowsOriginal(srcMAC: MAC, dstMAC: MAC, src: IP, dst: IP, ttl: uint8, id: uint16,
                             flowLabel: uint32, tcp: TCP)
    ensures var f := RstHeaders(srcMAC, dstMAC, src, dst, ttl, id, flowLabel, tcp);
      f.net.V4? ==>
        && f.net.ip4.id != id
        && (f.net.ip4.id - id) % 0x1_0000 == 1
        && (id == 0xffff <==> f.net.ip4.id == 0)
  {
  }
}
