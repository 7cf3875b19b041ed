/** The protocol layers the worker's decoder recognises and the synthesizer
    emits, reduced to the fields the engine reads or writes. Field meanings
    follow the IPv4 header of RFC 791 section 3.1, the IPv6 header of
    RFC 8200 section 3 and the TCP header of RFC 793 section 3.1. */
module Layers {
  import opened Wire
  import opened NetIP

  /** Hardware (MAC) address. */
  type MAC = seq<uint8>

  const EtherTypeIPv4: uint16 := 0x0800
  const EtherTypeIPv6: uint16 := 0x86DD
  /** IP protocol number of TCP (IPv4 Protocol, IPv6 Next Header). */
  const IPProtocolTCP: uint8 := 6

  datatype Ethernet = Ethernet(srcMAC: MAC, dstMAC: MAC, etherType: uint16)

  datatype IPv4 = IPv4(version: uint8, id: uint16, ttl: uint8, protocol: uint8, src: IP, dst: IP)

  datatype IPv6 = IPv6(version: uint8, flowLabel: uint32, nextHeader: uint8, hopLimit: uint8, src: IP, dst: IP)

  /** TCP control bits. */
  datatype TcpFlag = FIN | SYN | RST | PSH | ACK | URG | ECE | CWR | NS

  /** A TCP header; `payload` is the segment data after the header. */
  datatype TCP = TCP(srcPort: uint16, dstPort: uint16, seqNum: uint32, ackNum: uint32,
                     flags: set<TcpFlag>, window: uint16, payload: Bytes)

  datatype UDP = UDP(srcPort: uint16, dstPort: uint16, payload: Bytes)

  /** One successfully decoded layer, with its parsed fields. */
  datatype Layer =
    | EthernetLayer(eth: Ethernet)
    | IPv4Layer(ip4: IPv4)
    | IPv6Layer(ip6: IPv6)
    | TCPLayer(tcp: TCP)
    | UDPLayer(udp: UDP)
    | PayloadLayer(data: Bytes)

  /** gopacket's layer type, the element of the parser's `decoded` list. */
  datatype LayerType = EthernetType | IPv4Type | IPv6Type | TCPType | UDPType | PayloadType

  function TypeOf(l: Layer): LayerType
  {
    match l
    case EthernetLayer(_) => EthernetType
    case IPv4Layer(_) => IPv4Type
    case IPv6Layer(_) => IPv6Type
    case TCPLayer(_) => TCPType
    case UDPLayer(_) => UDPType
    case PayloadLayer(_) => PayloadType
  }

  /** The list of layer types the parser reports for a decoded frame. */
  function Kinds(decoded: seq<Layer>): (ks: seq<LayerType>)
    ensures |ks| == |decoded|
    ensures forall i | 0 <= i < |decoded| :: ks[i] == TypeOf(decoded[i])
  {
    seq(|decoded|, i requires 0 <= i < |decoded| => TypeOf(decoded[i]))
  }
}
