# OpenGFW out-of-band traffic engine: per-frame worker step and forged TCP reset

This project models the per-frame logic of OpenGFW's out-of-band engine
(`oob/engine.go`) in Dafny and proves properties of it.

A worker takes one captured frame and looks at the layers the gopacket parser
decoded. It folds them into the frame's network identity: source and
destination address, TTL or hop limit, IPv4 identification, IPv6 flow label,
and whether TCP and UDP were seen. A frame without an IP address is dropped.
Otherwise the worker runs exactly one handler chain, in the order TCP, then
UDP, then generic IP. The TCP chain stops at the first handler that asks for a
reset. That triggers `tcpRST`, which builds Ethernet, IP and TCP headers from
the triggering frame and serializes them. The serialized frame, if there is
one, goes to the output queue.

Modules (one file each):

- `Wire` (wire.dfy): Go's `uint8`/`uint16`/`uint32` as bounded integers, with wrap-around written out; `Option`.
- `NetIP` (netip.dfy): `net.IP` as a byte sequence and `To4`, which accepts 4-byte addresses and IPv4-mapped IPv6 addresses.
- `Layers` (layers.dfy): the layer records the worker decodes and the synthesizer emits. Field meanings follow RFC 791 section 3.1, RFC 8200 section 3 and RFC 793 section 3.1. EtherTypes are 0x0800 and 0x86DD, and the TCP protocol number is 6.
- `Rst` (rst.dfy): `tcpRST`. `RstHeaders` derives the header records. `TcpRst` hands them to the serializer, a function parameter that returns the bytes or `None`.
- `Engine` (engine.dfy): the worker. `Decode` models the parser writing each decoded layer into the worker's reused buffer for that layer type. `Fold`/`Classify` model the loop over the decoded types. `Dispatch`/`RunHandlers` model the handler chains. `Worker` is a class whose fields are the worker's layer buffers, and `Worker.ProcessFrame` is the per-frame body.
- `Scenarios` (scenarios.dfy): the sample policy from `main.go` (reset a flow whose payload contains `\r\nHost: 192.168.1.1\r\n`) and concrete frames run through the model.

Handler invocations are recorded in a trace. A `Call` holds the chain, the
handler's index in its registry and the arguments it got. Frames sent to the
output queue are the `out` sequence.

Notes on the code as written:

- The reset's IP version comes from the source address (`To4`), not from the version of the triggering frame. An IPv6 frame whose source is an IPv4-mapped address gets an IPv4 reset, whose identification is 1 and whose TTL is the hop limit. The IPv4 serializer writes the 4-byte `To4` form of its addresses, so the reset carries the source as a plain IPv4 address.
- The reset sets only the RST control bit. The acknowledgment number is copied, but the ACK bit is not set.
- Source and destination are not swapped: the reset continues the original sender's stream.
- The fold overwrites rather than accumulates. When a frame decodes several IP layers (tunnelling), the addresses and TTL come from the last one. The identification and flow label come from the last IPv4 and the last IPv6 layer, whichever appears.

## Model

| member | source | states |
|---|---|---|
| `NetIP.To4Characterised` | oob/engine.go:126 | `To4` yields a value exactly for 4-byte addresses and IPv4-mapped 16-byte addresses, and that value is the last four bytes |
| `NetIP.To4RoundTrip` | oob/engine.go:126 | mapping an IPv4 address into IPv6 and applying `To4` gives it back; every 16-byte address `To4` accepts is the mapped form of its result |
| `Rst.RstHeaders` | oob/engine.go:119-167 | MACs and IP addresses copied unswapped; EtherType is IPv4 iff `To4(src)` succeeds, else IPv6; the network header matches the EtherType; IPv4 gets id+1 mod 2^16, the TTL and protocol TCP; IPv6 gets the flow label, hop limit and next header TCP; ports, ack and window copied; seq = seq + payload length mod 2^32; RST is the only flag; no payload |
| `Rst.TcpRst` | oob/engine.go:150-178 | `nil` exactly when serializing the derived headers fails; otherwise the bytes are the serialization of a frame with the original MACs and ports, RST as its only flag and no payload |
| `Rst.RstVersionFollowsSource` | oob/engine.go:126-141 | the reset is IPv4 exactly when the source is 4 bytes or IPv4-mapped, and IPv6 otherwise |
| `Rst.RstSeqIsNextSegment` | oob/engine.go:135 | the reset's sequence number lies exactly payload-length past the original's in 32-bit sequence space, and equals it iff that length is 0 mod 2^32 |
| `Rst.RstIdFollowsOriginal` | oob/engine.go:144 | an IPv4 reset's identification differs from the original's, is one more mod 2^16, and wraps to 0 exactly from 0xffff |
| `Engine.Decode` | oob/engine.go:59-70 | the buffers of layer types the frame did not decode keep what they held; the buffer of the last decoded layer's type holds that layer |
| `Engine.DecodeKeepsLast` | oob/engine.go:59-70 | after decoding, each layer buffer holds the frame's last layer of its type, or keeps its earlier content when the frame had none |
| `Engine.Fold` | oob/engine.go:71-87 | the addresses are set exactly when an IPv4 or IPv6 layer type was decoded, and source and destination are set together |
| `Engine.FoldCharacterised` | oob/engine.go:71-87 | the fold yields the addresses and TTL/hop limit of the last network layer (nil if none), the id and flow label of any IPv4/IPv6 layer (else 0), and isTCP/isUDP iff such a layer was decoded |
| `Engine.FoldAddresses` | oob/engine.go:78-81 | the addresses and TTL/hop limit come from the last IPv4 or IPv6 layer type in the list, and stay nil/0 when there is none |
| `Engine.FoldMarkers` | oob/engine.go:76-87 | id is set iff an IPv4 layer was decoded, flow label iff an IPv6 layer was, isTCP iff TCP, isUDP iff UDP |
| `Engine.FoldReadsDecodedOnly` | oob/engine.go:76-87 | the fold reads the IPv4 and IPv6 buffers only when that type was decoded: buffers that agree on them give the same view |
| `Engine.Classify` | oob/engine.go:71-87 | the loop computes the fold; an address is set iff an IPv4 or IPv6 layer was decoded; isTCP/isUDP iff TCP/UDP was decoded |
| `Engine.FirstRst` | oob/engine.go:93-95 | returns the first TCP handler that asks for a reset, with every earlier handler declining, or none when all decline |
| `Engine.Dispatch` | oob/engine.go:88-112 | a frame without addresses invokes nothing; every invocation is of the one chain picked TCP > UDP > IP and gets the frame's addresses and payload; at most one frame is sent, only by a TCP chain that ran |
| `Engine.RunHandlers` | oob/engine.go:88-112 | the dispatch loops, with the early exit, produce exactly the trace and output of the dispatch specification |
| `Engine.NonIpFrameIsDropped` | oob/engine.go:76-91 | a frame without IPv4 or IPv6 layers invokes no handler and sends nothing |
| `Engine.ExactlyOneChain` | oob/engine.go:92-112 | every invocation belongs to one chain: TCP if TCP was decoded, else UDP if UDP was, else IP; UDP and IP chains invoke every handler once in order and send nothing |
| `Engine.TcpChainShortCircuits` | oob/engine.go:93-103 | TCP handlers run in order; all but the last invoked declined; the chain stops early only on a reset request; a reset is requested iff the last invoked handler asked; at most one frame is sent, and one is sent iff a reset was requested and serialization succeeded |
| `Engine.Worker.constructor` | oob/engine.go:59-66 | a new worker's layer buffers hold Go's zero values |
| `Engine.Worker.ProcessFrame` | oob/engine.go:69-112 | the buffers are updated by the decode; trace and output are the dispatch of the folded view; a non-IP frame does nothing; at most one frame is sent |
| `Engine.DecodeFresh` | oob/engine.go:64-75 | with the payload buffer cleared per frame, the payload handed to handlers is the frame's own last Payload layer, or empty |
| `Engine.FreshDecodeIgnoresHistory` | oob/engine.go:64-75 | with the payload cleared per frame, two workers with any histories produce the same trace and output for the same parser-shaped frame |
| `Engine.RstClassifiesAsSameFlow` | oob/engine.go:119-176 | the forged reset has a frame exactly when its addresses can be written (`To4` for IPv4, 16 bytes for IPv6); decoded again, it classifies as TCP (not UDP) with the addresses as written (the 4-byte form in an IPv4 reset), the original TTL, MACs and ports, the RST flag and no payload |
| `Scenarios.ContainsIsSubslice` | main.go:42-44 | `bytes.Contains` holds iff the needle occurs as a contiguous slice |
| `Scenarios.StalePayloadReachesHandlers` | oob/engine.go:64-94 | as written, a payload-less TCP frame after a matching request is handed the request's payload, and the frame sent is the serialized reset of its own flow, or nothing when serialization fails |
| `Scenarios.FreshPayloadSpareOtherFlows` | oob/engine.go:71-94 | with the payload cleared per frame, that frame reaches the handler with an empty payload and nothing is sent |
| `Scenarios.DeclineThenReset` | oob/engine.go:93-103 | handlers [declines, resets]: both run in order, and the frame sent is the serialized reset of that frame, or nothing when serialization fails |
| `Scenarios.RequestIsReset` | oob/engine.go:92-144 | the sample policy resets the matching IPv4 request with id 8, seq 1000+21, ack, ports and window copied, and only RST set, and the frame sent is exactly that reset serialized, or nothing when serialization fails |

## Findings

| source | as written | input that shows it | evidently intended | confidence | as-written member | corrected member |
|---|---|---|---|---|---|---|
| oob/engine.go:64-94 | `payload` is a per-worker buffer. It is overwritten only when the parser decodes a Payload layer, yet every handler receives it for every frame. | The worker handles a TCP request carrying the Host line, then a payload-less TCP SYN of another flow. The SYN's handlers get the request's payload, so a reset is forged for the SYN's flow. A re-captured forged reset would be treated the same way. | Clear the payload per frame, as `src`, `dst`, `ttl`, `id`, `flowLabel`, `isTCP` and `isUDP` are (lines 71-75), so that handlers see only the frame's own payload. | medium: relies on the parser leaving buffers of undecoded layer types untouched; not executed | `Scenarios.StalePayloadReachesHandlers` | `Engine.DecodeFresh` |

`Engine.Worker.ProcessFrame` keeps the as-written decode because it models the
code. `Engine.FreshDecodeIgnoresHistory` proves the corrected decode's
property: what a frame causes depends on that frame alone.

## Left out

- The `RunEthernet` pipeline (oob/engine.go:30-56) is left out because it is concurrency: the worker pool sized by `runtime.NumCPU()`, the read and write channels and their backpressure, the writer goroutine and `stopChan`. The model covers one worker's step for one frame; `out` stands for what is sent on `writeChan`.
- The worker's outer `for`/`select` loop and its stop case (oob/engine.go:67-69, 113-115) are left out. One call of `Worker.ProcessFrame` is one iteration that received a frame.
- Byte-level decoding by `DecodeLayers` is left out: the decoded layer list is an input, and the parser's ignored error and truncation are not modelled.
- `gopacket.SerializeLayers` with `FixLengths` and `ComputeChecksums` is a `Serializer` parameter that may fail (`None`, Go's `nil`). Its lengths and checksums are not modelled. Its address conversion (`To4` for IPv4 headers, 16-byte addresses only for IPv6) is modelled only where the forged frame is decoded again (`Engine.RstLayers`); `TcpRst` leaves it to the parameter.
- Header fields the engine never sets are left out: Ethernet length, IPv4 TOS/flags/fragment offset/IHL/length/checksum, IPv6 traffic class and payload length, TCP data offset/checksum/urgent pointer/options. They are zero or computed by the serializer.
- UDP and IP handlers return nothing, and all handlers are treated as pure. The model records their invocations in the trace and does not call the UDP or IP handlers.
- `Bytes` does not tell a nil slice from an empty one. An address is `None` only when no network layer set it.
- The flow label is kept as Go's `uint32`, although the header field is 20 bits wide.
- `oob/http.go` (`HTTPInspector`, `HTTPPolicy`) is left out because it has no behaviour. `main.go`'s pcap device and process startup are left out because they are I/O; only its sample handler is modelled, in `Scenarios`.
