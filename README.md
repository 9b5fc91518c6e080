# vRouter packet core and tracing helpers, modelled in Dafny

This project models the parts of the OpenContrail/Tungsten Fabric vRouter
that do precise work on bytes and tables, and proves what they guarantee.

- **Transport header walk** (`vr_ip_transport_parse`, dp-core/vr_packet.c).
  It walks from an IPv4 or IPv6 header to the transport header. Every header
  it crosses is added to `pull_len`, and it leaves by the slow path as soon as
  `pull_len` passes `frag_size`. It also reports the header length, the
  transport checksum and the TCP pull length.
- **Tunnel inner-packet walk** (`vr_inner_pkt_parse`). It handles MPLS over
  GRE or UDP (with a one- or two-label stack and a control word), VXLAN, a PBB
  I-tag and a run of 802.1Q tags, and ends at the inner IPv4, IPv6 or ARP
  header.
- **TCP MSS clamp** (`__vr_adjust_tcp_mss`) and the interface MTU minimum
  (`vr_adjust_tcp_mss`).
- **Flow-hash key** (`vr_get_pkt_hash`): the exact 37- or 13-byte key.
- **DPDK fragment assembler** (dpdk/vr_dpdk_fragment_assembler.c): per-lcore
  bucket tables and queues, their init and exit, the enqueue guard, bucket
  selection, and the budgeted round-robin scan with its shared resume index.
- **vrftrace Go helpers**:
  - the Sandesh protocol writer and reader (`TSandeshProtocol`);
  - the signedness table and the Thrift/Sandesh type translation;
  - the fixed-layout decoders of eBPF trace captures (parser.go);
  - flow-request construction (flow.go).

## How it is built

Imperative code is written as a Dafny method, and each method is proved equal
to a specification function:

- `IpTransportParse`, split per C block;
- `InnerPktParse` with its VLAN `while` loop;
- `AdjustTcpMssWithMtu`, which rewrites an `array` in place;
- `GetPktHash`, which fills a 38-byte key `array`.

The properties are lemmas about those functions. Packets are byte sequences.
A read outside the modelled memory yields 0 (`Peek`). Reads are instrumented
with an `overread` flag, which is set when a byte at or past `frag_size` was
read; this lets the read-before-check quirks be stated.

The other stateful parts are classes whose fields the source updates:

- The fragment assembler is `FragmentAssembler.Assembler`.
  - Its fields are the `assembler_table` array of per-lcore bucket arrays, the
    `per_cpu_queues` array and the single shared `assembler_scan_index`.
  - An event log records frees, drops and scheduled work.
- The Sandesh protocol is `Sandesh.Protocol`. Its fields are:
  - the bytes written;
  - the input and the read position (the transport);
  - the 64-byte scratch `Buffer`;
  - the current structure's signedness table, and the `is_signed` flag.

The pure Go code (signedness.go, parser.go, flow.go) is written as functions
with round-trip and inverse partners.

External code whose body is not part of this model becomes a function
parameter:

- the header-validity and ICMP-error predicates;
- the MSS callback and the `vr_to_vm_mss_adj` flag;
- the tunnel-type callback and the MPLS-over-UDP port test;
- `vr_ip_fragment` and `vr_ip6_fragment`, and `vr_hash`;
- `vr_fragment_enqueue`, `vr_fragment_assemble` and `vr_assembler_table_scan`;
- `vr_zalloc` success;
- `net.ParseIP`.

Integer widths are explicit. `pull_len` arithmetic wraps modulo 2^32 (`U32`),
`max_mss` wraps modulo 2^16, and Go's `int32(...)`/`int64(...)` conversions
are two's-complement reinterpretations. A little-endian host is assumed
wherever the C code copies host-order integers into memory: the hash key's
protocol byte and ports, and the raw 16-bit checksum loads.

Constants whose headers are not part of this model use the values that the
published vRouter and Linux headers give them:

- header sizes and offsets, protocol numbers, ICMPv6 types and the MPLS
  constants in `PacketDefs`;
- `VR_VXLAN_HDR_LEN` = 36: an outer IPv4 header, a UDP header and a VXLAN
  header, as the comment at lines 392-393 describes it;
- `VR_ASSEMBLER_BUCKET_COUNT` = 1024, `VR_DPDK_FWD_LCORE_ID` = 10;
- `EINVAL` = 22, `ENOMEM` = 12;
- `VR_MAX_PHY_INF` = 16, `VR_INVALID_MTU` = 0xFFFF;
- `AF_INET` = 2, `AF_INET6` = 10, `FlowOp_FLOW_SET` = 0,
  `VR_FLOW_ACTION_NAT` = 3.

The model reproduces these details of the code as written:

- **Line 243.** The UDP checksum test reads `iph->ip_proto` even for IPv6,
  where that is byte 9, the second source-address byte.
- **parseVifr.** `VifrIP` slices `b[44:52]` but decodes only bytes 44..47
  big-endian. `VifrIp6U` and `VifrIp6L` are big-endian too.
- **parseVsr.** `VsrMarker` decodes only bytes 104..105 of `b[104:112]`.

## Model

| member | source | states |
|---|---|---|
| IpTransport.NetworkLayer | dp-core/vr_packet.c:119-150 | The network-header step equals `ParseL3`: for IPv6 with a Fragment header, the fragment's next header and +8 to hlen and pull_len; the IPv4 IHL with `hlen - 20` added mod 2^32; UNHANDLED for a bad version or a null ip6h |
| IpTransport.TcpLayer | dp-core/vr_packet.c:173-203 | The TCP step equals `TcpStep`: on SYN with MSS adjustment, the callback or SLOW_PATH; TCP options added and checked; `tcp_csum` reported. `TcpStepMemory` proves the callback runs exactly on such a SYN when one is given, and `TcpStepExits`/`TcpReads` its exits and reads |
| IpTransport.IcmpLayer | dp-core/vr_packet.c:204-242 | The ICMP step equals `IcmpStep`: the outer checksum, or, for an ICMP error carrying TCP/UDP/ICMP, the embedded header's checksum, with every embedded header accounted and checked |
| IpTransport.Icmp6ErrorLayer | dp-core/vr_packet.c:262-311 | The ICMPv6-error step equals `Icmp6ErrorStep`: the embedded IPv6 header, an optional Fragment header and the embedded checksum, which `Icmp6StepChecksum` proves equal to `Icmp6Reported` |
| IpTransport.Icmp6Layer | dp-core/vr_packet.c:246-316 | The ICMPv6 step equals `Icmp6Step`: Neighbour Solicitation +24, Router Solicitation +8, errors via the embedded datagram, a final check; its reported checksum is `Icmp6Reported` (`Icmp6StepChecksum`) |
| IpTransport.TransportLayer | dp-core/vr_packet.c:152-316 | The transport step equals `ParseL4`: `tcph_pull_len` is pull_len before the L4 header, and the fixed L4 size is added and checked |
| IpTransport.IpTransportParse | dp-core/vr_packet.c:95-329 | Verdict, transport header, memory and overread equal `TransportParse` of the inputs; a null iph gives 0 with zero out-parameters |
| TransportFacts.NetworkLayerShape | dp-core/vr_packet.c:119-150 | UNHANDLED exactly when the version is neither 4 nor 6, or it is 6 with null ip6h; a valid header is exactly as the validity predicates and the Fragment check say; IPv4 hlen is IHL*4 |
| TransportFacts.Exits | dp-core/vr_packet.c:119-316 | Over the whole walk: UNHANDLED exactly for a bad version or an IPv6 header with null ip6h; every SLOW_PATH for length follows pull_len > frag_size; a missing-callback SLOW_PATH needs SYN, adjustment on and no callback |
| TransportFacts.TcpStepExits | dp-core/vr_packet.c:173-203 | The TCP step stops only after pull_len > frag_size or for a missing callback, and otherwise stays within frag_size |
| TransportFacts.IcmpStepExits | dp-core/vr_packet.c:204-242 | The ICMP step stops only after pull_len > frag_size, and otherwise stays within frag_size |
| TransportFacts.Icmp6StepExits | dp-core/vr_packet.c:246-316 | The ICMPv6 step stops only after pull_len > frag_size, and otherwise stays within frag_size |
| TransportFacts.TransportLayerExits | dp-core/vr_packet.c:152-316 | The transport step sets thp to iph + hlen and never returns UNHANDLED; when it parses, hlen is kept, tcph_pull_len equals the pull length after L3, and pull_len <= frag_size |
| TransportFacts.NullHeader | dp-core/vr_packet.c:320-328 | A null iph (the test at line 119) gives 0 with hlen = th_csum = tcph_pull_len = 0 and pull_len, memory and thp unchanged |
| TransportFacts.HeaderLength | dp-core/vr_packet.c:119-170 | A transport header is found exactly when the network header is valid; it is at iph + hlen; hlen is IHL*4, or 40 (+8 with a Fragment header); on success pull_len <= frag_size |
| TransportFacts.TransportLayerMemory | dp-core/vr_packet.c:183-192 | The transport step changes memory only by the MSS callback, called as (tcph, VROUTER_L2_OVERLAY_LEN, hlen), on a TCP SYN with adjustment on; conversely such a SYN whose header fits, with a callback, leaves the callback's memory |
| TransportFacts.TcpStepMemory | dp-core/vr_packet.c:183-192 | The TCP step leaves the callback's memory exactly on a SYN with vr_to_vm_mss_adj set and a callback given, and the memory unchanged otherwise |
| TransportFacts.MemoryChangesOnlyByHook | dp-core/vr_packet.c:183-192 | Over the whole walk: memory changes only by the MSS callback on a TCP SYN at the transport header |
| TransportFacts.SynWithoutHook | dp-core/vr_packet.c:183-192 | A TCP SYN needing MSS adjustment with no callback returns SLOW_PATH |
| TransportFacts.SynWithHook | dp-core/vr_packet.c:183-192 | A valid TCP SYN whose fixed header fits, with adjustment on and a callback given, gets the callback: the walk returns the callback's memory for (tcph, VROUTER_L2_OVERLAY_LEN, hlen) |
| TransportFacts.TcpChecksum | dp-core/vr_packet.c:203 | A parsed TCP packet reports the TCP header's checksum field after the callback |
| TransportFacts.IcmpStepChecksum | dp-core/vr_packet.c:204-242 | The ICMP step reports the outer checksum, or the embedded TCP/UDP/ICMP checksum for an error |
| TransportFacts.IcmpChecksum | dp-core/vr_packet.c:204-242 | A parsed ICMP packet reports `IcmpReported`: the outer `icmp_csum`, or the embedded header's checksum for an error embedding TCP/UDP/ICMP |
| TransportFacts.UdpChecksum | dp-core/vr_packet.c:243-245 | A protocol other than TCP/ICMP whose `iph->ip_proto` byte is UDP reports the UDP checksum field |
| TransportFacts.OtherChecksumZero | dp-core/vr_packet.c:246-306 | Every other case, including plain ICMPv6, reports 0; ICMPv6 errors are excluded because they report the embedded checksum |
| TransportFacts.Icmp6Reported | dp-core/vr_packet.c:246-306 | Reference for the ICMPv6 checksum: 0 for solicitations, non-errors and unpulled headers; otherwise the TCP, UDP or ICMPv6 checksum of the embedded datagram, after its Fragment header when present |
| TransportFacts.Icmp6StepChecksum | dp-core/vr_packet.c:246-316 | A passing ICMPv6 step reports `Icmp6Reported` |
| TransportFacts.Icmp6Checksum | dp-core/vr_packet.c:246-316 | A parsed ICMPv6 packet (iph->ip_proto byte not UDP) reports `Icmp6Reported` of the ICMPv6 header hlen bytes past ip6h |
| TransportFacts.Ip6UdpTestReadsSourceAddress | dp-core/vr_packet.c:243-245 | For IPv6 UDP the checksum is reported only when byte 9 (a source-address byte) is 17, and is 0 otherwise |
| TransportFacts.NetworkReads | dp-core/vr_packet.c:119-150 | On a well-placed header the network step reads nothing past frag_size; when valid, pull_len ends at iph + hlen with hlen <= 60 |
| TransportFacts.TcpReads | dp-core/vr_packet.c:173-203 | The TCP step, with its fixed header accounted, reads nothing past frag_size |
| TransportFacts.IcmpReads | dp-core/vr_packet.c:204-242 | The ICMP step reads nothing past frag_size |
| TransportFacts.Icmp6ErrorReads | dp-core/vr_packet.c:262-311 | The ICMPv6-error step without a Fragment header reads nothing past frag_size when it passes its check |
| TransportFacts.Icmp6Reads | dp-core/vr_packet.c:246-316 | A passing ICMPv6 step reads nothing past frag_size and accounts at least the ICMPv6 header; the read past frag_size of an embedded Fragment header is caught by the final check |
| TransportFacts.TransportLayerReads | dp-core/vr_packet.c:152-316 | A parsed transport step reads nothing past frag_size and covers the fixed L4 header |
| TransportFacts.NoReadPastFragment | dp-core/vr_packet.c:95-329 | A parse returning 0 on a well-placed packet read nothing past frag_size, and pull_len covers the fixed transport header (except at the line-243 IPv6 quirk) |
| TransportFacts.TransportParseSplit | dp-core/vr_packet.c:119-152 | The walk is the transport step after a valid network header, and finds no transport header otherwise |
| TransportFacts.Ip6UnknownProtoOverread | dp-core/vr_packet.c:243-245 | Take a well-placed IPv6 packet with next header 59, byte 9 (a source-address byte) equal to 17, and frag_size at the end of its header. It parses with 0, and its "UDP checksum" is read past frag_size |
| TransportFacts.Icmp6FragmentReadBeforeCheck | dp-core/vr_packet.c:262-311 | An embedded IPv6 fragment carrying TCP, whose Fragment header ends exactly at frag_size, has its TCP checksum read past frag_size (line 296), and pull_len ends 20 bytes past frag_size, to be refused only at line 314 |
| TransportFacts.IcmpEmbeddedLength | dp-core/vr_packet.c:207-226 | With an ICMP error that fits, pull_len after the embedded datagram is icmph + 8 + ip_hl*4 + its L4 size. So the line-212 length is trusted, and with ip_hl < 5 the embedded transport header is looked for inside the embedded IPv4 header |
| InnerParse.InnerEthernet | dp-core/vr_packet.c:431-469 | The Ethernet, PBB and VLAN-loop stage equals `EthStage`, with the loop's invariant tying it to `VlanWalk`; `EthStagePull` proves its byte counts (PBB +4 and +14, 4 per VLAN tag, then the network header) |
| InnerParse.InnerNetwork | dp-core/vr_packet.c:453-468 | The inner network header equals `AfterVlan`, for which `AfterVlanPull` proves IPv4 +20, IPv6 +40, ARP +28 and +0 for other ethertypes, each checked against frag_size |
| InnerParse.InnerMpls | dp-core/vr_packet.c:353-413 | The MPLS stage equals `MplsStage` |
| InnerParse.InnerMplsPayload | dp-core/vr_packet.c:377-413 | The payload step equals `MplsPayload`, for which `MplsPayloadPull` proves the byte counts: L3 +20 or +40 by version; L2 multicast +4+36+14, L2 control data +4+14, L2 unicast +14 after the stack, each checked |
| InnerParse.InnerPktParse | dp-core/vr_packet.c:336-478 | Return value, out-parameters, encap_type and overread equal `InnerPktParseSpec` |
| InnerFacts.VlanWalkAccounts | dp-core/vr_packet.c:446-451 | The VLAN loop adds 4 bytes per tag, stops at the first non-802.1Q ethertype, and reads past frag_size only when it leaves by the slow path |
| InnerFacts.EthStageFacts | dp-core/vr_packet.c:431-469 | The Ethernet stage is never UNHANDLED; a parsed result fits frag_size, was read inside it, and its network header ends at the returned pull length |
| InnerFacts.AfterVlanPull | dp-core/vr_packet.c:453-468 | After the tags: parsed exactly when the network header fits, pull_len grows by 20, 40, 28 or 0 by ethertype, iph/ip6h set for IPv4/IPv6 only, never UNHANDLED |
| InnerFacts.EthStagePull | dp-core/vr_packet.c:431-469 | PBB adds 4 and 14 bytes and uses the second ethertype, slow path when they do not fit; VLAN tags add multiples of 4; parsed exactly when the network header then fits, ending after it |
| InnerFacts.MplsStageFacts | dp-core/vr_packet.c:353-413 | MPLS hands on an accounted Ethernet header, or an L3 payload at the end of the stack that was read inside frag_size, with ip6h set exactly for version 6 |
| InnerFacts.MplsPayloadPull | dp-core/vr_packet.c:377-413 | L2 payloads hand on the Ethernet header 40 (4+36), 4 or 0 bytes past the stack exactly when it fits, else SLOW_PATH; L3 is parsed exactly when its IPv4/IPv6 header fits; other types are UNHANDLED |
| InnerFacts.MplsStagePull | dp-core/vr_packet.c:356-413 | Fewer than 8 bytes after pull_len is SLOW_PATH with nothing read; otherwise an L2 payload is handed on after one or two label entries at the place MplsPayloadPull gives |
| InnerFacts.VxlanPull | dp-core/vr_packet.c:415-427 | VXLAN accounts 8 bytes then the 14-byte Ethernet header, SLOW_PATH when they do not fit, and otherwise continues in the Ethernet stage with pkt_type 0 |
| InnerFacts.EncapReported | dp-core/vr_packet.c:353-429 | encap_type is MPLS or VXLAN exactly when that encapsulation is recognised, regardless of the length checks; otherwise UNHANDLED; VXLAN is never UNHANDLED |
| InnerFacts.MplsUnhandled | dp-core/vr_packet.c:374-413 | Over MPLS the result is UNHANDLED exactly when the callback gives <= 0 or an unlisted type, or L3 with a version that is neither 4 nor 6 |
| InnerFacts.ParsedInner | dp-core/vr_packet.c:336-478 | A parsed inner packet fits frag_size, was read inside it, and its IP header ends at pull_len; pkt_type is 0 for VXLAN and the callback's positive type for MPLS |
| InnerFacts.ControlWordReadPastCheck | dp-core/vr_packet.c:359-372 | With the outer label skipped and 8 bytes left, the control word is read past frag_size and the packet is never parsed |
| InnerFacts.VlanReadBeforeCheck | dp-core/vr_packet.c:446-451 | A VLAN tag starting 2 bytes before frag_size is read past it (line 447) before line 449 sends the packet to the slow path |
| InnerFacts.InnerHeadersWellPlaced | dp-core/vr_packet.c:336-478 | A parsed inner packet is a well-placed input for vr_ip_transport_parse |
| TcpMss.MssOption | dp-core/vr_packet.c:491-537 | A found option is at or after the start, is kind MSS with length 4, and lies wholly inside doff*4 |
| TcpMss.AdjustTcpMssWithMtu | dp-core/vr_packet.c:481-540 | Null or no SYN gives false. Otherwise the result and the new header equal `ClampMss`: only the two MSS value bytes rewritten, big-endian, as max_mss |
| TcpMss.MinPhysicalMtu | dp-core/vr_packet.c:551-565 | The interface loop returns `MinMtu` of the present interfaces' MTUs, starting from VR_INVALID_MTU |
| TcpMss.AdjustTcpMss | dp-core/vr_packet.c:549-570 | No router, a null header, or no MTU below VR_INVALID_MTU gives false with the header untouched; otherwise it clamps with the minimum MTU |
| TcpMss.MssOptionFrame | dp-core/vr_packet.c:491-516 | Rewriting bytes from the MSS value on does not change which option the walk finds |
| TcpMss.ClampOutcome | dp-core/vr_packet.c:509-521 | A clamp reports old = the packet's MSS > new = max_mss and changes only bytes off+2..off+3; false leaves the header untouched |
| TcpMss.ClampBounds | dp-core/vr_packet.c:509-519 | After the clamp, the MSS option is at most max_mss, so it never increases |
| TcpMss.ClampIdempotent | dp-core/vr_packet.c:509-521 | Clamping twice with the same MTU equals clamping once; the second call returns false |
| TcpMss.SmallMtuWraps | dp-core/vr_packet.c:510 | With MTU 68, max_mss wraps to 65522 and a 1460 MSS is not clamped |
| TcpMss.MinMtuIsMinimum | dp-core/vr_packet.c:559-565 | The result is <= every present interface's MTU, and is either VR_INVALID_MTU or one of those MTUs |
| PktHash.PktFields | dp-core/vr_packet.c:589-632 | Protocol and ports equal `HashFields`: fragments zero the ports, IPv6 fragments also zero the protocol, non-TCP/UDP traffic zeroes the ports, and non-IP traffic has protocol -1 |
| PktHash.GetPktHash | dp-core/vr_packet.c:576-656 | A null packet hashes to 0; otherwise the hash is `vr_hash` of `HashKey` |
| PktHash.FillIpKey | dp-core/vr_packet.c:634-646 | The five memcpys place src, dst, the protocol byte and the two ports back to back from byte 0 |
| PktHash.KeyLayout | dp-core/vr_packet.c:634-653 | The key is 37 (IPv6) or 13 bytes: addresses, the protocol's low byte, and the ports little-endian; for non-IP traffic smac, dmac and the first ethertype byte |
| PktHash.FragmentKey | dp-core/vr_packet.c:592-647 | A fragment's key has zero port bytes; its protocol byte is 0 for IPv6 and ip_proto for IPv4 |
| PktHash.PortBytes | dp-core/vr_packet.c:614-647 | A non-fragment TCP/UDP key holds each port's two header bytes swapped; other protocols get zero ports |
| FragmentAssembler.SlotIsIndex | dpdk/vr_dpdk_fragment_assembler.c:218 | The bucket visited at step d is (i + j) % VR_ASSEMBLER_BUCKET_COUNT |
| FragmentAssembler.ScanFrom | dpdk/vr_dpdk_fragment_assembler.c:217-227 | The scan from step j visits at least one more bucket and at most the whole table |
| FragmentAssembler.NextScanIndex | dpdk/vr_dpdk_fragment_assembler.c:229 | The next resume index is a bucket number |
| FragmentAssembler.FirstAllocFailure | dpdk/vr_dpdk_fragment_assembler.c:238-250 | The first failing allocation in init order, or none exactly when all succeed |
| FragmentAssembler.SlotInjective | dpdk/vr_dpdk_fragment_assembler.c:217-218 | Distinct steps of one scan visit distinct buckets |
| FragmentAssembler.StepKeepsRest | dpdk/vr_dpdk_fragment_assembler.c:217-221 | One scan step leaves the buckets of later steps unchanged |
| FragmentAssembler.ScanFromCounts | dpdk/vr_dpdk_fragment_assembler.c:217-227 | The scan's visit count and running total equal the counting function `CountFrom` |
| FragmentAssembler.CountFromFacts | dpdk/vr_dpdk_fragment_assembler.c:217-227 | The scan stops at the first bucket after which the cumulative count exceeds assembler_scan_thresh, and counts it as visited; otherwise it covers all buckets |
| FragmentAssembler.ScanFromBuckets | dpdk/vr_dpdk_fragment_assembler.c:217-227 | Visited non-empty buckets are replaced by the external scan's result, empty ones are skipped without calling it, and unvisited ones are unchanged |
| FragmentAssembler.ScanExtent | dpdk/vr_dpdk_fragment_assembler.c:216-227 | A whole scan visits 1..VR_ASSEMBLER_BUCKET_COUNT consecutive buckets from the resume index, wrapping; buckets not visited are unchanged |
| FragmentAssembler.SlotCovers | dpdk/vr_dpdk_fragment_assembler.c:217-218 | Every bucket is some step of the scan |
| FragmentAssembler.ScanIndexUpdate | dpdk/vr_dpdk_fragment_assembler.c:229 | The new index is (old + visited) % VR_ASSEMBLER_BUCKET_COUNT, and a full pass leaves it unchanged |
| FragmentAssembler.SecondExit | dpdk/vr_dpdk_fragment_assembler.c:262-267 | A second exit frees nothing and only calls vr_assembler_table_scan_exit again |
| FragmentAssembler.InitFailure | dpdk/vr_dpdk_fragment_assembler.c:238-250 | Init succeeds exactly when every allocation succeeds |
| FragmentAssembler.VisitBucket | dpdk/vr_dpdk_fragment_assembler.c:218-221 | One bucket: a non-empty list goes to vr_assembler_table_scan and its count is added mod 2^32; an empty one is left alone |
| FragmentAssembler.ScanBuckets | dpdk/vr_dpdk_fragment_assembler.c:216-227 | The bucket loop over one lcore's table leaves it as `Scan` says and returns the buckets visited |
| FragmentAssembler.Assembler.constructor | dpdk/vr_dpdk_fragment_assembler.c:19-28 | Load-time state: both arrays NULL, the scan index 0 |
| FragmentAssembler.Assembler.QueueInit | dpdk/vr_dpdk_fragment_assembler.c:99-114 | 0 with a fresh zeroed queue array, or -ENOMEM with NULL |
| FragmentAssembler.Assembler.TableInit | dpdk/vr_dpdk_fragment_assembler.c:66-97 | 0 exactly when every allocation succeeds; -ENOMEM otherwise, with the tables allocated so far kept |
| FragmentAssembler.Assembler.Init | dpdk/vr_dpdk_fragment_assembler.c:238-250 | 0 exactly when the queue array and every table were allocated, otherwise -ENOMEM; a failed queue allocation leaves the table untouched; after a table failure the empty queue array and the tables allocated before it stay; success leaves every queue and bucket empty |
| FragmentAssembler.Assembler.QueueExit | dpdk/vr_dpdk_fragment_assembler.c:116-132 | Frees every non-empty queue and the array, and leaves the pointer NULL |
| FragmentAssembler.Assembler.TableExit | dpdk/vr_dpdk_fragment_assembler.c:44-64 | Calls vr_assembler_table_scan_exit, frees every non-NULL table and the array, and leaves the pointer NULL |
| FragmentAssembler.Assembler.Exit | dpdk/vr_dpdk_fragment_assembler.c:262-267 | Queue exit then table exit; both arrays end NULL |
| FragmentAssembler.Assembler.Enqueue | dpdk/vr_dpdk_fragment_assembler.c:147-178 | A CPU outside [VR_DPDK_FWD_LCORE_ID, vr_num_cpus) drops the packet with VP_DROP_FRAGMENTS, returns -EINVAL and touches no queue. Otherwise only queue cpu - 10 is targeted, work is scheduled iff vr_fragment_enqueue returned 0, and the result is 0 |
| FragmentAssembler.Assembler.SyncAssemble | dpdk/vr_dpdk_fragment_assembler.c:183-198 | Only bucket hash % VR_ASSEMBLER_BUCKET_COUNT of the calling lcore's table changes, to vr_fragment_assemble's result |
| FragmentAssembler.Assembler.TableScan | dpdk/vr_dpdk_fragment_assembler.c:206-231 | The calling lcore's table is scanned as `Scan` says, no other table changes, and the shared index moves on by the buckets visited |
| Signedness.Lookup | tracing/vrftrace/cmd/vrctl/signedness.go:593-599 | (SIGNEDNESS[name], true) for a table key, (empty, false) otherwise |
| Signedness.TtypeToStype | tracing/vrftrace/cmd/vrctl/signedness.go:601-611 | I16/I32/I64 become T_U16/T_U32/T_U64 exactly when unsigned; every other type is unchanged |
| Signedness.StypeToTtype | tracing/vrftrace/cmd/vrctl/signedness.go:613-624 | T_U16/T_U32/T_U64 become I16/I32/I64; identity otherwise |
| Signedness.TranslationRoundTrip | tracing/vrftrace/cmd/vrctl/signedness.go:601-624 | Reverse(forward(t, u)) == t for every t not in {T_U16, T_U32, T_U64} |
| Signedness.WireTypeNotRecovered | tracing/vrftrace/cmd/vrctl/signedness.go:601-624 | A Sandesh unsigned type given to the writer is read back as its signed twin |
| Signedness.ReverseIdempotent | tracing/vrftrace/cmd/vrctl/signedness.go:613-624 | Reverse translation applied twice equals once |
| Signedness.ReverseLeavesNoWireType | tracing/vrftrace/cmd/vrctl/signedness.go:613-624 | The reader never yields a Sandesh unsigned type |
| Signedness.FieldUnsigned | tracing/vrftrace/cmd/vrctl/sandesh.go:83-87 | A field is unsigned exactly when its id is in the table with true |
| Signedness.UnknownStructAllSigned | tracing/vrftrace/cmd/vrctl/signedness.go:593-599 | A name outside the table marks no field unsigned |
| Sandesh.EncodeI16 | tracing/vrftrace/cmd/vrctl/sandesh.go:123-128 | The wire form of an int16 is 2 bytes |
| Sandesh.EncodeI32 | tracing/vrftrace/cmd/vrctl/sandesh.go:130-135 | The wire form of an int32 is 4 bytes |
| Sandesh.EncodeI64 | tracing/vrftrace/cmd/vrctl/sandesh.go:137-142 | The wire form of an int64 is 8 bytes |
| Sandesh.DecodeI16 | tracing/vrftrace/cmd/vrctl/sandesh.go:230-235 | The decoded value is the one whose encoding is the input |
| Sandesh.DecodeI32 | tracing/vrftrace/cmd/vrctl/sandesh.go:237-242 | The decoded value is the one whose encoding is the input |
| Sandesh.DecodeI64 | tracing/vrftrace/cmd/vrctl/sandesh.go:244-249 | The decoded value is the one whose encoding is the input |
| Sandesh.EncodeString | tracing/vrftrace/cmd/vrctl/sandesh.go:148-162 | A 4-byte length followed by exactly the bytes |
| Sandesh.EncodeFieldHeader | tracing/vrftrace/cmd/vrctl/sandesh.go:82-97 | 3 bytes: a type byte that translates back to the field's type, then the big-endian id |
| Sandesh.Avail | tracing/vrftrace/cmd/vrctl/sandesh.go:314-328 | Bytes a full read gets: all n, or whatever the transport still holds |
| Sandesh.ShortRead | tracing/vrftrace/cmd/vrctl/sandesh.go:314-328 | io.ReadFull's verdict: no error exactly when all n arrived, io.EOF exactly when none did |
| Sandesh.Fill | tracing/vrftrace/cmd/vrctl/sandesh.go:314-328 | The scratch buffer after a read: the new bytes at its front, the rest unchanged |
| Sandesh.CheckSize | tracing/vrftrace/cmd/vrctl/sandesh.go:330-344 | NEGATIVE_SIZE exactly for size < 0, SIZE_LIMIT exactly for size > max, accepted exactly otherwise |
| Sandesh.StringPayload | tracing/vrftrace/cmd/vrctl/sandesh.go:258-278 | The payload read returns exactly the consumed input bytes, at most size of them |
| Sandesh.StringRead | tracing/vrftrace/cmd/vrctl/sandesh.go:258-278 | ReadString consumes at least as much as it returns and stays within the input |
| Sandesh.BinaryRead | tracing/vrftrace/cmd/vrctl/sandesh.go:280-291 | ReadBinary consumes at least as much as it returns and stays within the input |
| Sandesh.StringScratch | tracing/vrftrace/cmd/vrctl/sandesh.go:258-278 | ReadString's scratch buffer keeps its 64-byte length |
| Sandesh.BinaryScratch | tracing/vrftrace/cmd/vrctl/sandesh.go:280-291 | ReadBinary's scratch buffer keeps its 64-byte length |
| Sandesh.Protocol.constructor | tracing/vrftrace/cmd/vrctl/sandesh.go:32-44 | Nothing written or read, a zeroed buffer, no table, the flag clear |
| Sandesh.Protocol.PutScratch | tracing/vrftrace/cmd/vrctl/sandesh.go:123-142 | The bytes pass through the front of the scratch buffer and are appended to the output |
| Sandesh.Protocol.WriteByte | tracing/vrftrace/cmd/vrctl/sandesh.go:118-121 | Appends the byte of the int8 |
| Sandesh.Protocol.WriteBool | tracing/vrftrace/cmd/vrctl/sandesh.go:111-116 | Appends 1 for true and 0 for false |
| Sandesh.Protocol.WriteI16 | tracing/vrftrace/cmd/vrctl/sandesh.go:123-128 | Appends exactly the 2 big-endian bytes |
| Sandesh.Protocol.WriteI32 | tracing/vrftrace/cmd/vrctl/sandesh.go:130-135 | Appends exactly the 4 big-endian bytes |
| Sandesh.Protocol.WriteI64 | tracing/vrftrace/cmd/vrctl/sandesh.go:137-142 | Appends exactly the 8 big-endian bytes |
| Sandesh.Protocol.WriteString | tracing/vrftrace/cmd/vrctl/sandesh.go:148-154 | Appends int32(len) big-endian, then the bytes |
| Sandesh.Protocol.WriteBinary | tracing/vrftrace/cmd/vrctl/sandesh.go:156-162 | Framed as WriteString |
| Sandesh.Protocol.WriteStructBegin | tracing/vrftrace/cmd/vrctl/sandesh.go:58-76 | Selects the name's table (empty for an unknown name, the error discarded) and still writes the length and the name |
| Sandesh.Protocol.SelectStruct | tracing/vrftrace/cmd/vrctl/sandesh.go:59-63 | The current table becomes `signedness(name)`'s table; nothing else changes |
| Sandesh.Protocol.WriteStructEnd | tracing/vrftrace/cmd/vrctl/sandesh.go:78-80 | Appends a single 0 byte |
| Sandesh.Protocol.WriteFieldBegin | tracing/vrftrace/cmd/vrctl/sandesh.go:82-97 | First sets is_signed from the table entry for id (false if absent), then appends the translated type byte and the big-endian id |
| Sandesh.Protocol.WriteListBegin | tracing/vrftrace/cmd/vrctl/sandesh.go:99-109 | Appends the element type translated with the current flag, then int32(size) |
| Sandesh.Protocol.ReadByte | tracing/vrftrace/cmd/vrctl/sandesh.go:225-228 | The next byte as an int8, or 0 with io.EOF |
| Sandesh.Protocol.ReadBool | tracing/vrftrace/cmd/vrctl/sandesh.go:216-223 | True exactly when the byte read is 1 |
| Sandesh.Protocol.ReadFull | tracing/vrftrace/cmd/vrctl/sandesh.go:314-328 | Consumes what is available of n bytes into the buffer front and reports ReadFull's verdict |
| Sandesh.Protocol.SafeReadBytes | tracing/vrftrace/cmd/vrctl/sandesh.go:358-366 | Returns the next available size bytes, with io.EOF when fewer arrived |
| Sandesh.Protocol.ReadI16 | tracing/vrftrace/cmd/vrctl/sandesh.go:230-235 | Decodes the buffer's first 2 bytes after the read, even after a short read |
| Sandesh.Protocol.ReadI32 | tracing/vrftrace/cmd/vrctl/sandesh.go:237-242 | Decodes the buffer's first 4 bytes after the read, even after a short read |
| Sandesh.Protocol.ReadI64 | tracing/vrftrace/cmd/vrctl/sandesh.go:244-249 | Decodes the buffer's first 8 bytes after the read, even after a short read |
| Sandesh.Protocol.ReadString | tracing/vrftrace/cmd/vrctl/sandesh.go:258-278 | Value, error and position equal `StringRead`, and the buffer equals `StringScratch` |
| Sandesh.Protocol.ReadStringPayload | tracing/vrftrace/cmd/vrctl/sandesh.go:267-277 | Size 0 gives ""; below 64 through the buffer; larger via safeReadBytes, equal to `StringPayload` |
| Sandesh.Protocol.ReadBinary | tracing/vrftrace/cmd/vrctl/sandesh.go:280-291 | Value, error and position equal `BinaryRead` |
| Sandesh.Protocol.ReadFieldBegin | tracing/vrftrace/cmd/vrctl/sandesh.go:176-193 | The type byte translated back; STOP returns id 0 without reading further; otherwise the id is read |
| Sandesh.Protocol.ReadListBegin | tracing/vrftrace/cmd/vrctl/sandesh.go:195-214 | The element type translated back, then a size that must pass the size check |
| Sandesh.I16Codec | tracing/vrftrace/cmd/vrctl/sandesh.go:230-235 | Decoding the encoding of an int16 gives it back |
| Sandesh.I32Codec | tracing/vrftrace/cmd/vrctl/sandesh.go:237-242 | Decoding the encoding of an int32 gives it back |
| Sandesh.I64Codec | tracing/vrftrace/cmd/vrctl/sandesh.go:244-249 | Decoding the encoding of an int64 gives it back |
| Sandesh.LengthFieldExact | tracing/vrftrace/cmd/vrctl/sandesh.go:150 | A length below 2^31 is sent as itself |
| Sandesh.PayloadRoundTrip | tracing/vrftrace/cmd/vrctl/sandesh.go:258-291 | A string or slice within the size limit is read back whole by ReadString and ReadBinary, stopping right after it whatever follows |
| Sandesh.RefusedSizeConsumesNoPayload | tracing/vrftrace/cmd/vrctl/sandesh.go:258-291 | A refused size ends the read after the prefix, with no payload and the size error |
| Sandesh.StringAndBinaryAgree | tracing/vrftrace/cmd/vrctl/sandesh.go:258-291 | ReadString and ReadBinary consume and return the same bytes; they differ only by io.ErrUnexpectedEOF versus io.EOF on a short payload below 64 bytes |
| Sandesh.I16RoundTrip | tracing/vrftrace/cmd/vrctl/sandesh.go:230-235 | WriteI16 then ReadI16 returns the value with no error |
| Sandesh.I32RoundTrip | tracing/vrftrace/cmd/vrctl/sandesh.go:237-242 | WriteI32 then ReadI32 returns the value with no error |
| Sandesh.I64RoundTrip | tracing/vrftrace/cmd/vrctl/sandesh.go:244-249 | WriteI64 then ReadI64 returns the value with no error |
| Sandesh.BoolRoundTrip | tracing/vrftrace/cmd/vrctl/sandesh.go:216-223 | WriteBool then ReadBool returns the value |
| Sandesh.StringRoundTrip | tracing/vrftrace/cmd/vrctl/sandesh.go:258-278 | WriteString then ReadString returns the string when its length is within the limit |
| Sandesh.FieldRoundTrip | tracing/vrftrace/cmd/vrctl/sandesh.go:176-193 | A field header reads back as the translated-back type and the id |
| Sandesh.StructEndRoundTrip | tracing/vrftrace/cmd/vrctl/sandesh.go:176-193 | WriteStructEnd reads back as STOP with id 0, consuming one byte |
| Sandesh.ListRoundTrip | tracing/vrftrace/cmd/vrctl/sandesh.go:195-214 | A list header reads back as the translated-back element type and the size |
| Sandesh.AsString | tracing/vrftrace/cmd/vrctl/sandesh.go:59 | The structure name as the table's key spells it, byte for char |
| TraceParser.VifrRoundTrip | tracing/vrftrace/cmd/vrft/parser.go:35-56 | parseVifr of the 75-byte capture of a record gives the record: HOp = b[0], LE32 fields at 4..40, VifrIP BE32 at 44, Ip6 halves BE64, VlanID LE16 at 68, NhID LE32 at 70, Transport b[74] |
| TraceParser.VifrUnread | tracing/vrftrace/cmd/vrft/parser.go:35-56 | Bytes 1-3, 48-51 and past 74 are never read |
| TraceParser.RtrRoundTrip | tracing/vrftrace/cmd/vrft/parser.go:58-69 | parseRtr of the 24-byte capture of a record gives the record |
| TraceParser.RtrUnread | tracing/vrftrace/cmd/vrft/parser.go:58-69 | Bytes 1-3, the pad 12-13 and past 23 are never read |
| TraceParser.NhrRoundTrip | tracing/vrftrace/cmd/vrft/parser.go:71-82 | parseNhr of the 20-byte capture gives the record, with NhrType and NhrFamily the signed bytes 6 and 7 |
| TraceParser.NhrUnread | tracing/vrftrace/cmd/vrft/parser.go:71-82 | Bytes 1-5 (including the pad 4-5) and past 19 are never read |
| TraceParser.VarRoundTrip | tracing/vrftrace/cmd/vrft/parser.go:84-95 | parseVar of the 20-byte capture gives the record |
| TraceParser.VarUnread | tracing/vrftrace/cmd/vrft/parser.go:84-95 | Bytes 1-3 and past 19 are never read |
| TraceParser.MrRoundTrip | tracing/vrftrace/cmd/vrft/parser.go:97-107 | parseMr of the 20-byte capture gives the record |
| TraceParser.MrUnread | tracing/vrftrace/cmd/vrft/parser.go:97-107 | Bytes 1-3, the pad 10-11 and past 19 are never read |
| TraceParser.VsrRoundTrip | tracing/vrftrace/cmd/vrft/parser.go:109-148 | parseVsr of the 240-byte capture gives the record: LE64 counters at 8-byte strides, VsrMarker LE16 of bytes 104..105 |
| TraceParser.VsrUnread | tracing/vrftrace/cmd/vrft/parser.go:109-148 | Bytes 1-3, 8-9, 106-111 and past 239 are never read |
| TraceParser.SnameLength | tracing/vrftrace/cmd/vrft/parser.go:10-33 | The bytes the chosen decoder slices; 0 for an unknown name |
| TraceParser.ParseSreq | tracing/vrftrace/cmd/vrft/parser.go:10-33 | nil (None) exactly for a name other than the six listed |
| TraceParser.SreqRoundTrip | tracing/vrftrace/cmd/vrft/parser.go:10-148 | Every request is recovered by parseSreq from its structure name and its capture |
| VrFlow.To4 | tracing/vrftrace/vr/flow.go:340-342 | net.IP.To4: the 4-byte form, present exactly for a 4-byte or IPv4-mapped 16-byte address |
| VrFlow.To16 | tracing/vrftrace/vr/flow.go:343-346 | net.IP.To16: present exactly for 4- or 16-byte input, ending with the input |
| VrFlow.IpToULInt64 | tracing/vrftrace/vr/flow.go:337-350 | AF_INET: upper 0 and lower the LE32 of the 4-byte form; AF_INET6: LE64 of bytes 0..7 and 8..15; any other family (0, 0) |
| VrFlow.KeyToIp | tracing/vrftrace/vr/flow.go:337-350 | The inverse of ipToULInt64: the address form that two halves stand for |
| VrFlow.IpKeyRoundTrip | tracing/vrftrace/vr/flow.go:337-350 | Decoding the halves gives back the 4-byte form under AF_INET and the 16-byte form under AF_INET6 |
| VrFlow.MappedFormSameKey | tracing/vrftrace/vr/flow.go:340-342 | The 4-byte and IPv4-mapped forms of an address give the same key |
| VrFlow.IpKeyInjective | tracing/vrftrace/vr/flow.go:337-350 | Equal keys under one family mean equal addresses in that family's form |
| VrFlow.MirSip | tracing/vrftrace/vr/flow.go:81-85 | 0 for an address shorter than 4 bytes, else the IPv4 form read little-endian |
| VrFlow.NewFlow | tracing/vrftrace/vr/flow.go:54-114 | FrOp = FLOW_SET; every spec field copied; addresses folded by ipToULInt64 under the family; FrMirSip as MirSip says |
| VrFlow.InetFlowSpec | tracing/vrftrace/vr/flow.go:166-183 | The reverse source is DstIP, the reverse destination is SrcIP, and the ports are swapped |
| VrFlow.NewInetFlow | tracing/vrftrace/vr/flow.go:166-187 | A reverse tuple that is the forward one swapped, upper halves 0 and the lower halves the LE32 addresses |
| VrFlow.Inet6FlowSpec | tracing/vrftrace/vr/flow.go:225-240 | The same swap for IPv6 |
| VrFlow.NewInet6Flow | tracing/vrftrace/vr/flow.go:225-244 | A reverse tuple that is the forward one swapped, with the AF_INET6 halves |
| VrFlow.NatFlowSpec | tracing/vrftrace/vr/flow.go:309-327 | Action NAT; reverse IPs from ReverseDstIP/ReverseSrcIP; reverse sport = DstPort, reverse dport = ReverseSrcPort |
| VrFlow.NewNatFlow | tracing/vrftrace/vr/flow.go:309-333 | The NAT request: action VR_FLOW_ACTION_NAT, reverse addresses and ports as the configuration says |
| VrFlow.UntranslatedNatIsSwapped | tracing/vrftrace/vr/flow.go:309-333 | A NAT config whose reverse addresses and port are the forward ones builds a plain swapped tuple |
| VrFlow.TranslatedNatNotSwapped | tracing/vrftrace/vr/flow.go:309-333 | A NAT config with a translated reverse destination does not build a swapped tuple |

## Left out

- `pkt_copy` and `pkt_cow` (dp-core/vr_packet.c:9-63): they rest on the packet allocator, which is not part of this model.
- External functions whose bodies are not part of this model become function parameters with no further assumptions. These are `vr_hash`, `vr_fragment_enqueue`, `vr_fragment_assemble`, `vr_assembler_table_scan`, the tunnel-type callback, the header-validity and ICMP-error predicates, `vr_ip_fragment`/`vr_ip6_fragment`, `vif_get_mtu`/`vrouter_get` (as a list of interface MTUs), `vr_zalloc` and `net.ParseIP`.
- DPDK lcore scheduling, RTE_LOG/PKT_LOG and any cross-lcore race on `assembler_scan_index`: concurrency and logging. Scheduling and frees are recorded as events.
- `dpdk_fragment_assemble_queue` (lines 36-42): it only forwards to `vr_fragment_assemble_queue`, which is not part of this model.
- The bytes of the 38-byte hash key that are never written: hashing reads only the first 37 or 13 bytes.
- IpTransport.IpTransportParse takes any input. The no-overread property holds only in the calling state described by the predicate `TransportFacts.WellPlaced`, which `TransportFacts.NetworkReads` and `TransportFacts.NoReadPastFragment` require. In that state the IPv4 header offset, ip6h and frag_size stay below 2^28 so that pointer sums do not wrap, and a non-null ip6h equals iph (the callers' aliasing). The C code states neither.
- InnerParse.InnerPktParse: requires frag_size < 0xFFFF_FFFC, so that the VLAN loop's `pull_len` cannot wrap. On wrap-around the C loop could go on.
- TcpMss.AdjustTcpMssWithMtu: the header array must be at least `tcp_doff*4` bytes long. The C code reads whatever memory follows.
- Go panics are preconditions, because the source has no error path for them: slices shorter than a decoder's layout, and a nil address handed to `ipToULInt64`.
- TraceParser.ParseSreq: its contract states only which names yield nil. That the kind of request matches the name is proved for captures through SreqRoundTrip.
- The per-field `…Back` lemmas, the `…UnreadPart…` chunks and the `Sreq…Case`/`Sreq…RoundTrip` lemmas of TraceParser are proof steps of the rows above. So are `StringReadSteps`, `KeyTail`, `SwappedPort`, `Memcpy`, `CopyToFront` and the byte-codec lemmas of `Bytes`.
- The `NewVrXReq`/`NewVrFlowReq` defaults of fields that the decoders and NewFlow do not set: they come from generated Thrift code that is not part of this model.
- `NewInetFlowConfig`, `NewInet6FlowConfig` and `NewNatFlowConfig`: they read default values from struct tags by reflection. The modelled constructors take the configuration as input.
- In sandesh.go, the following are left out:
  - WriteDouble and ReadDouble: floating point.
  - `readAll`'s timeout retry, Flush, Transport and the thrift TRichTransport: I/O. Writes never fail in the model, and reads see a finite input sequence.
  - The `fmt.Printf` in WriteListBegin.
  - The no-op Map/Set/Message/FieldEnd/ListEnd methods, and ReadStructEnd.
  - Thrift's wrapping of errors in TProtocolException. The model keeps the error kinds io.EOF, io.ErrUnexpectedEOF, NEGATIVE_SIZE and SIZE_LIMIT.
- The second copy of the signedness table and its helpers in sandesh.go (lines 444-1063) is modelled once, by the Signedness module.
- The rest of the tracing tool is not modelled: netlink, BPF loading, perf buffers, symbol lookup, the BPF programs and their headers, packet.py, and the vif/route/nexthop/vxlan builders. All of these are I/O, kernel interfaces, or builders over generated code that is not part of this model.
- The n3k offload headers and their test are not modelled; they hold declarations and hardware-offload tests only.
