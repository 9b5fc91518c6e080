/** The flow-request builders of the vrftrace tool
    (tracing/vrftrace/vr/flow.go): an IP address is folded into the two
    64-bit halves vRouter's flow table keys on, and NewFlow fills a flow
    request from a flow spec. NewInetFlow, NewInet6Flow and NewNatFlow
    build that spec from a configuration, and each of them derives the
    reverse flow's tuple from the forward one.

    Go's net.IP is a byte string: 4 bytes, the 16-byte IPv4-mapped form, a
    16-byte IPv6 address or nil ([]). net.ParseIP is left to the caller as
    the function parameter parseIP: a string to the address it parses to. */
module VrFlow {
  import opened Bytes

  /** net.IP */
  type IP = seq<uint8>

  /** Linux's address-family numbers (syscall.AF_INET, syscall.AF_INET6). */
  const AF_INET: int32 := 2
  const AF_INET6: int32 := 10

  /** FlowOp_FLOW_SET, the first value of the flow_op enumeration. */
  const FLOW_SET: int := 0

  /** VR_FLOW_ACTION_NAT, the action code of a translated flow. */
  const VR_FLOW_ACTION_NAT: int16 := 3

  /** The twelve-byte prefix of an IPv4-mapped IPv6 address. */
  const V4_IN_V6_PREFIX: seq<uint8> := [0, 0, 0, 0, 0, 0, 0, 0, 0, 0, 0xff, 0xff]

  // --- net.IP conversions ----------------------------------------------

  /** net.IP.To4: the 4-byte form, or nil (None) for an address that is
      not IPv4. */
  function To4(ip: IP): (r: Option<seq<uint8>>)
    ensures r.Some? ==> |r.value| == 4
    ensures r.Some? <==> |ip| == 4 || (|ip| == 16 && ip[..12] == V4_IN_V6_PREFIX)
    ensures r.Some? ==> r.value == ip[|ip| - 4..]
  {
    if |ip| == 4 then Some(ip)
    else if |ip| == 16 && ip[..10] == [0, 0, 0, 0, 0, 0, 0, 0, 0, 0] && ip[10] == 0xff && ip[11] == 0xff
    then Some(ip[12..16])
    else None
  }

  /** net.IP.To16: the 16-byte form, or nil (None) for a malformed address. */
  function To16(ip: IP): (r: Option<seq<uint8>>)
    ensures r.Some? <==> |ip| == 4 || |ip| == 16
    ensures r.Some? ==> |r.value| == 16 && r.value[16 - |ip|..] == ip
  {
    if |ip| == 4 then Some(V4_IN_V6_PREFIX + ip)
    else if |ip| == 16 then Some(ip)
    else None
  }

  /** The addresses ipToULInt64 can convert without Go panicking on a nil
      slice: an IPv4 address under AF_INET, any well-formed address under
      AF_INET6, anything under another family (which is never read). */
  predicate Convertible(family: int32, ip: IP)
  {
    (family == AF_INET ==> To4(ip).Some?) && (family == AF_INET6 ==> To16(ip).Some?)
  }

  /** The lower half ipToULInt64 gives a 4-byte address. */
  function V4Lower(ip4: seq<uint8>): (lower: int64)
    requires |ip4| == 4
    ensures 0 <= lower < 0x1_0000_0000 && ToLE(lower, 4) == ip4
  {
    assert Pow256(4) == 0x1_0000_0000;
    ToLEOfLE(ip4);
    LE(ip4)
  }

  /** One little-endian 64-bit word of a 16-byte address. */
  function V6Word(w: seq<uint8>): (r: int64)
    requires |w| == 8
    ensures ToLE(Uint64(r), 8) == w
  {
    assert Pow256(8) == 0x1_0000_0000_0000_0000;
    ToLEOfLE(w);
    Int64(LE(w))
  }

  /** The two halves ipToULInt64 gives a 16-byte address. */
  function V6Key(ip16: seq<uint8>): (r: (int64, int64))
    requires |ip16| == 16
    ensures ToLE(Uint64(r.0), 8) + ToLE(Uint64(r.1), 8) == ip16
  {
    assert ip16 == ip16[0..8] + ip16[8..];
    (V6Word(ip16[0..8]), V6Word(ip16[8..]))
  }

  /** ipToULInt64: the (upper, lower) halves of an address as the flow
      table stores them. Under AF_INET upper is 0 and lower holds the four
      bytes little-endian; under AF_INET6 the 16 bytes are split into two
      little-endian 64-bit words; any other family gives (0, 0). */
  function IpToULInt64(family: int32, ip: IP): (r: (int64, int64))
    requires Convertible(family, ip)
    ensures family == AF_INET ==>
      r.0 == 0 && 0 <= r.1 < 0x1_0000_0000 && ToLE(r.1, 4) == To4(ip).value
    ensures family == AF_INET6 ==>
      ToLE(Uint64(r.0), 8) + ToLE(Uint64(r.1), 8) == To16(ip).value
    ensures family != AF_INET && family != AF_INET6 ==> r == (0, 0)
  {
    if family == AF_INET then
      (0, V4Lower(To4(ip).value))
    else if family == AF_INET6 then
      V6Key(To16(ip).value)
    else
      (0, 0)
  }

  /** The address a flow key's halves stand for: the inverse of IpToULInt64
      on the form To4 or To16 gives. */
  function KeyToIp(family: int32, key: (int64, int64)): (ip: IP)
    ensures |ip| == (if family == AF_INET then 4 else if family == AF_INET6 then 16 else 0)
  {
    if family == AF_INET then ToLE(key.1 % 0x1_0000_0000, 4)
    else if family == AF_INET6 then ToLE(Uint64(key.0), 8) + ToLE(Uint64(key.1), 8)
    else []
  }

  /** The two halves determine the address: decoding them gives back the
      4-byte form under AF_INET and the 16-byte form under AF_INET6. */
  lemma IpKeyRoundTrip(family: int32, ip: IP)
    requires Convertible(family, ip)
    ensures family == AF_INET ==> KeyToIp(family, IpToULInt64(family, ip)) == To4(ip).value
    ensures family == AF_INET6 ==> KeyToIp(family, IpToULInt64(family, ip)) == To16(ip).value
  {
  }

  /** Under AF_INET the 4-byte and the IPv4-mapped 16-byte forms of an
      address give the same key, as net.ParseIP returns the latter. */
  lemma MappedFormSameKey(ip4: IP)
    requires |ip4| == 4
    ensures Convertible(AF_INET, V4_IN_V6_PREFIX + ip4)
    ensures IpToULInt64(AF_INET, V4_IN_V6_PREFIX + ip4) == IpToULInt64(AF_INET, ip4)
  {
    var ip := V4_IN_V6_PREFIX + ip4;
    assert ip[..12] == V4_IN_V6_PREFIX;
    assert ip[12..] == ip4;
  }

  /** Two addresses with the same key under the same family are the same
      address (in the form that family reads). */
  lemma IpKeyInjective(family: int32, a: IP, b: IP)
    requires Convertible(family, a) && Convertible(family, b)
    requires IpToULInt64(family, a) == IpToULInt64(family, b)
    ensures family == AF_INET ==> To4(a) == To4(b)
    ensures family == AF_INET6 ==> To16(a) == To16(b)
  {
  }

  // --- Flow spec and flow request --------------------------------------

  /** flowSpec: the parameters NewFlow copies into a request. */
  datatype FlowSpec = FlowSpec(
    rid: int16, index: int32, action: int16, flags: int16, rindex: int32, family: int32,
    srcIP: IP, dstIP: IP, srcPort: int16, dstPort: int16, proto: int8, vrf: int16,
    dstVrf: int16, mirId: int16, secMirId: int16, mirSrcIP: IP, mirSrcPort: int16,
    pcapMetaData: seq<int8>, mirVrf: int16, ecmpNhIndex: int32, srcNhIndex: int32,
    nhId: int32, dropReason: int16, genId: int8, reverseSrcIP: IP, reverseDstIP: IP,
    reverseNhId: int32, reverseSrcPort: int16, reverseDstPort: int16, qosId: int16,
    ttl: int8, extflags: int16, flags1: int16, underlayEcmpIdx: int8)

  /** A flowSpec literal's omitted fields: Go's zero values (nil for IPs). */
  const ZERO_SPEC: FlowSpec := FlowSpec(
    0, 0, 0, 0, 0, 0, [], [], 0, 0, 0, 0, 0, 0, 0, [], 0, [], 0, 0, 0, 0, 0, 0, [], [],
    0, 0, 0, 0, 0, 0, 0, 0)

  /** The fields of vr_flow_req that NewFlow sets. */
  datatype FlowReq = FlowReq(
    frOp: int, frRid: int16, frIndex: int32, frAction: int16, frFlags: int16,
    frRindex: int32, frFamily: int32, frFlowSipU: int64, frFlowSipL: int64,
    frFlowDipU: int64, frFlowDipL: int64, frFlowSport: int16, frFlowDport: int16,
    frFlowProto: int8, frFlowVrf: int16, frFlowDvrf: int16, frMirID: int16,
    frSecMirID: int16, frMirSip: int32, frMirSport: int16, frPcapMetaData: seq<int8>,
    frMirVrf: int16, frEcmpNhIndex: int32, frSrcNhIndex: int32, frFlowNhID: int32,
    frDropReason: int16, frGenID: int8, frRflowSipU: int64, frRflowSipL: int64,
    frRflowDipU: int64, frRflowDipL: int64, frRflowNhID: int32, frRflowSport: int16,
    frRflowDport: int16, frQosID: int16, frTTL: int8, frExtflags: int16, frFlags1: int16,
    frUnderlayEcmpIndex: int8)

  /** The specs NewFlow accepts without panicking: the four tuple addresses
      are convertible under the spec's family, and a mirror source address
      of four or more bytes is an IPv4 address. */
  predicate NewFlowAccepts(s: FlowSpec)
  {
    Convertible(s.family, s.srcIP) && Convertible(s.family, s.dstIP)
    && Convertible(s.family, s.reverseSrcIP) && Convertible(s.family, s.reverseDstIP)
    && (|s.mirSrcIP| >= 4 ==> To4(s.mirSrcIP).Some?)
  }

  /** Whether f carries every field of s that NewFlow copies unchanged. */
  predicate CopiesSpec(s: FlowSpec, f: FlowReq)
  {
    f.frRid == s.rid && f.frIndex == s.index && f.frAction == s.action && f.frFlags == s.flags
    && f.frRindex == s.rindex && f.frFamily == s.family && f.frFlowProto == s.proto
    && f.frFlowVrf == s.vrf && f.frFlowDvrf == s.dstVrf && f.frMirID == s.mirId
    && f.frSecMirID == s.secMirId && f.frMirSport == s.mirSrcPort
    && f.frPcapMetaData == s.pcapMetaData && f.frMirVrf == s.mirVrf
    && f.frEcmpNhIndex == s.ecmpNhIndex && f.frSrcNhIndex == s.srcNhIndex
    && f.frFlowNhID == s.nhId && f.frDropReason == s.dropReason && f.frGenID == s.genId
    && f.frRflowNhID == s.reverseNhId && f.frQosID == s.qosId && f.frTTL == s.ttl
    && f.frExtflags == s.extflags && f.frFlags1 == s.flags1
    && f.frUnderlayEcmpIndex == s.underlayEcmpIdx
  }

  /** FrMirSip: 0 for an address shorter than four bytes, otherwise its
      IPv4 form read little-endian as an int32. */
  function MirSip(ip: IP): (r: int32)
    requires |ip| >= 4 ==> To4(ip).Some?
    ensures |ip| < 4 ==> r == 0
    ensures |ip| >= 4 ==> ToLE(Uint32(r), 4) == To4(ip).value
  {
    if |ip| < 4 then 0
    else
      assert Pow256(4) == 0x1_0000_0000;
      ToLEOfLE(To4(ip).value);
      Int32(LE(To4(ip).value))
  }

  /** NewFlow: a FLOW_SET request carrying the spec's fields, with each
      address folded by IpToULInt64 under the spec's family. */
  function NewFlow(s: FlowSpec): (f: FlowReq)
    requires NewFlowAccepts(s)
    ensures f.frOp == FLOW_SET && CopiesSpec(s, f)
    ensures (f.frFlowSipU, f.frFlowSipL) == IpToULInt64(s.family, s.srcIP)
    ensures (f.frFlowDipU, f.frFlowDipL) == IpToULInt64(s.family, s.dstIP)
    ensures (f.frRflowSipU, f.frRflowSipL) == IpToULInt64(s.family, s.reverseSrcIP)
    ensures (f.frRflowDipU, f.frRflowDipL) == IpToULInt64(s.family, s.reverseDstIP)
    ensures f.frFlowSport == s.srcPort && f.frFlowDport == s.dstPort
    ensures f.frRflowSport == s.reverseSrcPort && f.frRflowDport == s.reverseDstPort
    ensures f.frMirSip == MirSip(s.mirSrcIP)
  {
    var sip := IpToULInt64(s.family, s.srcIP);
    var dip := IpToULInt64(s.family, s.dstIP);
    var rsip := IpToULInt64(s.family, s.reverseSrcIP);
    var rdip := IpToULInt64(s.family, s.reverseDstIP);
    FlowReq(
      FLOW_SET, s.rid, s.index, s.action, s.flags, s.rindex, s.family, sip.0, sip.1,
      dip.0, dip.1, s.srcPort, s.dstPort, s.proto, s.vrf, s.dstVrf, s.mirId, s.secMirId,
      MirSip(s.mirSrcIP), s.mirSrcPort, s.pcapMetaData, s.mirVrf, s.ecmpNhIndex,
      s.srcNhIndex, s.nhId, s.dropReason, s.genId, rsip.0, rsip.1, rdip.0, rdip.1,
      s.reverseNhId, s.reverseSrcPort, s.reverseDstPort, s.qosId, s.ttl, s.extflags,
      s.flags1, s.underlayEcmpIdx)
  }

  /** Whether f's reverse tuple is its forward tuple with source and
      destination exchanged. */
  predicate ReverseIsSwapped(f: FlowReq)
  {
    f.frRflowSipU == f.frFlowDipU && f.frRflowSipL == f.frFlowDipL
    && f.frRflowDipU == f.frFlowSipU && f.frRflowDipL == f.frFlowSipL
    && f.frRflowSport == f.frFlowDport && f.frRflowDport == f.frFlowSport
  }

  // --- NewInetFlow ------------------------------------------------------

  /** InetFlowConfig */
  datatype InetFlowConfig = InetFlowConfig(
    srcIP: string, dstIP: string, srcPort: uint16, dstPort: uint16, protocol: int8,
    action: int16, index: int32, flags: int16, nexthop: int32, reverseNexthop: int32,
    vrf: int16)

  /** The flowSpec NewInetFlow builds. */
  function InetFlowSpec(conf: InetFlowConfig, parseIP: string -> IP): (s: FlowSpec)
    ensures s.family == AF_INET && s.mirSrcIP == []
    ensures s.reverseSrcIP == s.dstIP && s.reverseDstIP == s.srcIP
    ensures s.reverseSrcPort == s.dstPort && s.reverseDstPort == s.srcPort
  {
    ZERO_SPEC.(
      index := conf.index, action := conf.action, family := AF_INET,
      srcIP := parseIP(conf.srcIP), dstIP := parseIP(conf.dstIP),
      srcPort := Int16(conf.srcPort), dstPort := Int16(conf.dstPort), proto := conf.protocol,
      nhId := conf.nexthop, vrf := conf.vrf, reverseNhId := conf.reverseNexthop,
      flags := conf.flags, reverseSrcIP := parseIP(conf.dstIP),
      reverseDstIP := parseIP(conf.srcIP), reverseSrcPort := Int16(conf.dstPort),
      reverseDstPort := Int16(conf.srcPort))
  }

  /** NewInetFlow, for configurations whose two addresses parse to IPv4
      addresses (any other makes ipToULInt64 panic). */
  function NewInetFlow(conf: InetFlowConfig, parseIP: string -> IP): (f: FlowReq)
    requires To4(parseIP(conf.srcIP)).Some? && To4(parseIP(conf.dstIP)).Some?
    ensures f.frOp == FLOW_SET && f.frFamily == AF_INET && f.frAction == conf.action
    ensures ReverseIsSwapped(f)
    ensures f.frFlowSipU == 0 && f.frFlowDipU == 0 && f.frMirSip == 0
    ensures 0 <= f.frFlowSipL < 0x1_0000_0000 && 0 <= f.frFlowDipL < 0x1_0000_0000
    ensures ToLE(f.frFlowSipL, 4) == To4(parseIP(conf.srcIP)).value
    ensures ToLE(f.frFlowDipL, 4) == To4(parseIP(conf.dstIP)).value
    ensures f.frFlowSport == Int16(conf.srcPort) && f.frFlowDport == Int16(conf.dstPort)
  {
    NewFlow(InetFlowSpec(conf, parseIP))
  }

  // --- NewInet6Flow -----------------------------------------------------

  /** Inet6FlowConfig (its SrcPort is already an int16). */
  datatype Inet6FlowConfig = Inet6FlowConfig(
    srcIP: string, dstIP: string, srcPort: int16, dstPort: uint16, protocol: int8,
    flags: int16, nexthop: int32, reverseNexthop: int32, vrf: int16)

  /** The flowSpec NewInet6Flow builds. */
  function Inet6FlowSpec(conf: Inet6FlowConfig, parseIP: string -> IP): (s: FlowSpec)
    ensures s.family == AF_INET6 && s.mirSrcIP == [] && s.action == 0
    ensures s.reverseSrcIP == s.dstIP && s.reverseDstIP == s.srcIP
    ensures s.reverseSrcPort == s.dstPort && s.reverseDstPort == s.srcPort
  {
    ZERO_SPEC.(
      family := AF_INET6, srcIP := parseIP(conf.srcIP), dstIP := parseIP(conf.dstIP),
      srcPort := conf.srcPort, dstPort := Int16(conf.dstPort), proto := conf.protocol,
      nhId := conf.nexthop, vrf := conf.vrf, reverseNhId := conf.reverseNexthop,
      flags := conf.flags, reverseSrcIP := parseIP(conf.dstIP),
      reverseDstIP := parseIP(conf.srcIP), reverseSrcPort := Int16(conf.dstPort),
      reverseDstPort := conf.srcPort)
  }

  /** NewInet6Flow, for configurations whose two addresses parse (a nil
      address makes ipToULInt64 panic). */
  function NewInet6Flow(conf: Inet6FlowConfig, parseIP: string -> IP): (f: FlowReq)
    requires To16(parseIP(conf.srcIP)).Some? && To16(parseIP(conf.dstIP)).Some?
    ensures f.frOp == FLOW_SET && f.frFamily == AF_INET6 && f.frAction == 0
    ensures ReverseIsSwapped(f)
    ensures ToLE(Uint64(f.frFlowSipU), 8) + ToLE(Uint64(f.frFlowSipL), 8) == To16(parseIP(conf.srcIP)).value
    ensures ToLE(Uint64(f.frFlowDipU), 8) + ToLE(Uint64(f.frFlowDipL), 8) == To16(parseIP(conf.dstIP)).value
    ensures f.frFlowSport == conf.srcPort && f.frFlowDport == Int16(conf.dstPort)
  {
    NewFlow(Inet6FlowSpec(conf, parseIP))
  }

  // --- NewNatFlow -------------------------------------------------------

  /** NatFlowConfig */
  datatype NatFlowConfig = NatFlowConfig(
    srcIP: string, dstIP: string, srcPort: uint16, dstPort: uint16, protocol: int8,
    dvrf: int16, reverseSrcIP: string, reverseDstIP: string, flags: uint16,
    nexthop: int32, srcNexthop: int32, qosId: int16, action: int16, ecmpNexthop: int32,
    vrf: int16, reverseNexthop: int32, reverseSrcPort: uint16)

  /** The flowSpec NewNatFlow builds. The configured Action is not used. */
  function NatFlowSpec(conf: NatFlowConfig, parseIP: string -> IP): (s: FlowSpec)
    ensures s.family == AF_INET && s.action == VR_FLOW_ACTION_NAT && s.mirSrcIP == []
    ensures s.reverseSrcIP == parseIP(conf.reverseDstIP)
    ensures s.reverseDstIP == parseIP(conf.reverseSrcIP)
    ensures s.reverseSrcPort == s.dstPort && s.reverseDstPort == Int16(conf.reverseSrcPort)
  {
    ZERO_SPEC.(
      family := AF_INET, action := VR_FLOW_ACTION_NAT, srcIP := parseIP(conf.srcIP),
      dstIP := parseIP(conf.dstIP), srcPort := Int16(conf.srcPort),
      dstPort := Int16(conf.dstPort), proto := conf.protocol, nhId := conf.nexthop,
      srcNhIndex := conf.srcNexthop, vrf := conf.vrf, dstVrf := conf.dvrf,
      reverseNhId := conf.reverseNexthop, flags := Int16(conf.flags),
      reverseSrcIP := parseIP(conf.reverseDstIP), reverseDstIP := parseIP(conf.reverseSrcIP),
      reverseSrcPort := Int16(conf.dstPort), reverseDstPort := Int16(conf.reverseSrcPort),
      qosId := conf.qosId, ecmpNhIndex := conf.ecmpNexthop)
  }

  /** The NAT configurations whose four addresses parse to IPv4 addresses. */
  predicate NatAccepts(conf: NatFlowConfig, parseIP: string -> IP)
  {
    To4(parseIP(conf.srcIP)).Some? && To4(parseIP(conf.dstIP)).Some?
    && To4(parseIP(conf.reverseSrcIP)).Some? && To4(parseIP(conf.reverseDstIP)).Some?
  }

  /** NewNatFlow: a NAT flow whose reverse addresses are the configured
      translated ones (reverse source = ReverseDstIP, reverse destination =
      ReverseSrcIP), with reverse source port DstPort and reverse
      destination port ReverseSrcPort. */
  function NewNatFlow(conf: NatFlowConfig, parseIP: string -> IP): (f: FlowReq)
    requires NatAccepts(conf, parseIP)
    ensures f.frOp == FLOW_SET && f.frFamily == AF_INET && f.frAction == VR_FLOW_ACTION_NAT
    ensures (f.frRflowSipU, f.frRflowSipL) == IpToULInt64(AF_INET, parseIP(conf.reverseDstIP))
    ensures (f.frRflowDipU, f.frRflowDipL) == IpToULInt64(AF_INET, parseIP(conf.reverseSrcIP))
    ensures f.frRflowSport == f.frFlowDport && f.frRflowDport == Int16(conf.reverseSrcPort)
    ensures f.frFlags == Int16(conf.flags)
  {
    NewFlow(NatFlowSpec(conf, parseIP))
  }

  /** A NAT flow that translates nothing (its reverse addresses are the
      forward ones and ReverseSrcPort is SrcPort) has the swapped reverse
      tuple of a plain flow. */
  lemma UntranslatedNatIsSwapped(conf: NatFlowConfig, parseIP: string -> IP)
    requires NatAccepts(conf, parseIP)
    requires conf.reverseSrcIP == conf.srcIP && conf.reverseDstIP == conf.dstIP
    requires conf.reverseSrcPort == conf.srcPort
    ensures ReverseIsSwapped(NewNatFlow(conf, parseIP))
  {
  }

  /** A NAT flow whose translated destination differs from the forward
      source (as IPv4 addresses) does not have the swapped reverse tuple:
      the reverse destination is the translated address. */
  lemma TranslatedNatNotSwapped(conf: NatFlowConfig, parseIP: string -> IP)
    requires NatAccepts(conf, parseIP)
    requires To4(parseIP(conf.reverseSrcIP)) != To4(parseIP(conf.srcIP))
    ensures !ReverseIsSwapped(NewNatFlow(conf, parseIP))
  {
    var f := NewNatFlow(conf, parseIP);
    if ReverseIsSwapped(f) {
      IpKeyInjective(AF_INET, parseIP(conf.reverseSrcIP), parseIP(conf.srcIP));
    }
  }
}
