/** What vr_inner_pkt_parse guarantees: which encapsulation it reports,
    when it gives up, where the inner headers are, and that a parsed
    packet was read only inside frag_size — so that its result is a valid
    starting point for vr_ip_transport_parse. */
module InnerFacts {
  import opened Bytes
  import opened PacketDefs
  import opened IpTransport
  import opened InnerParse
  import TransportFacts

  /** A run of VLAN tags: the walk accounts 4 bytes per tag, stops at the
      first ethertype that is not 802.1Q, and reads past frag_size only
      when it then leaves for the slow path. */
  lemma {:induction false} VlanWalkAccounts(mem: seq<uint8>, proto: uint16, pull: uint32, fragSize: uint32)
    requires pull <= fragSize < 0xFFFF_FFFC
    ensures var w := VlanWalk(mem, proto, pull, fragSize);
            pull <= w.pull && (w.pull - pull) % VLAN_HDR_LEN == 0
            && (proto != VR_ETH_PROTO_VLAN ==> w == VlanEnd(proto, pull, false, false))
            && (w.slow ==> fragSize < w.pull)
            && (!w.slow ==> w.proto != VR_ETH_PROTO_VLAN && w.pull <= fragSize && !w.overread)
    decreases fragSize - pull
  {
    if proto == VR_ETH_PROTO_VLAN && pull + VLAN_HDR_LEN <= fragSize {
      VlanWalkAccounts(mem, NetLoad16(mem, pull + VLAN_PROTO_OFF), pull + VLAN_HDR_LEN, fragSize);
    }
  }

  /** The inner Ethernet stage: a parsed result fits frag_size, was read
      inside it, and points at a network header whose bytes end exactly at
      the returned pull length. */
  lemma EthStageFacts(mem: seq<uint8>, eth: nat, pull: uint32, fragSize: uint32, pktType: int)
    requires eth + ETHER_HLEN <= pull <= fragSize < 0x1000_0000
    ensures var (v, rd) := EthStage(mem, eth, pull, fragSize, pktType);
            v != InnerUnhandled
            && (v.InnerParsed? ==>
                  !rd && v.pull <= fragSize && v.pktType == pktType
                  && (v.iph.Some? ==> v.pull == v.iph.value + (if v.ip6h.Some? then IP6_HDR_LEN else IP_HDR_LEN))
                  && (v.ip6h.Some? ==> v.iph == v.ip6h))
  {
    var proto := NetLoad16(mem, eth + ETH_PROTO_OFF);
    if proto == VR_ETH_PROTO_PBB {
      var pull2 := pull + PBB_ITAG_LEN + ETHER_HLEN;
      if pull2 <= fragSize {
        VlanWalkAccounts(mem, NetLoad16(mem, pull + PBB_ITAG_LEN + ETH_PROTO_OFF), pull2, fragSize);
      }
    } else {
      VlanWalkAccounts(mem, proto, pull, fragSize);
    }
  }

  /** The bytes lines 453-468 account for the inner network header: an
      IPv4 or IPv6 header, an ARP packet, and nothing for any other
      ethertype. */
  function NetHdrLen(proto: uint16): nat
  {
    if proto == VR_ETH_PROTO_IP then IP_HDR_LEN
    else if proto == VR_ETH_PROTO_IP6 then IP6_HDR_LEN
    else if proto == VR_ETH_PROTO_ARP then ARP_LEN
    else 0
  }

  /** After the last VLAN tag: the packet is parsed exactly when the
      network header's bytes fit frag_size, pull_len then grows by exactly
      those bytes, and iph/ip6h point at the header for IPv4 and IPv6
      only; it is never UNHANDLED. */
  lemma AfterVlanPull(w: VlanEnd, fragSize: uint32, pktType: int)
    requires !w.slow && w.pull <= fragSize < 0x1000_0000
    ensures var v := AfterVlan(w, fragSize, pktType);
            v != InnerUnhandled
            && (v.InnerParsed? <==> w.pull + NetHdrLen(w.proto) <= fragSize)
            && (v.InnerParsed? ==>
                  v.pull == w.pull + NetHdrLen(w.proto) && v.pktType == pktType
                  && v.iph == (if w.proto == VR_ETH_PROTO_IP || w.proto == VR_ETH_PROTO_IP6 then Some(w.pull) else None)
                  && v.ip6h == (if w.proto == VR_ETH_PROTO_IP6 then Some(w.pull) else None))
  {
  }

  /** The inner Ethernet stage, byte for byte: a PBB ethertype adds the
      4-byte I-tag and a second 14-byte Ethernet header whose ethertype is
      then used, and the packet goes to the slow path when those do not
      fit; the VLAN tags that follow add 4 bytes each, and the network
      header adds NetHdrLen of the ethertype after the last tag. */
  lemma EthStagePull(mem: seq<uint8>, eth: nat, pull: uint32, fragSize: uint32, pktType: int)
    requires pull <= fragSize < 0x1000_0000
    ensures var pbb := NetLoad16(mem, eth + ETH_PROTO_OFF) == VR_ETH_PROTO_PBB;
            var start := if pbb then pull + PBB_ITAG_LEN + ETHER_HLEN else pull;
            var proto := NetLoad16(mem, if pbb then pull + PBB_ITAG_LEN + ETH_PROTO_OFF else eth + ETH_PROTO_OFF);
            var v := EthStage(mem, eth, pull, fragSize, pktType).0;
            (fragSize < start ==> v == InnerSlowPath)
            && (start <= fragSize ==>
                  var w := VlanWalk(mem, proto, start, fragSize);
                  start <= w.pull && (w.pull - start) % VLAN_HDR_LEN == 0
                  && (v.InnerParsed? <==> !w.slow && w.pull + NetHdrLen(w.proto) <= fragSize)
                  && (v.InnerParsed? ==>
                        v.pull == w.pull + NetHdrLen(w.proto)
                        && v.iph == (if w.proto == VR_ETH_PROTO_IP || w.proto == VR_ETH_PROTO_IP6 then Some(w.pull) else None)
                        && v.ip6h == (if w.proto == VR_ETH_PROTO_IP6 then Some(w.pull) else None)))
  {
    var pbb := NetLoad16(mem, eth + ETH_PROTO_OFF) == VR_ETH_PROTO_PBB;
    var start := if pbb then pull + PBB_ITAG_LEN + ETHER_HLEN else pull;
    var proto := NetLoad16(mem, if pbb then pull + PBB_ITAG_LEN + ETH_PROTO_OFF else eth + ETH_PROTO_OFF);
    if start <= fragSize {
      VlanWalkAccounts(mem, proto, start, fragSize);
      var w := VlanWalk(mem, proto, start, fragSize);
      if !w.slow {
        AfterVlanPull(w, fragSize, pktType);
      }
    }
  }

  /** Where the Ethernet header of an L2 payload starts past the label
      stack (lines 393-407): after the control word and the 36-byte
      VXLAN-style header for L2 multicast, after the control word for L2
      with control data, and at once for L2 unicast. */
  function L2PayloadOffset(pktType: int): nat
  {
    if pktType == PKT_MPLS_TUNNEL_L2_MCAST then L2_CTRL_DATA_LEN + VXLAN_HDR_LEN
    else if pktType == PKT_MPLS_TUNNEL_L2_CONTROL_DATA then L2_CTRL_DATA_LEN
    else 0
  }

  predicate IsL2Payload(pktType: int)
  {
    pktType == PKT_MPLS_TUNNEL_L2_MCAST || pktType == PKT_MPLS_TUNNEL_L2_CONTROL_DATA
    || pktType == PKT_MPLS_TUNNEL_L2_UCAST
  }

  /** The MPLS payload, byte for byte: an L2 payload hands on its Ethernet
      header L2PayloadOffset bytes past the stack, with those bytes and the
      Ethernet header accounted, exactly when they fit; an L3 payload is
      parsed exactly when its IPv4 or IPv6 header fits, and pull_len then
      ends after it; any other type is UNHANDLED. */
  lemma MplsPayloadPull(mem: seq<uint8>, pull: uint32, labelLen: nat, pktType: int, fragSize: uint32, rd: bool)
    requires pull + labelLen < 0x1000_0000 && fragSize < 0x1000_0000
    ensures var m := MplsPayload(mem, pull, labelLen, pktType, fragSize, rd);
            var payload := pull + labelLen;
            var eth := payload + L2PayloadOffset(pktType);
            (IsL2Payload(pktType) ==>
               (eth + ETHER_HLEN <= fragSize ==> m == ToEth(eth, eth + ETHER_HLEN, pktType, rd))
               && (fragSize < eth + ETHER_HLEN ==> m == Decided(InnerSlowPath, rd)))
            && (pktType == PKT_MPLS_TUNNEL_L3 ==>
                  var ver := Version(mem, payload);
                  m.Decided?
                  && (m.verdict.InnerParsed? <==>
                        (ver == 4 && payload + IP_HDR_LEN <= fragSize) || (ver == 6 && payload + IP6_HDR_LEN <= fragSize))
                  && (m.verdict.InnerParsed? ==>
                        m.verdict.pull == payload + (if ver == 6 then IP6_HDR_LEN else IP_HDR_LEN)))
            && (!IsL2Payload(pktType) && pktType != PKT_MPLS_TUNNEL_L3 ==> m == Decided(InnerUnhandled, rd))
  {
  }

  /** The label stack (lines 356-376): fewer than 8 bytes left goes to
      the slow path before anything is read; otherwise the payload starts
      after one label entry, or two when the outer one is skipped, and an
      L2 payload is handed on at the place MplsPayloadPull gives. */
  lemma MplsStagePull(mem: seq<uint8>, pull: uint32, fragSize: uint32, tunnelType: TunnelTypeFn)
    requires pull < 0x1000_0000 && fragSize < 0x1000_0000
    ensures var m := MplsStage(mem, pull, fragSize, tunnelType);
            var t := tunnelType(PayloadLabel(mem, pull), ControlWord(mem, pull));
            var eth := pull + StackLen(mem, pull) + L2PayloadOffset(t);
            (fragSize < pull + MPLS_HDR_LEN + L2_CTRL_DATA_LEN ==> m == Decided(InnerSlowPath, false))
            && (pull + MPLS_HDR_LEN + L2_CTRL_DATA_LEN <= fragSize && IsL2Payload(t) ==>
                  (m.ToEth? <==> eth + ETHER_HLEN <= fragSize)
                  && (m.ToEth? ==> m.eth == eth && m.pull == eth + ETHER_HLEN && m.pktType == t)
                  && (!m.ToEth? ==> m.Decided? && m.verdict == InnerSlowPath))
  {
    if pull + MPLS_HDR_LEN + L2_CTRL_DATA_LEN <= fragSize {
      var labelLen := StackLen(mem, pull);
      var t := tunnelType(PayloadLabel(mem, pull), ControlWord(mem, pull));
      var rd := Past(pull, 4, fragSize)
                || (labelLen == 2 * MPLS_HDR_LEN && Past(pull + MPLS_HDR_LEN, 4, fragSize))
                || Past(pull + labelLen, 4, fragSize);
      MplsPayloadPull(mem, pull, labelLen, t, fragSize, rd);
    }
  }

  /** VXLAN (lines 415-427): the 8-byte VXLAN header and the inner
      Ethernet header are accounted, the packet goes to the slow path when
      they do not fit, and otherwise the Ethernet stage starts right after
      the VXLAN header with pkt_type 0. */
  lemma VxlanPull(mem: seq<uint8>, tunnelType: TunnelTypeFn, mplsUdpPort: uint16 -> bool,
                  pull: uint32, fragSize: uint32, encapPort: uint16, ipProto: uint8)
    requires pull < 0x1000_0000 && fragSize < 0x1000_0000
    requires !IsMplsEncap(ipProto, encapPort, mplsUdpPort) && IsVxlanEncap(ipProto, encapPort)
    ensures var v := InnerPktParseSpec(mem, tunnelType, mplsUdpPort, pull, fragSize, encapPort, ipProto).verdict;
            (fragSize < pull + VXLAN_LEN + ETHER_HLEN ==> v == InnerSlowPath)
            && (pull + VXLAN_LEN + ETHER_HLEN <= fragSize ==>
                  v == EthStage(mem, pull + VXLAN_LEN, pull + VXLAN_LEN + ETHER_HLEN, fragSize, 0).0)
  {
  }

  /** The MPLS stage: it hands on an Ethernet header it has accounted, and
      a parsed IP payload is read inside frag_size and ends at pull_len. */
  lemma MplsStageFacts(mem: seq<uint8>, pull: uint32, fragSize: uint32, tunnelType: TunnelTypeFn)
    requires pull < 0x1000_0000 && fragSize < 0x1000_0000
    ensures var m := MplsStage(mem, pull, fragSize, tunnelType);
            (m.ToEth? ==> m.eth + ETHER_HLEN <= m.pull <= fragSize && !m.overread && m.pktType > 0)
            && (m.Decided? && m.verdict.InnerParsed? ==>
                  !m.overread && m.verdict.pull <= fragSize && m.verdict.pktType == PKT_MPLS_TUNNEL_L3
                  && m.verdict.iph == Some(pull + StackLen(mem, pull))
                  && (m.verdict.ip6h.Some? <==> Version(mem, pull + StackLen(mem, pull)) == 6)
                  && (m.verdict.ip6h.Some? ==> m.verdict.ip6h == m.verdict.iph)
                  && m.verdict.pull == m.verdict.iph.value
                                       + (if m.verdict.ip6h.Some? then IP6_HDR_LEN else IP_HDR_LEN))
  {
  }

  /** encap_type is written exactly when an encapsulation is recognised,
      before any length check; a packet of neither kind is UNHANDLED, and
      VXLAN is never UNHANDLED. */
  lemma EncapReported(mem: seq<uint8>, tunnelType: TunnelTypeFn, mplsUdpPort: uint16 -> bool,
                      pull: uint32, fragSize: uint32, encapPort: uint16, ipProto: uint8)
    requires pull < 0x1000_0000 && fragSize < 0x1000_0000
    ensures var r := InnerPktParseSpec(mem, tunnelType, mplsUdpPort, pull, fragSize, encapPort, ipProto);
            (r.encap == Some(EncapMpls) <==> IsMplsEncap(ipProto, encapPort, mplsUdpPort))
            && (r.encap == Some(EncapVxlan) <==>
                  !IsMplsEncap(ipProto, encapPort, mplsUdpPort) && IsVxlanEncap(ipProto, encapPort))
            && (r.encap.None? ==> r.verdict == InnerUnhandled && !r.overread)
            && (r.encap == Some(EncapVxlan) ==> r.verdict != InnerUnhandled)
  {
    if !IsMplsEncap(ipProto, encapPort, mplsUdpPort) && IsVxlanEncap(ipProto, encapPort) {
      var p := U32(pull + VXLAN_LEN);
      if U32(p + ETHER_HLEN) <= fragSize {
        EthStageFacts(mem, p, U32(p + ETHER_HLEN), fragSize, 0);
      }
    }
  }

  /** Over MPLS the payload type comes from the callback: UNHANDLED when
      it reports no type or one not listed, or an L3 payload that is
      neither IPv4 nor IPv6. */
  lemma MplsUnhandled(mem: seq<uint8>, tunnelType: TunnelTypeFn, pull: uint32, fragSize: uint32)
    requires U32(pull + MPLS_HDR_LEN + L2_CTRL_DATA_LEN) <= fragSize < 0x1000_0000
    ensures var m := MplsStage(mem, pull, fragSize, tunnelType);
            var t := tunnelType(PayloadLabel(mem, pull), ControlWord(mem, pull));
            var ver := Version(mem, pull + StackLen(mem, pull));
            (m.Decided? && m.verdict == InnerUnhandled) <==>
              (t <= 0
               || (t == PKT_MPLS_TUNNEL_L3 && ver != 4 && ver != 6)
               || (t != PKT_MPLS_TUNNEL_L3 && t != PKT_MPLS_TUNNEL_L2_MCAST
                   && t != PKT_MPLS_TUNNEL_L2_CONTROL_DATA && t != PKT_MPLS_TUNNEL_L2_UCAST))
  {
  }

  /** A parsed packet: pull_len fits frag_size, nothing past frag_size was
      read, the inner IPv4 or IPv6 header ends exactly at pull_len and ip6h
      is iph when set; pkt_type is 0 for VXLAN and the callback's positive
      type for MPLS. */
  lemma {:induction false} ParsedInner(mem: seq<uint8>, tunnelType: TunnelTypeFn, mplsUdpPort: uint16 -> bool,
                                       pull: uint32, fragSize: uint32, encapPort: uint16, ipProto: uint8)
    requires pull < 0x1000_0000 && fragSize < 0x1000_0000
    ensures var r := InnerPktParseSpec(mem, tunnelType, mplsUdpPort, pull, fragSize, encapPort, ipProto);
            var v := r.verdict;
            v.InnerParsed? ==>
              !r.overread && v.pull <= fragSize
              && (v.iph.Some? ==> v.pull == v.iph.value + (if v.ip6h.Some? then IP6_HDR_LEN else IP_HDR_LEN))
              && (v.ip6h.Some? ==> v.iph == v.ip6h)
              && (r.encap == Some(EncapVxlan) ==> v.pktType == 0)
              && (r.encap == Some(EncapMpls) ==> v.pktType > 0)
  {
    if IsMplsEncap(ipProto, encapPort, mplsUdpPort) {
      MplsStageFacts(mem, pull, fragSize, tunnelType);
      var m := MplsStage(mem, pull, fragSize, tunnelType);
      if m.ToEth? {
        EthStageFacts(mem, m.eth, m.pull, fragSize, m.pktType);
      }
    } else if IsVxlanEncap(ipProto, encapPort) {
      var p := U32(pull + VXLAN_LEN);
      if U32(p + ETHER_HLEN) <= fragSize {
        EthStageFacts(mem, p, U32(p + ETHER_HLEN), fragSize, 0);
      }
    }
  }

  /** Lines 364-372 check 8 bytes but read up to 12: with the outer label
      skipped and exactly 8 bytes left, the control word handed to the
      callback comes from past frag_size, and the packet is never parsed. */
  lemma ControlWordReadPastCheck(mem: seq<uint8>, tunnelType: TunnelTypeFn, pull: uint32)
    requires pull + 8 < 0x1000_0000
    requires SkipsOuterLabel(NetLoad32(mem, pull))
    ensures var m := MplsStage(mem, pull, pull + 8, tunnelType);
            m.overread && m.Decided? && !m.verdict.InnerParsed?
  {
  }

  /** Line 447 reads a tag's inner ethertype before line 449 checks that
      the tag fits: a VLAN tag that starts 2 bytes before frag_size is read
      past it and sends the packet to the slow path. */
  lemma VlanReadBeforeCheck(mem: seq<uint8>, pull: uint32)
    requires pull + 2 < 0xFFFF_FFFC
    ensures var w := VlanWalk(mem, VR_ETH_PROTO_VLAN, pull, pull + 2);
            w.slow && w.overread
  {
  }

  /** A parsed inner packet is a valid start for vr_ip_transport_parse
      whenever its version nibble agrees with the header kind that was
      found (always over MPLS, where the nibble chooses the kind). */
  lemma {:induction false} InnerHeadersWellPlaced(mem: seq<uint8>, tunnelType: TunnelTypeFn, mplsUdpPort: uint16 -> bool,
                                                  pull: uint32, fragSize: uint32, encapPort: uint16, ipProto: uint8)
    requires pull < 0x1000_0000 && fragSize < 0x1000_0000
    requires var v := InnerPktParseSpec(mem, tunnelType, mplsUdpPort, pull, fragSize, encapPort, ipProto).verdict;
             v.InnerParsed? && v.iph.Some?
             && (Version(mem, v.iph.value) == 4 ==> v.ip6h.None?)
             && (Version(mem, v.iph.value) == 6 ==> v.ip6h.Some?)
    ensures var v := InnerPktParseSpec(mem, tunnelType, mplsUdpPort, pull, fragSize, encapPort, ipProto).verdict;
            TransportFacts.WellPlaced(mem, v.iph.value, v.ip6h, fragSize, v.pull)
  {
    ParsedInner(mem, tunnelType, mplsUdpPort, pull, fragSize, encapPort, ipProto);
  }
}
