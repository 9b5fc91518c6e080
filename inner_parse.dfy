/** The tunnel decapsulation walk (vr_inner_pkt_parse): from the end of the
    outer UDP or GRE header, through an MPLS label stack or a VXLAN header,
    optional PBB and VLAN tags, to the inner network header.

    Memory and offsets are as in IpTransport: `va` is offset 0, pull_len is
    the offset just past the bytes accounted for so far, and every read is
    checked against frag_size. */
module InnerParse {
  import opened Bytes
  import opened PacketDefs
  import opened IpTransport

  /** The value stored through encap_type. */
  datatype Encap = EncapMpls | EncapVxlan

  /** The return value and, for 0, what it writes through pull_lenp, iphp,
      ip6hp and pkt_typep. */
  datatype InnerVerdict =
    | InnerParsed(pull: uint32, iph: Option<nat>, ip6h: Option<nat>, pktType: int)
    | InnerSlowPath
    | InnerUnhandled

  /** encap is None when encap_type is not written. */
  datatype InnerResult = InnerResult(verdict: InnerVerdict, encap: Option<Encap>, overread: bool)

  /** The callback that classifies an MPLS payload from its label and the
      four bytes after the label stack (tunnel_type_cb; its third argument
      is always NULL here). */
  type TunnelTypeFn = (uint32, uint32) -> int

  /** The label stack entry ends the stack (RFC 3032: bit S). */
  predicate BottomOfStack(entry: uint32)
  {
    (entry / VR_MPLS_LABEL_STACK_BIT_MASK) % 2 == 1
  }

  /** The label value, the 20 bits above TC and S. */
  function LabelValue(entry: uint32): nat
  {
    entry / 0x1000
  }

  /** An outer label that is not bottom of stack and carries label value
      0xFFFFF is skipped (lines 365-370). */
  predicate SkipsOuterLabel(entry: uint32)
  {
    !BottomOfStack(entry) && LabelValue(entry) == VR_MPLS_LABEL_MASK
  }

  // ---------------------------------------------------------------------
  // The walk as functions.

  /** Where a VLAN tag run ends: the ethertype after it, the pull length,
      whether a tag did not fit and whether a read went past frag_size. */
  datatype VlanEnd = VlanEnd(proto: uint16, pull: uint32, slow: bool, overread: bool)

  /** Lines 446-451: each 802.1Q tag is accounted 4 bytes; its inner
      ethertype is read before the check. */
  function VlanWalk(mem: seq<uint8>, proto: uint16, pull: uint32, fragSize: uint32): VlanEnd
    requires pull <= fragSize < 0xFFFF_FFFC
    decreases fragSize - pull
  {
    if proto != VR_ETH_PROTO_VLAN then VlanEnd(proto, pull, false, false)
    else
      var proto' := NetLoad16(mem, pull + VLAN_PROTO_OFF);
      var rd := Past(pull + VLAN_PROTO_OFF, 2, fragSize);
      var pull' := pull + VLAN_HDR_LEN;
      if fragSize < pull' then VlanEnd(proto', pull', true, rd)
      else
        var e := VlanWalk(mem, proto', pull', fragSize);
        e.(overread := rd || e.overread)
  }

  /** Lines 453-468: the inner network header after the last tag. */
  function AfterVlan(w: VlanEnd, fragSize: uint32, pktType: int): InnerVerdict
  {
    if w.slow then InnerSlowPath
    else if w.proto == VR_ETH_PROTO_IP then
      var p := U32(w.pull + IP_HDR_LEN);
      if fragSize < p then InnerSlowPath else InnerParsed(p, Some(w.pull), None, pktType)
    else if w.proto == VR_ETH_PROTO_IP6 then
      var p := U32(w.pull + IP6_HDR_LEN);
      if fragSize < p then InnerSlowPath else InnerParsed(p, Some(w.pull), Some(w.pull), pktType)
    else if w.proto == VR_ETH_PROTO_ARP then
      var p := U32(w.pull + ARP_LEN);
      if fragSize < p then InnerSlowPath else InnerParsed(p, None, None, pktType)
    else InnerParsed(w.pull, None, None, pktType)
  }

  /** Lines 431-469: an inner Ethernet header at `eth`, already accounted
      in `pull`, possibly a PBB I-tag and a second Ethernet header, then
      VLAN tags and the network header. */
  function EthStage(mem: seq<uint8>, eth: nat, pull: uint32, fragSize: uint32, pktType: int): (InnerVerdict, bool)
    requires pull <= fragSize < 0xFFFF_FFFC
  {
    var proto := NetLoad16(mem, eth + ETH_PROTO_OFF);
    var rd := Past(eth + ETH_PROTO_OFF, 2, fragSize);
    if proto == VR_ETH_PROTO_PBB then
      var pull1 := U32(pull + PBB_ITAG_LEN);
      if fragSize < pull1 then (InnerSlowPath, rd)
      else
        var pull2 := U32(pull1 + ETHER_HLEN);
        if fragSize < pull2 then (InnerSlowPath, rd)
        else
          var proto2 := NetLoad16(mem, pull1 + ETH_PROTO_OFF);
          var rd := rd || Past(pull1 + ETH_PROTO_OFF, 2, fragSize);
          var w := VlanWalk(mem, proto2, pull2, fragSize);
          (AfterVlan(w, fragSize, pktType), rd || w.overread)
    else
      var w := VlanWalk(mem, proto, pull, fragSize);
      (AfterVlan(w, fragSize, pktType), rd || w.overread)
  }

  /** How the MPLS branch ends: with an inner Ethernet header still to
      walk, or with a verdict. */
  datatype MplsEnd =
    | ToEth(eth: nat, pull: uint32, pktType: int, overread: bool)
    | Decided(verdict: InnerVerdict, overread: bool)

  /** The bytes of the label stack: one entry, or two when the outer one
      is skipped. */
  function StackLen(mem: seq<uint8>, pull: nat): nat
  {
    if SkipsOuterLabel(NetLoad32(mem, pull)) then 2 * MPLS_HDR_LEN else MPLS_HDR_LEN
  }

  /** The label entry handed to the callback, in host order. */
  function PayloadLabel(mem: seq<uint8>, pull: nat): uint32
  {
    NetLoad32(mem, pull + StackLen(mem, pull) - MPLS_HDR_LEN)
  }

  /** The four bytes after the stack, loaded without byte swapping. */
  function ControlWord(mem: seq<uint8>, pull: nat): uint32
  {
    HostLoad32(mem, pull + StackLen(mem, pull))
  }

  /** Lines 356-413: the label stack and the payload it announces. */
  function MplsStage(mem: seq<uint8>, pull: uint32, fragSize: uint32, tunnelType: TunnelTypeFn): MplsEnd
  {
    if fragSize < U32(pull + MPLS_HDR_LEN + L2_CTRL_DATA_LEN) then Decided(InnerSlowPath, false)
    else
      var labelLen := StackLen(mem, pull);
      var rd := Past(pull, 4, fragSize)
                || (labelLen == 2 * MPLS_HDR_LEN && Past(pull + MPLS_HDR_LEN, 4, fragSize))
                || Past(pull + labelLen, 4, fragSize);
      MplsPayload(mem, pull, labelLen, tunnelType(PayloadLabel(mem, pull), ControlWord(mem, pull)), fragSize, rd)
  }

  /** Lines 377-413: the payload the callback classified, after a label
      stack of `labelLen` bytes at `pull`. */
  function MplsPayload(mem: seq<uint8>, pull: uint32, labelLen: nat, pktType: int, fragSize: uint32, rd: bool): MplsEnd
  {
    var payload := pull + labelLen;
    if pktType <= 0 then Decided(InnerUnhandled, rd)
    else if pktType == PKT_MPLS_TUNNEL_L3 then
      var rd := rd || Past(payload, 1, fragSize);
      if Version(mem, payload) == 6 then
        var p := U32(pull + labelLen + IP6_HDR_LEN);
        Decided(if fragSize < p then InnerSlowPath else InnerParsed(p, Some(payload), Some(payload), pktType), rd)
      else if Version(mem, payload) == 4 then
        var p := U32(pull + labelLen + IP_HDR_LEN);
        Decided(if fragSize < p then InnerSlowPath else InnerParsed(p, Some(payload), None, pktType), rd)
      else Decided(InnerUnhandled, rd)
    else if pktType == PKT_MPLS_TUNNEL_L2_MCAST then
      var p := U32(pull + labelLen + L2_CTRL_DATA_LEN + VXLAN_HDR_LEN + ETHER_HLEN);
      if fragSize < p then Decided(InnerSlowPath, rd)
      else ToEth(payload + L2_CTRL_DATA_LEN + VXLAN_HDR_LEN, p, pktType, rd)
    else if pktType == PKT_MPLS_TUNNEL_L2_CONTROL_DATA then
      var p := U32(pull + labelLen + L2_CTRL_DATA_LEN + ETHER_HLEN);
      if fragSize < p then Decided(InnerSlowPath, rd)
      else ToEth(payload + L2_CTRL_DATA_LEN, p, pktType, rd)
    else if pktType == PKT_MPLS_TUNNEL_L2_UCAST then
      var p := U32(pull + labelLen + ETHER_HLEN);
      if fragSize < p then Decided(InnerSlowPath, rd)
      else ToEth(payload, p, pktType, rd)
    else Decided(InnerUnhandled, rd)
  }

  /** The encapsulations the walk recognises, from the outer protocol and
      the GRE protocol or UDP destination port (in host order). */
  predicate IsMplsEncap(ipProto: uint8, encapPort: uint16, mplsUdpPort: uint16 -> bool)
  {
    (ipProto == VR_IP_PROTO_GRE && encapPort == VR_GRE_PROTO_MPLS)
    || (ipProto == VR_IP_PROTO_UDP && mplsUdpPort(encapPort))
  }

  predicate IsVxlanEncap(ipProto: uint8, encapPort: uint16)
  {
    ipProto == VR_IP_PROTO_UDP && encapPort == VR_VXLAN_UDP_DST_PORT
  }

  /** vr_inner_pkt_parse, as a function of its inputs. `mplsUdpPort` is
      vr_mpls_udp_port. */
  function InnerPktParseSpec(mem: seq<uint8>, tunnelType: TunnelTypeFn, mplsUdpPort: uint16 -> bool,
                             pull: uint32, fragSize: uint32, encapPort: uint16, ipProto: uint8): InnerResult
    requires fragSize < 0xFFFF_FFFC
  {
    if IsMplsEncap(ipProto, encapPort, mplsUdpPort) then
      match MplsStage(mem, pull, fragSize, tunnelType)
      case Decided(v, rd) => InnerResult(v, Some(EncapMpls), rd)
      case ToEth(eth, p, pktType, rd) =>
        var (v, rd') := EthStage(mem, eth, p, fragSize, pktType);
        InnerResult(v, Some(EncapMpls), rd || rd')
    else if IsVxlanEncap(ipProto, encapPort) then
      var p := U32(pull + VXLAN_LEN);
      if fragSize < U32(p + ETHER_HLEN) then InnerResult(InnerSlowPath, Some(EncapVxlan), false)
      else
        var (v, rd) := EthStage(mem, p, U32(p + ETHER_HLEN), fragSize, 0);
        InnerResult(v, Some(EncapVxlan), rd)
    else InnerResult(InnerUnhandled, None, false)
  }

  // ---------------------------------------------------------------------
  // The routine, step for step.

  /** Lines 431-469, with the VLAN loop. */
  method InnerEthernet(mem: seq<uint8>, eth: nat, pullIn: uint32, fragSize: uint32, pktType: int)
    returns (v: InnerVerdict, overread: bool)
    requires pullIn <= fragSize < 0xFFFF_FFFC
    ensures (v, overread) == EthStage(mem, eth, pullIn, fragSize, pktType)
  {
    var pullLen := pullIn;
    var ethProto := NetLoad16(mem, eth + ETH_PROTO_OFF);
    overread := Past(eth + ETH_PROTO_OFF, 2, fragSize);
    if ethProto == VR_ETH_PROTO_PBB {
      pullLen := U32(pullLen + PBB_ITAG_LEN);
      if fragSize < pullLen {
        return InnerSlowPath, overread;
      }
      var eth2 := pullLen;
      pullLen := U32(pullLen + ETHER_HLEN);
      if fragSize < pullLen {
        return InnerSlowPath, overread;
      }
      ethProto := NetLoad16(mem, eth2 + ETH_PROTO_OFF);
      overread := overread || Past(eth2 + ETH_PROTO_OFF, 2, fragSize);
    }

    ghost var w := VlanWalk(mem, ethProto, pullLen, fragSize);
    ghost var rd0 := overread;
    while ethProto == VR_ETH_PROTO_VLAN
      invariant pullLen <= fragSize
      invariant var e := VlanWalk(mem, ethProto, pullLen, fragSize);
                e.(overread := overread || e.overread) == w.(overread := rd0 || w.overread)
      decreases fragSize - pullLen
    {
      overread := overread || Past(pullLen + VLAN_PROTO_OFF, 2, fragSize);
      ethProto := NetLoad16(mem, pullLen + VLAN_PROTO_OFF);
      pullLen := pullLen + VLAN_HDR_LEN;
      if fragSize < pullLen {
        return InnerSlowPath, overread;
      }
    }

    v := InnerNetwork(ethProto, pullLen, fragSize, pktType);
  }

  /** Lines 453-468: the inner network header. */
  method InnerNetwork(ethProto: uint16, pullIn: uint32, fragSize: uint32, pktType: int)
    returns (v: InnerVerdict)
    ensures v == AfterVlan(VlanEnd(ethProto, pullIn, false, false), fragSize, pktType)
  {
    var pullLen := pullIn;
    if ethProto == VR_ETH_PROTO_IP {
      var iph := pullLen;
      pullLen := U32(pullLen + IP_HDR_LEN);
      if fragSize < pullLen {
        return InnerSlowPath;
      }
      v := InnerParsed(pullLen, Some(iph), None, pktType);
    } else if ethProto == VR_ETH_PROTO_IP6 {
      var ip6h := pullLen;
      pullLen := U32(pullLen + IP6_HDR_LEN);
      if fragSize < pullLen {
        return InnerSlowPath;
      }
      v := InnerParsed(pullLen, Some(ip6h), Some(ip6h), pktType);
    } else if ethProto == VR_ETH_PROTO_ARP {
      pullLen := U32(pullLen + ARP_LEN);
      if fragSize < pullLen {
        return InnerSlowPath;
      }
      v := InnerParsed(pullLen, None, None, pktType);
    } else {
      v := InnerParsed(pullLen, None, None, pktType);
    }
  }

  /** Lines 353-413: the MPLS label stack. */
  method InnerMpls(mem: seq<uint8>, pullIn: uint32, fragSize: uint32, tunnelType: TunnelTypeFn)
    returns (r: MplsEnd)
    ensures r == MplsStage(mem, pullIn, fragSize, tunnelType)
  {
    var pullLen := pullIn;
    if fragSize < U32(pullLen + MPLS_HDR_LEN + L2_CTRL_DATA_LEN) {
      return Decided(InnerSlowPath, false);
    }
    var mplsLabelLen := MPLS_HDR_LEN;
    var entry := NetLoad32(mem, pullLen);
    var overread := Past(pullLen, 4, fragSize);
    if SkipsOuterLabel(entry) {
      entry := NetLoad32(mem, pullLen + MPLS_HDR_LEN);
      overread := overread || Past(pullLen + MPLS_HDR_LEN, 4, fragSize);
      mplsLabelLen := 2 * MPLS_HDR_LEN;
    }
    var controlData := HostLoad32(mem, pullLen + mplsLabelLen);
    overread := overread || Past(pullLen + mplsLabelLen, 4, fragSize);

    var pktType := tunnelType(entry, controlData);
    r := InnerMplsPayload(mem, pullLen, mplsLabelLen, pktType, fragSize, overread);
  }

  /** Lines 377-413: the announced payload. */
  method InnerMplsPayload(mem: seq<uint8>, pullIn: uint32, mplsLabelLen: nat, pktType: int,
                          fragSize: uint32, overreadIn: bool) returns (r: MplsEnd)
    ensures r == MplsPayload(mem, pullIn, mplsLabelLen, pktType, fragSize, overreadIn)
  {
    var pullLen := pullIn;
    var overread := overreadIn;
    if pktType <= 0 {
      return Decided(InnerUnhandled, overread);
    }
    var eth: nat;
    if pktType == PKT_MPLS_TUNNEL_L3 {
      var iph := pullLen + mplsLabelLen;
      overread := overread || Past(iph, 1, fragSize);
      var ip6h: Option<nat> := None;
      if Version(mem, iph) == 6 {
        ip6h := Some(iph);
        pullLen := U32(pullLen + mplsLabelLen + IP6_HDR_LEN);
      } else if Version(mem, iph) == 4 {
        pullLen := U32(pullLen + mplsLabelLen + IP_HDR_LEN);
      } else {
        return Decided(InnerUnhandled, overread);
      }
      if fragSize < pullLen {
        return Decided(InnerSlowPath, overread);
      }
      return Decided(InnerParsed(pullLen, Some(iph), ip6h, pktType), overread);
    } else if pktType == PKT_MPLS_TUNNEL_L2_MCAST {
      eth := pullLen + mplsLabelLen + L2_CTRL_DATA_LEN + VXLAN_HDR_LEN;
      pullLen := U32(pullLen + mplsLabelLen + L2_CTRL_DATA_LEN + VXLAN_HDR_LEN + ETHER_HLEN);
    } else if pktType == PKT_MPLS_TUNNEL_L2_CONTROL_DATA {
      eth := pullLen + mplsLabelLen + L2_CTRL_DATA_LEN;
      pullLen := U32(pullLen + mplsLabelLen + L2_CTRL_DATA_LEN + ETHER_HLEN);
    } else if pktType == PKT_MPLS_TUNNEL_L2_UCAST {
      eth := pullLen + mplsLabelLen;
      pullLen := U32(pullLen + mplsLabelLen + ETHER_HLEN);
    } else {
      return Decided(InnerUnhandled, overread);
    }
    if fragSize < pullLen {
      return Decided(InnerSlowPath, overread);
    }
    r := ToEth(eth, pullLen, pktType, overread);
  }

  /** vr_inner_pkt_parse: classifies the tunnel, accounts its headers in
      pull_len and finds the inner network header. */
  method InnerPktParse(mem: seq<uint8>, tunnelType: TunnelTypeFn, mplsUdpPort: uint16 -> bool,
                       pullIn: uint32, fragSize: uint32, encapPort: uint16, ipProto: uint8)
    returns (ret: InnerVerdict, encap: Option<Encap>, overread: bool)
    requires fragSize < 0xFFFF_FFFC
    ensures InnerResult(ret, encap, overread)
            == InnerPktParseSpec(mem, tunnelType, mplsUdpPort, pullIn, fragSize, encapPort, ipProto)
  {
    var pullLen := pullIn;
    if IsMplsEncap(ipProto, encapPort, mplsUdpPort) {
      encap := Some(EncapMpls);
      var m := InnerMpls(mem, pullLen, fragSize, tunnelType);
      if m.Decided? {
        return m.verdict, encap, m.overread;
      }
      var rd;
      ret, rd := InnerEthernet(mem, m.eth, m.pull, fragSize, m.pktType);
      overread := m.overread || rd;
    } else if IsVxlanEncap(ipProto, encapPort) {
      encap := Some(EncapVxlan);
      pullLen := U32(pullLen + VXLAN_LEN);
      if fragSize < U32(pullLen + ETHER_HLEN) {
        return InnerSlowPath, encap, false;
      }
      var eth := pullLen;
      pullLen := U32(pullLen + ETHER_HLEN);
      ret, overread := InnerEthernet(mem, eth, pullLen, fragSize, 0);
    } else {
      return InnerUnhandled, None, false;
    }
  }
}
