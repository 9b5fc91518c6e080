/** What vr_ip_transport_parse guarantees its callers: which inputs take
    which exit, what the out-parameters hold, where the reported checksum
    comes from, and that on the fast path no byte past frag_size is read. */
module TransportFacts {
  import opened Bytes
  import opened PacketDefs
  import opened IpTransport

  // ---------------------------------------------------------------------
  // Layer by layer.

  /** Each transport branch leaves for the slow path only with a pull
      length past frag_size (or, for TCP, for want of the MSS callback),
      and otherwise keeps the pull length inside frag_size when it starts
      inside it. */
  lemma TcpStepExits(mem: seq<uint8>, tcph: nat, hlen: uint32, pull: uint32, fragSize: uint32,
                     mssAdj: bool, hook: Option<MssHook>)
    requires pull <= fragSize
    ensures var s := TcpStep(mem, tcph, hlen, pull, fragSize, mssAdj, hook).0;
            (s.Stop? && s.reason.Short? ==> fragSize < s.reason.pullLen)
            && (s.Stop? && s.reason.NoMssHook? ==> mssAdj && hook.None?)
            && (s.Step? ==> s.pull <= fragSize)
  {
  }

  lemma IcmpStepExits(mem: seq<uint8>, icmph: nat, pull: uint32, fragSize: uint32, checks: HeaderChecks)
    requires pull <= fragSize
    ensures var s := IcmpStep(mem, icmph, pull, fragSize, checks);
            (s.Stop? ==> s.reason.Short? && fragSize < s.reason.pullLen)
            && (s.Step? ==> s.pull <= fragSize)
  {
  }

  lemma Icmp6StepExits(mem: seq<uint8>, icmph: nat, pull: uint32, fragSize: uint32, checks: HeaderChecks)
    ensures var s := Icmp6Step(mem, icmph, pull, fragSize, checks);
            (s.Stop? ==> s.reason.Short? && fragSize < s.reason.pullLen)
            && (s.Step? ==> s.pull <= fragSize)
  {
    var e := Icmp6ErrorStep(mem, icmph + ICMP_HDR_LEN, U32(pull + IP6_HDR_LEN), fragSize, Past(icmph, 1, fragSize));
    assert e.Stop? ==> e.reason.Short? && fragSize < e.reason.pullLen;
  }

  /** The transport layer writes thp, reports the network layer's hlen
      and pull length unchanged as hlen and tcph_pull_len, and never
      returns UNHANDLED. */
  lemma {:induction false} TransportLayerExits(mem: seq<uint8>, ip: nat, ip6h: Option<nat>, fragSize: uint32,
                                               mssAdj: bool, hook: Option<MssHook>, checks: HeaderChecks,
                                               proto: uint8, hlen: uint32, pullL3: uint32, rd: bool)
    ensures var r := ParseL4(mem, ip, ip6h, fragSize, mssAdj, hook, checks, proto, hlen, pullL3, rd);
            r.th == Some(ip + hlen) && !r.verdict.Unhandled?
            && (r.verdict.SlowPath? && r.verdict.reason.Short? ==> fragSize < r.verdict.reason.pullLen)
            && (r.verdict.SlowPath? && r.verdict.reason.NoMssHook? ==> mssAdj && hook.None?)
            && (r.verdict.Parsed? ==>
                  r.verdict.hlen == hlen && r.verdict.tcphPullLen == pullL3 && r.verdict.pullLen <= fragSize)
  {
    var th := ip + hlen;
    var p := U32(pullL3 + L4Len(proto));
    if fragSize >= p {
      if proto == VR_IP_PROTO_TCP {
        TcpStepExits(mem, th, hlen, p, fragSize, mssAdj, hook);
      } else if proto == VR_IP_PROTO_ICMP {
        IcmpStepExits(mem, th, p, fragSize, checks);
      } else if Peek(mem, ip + IP_PROTO_OFF) != VR_IP_PROTO_UDP
                && proto == VR_IP_PROTO_ICMP6 && ip6h.Some? {
        Icmp6StepExits(mem, ip6h.value + hlen, p, fragSize, checks);
      }
    }
  }

  /** The network layer: UNHANDLED exactly for a version other than 4 and
      6, or IPv6 without ip6h; otherwise hlen is the IPv4 header length with
      options or the IPv6 header plus a Fragment header when one follows. */
  lemma NetworkLayerShape(mem: seq<uint8>, ip: nat, ip6h: Option<nat>, fragSize: uint32,
                          pull: uint32, checks: HeaderChecks)
    ensures var l3 := ParseL3(mem, ip, ip6h, fragSize, pull, checks);
            (l3.L3Unhandled? <==>
               ((Version(mem, ip) != 4 && Version(mem, ip) != 6) || (Version(mem, ip) == 6 && ip6h.None?)))
            && (l3.L3Slow? ==> fragSize < l3.pull)
            && (l3.L3? && l3.valid <==>
                  ((Version(mem, ip) == 4 && checks.ipValid(mem, ip))
                   || (Version(mem, ip) == 6 && ip6h.Some? && checks.ip6Valid(mem, ip6h.value)
                       && (Peek(mem, ip6h.value + IP6_NXT_OFF) == VR_IP6_PROTO_FRAG
                           ==> U32(pull + IP6_FRAG_HDR_LEN) <= fragSize))))
            && (l3.L3? && Version(mem, ip) == 4 && l3.valid ==>
                  l3.hlen == Ihl(mem, ip) * 4 && l3.pull == U32(pull + Ihl(mem, ip) * 4 - IP_HDR_LEN))
            && (l3.L3? && Version(mem, ip) == 6 ==>
                  l3.hlen == (if Peek(mem, ip6h.value + IP6_NXT_OFF) == VR_IP6_PROTO_FRAG then 48 else 40))
  {
  }

  // ---------------------------------------------------------------------
  // The whole walk.

  /** The exits. UNHANDLED is returned exactly for a header that is
      neither IPv4 nor IPv6, or an IPv6 header without ip6h; a slow-path
      exit for a short fragment names a pull length past frag_size, and the
      other slow-path exit happens only when an MSS adjustment is wanted
      and no callback was given. */
  lemma {:induction false} Exits(mem: seq<uint8>, iph: Option<nat>, ip6h: Option<nat>, fragSize: uint32,
                                 mssAdj: bool, hook: Option<MssHook>, checks: HeaderChecks, pull: uint32)
    ensures var r := TransportParse(mem, iph, ip6h, fragSize, mssAdj, hook, checks, pull);
            (r.verdict == Unhandled <==>
               iph.Some? && ((Version(mem, iph.value) != 4 && Version(mem, iph.value) != 6)
                             || (Version(mem, iph.value) == 6 && ip6h.None?)))
            && (r.verdict.SlowPath? && r.verdict.reason.Short? ==> fragSize < r.verdict.reason.pullLen)
            && (r.verdict.SlowPath? && r.verdict.reason.NoMssHook? ==> mssAdj && hook.None?)
  {
    if iph.Some? {
      NetworkLayerShape(mem, iph.value, ip6h, fragSize, pull, checks);
      var l3 := ParseL3(mem, iph.value, ip6h, fragSize, pull, checks);
      if l3.L3? && l3.valid {
        TransportLayerExits(mem, iph.value, ip6h, fragSize, mssAdj, hook, checks, l3.proto, l3.hlen, l3.pull, l3.overread);
      }
    }
  }

  /** A NULL iph writes the out-parameters as zero and leaves pull_len, the
      memory and thp alone (line 119 and lines 320-326). */
  lemma NullHeader(mem: seq<uint8>, ip6h: Option<nat>, fragSize: uint32,
                   mssAdj: bool, hook: Option<MssHook>, checks: HeaderChecks, pull: uint32)
    ensures TransportParse(mem, None, ip6h, fragSize, mssAdj, hook, checks, pull)
            == ParseResult(Parsed(0, 0, 0, pull), None, mem, false)
  {
  }

  /** The out-parameters: thp is written exactly when the transport header
      is valid; it then points hlen bytes past iph, where hlen is the IPv4
      header length with options, or the IPv6 header plus a Fragment header
      when one follows; on the fast path the final pull length fits
      frag_size. For IPv4, tcph_pull_len is the pull length at the
      transport header; TransportLayerExits states this for both versions. */
  lemma {:induction false} HeaderLength(mem: seq<uint8>, ip: nat, ip6h: Option<nat>, fragSize: uint32,
                                        mssAdj: bool, hook: Option<MssHook>, checks: HeaderChecks, pull: uint32)
    ensures var r := TransportParse(mem, Some(ip), ip6h, fragSize, mssAdj, hook, checks, pull);
            var v := r.verdict;
            (r.th.Some? <==>
               ((Version(mem, ip) == 4 && checks.ipValid(mem, ip))
                || (Version(mem, ip) == 6 && ip6h.Some? && checks.ip6Valid(mem, ip6h.value)
                    && (Peek(mem, ip6h.value + IP6_NXT_OFF) == VR_IP6_PROTO_FRAG ==> U32(pull + IP6_FRAG_HDR_LEN) <= fragSize))))
            && (v.Parsed? && r.th.Some? ==> r.th.value == ip + v.hlen && v.pullLen <= fragSize)
            && (v.Parsed? && Version(mem, ip) == 4 && checks.ipValid(mem, ip) ==>
                  v.hlen == Ihl(mem, ip) * 4 && v.tcphPullLen == U32(pull + Ihl(mem, ip) * 4 - IP_HDR_LEN))
            && (v.Parsed? && Version(mem, ip) == 6 && ip6h.Some? ==>
                  v.hlen == (if Peek(mem, ip6h.value + IP6_NXT_OFF) == VR_IP6_PROTO_FRAG then 48 else 40))
  {
    NetworkLayerShape(mem, ip, ip6h, fragSize, pull, checks);
    var l3 := ParseL3(mem, ip, ip6h, fragSize, pull, checks);
    if l3.L3? && l3.valid {
      TransportLayerExits(mem, ip, ip6h, fragSize, mssAdj, hook, checks, l3.proto, l3.hlen, l3.pull, l3.overread);
    }
  }

  /** The memory changes only through the MSS callback, which runs on a
      TCP SYN when vr_to_vm_mss_adj is set, receiving the TCP header, the
      overlay length and the header length cut to a byte. */
  lemma TransportLayerMemory(mem: seq<uint8>, ip: nat, ip6h: Option<nat>, fragSize: uint32,
                             mssAdj: bool, hook: Option<MssHook>, checks: HeaderChecks,
                             proto: uint8, hlen: uint32, pullL3: uint32, rd: bool)
    ensures var r := ParseL4(mem, ip, ip6h, fragSize, mssAdj, hook, checks, proto, hlen, pullL3, rd);
            (r.mem != mem ==>
               proto == VR_IP_PROTO_TCP && mssAdj && hook.Some? && SynSet(mem, ip + hlen)
               && r.mem == hook.value(mem, ip + hlen, VROUTER_L2_OVERLAY_LEN, hlen % 256))
            && (proto == VR_IP_PROTO_TCP && U32(pullL3 + TCP_HDR_LEN) <= fragSize
                && mssAdj && hook.Some? && SynSet(mem, ip + hlen) ==>
                  r.mem == hook.value(mem, ip + hlen, VROUTER_L2_OVERLAY_LEN, hlen % 256))
  {
    if proto == VR_IP_PROTO_TCP && U32(pullL3 + TCP_HDR_LEN) <= fragSize {
      TcpStepMemory(mem, ip + hlen, hlen, U32(pullL3 + TCP_HDR_LEN), fragSize, mssAdj, hook);
    }
  }

  /** The TCP step calls the MSS callback exactly on a SYN when
      vr_to_vm_mss_adj is set and a callback exists, and the memory it
      leaves is the callback's. */
  lemma TcpStepMemory(mem: seq<uint8>, tcph: nat, hlen: uint32, pull: uint32, fragSize: uint32,
                      mssAdj: bool, hook: Option<MssHook>)
    ensures TcpStep(mem, tcph, hlen, pull, fragSize, mssAdj, hook).1
            == if SynSet(mem, tcph) && mssAdj && hook.Some?
               then hook.value(mem, tcph, VROUTER_L2_OVERLAY_LEN, hlen % 256)
               else mem
  {
  }

  lemma {:induction false} MemoryChangesOnlyByHook(mem: seq<uint8>, iph: Option<nat>, ip6h: Option<nat>, fragSize: uint32,
                                                   mssAdj: bool, hook: Option<MssHook>, checks: HeaderChecks, pull: uint32)
    ensures var r := TransportParse(mem, iph, ip6h, fragSize, mssAdj, hook, checks, pull);
            r.mem != mem ==>
              iph.Some? && r.th.Some? && mssAdj && hook.Some? && SynSet(mem, r.th.value)
              && r.mem == hook.value(mem, r.th.value, VROUTER_L2_OVERLAY_LEN,
                                     ParseL3(mem, iph.value, ip6h, fragSize, pull, checks).hlen % 256)
  {
    if iph.Some? {
      var l3 := ParseL3(mem, iph.value, ip6h, fragSize, pull, checks);
      if l3.L3? && l3.valid {
        TransportLayerMemory(mem, iph.value, ip6h, fragSize, mssAdj, hook, checks, l3.proto, l3.hlen, l3.pull, l3.overread);
      }
    }
  }

  /** A TCP SYN whose fixed header fits, with vr_to_vm_mss_adj set and a
      callback given, always reaches the callback: the walk leaves the
      memory the callback returns for the TCP header, the overlay length
      and the header length cut to a byte. */
  lemma SynWithHook(mem: seq<uint8>, ip: nat, ip6h: Option<nat>, fragSize: uint32,
                    hook: Option<MssHook>, checks: HeaderChecks, pull: uint32)
    requires var l3 := ParseL3(mem, ip, ip6h, fragSize, pull, checks);
             l3.L3? && l3.valid && l3.proto == VR_IP_PROTO_TCP
             && U32(l3.pull + TCP_HDR_LEN) <= fragSize && SynSet(mem, ip + l3.hlen) && hook.Some?
    ensures var l3 := ParseL3(mem, ip, ip6h, fragSize, pull, checks);
            var r := TransportParse(mem, Some(ip), ip6h, fragSize, true, hook, checks, pull);
            r.th == Some(ip + l3.hlen)
            && r.mem == hook.value(mem, ip + l3.hlen, VROUTER_L2_OVERLAY_LEN, l3.hlen % 256)
  {
    var l3 := ParseL3(mem, ip, ip6h, fragSize, pull, checks);
    TransportParseSplit(mem, ip, ip6h, fragSize, true, hook, checks, pull);
    TransportLayerMemory(mem, ip, ip6h, fragSize, true, hook, checks, l3.proto, l3.hlen, l3.pull, l3.overread);
  }

  /** A TCP SYN that needs its MSS adjusted and has no callback leaves by
      the slow path before the options are looked at. */
  lemma SynWithoutHook(mem: seq<uint8>, ip: nat, ip6h: Option<nat>, fragSize: uint32,
                       checks: HeaderChecks, pull: uint32)
    requires var l3 := ParseL3(mem, ip, ip6h, fragSize, pull, checks);
             l3.L3? && l3.valid && l3.proto == VR_IP_PROTO_TCP
             && U32(l3.pull + TCP_HDR_LEN) <= fragSize && SynSet(mem, ip + l3.hlen)
    ensures TransportParse(mem, Some(ip), ip6h, fragSize, true, None, checks, pull).verdict == SlowPath(NoMssHook)
  {
  }

  // Where the reported checksum comes from, protocol by protocol, read as
  // the host sees the 16-bit field. `proto` is the protocol the network
  // layer found (after an IPv6 Fragment header).

  /** TCP: the checksum field of the TCP header, after the MSS callback. */
  lemma TcpChecksum(mem: seq<uint8>, ip: nat, ip6h: Option<nat>, fragSize: uint32,
                    mssAdj: bool, hook: Option<MssHook>, checks: HeaderChecks, pull: uint32)
    requires var l3 := ParseL3(mem, ip, ip6h, fragSize, pull, checks);
             l3.L3? && l3.proto == VR_IP_PROTO_TCP
    ensures var r := TransportParse(mem, Some(ip), ip6h, fragSize, mssAdj, hook, checks, pull);
            r.verdict.Parsed? && r.th.Some? ==>
              r.verdict.thCsum == HostLoad16(r.mem, r.th.value + TCP_CSUM_OFF)
  {
  }

  /** ICMP: the ICMP checksum, or for an error message that carries a
      TCP, UDP or ICMP datagram, the checksum of that datagram's header. */
  function IcmpReported(mem: seq<uint8>, icmph: nat, checks: HeaderChecks): uint16
  {
    var inner := icmph + ICMP_HDR_LEN;
    var innerProto := Peek(mem, inner + IP_PROTO_OFF);
    var l4 := inner + Ihl(mem, inner) * 4;
    if !checks.icmpError(mem, icmph) then HostLoad16(mem, icmph + ICMP_CSUM_OFF)
    else if innerProto == VR_IP_PROTO_TCP then HostLoad16(mem, l4 + TCP_CSUM_OFF)
    else if innerProto == VR_IP_PROTO_UDP then HostLoad16(mem, l4 + UDP_CSUM_OFF)
    else if innerProto == VR_IP_PROTO_ICMP then HostLoad16(mem, l4 + ICMP_CSUM_OFF)
    else HostLoad16(mem, icmph + ICMP_CSUM_OFF)
  }

  lemma IcmpStepChecksum(mem: seq<uint8>, icmph: nat, pull: uint32, fragSize: uint32, checks: HeaderChecks)
    ensures var s := IcmpStep(mem, icmph, pull, fragSize, checks);
            s.Step? ==> s.csum == IcmpReported(mem, icmph, checks)
  {
  }

  lemma IcmpChecksum(mem: seq<uint8>, ip: nat, ip6h: Option<nat>, fragSize: uint32,
                     mssAdj: bool, hook: Option<MssHook>, checks: HeaderChecks, pull: uint32)
    requires var l3 := ParseL3(mem, ip, ip6h, fragSize, pull, checks);
             l3.L3? && l3.proto == VR_IP_PROTO_ICMP
    ensures var r := TransportParse(mem, Some(ip), ip6h, fragSize, mssAdj, hook, checks, pull);
            r.verdict.Parsed? && r.th.Some? ==>
              r.verdict.thCsum == IcmpReported(mem, r.th.value, checks)
  {
    var l3 := ParseL3(mem, ip, ip6h, fragSize, pull, checks);
    TransportParseSplit(mem, ip, ip6h, fragSize, mssAdj, hook, checks, pull);
    if l3.valid {
      IcmpStepChecksum(mem, ip + l3.hlen, U32(l3.pull + L4Len(l3.proto)), fragSize, checks);
    }
  }

  /** Any other protocol whose iph->ip_proto byte reads as UDP: the UDP
      checksum field. */
  lemma UdpChecksum(mem: seq<uint8>, ip: nat, ip6h: Option<nat>, fragSize: uint32,
                    mssAdj: bool, hook: Option<MssHook>, checks: HeaderChecks, pull: uint32)
    requires var l3 := ParseL3(mem, ip, ip6h, fragSize, pull, checks);
             l3.L3? && l3.proto != VR_IP_PROTO_TCP && l3.proto != VR_IP_PROTO_ICMP
             && Peek(mem, ip + IP_PROTO_OFF) == VR_IP_PROTO_UDP
    ensures var r := TransportParse(mem, Some(ip), ip6h, fragSize, mssAdj, hook, checks, pull);
            r.verdict.Parsed? && r.th.Some? ==>
              r.verdict.thCsum == HostLoad16(mem, r.th.value + UDP_CSUM_OFF)
  {
  }

  /** ICMPv6: a solicitation, a message that is not an error, or an error
      whose datagram starts with a header the walk does not pull reports 0.
      Otherwise the error reports the checksum of the TCP, UDP or ICMPv6
      header of the datagram it carries: that header follows the embedded
      IPv6 header and, when one is present, its Fragment header, whose next
      header then names the protocol. Any other protocol reports 0. */
  function Icmp6Reported(mem: seq<uint8>, icmph: nat, checks: HeaderChecks): uint16
  {
    var ty := Peek(mem, icmph);
    var inner := icmph + ICMP_HDR_LEN;
    var nxt := Peek(mem, inner + IP6_NXT_OFF);
    var frag := nxt == VR_IP6_PROTO_FRAG;
    var proto := if frag then Peek(mem, inner + IP6_HDR_LEN) else nxt;
    var thdr := inner + IP6_HDR_LEN + (if frag then IP6_FRAG_HDR_LEN else 0);
    if ty == VR_ICMP6_TYPE_NEIGH_SOL || ty == VR_ICMP6_TYPE_ROUTER_SOL
       || !checks.icmp6Error(mem, icmph) || !Ip6ProtoPull(nxt) then 0
    else if proto == VR_IP_PROTO_TCP then HostLoad16(mem, thdr + TCP_CSUM_OFF)
    else if proto == VR_IP_PROTO_UDP then HostLoad16(mem, thdr + UDP_CSUM_OFF)
    else if proto == VR_IP_PROTO_ICMP6 then HostLoad16(mem, thdr + ICMP_CSUM_OFF)
    else 0
  }

  lemma Icmp6StepChecksum(mem: seq<uint8>, icmph: nat, pull: uint32, fragSize: uint32, checks: HeaderChecks)
    ensures var s := Icmp6Step(mem, icmph, pull, fragSize, checks);
            s.Step? ==> s.csum == Icmp6Reported(mem, icmph, checks)
  {
  }

  /** The whole walk over ICMPv6 (when the iph->ip_proto byte does not read
      as UDP): the ICMPv6 header sits hlen bytes past ip6h and the reported
      checksum is the one Icmp6Reported finds there. */
  lemma Icmp6Checksum(mem: seq<uint8>, ip: nat, ip6h: Option<nat>, fragSize: uint32,
                      mssAdj: bool, hook: Option<MssHook>, checks: HeaderChecks, pull: uint32)
    requires var l3 := ParseL3(mem, ip, ip6h, fragSize, pull, checks);
             l3.L3? && l3.proto == VR_IP_PROTO_ICMP6 && ip6h.Some?
             && Peek(mem, ip + IP_PROTO_OFF) != VR_IP_PROTO_UDP
    ensures var l3 := ParseL3(mem, ip, ip6h, fragSize, pull, checks);
            var r := TransportParse(mem, Some(ip), ip6h, fragSize, mssAdj, hook, checks, pull);
            r.verdict.Parsed? && r.th.Some? ==>
              r.verdict.thCsum == Icmp6Reported(mem, ip6h.value + l3.hlen, checks)
  {
    var l3 := ParseL3(mem, ip, ip6h, fragSize, pull, checks);
    TransportParseSplit(mem, ip, ip6h, fragSize, mssAdj, hook, checks, pull);
    if l3.valid {
      Icmp6StepChecksum(mem, ip6h.value + l3.hlen, U32(l3.pull + L4Len(l3.proto)), fragSize, checks);
    }
  }

  /** Everything else reports 0, except an ICMPv6 error, whose checksum
      comes from the datagram it carries. */
  lemma OtherChecksumZero(mem: seq<uint8>, ip: nat, ip6h: Option<nat>, fragSize: uint32,
                          mssAdj: bool, hook: Option<MssHook>, checks: HeaderChecks, pull: uint32)
    requires var l3 := ParseL3(mem, ip, ip6h, fragSize, pull, checks);
             l3.L3? && l3.proto != VR_IP_PROTO_TCP && l3.proto != VR_IP_PROTO_ICMP
             && Peek(mem, ip + IP_PROTO_OFF) != VR_IP_PROTO_UDP
             && !(l3.proto == VR_IP_PROTO_ICMP6 && ip6h.Some? && checks.icmp6Error(mem, ip6h.value + l3.hlen))
    ensures var r := TransportParse(mem, Some(ip), ip6h, fragSize, mssAdj, hook, checks, pull);
            r.verdict.Parsed? ==> r.verdict.thCsum == 0
  {
    var l3 := ParseL3(mem, ip, ip6h, fragSize, pull, checks);
    if l3.valid && l3.proto == VR_IP_PROTO_ICMP6 && ip6h.Some? {
      var s := Icmp6Step(mem, ip6h.value + l3.hlen, U32(l3.pull + L4Len(l3.proto)), fragSize, checks);
      assert s.Step? ==> s.csum == 0;
    }
  }

  /** The UDP test at line 243 reads iph->ip_proto. For IPv6 that byte is
      the second byte of the source address, so an IPv6 UDP datagram whose
      source address does not have 17 there reports checksum 0, and any
      other IPv6 packet whose source address does takes the UDP branch. */
  lemma Ip6UdpTestReadsSourceAddress(mem: seq<uint8>, ip: nat, fragSize: uint32,
                                     mssAdj: bool, hook: Option<MssHook>, checks: HeaderChecks, pull: uint32)
    requires Version(mem, ip) == 6 && checks.ip6Valid(mem, ip)
    requires Peek(mem, ip + IP6_NXT_OFF) == VR_IP_PROTO_UDP
    requires U32(pull + UDP_HDR_LEN) <= fragSize
    ensures var r := TransportParse(mem, Some(ip), Some(ip), fragSize, mssAdj, hook, checks, pull);
            r.verdict.Parsed?
            && r.verdict.thCsum == (if Peek(mem, ip + 9) == VR_IP_PROTO_UDP then HostLoad16(mem, ip + 46) else 0)
  {
  }

  // ---------------------------------------------------------------------
  // Reads stay inside the fragment.

  /** The caller's situation on the fast path: the network header starts
      at `ip`, pull_len already counts the base header and that header
      lies inside frag_size; lengths stay far from 2^32. */
  predicate WellPlaced(mem: seq<uint8>, ip: nat, ip6h: Option<nat>, fragSize: uint32, pull: uint32)
  {
    fragSize < 0x1000_0000
    && (Version(mem, ip) == 4 ==> pull == ip + IP_HDR_LEN && pull <= fragSize)
    && (Version(mem, ip) == 6 ==> ip6h == Some(ip) && pull == ip + IP6_HDR_LEN && pull <= fragSize)
    && (ip6h.Some? ==> ip6h == Some(ip))
    && ip < fragSize
  }

  lemma NetworkReads(mem: seq<uint8>, ip: nat, ip6h: Option<nat>, fragSize: uint32,
                     pull: uint32, checks: HeaderChecks)
    requires WellPlaced(mem, ip, ip6h, fragSize, pull)
    ensures var l3 := ParseL3(mem, ip, ip6h, fragSize, pull, checks);
            !l3.overread
            && (l3.L3? && l3.valid ==> l3.pull == ip + l3.hlen && l3.hlen <= 60 && ip + IP_PROTO_OFF < fragSize)
            && (l3.L3? && Version(mem, ip) != 6 ==> l3.proto == Peek(mem, ip + IP_PROTO_OFF))
  {
  }

  lemma TcpReads(mem: seq<uint8>, tcph: nat, hlen: uint32, pull: uint32, fragSize: uint32,
                 mssAdj: bool, hook: Option<MssHook>)
    requires pull == tcph + TCP_HDR_LEN <= fragSize < 0x1000_0000
    ensures var s := TcpStep(mem, tcph, hlen, pull, fragSize, mssAdj, hook).0;
            !s.overread && (s.Step? ==> tcph + TCP_HDR_LEN <= s.pull)
  {
  }

  lemma IcmpReads(mem: seq<uint8>, icmph: nat, pull: uint32, fragSize: uint32, checks: HeaderChecks)
    requires pull == icmph + ICMP_HDR_LEN <= fragSize < 0x1000_0000
    ensures var s := IcmpStep(mem, icmph, pull, fragSize, checks);
            !s.overread && (s.Step? ==> icmph + ICMP_HDR_LEN <= s.pull)
  {
  }

  lemma Icmp6ErrorReads(mem: seq<uint8>, inner: nat, pull: uint32, fragSize: uint32)
    requires pull == inner + IP6_HDR_LEN && fragSize < 0x1000_0000
    ensures var s := Icmp6ErrorStep(mem, inner, pull, fragSize, false);
            s.Step? && s.pull <= fragSize ==> !s.overread && inner + IP6_HDR_LEN <= s.pull
  {
  }

  lemma Icmp6Reads(mem: seq<uint8>, icmph: nat, pull: uint32, fragSize: uint32, checks: HeaderChecks)
    requires pull == icmph + ICMP_HDR_LEN <= fragSize < 0x1000_0000
    ensures var s := Icmp6Step(mem, icmph, pull, fragSize, checks);
            s.Step? ==> !s.overread && icmph + ICMP_HDR_LEN <= s.pull
  {
    if Peek(mem, icmph) != VR_ICMP6_TYPE_NEIGH_SOL && Peek(mem, icmph) != VR_ICMP6_TYPE_ROUTER_SOL
       && checks.icmp6Error(mem, icmph) {
      Icmp6ErrorReads(mem, icmph + ICMP_HDR_LEN, U32(pull + IP6_HDR_LEN), fragSize);
    }
  }

  /** The transport layer reads nothing past frag_size when its pull
      length starts at the transport header, and accounts at least the
      fixed transport header. */
  lemma {:induction false} TransportLayerReads(mem: seq<uint8>, ip: nat, ip6h: Option<nat>, fragSize: uint32,
                                               mssAdj: bool, hook: Option<MssHook>, checks: HeaderChecks,
                                               proto: uint8, hlen: uint32, pullL3: uint32, rd: bool)
    requires hlen <= 60 && fragSize < 0x1000_0000 && ip + IP_PROTO_OFF < fragSize
    requires pullL3 == ip + hlen && !rd
    requires ip6h.Some? ==> ip6h == Some(ip)
    requires !(L4Len(proto) == 0 && Peek(mem, ip + IP_PROTO_OFF) == VR_IP_PROTO_UDP)
    ensures var r := ParseL4(mem, ip, ip6h, fragSize, mssAdj, hook, checks, proto, hlen, pullL3, rd);
            r.verdict.Parsed? ==>
              !r.overread && r.th == Some(ip + hlen) && ip + hlen + L4Len(proto) <= r.verdict.pullLen
  {
    var t := ip + hlen;
    var p := U32(t + L4Len(proto));
    assert p == t + L4Len(proto);
    if fragSize >= p {
      if proto == VR_IP_PROTO_TCP {
        TcpReads(mem, t, hlen, p, fragSize, mssAdj, hook);
      } else if proto == VR_IP_PROTO_ICMP {
        IcmpReads(mem, t, p, fragSize, checks);
      } else if Peek(mem, ip + IP_PROTO_OFF) != VR_IP_PROTO_UDP
                && proto == VR_IP_PROTO_ICMP6 && ip6h.Some? {
        Icmp6Reads(mem, t, p, fragSize, checks);
      }
    }
  }

  /** On the fast path every byte the walk reads lies before frag_size,
      and the bytes accounted in pull_len cover the fixed transport header,
      for every packet except an IPv6 one whose next header has no fixed
      transport header and whose source address has 17 as its second byte
      (the read at lines 243-245; see Ip6UnknownProtoOverread). */
  lemma {:induction false} NoReadPastFragment(mem: seq<uint8>, ip: nat, ip6h: Option<nat>, fragSize: uint32,
                                              mssAdj: bool, hook: Option<MssHook>, checks: HeaderChecks, pull: uint32)
    requires WellPlaced(mem, ip, ip6h, fragSize, pull)
    requires var l3 := ParseL3(mem, ip, ip6h, fragSize, pull, checks);
             !(Version(mem, ip) == 6 && l3.L3? && L4Len(l3.proto) == 0
               && Peek(mem, ip + IP_PROTO_OFF) == VR_IP_PROTO_UDP)
    ensures var r := TransportParse(mem, Some(ip), ip6h, fragSize, mssAdj, hook, checks, pull);
            r.verdict.Parsed? ==>
              !r.overread
              && (r.th.Some? ==> r.th.value + L4Len(ParseL3(mem, ip, ip6h, fragSize, pull, checks).proto) <= r.verdict.pullLen)
  {
    var l3 := ParseL3(mem, ip, ip6h, fragSize, pull, checks);
    NetworkReads(mem, ip, ip6h, fragSize, pull, checks);
    TransportParseSplit(mem, ip, ip6h, fragSize, mssAdj, hook, checks, pull);
    if l3.L3? && l3.valid {
      TransportLayerReads(mem, ip, ip6h, fragSize, mssAdj, hook, checks, l3.proto, l3.hlen, l3.pull, l3.overread);
    }
  }

  /** TransportParse with a network header: the transport layer's result
      when the header is valid, and no transport header otherwise. */
  lemma TransportParseSplit(mem: seq<uint8>, ip: nat, ip6h: Option<nat>, fragSize: uint32,
                            mssAdj: bool, hook: Option<MssHook>, checks: HeaderChecks, pull: uint32)
    ensures var l3 := ParseL3(mem, ip, ip6h, fragSize, pull, checks);
            var r := TransportParse(mem, Some(ip), ip6h, fragSize, mssAdj, hook, checks, pull);
            if l3.L3? && l3.valid
            then r == ParseL4(mem, ip, ip6h, fragSize, mssAdj, hook, checks, l3.proto, l3.hlen, l3.pull, l3.overread)
            else r.th.None? && r.overread == l3.overread
  {
  }

  /** The exception is real: an IPv6 packet with No Next Header (59) that
      fills the fragment exactly, and whose source address has 17 as its
      second byte, is parsed with its "UDP checksum" read past frag_size. */
  lemma Ip6UnknownProtoOverread(mem: seq<uint8>, ip: nat, mssAdj: bool, hook: Option<MssHook>, checks: HeaderChecks)
    requires ip + IP6_HDR_LEN < 0x1000_0000
    requires Version(mem, ip) == 6 && checks.ip6Valid(mem, ip)
    requires Peek(mem, ip + IP6_NXT_OFF) == 59 && Peek(mem, ip + IP_PROTO_OFF) == VR_IP_PROTO_UDP
    ensures WellPlaced(mem, ip, Some(ip), ip + IP6_HDR_LEN, ip + IP6_HDR_LEN)
    ensures var r := TransportParse(mem, Some(ip), Some(ip), ip + IP6_HDR_LEN, mssAdj, hook, checks, ip + IP6_HDR_LEN);
            r.verdict.Parsed? && r.overread
  {
  }

  /** Lines 295-306 read the embedded transport checksum before line 314
      checks the bytes they cover: an embedded IPv6 fragment carrying TCP
      whose Fragment header ends exactly at frag_size is read past the
      fragment and then sent to the slow path. */
  lemma Icmp6FragmentReadBeforeCheck(mem: seq<uint8>, inner: nat)
    requires inner + 48 < 0x1000_0000
    requires Peek(mem, inner + IP6_NXT_OFF) == VR_IP6_PROTO_FRAG
    requires Peek(mem, inner + IP6_HDR_LEN) == VR_IP_PROTO_TCP
    ensures var s := Icmp6ErrorStep(mem, inner, inner + IP6_HDR_LEN, inner + 48, false);
            s.Step? && s.overread && s.pull == inner + 68
  {
  }

  /** Line 212 trusts the embedded header length: an embedded IPv4 header
      claiming fewer than five words makes pull_len shrink, and the
      embedded transport header is then looked for inside the bytes of
      the embedded IPv4 header. */
  lemma IcmpEmbeddedLength(mem: seq<uint8>, icmph: nat, fragSize: uint32, checks: HeaderChecks)
    requires icmph + 88 <= fragSize < 0x1000_0000
    requires checks.icmpError(mem, icmph)
    requires IpProtoPull(Peek(mem, icmph + ICMP_HDR_LEN + IP_PROTO_OFF))
    ensures var s := IcmpStep(mem, icmph, icmph + ICMP_HDR_LEN, fragSize, checks);
            var ihl := Ihl(mem, icmph + ICMP_HDR_LEN);
            s.Step?
            && s.pull == icmph + ICMP_HDR_LEN + ihl * 4 + L4Len(Peek(mem, icmph + ICMP_HDR_LEN + IP_PROTO_OFF))
  {
  }
}
