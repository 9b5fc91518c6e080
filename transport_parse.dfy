/** The header walk from an IPv4 or IPv6 header to the transport header
    (vr_ip_transport_parse and its two protocol predicates).

    Memory is a byte sequence; `iph` and `ip6h` are the offsets the two
    header pointers hold (None for NULL). `pull_len` and `frag_size` count
    bytes from the start of the same memory: the caller has accounted for
    the bytes before `pull_len`, and only the first `frag_size` bytes are
    contiguous. Every byte read is checked against `frag_size` and the
    result records, in `overread`, whether any read reached past it. */
module IpTransport {
  import opened Bytes
  import opened PacketDefs

  /** vr_ip_proto_pull: the IPv4 protocols whose embedded header the ICMP
      error path accounts for. */
  predicate IpProtoPull(proto: uint8)
  {
    proto == VR_IP_PROTO_TCP || proto == VR_IP_PROTO_UDP
    || proto == VR_IP_PROTO_ICMP || proto == VR_IP_PROTO_SCTP
  }

  /** vr_ip6_proto_pull: the same for IPv6, where a Fragment header may
      come first. */
  predicate Ip6ProtoPull(proto: uint8)
  {
    proto == VR_IP_PROTO_TCP || proto == VR_IP_PROTO_UDP
    || proto == VR_IP_PROTO_ICMP6 || proto == VR_IP_PROTO_SCTP
    || proto == VR_IP6_PROTO_FRAG
  }

  /** Size of the fixed transport header accounted for a protocol; 0 for a
      protocol the walk does not know. */
  function L4Len(proto: uint8): nat
  {
    if proto == VR_IP_PROTO_TCP then TCP_HDR_LEN
    else if proto == VR_IP_PROTO_UDP then UDP_HDR_LEN
    else if proto == VR_IP_PROTO_ICMP || proto == VR_IP_PROTO_ICMP6 then ICMP_HDR_LEN
    else if proto == VR_IP_PROTO_SCTP then SCTP_HDR_LEN
    else 0
  }

  /** What the walk adds for the first header after an embedded IPv6 header
      (lines 268-278): a Fragment header counts 8 bytes, anything not
      listed counts as an ICMPv6 header. */
  function Embedded6Len(nxt: uint8): nat
  {
    if nxt == VR_IP_PROTO_TCP then TCP_HDR_LEN
    else if nxt == VR_IP_PROTO_UDP then UDP_HDR_LEN
    else if nxt == VR_IP_PROTO_SCTP then SCTP_HDR_LEN
    else if nxt == VR_IP6_PROTO_FRAG then IP6_FRAG_HDR_LEN
    else ICMP_HDR_LEN
  }

  /** The predicates whose bodies are not part of this model: header
      validity (vr_ip_transport_header_valid, vr_ip6_transport_header_valid)
      and ICMP error classification (vr_icmp_error, vr_icmp6_error). Each
      receives the memory and the offset of the header it inspects. */
  datatype HeaderChecks = HeaderChecks(
    ipValid: (seq<uint8>, nat) -> bool,
    ip6Valid: (seq<uint8>, nat) -> bool,
    icmpError: (seq<uint8>, nat) -> bool,
    icmp6Error: (seq<uint8>, nat) -> bool)

  /** The do_tcp_mss_adj callback: it receives the TCP header, the overlay
      length and the IP header length (as an unsigned char) and rewrites
      memory in place; the model returns the memory it leaves behind. */
  type MssHook = (seq<uint8>, nat, uint16, uint8) -> seq<uint8>

  datatype SlowReason =
    | Short(pullLen: uint32)  // pull_len grew past frag_size
    | NoMssHook               // a SYN needs an MSS adjustment and no callback was given

  /** The return value with the out-parameters it writes: 0 writes
      *hlenp, *th_csump, *tcph_pull_lenp and *pull_lenp; the other two
      returns write none of them. */
  datatype Verdict =
    | Parsed(hlen: uint32, thCsum: uint16, tcphPullLen: uint32, pullLen: uint32)
    | SlowPath(reason: SlowReason)
    | Unhandled

  /** th is the value stored through thp (written once the transport header
      is known to be valid, even when a later check fails); mem is the
      memory after the MSS callback. */
  datatype ParseResult = ParseResult(verdict: Verdict, th: Option<nat>, mem: seq<uint8>, overread: bool)

  /** A read of `width` bytes at `off` touches a byte at or past frag_size. */
  predicate Past(off: int, width: nat, fragSize: nat)
  {
    off + width > fragSize
  }

  /** ip_version, the high nibble of the first byte (vr_ip_is_ip4/ip6). */
  function Version(mem: seq<uint8>, ip: nat): nat { Peek(mem, ip) / 16 }
  /** ip_hl, the low nibble of the first byte, in 32-bit words. */
  function Ihl(mem: seq<uint8>, ip: nat): nat { Peek(mem, ip) % 16 }
  /** ntohs(tcp_offset_r_flags) & VR_TCP_FLAG_SYN */
  predicate SynSet(mem: seq<uint8>, tcph: nat)
  {
    (NetLoad16(mem, tcph + TCP_OFFSET_FLAGS_OFF) / VR_TCP_FLAG_SYN) % 2 == 1
  }
  /** VR_TCP_OFFSET(tcp_offset_r_flags): the data offset in 32-bit words. */
  function DataOffset(mem: seq<uint8>, tcph: nat): nat
  {
    NetLoad16(mem, tcph + TCP_OFFSET_FLAGS_OFF) / 0x1000
  }

  // ---------------------------------------------------------------------
  // The walk, layer by layer, as functions.

  /** The result of the network layer: the effective protocol, hlen, the
      pull length so far and whether the transport header is valid. */
  datatype L3 =
    | L3(proto: uint8, hlen: uint32, pull: uint32, valid: bool, overread: bool)
    | L3Slow(pull: uint32, overread: bool)
    | L3Unhandled(overread: bool)

  function ParseL3(mem: seq<uint8>, ip: nat, ip6h: Option<nat>, fragSize: uint32,
                   pull: uint32, checks: HeaderChecks): L3
  {
    var rd := Past(ip, 1, fragSize);
    if Version(mem, ip) == 6 then
      if ip6h.None? then L3Unhandled(rd)
      else
        var ip6 := ip6h.value;
        var nxt := Peek(mem, ip6 + IP6_NXT_OFF);
        var rd := rd || Past(ip6 + IP6_NXT_OFF, 1, fragSize);
        if nxt == VR_IP6_PROTO_FRAG then
          var pull := U32(pull + IP6_FRAG_HDR_LEN);
          if fragSize < pull then L3Slow(pull, rd)
          else
            L3(Peek(mem, ip6 + IP6_HDR_LEN), IP6_HDR_LEN + IP6_FRAG_HDR_LEN, pull,
               checks.ip6Valid(mem, ip6), rd || Past(ip6 + IP6_HDR_LEN, 1, fragSize))
        else L3(nxt, IP6_HDR_LEN, pull, checks.ip6Valid(mem, ip6), rd)
    else if Version(mem, ip) == 4 then
      var proto := Peek(mem, ip + IP_PROTO_OFF);
      var rd := rd || Past(ip + IP_PROTO_OFF, 1, fragSize);
      if checks.ipValid(mem, ip) then
        L3(proto, Ihl(mem, ip) * 4, U32(pull + Ihl(mem, ip) * 4 - IP_HDR_LEN), true, rd)
      else L3(proto, 0, pull, false, rd)
    else L3Unhandled(rd)
  }

  /** The outcome of one transport-layer branch: the checksum it reports
      and the pull length, or a slow-path exit. */
  datatype Step =
    | Step(csum: uint16, pull: uint32, overread: bool)
    | Stop(reason: SlowReason, overread: bool)

  /** TCP (lines 173-203): MSS callback on SYN, then the options. */
  function TcpStep(mem: seq<uint8>, tcph: nat, hlen: uint32, pull: uint32, fragSize: uint32,
                   mssAdj: bool, hook: Option<MssHook>): (Step, seq<uint8>)
  {
    var rd := Past(tcph + TCP_OFFSET_FLAGS_OFF, 2, fragSize);
    var adjust := SynSet(mem, tcph) && mssAdj;
    if adjust && hook.None? then (Stop(NoMssHook, rd), mem)
    else
      var mem' := if adjust then hook.value(mem, tcph, VROUTER_L2_OVERLAY_LEN, hlen % 256) else mem;
      var doff := DataOffset(mem', tcph);
      var pull' := if doff * 4 > TCP_HDR_LEN then U32(pull + doff * 4 - TCP_HDR_LEN) else pull;
      if doff * 4 > TCP_HDR_LEN && fragSize < pull' then (Stop(Short(pull'), rd), mem')
      else (Step(HostLoad16(mem', tcph + TCP_CSUM_OFF), pull', rd || Past(tcph + TCP_CSUM_OFF, 2, fragSize)), mem')
  }

  /** ICMPv4 (lines 204-242): an error message carries one original
      datagram whose headers are accounted for and whose checksum is
      reported instead of the outer one. */
  function IcmpStep(mem: seq<uint8>, icmph: nat, pull: uint32, fragSize: uint32,
                    checks: HeaderChecks): Step
  {
    var csum := HostLoad16(mem, icmph + ICMP_CSUM_OFF);
    var rd := Past(icmph + ICMP_CSUM_OFF, 2, fragSize);
    if !checks.icmpError(mem, icmph) then Step(csum, pull, rd)
    else
      var pull := U32(pull + IP_HDR_LEN);
      if fragSize < pull then Stop(Short(pull), rd)
      else
        var inner := icmph + ICMP_HDR_LEN;
        var ihl := Ihl(mem, inner);
        var rd := rd || Past(inner, 1, fragSize);
        var pull := U32(pull + ihl * 4 - IP_HDR_LEN);
        if fragSize < pull then Stop(Short(pull), rd)
        else
          var proto := Peek(mem, inner + IP_PROTO_OFF);
          var rd := rd || Past(inner + IP_PROTO_OFF, 1, fragSize);
          if !IpProtoPull(proto) then Step(csum, pull, rd)
          else
            var pull := U32(pull + L4Len(proto));
            if fragSize < pull then Stop(Short(pull), rd)
            else
              var l4 := inner + ihl * 4;
              if proto == VR_IP_PROTO_TCP then
                Step(HostLoad16(mem, l4 + TCP_CSUM_OFF), pull, rd || Past(l4 + TCP_CSUM_OFF, 2, fragSize))
              else if proto == VR_IP_PROTO_UDP then
                Step(HostLoad16(mem, l4 + UDP_CSUM_OFF), pull, rd || Past(l4 + UDP_CSUM_OFF, 2, fragSize))
              else if proto == VR_IP_PROTO_ICMP then
                Step(HostLoad16(mem, l4 + ICMP_CSUM_OFF), pull, rd || Past(l4 + ICMP_CSUM_OFF, 2, fragSize))
              else Step(csum, pull, rd)
  }

  /** The original IPv6 datagram inside an ICMPv6 error (lines 262-311);
      `pull` already counts its IPv6 header. */
  function Icmp6ErrorStep(mem: seq<uint8>, inner: nat, pull: uint32, fragSize: uint32, rd: bool): Step
  {
    if fragSize < pull then Stop(Short(pull), rd)
    else
      var nxt := Peek(mem, inner + IP6_NXT_OFF);
      var rd := rd || Past(inner + IP6_NXT_OFF, 1, fragSize);
      if !Ip6ProtoPull(nxt) then Step(0, pull, rd)
      else
        var pull := U32(pull + Embedded6Len(nxt));
        if fragSize < pull then Stop(Short(pull), rd)
        else
          var frag := nxt == VR_IP6_PROTO_FRAG;
          var proto := if frag then Peek(mem, inner + IP6_HDR_LEN) else nxt;
          var rd := rd || (frag && Past(inner + IP6_HDR_LEN, 1, fragSize));
          var thdr := if frag then inner + IP6_HDR_LEN + IP6_FRAG_HDR_LEN else inner + IP6_HDR_LEN;
          if proto == VR_IP_PROTO_TCP then
            Step(HostLoad16(mem, thdr + TCP_CSUM_OFF), if frag then U32(pull + TCP_HDR_LEN) else pull,
                 rd || Past(thdr + TCP_CSUM_OFF, 2, fragSize))
          else if proto == VR_IP_PROTO_UDP then
            Step(HostLoad16(mem, thdr + UDP_CSUM_OFF), if frag then U32(pull + UDP_HDR_LEN) else pull,
                 rd || Past(thdr + UDP_CSUM_OFF, 2, fragSize))
          else if proto == VR_IP_PROTO_ICMP6 then
            Step(HostLoad16(mem, thdr + ICMP_CSUM_OFF), if frag then U32(pull + ICMP_HDR_LEN) else pull,
                 rd || Past(thdr + ICMP_CSUM_OFF, 2, fragSize))
          else if proto == VR_IP_PROTO_SCTP then
            Step(0, if frag then U32(pull + SCTP_HDR_LEN) else pull, rd)
          else Step(0, pull, rd)
  }

  /** ICMPv6 (lines 246-316): solicitations add fixed byte counts, errors
      walk the original datagram, and one final check closes the branch. */
  function Icmp6Step(mem: seq<uint8>, icmph: nat, pull: uint32, fragSize: uint32,
                     checks: HeaderChecks): Step
  {
    var rd := Past(icmph, 1, fragSize);
    var ty := Peek(mem, icmph);
    var s :=
      if ty == VR_ICMP6_TYPE_NEIGH_SOL then
        Step(0, U32(pull + NEIGHBOR_OPTION_LEN + IP6_ADDRESS_LEN + ETHER_ALEN), rd)
      else if ty == VR_ICMP6_TYPE_ROUTER_SOL then Step(0, U32(pull + 8), rd)
      else if checks.icmp6Error(mem, icmph) then
        Icmp6ErrorStep(mem, icmph + ICMP_HDR_LEN, U32(pull + IP6_HDR_LEN), fragSize, rd)
      else Step(0, pull, rd);
    if s.Step? && fragSize < s.pull then Stop(Short(s.pull), s.overread) else s
  }

  /** The transport layer once the network layer found a valid header. */
  function ParseL4(mem: seq<uint8>, ip: nat, ip6h: Option<nat>, fragSize: uint32,
                   mssAdj: bool, hook: Option<MssHook>, checks: HeaderChecks,
                   proto: uint8, hlen: uint32, pullL3: uint32, rd: bool): ParseResult
  {
    var th := ip + hlen;
    var pull := U32(pullL3 + L4Len(proto));
    if fragSize < pull then ParseResult(SlowPath(Short(pull)), Some(th), mem, rd)
    else
      var rdUdp := Past(ip + IP_PROTO_OFF, 1, fragSize);  // the test at line 243 reads iph->ip_proto
      var (step, mem') :=
        if proto == VR_IP_PROTO_TCP then TcpStep(mem, th, hlen, pull, fragSize, mssAdj, hook)
        else if proto == VR_IP_PROTO_ICMP then (IcmpStep(mem, th, pull, fragSize, checks), mem)
        else if Peek(mem, ip + IP_PROTO_OFF) == VR_IP_PROTO_UDP then
          (Step(HostLoad16(mem, th + UDP_CSUM_OFF), pull, rdUdp || Past(th + UDP_CSUM_OFF, 2, fragSize)), mem)
        else if proto == VR_IP_PROTO_ICMP6 && ip6h.Some? then
          var s := Icmp6Step(mem, ip6h.value + hlen, pull, fragSize, checks);
          (s.(overread := rdUdp || s.overread), mem)
        else (Step(0, pull, rdUdp), mem);
      match step
      case Step(csum, pull', r) => ParseResult(Parsed(hlen, csum, pullL3, pull'), Some(th), mem', rd || r)
      case Stop(why, r) => ParseResult(SlowPath(why), Some(th), mem', rd || r)
  }

  /** vr_ip_transport_parse, as a function of its inputs. */
  function TransportParse(mem: seq<uint8>, iph: Option<nat>, ip6h: Option<nat>, fragSize: uint32,
                          mssAdj: bool, hook: Option<MssHook>, checks: HeaderChecks,
                          pull: uint32): ParseResult
  {
    if iph.None? then ParseResult(Parsed(0, 0, 0, pull), None, mem, false)
    else
      match ParseL3(mem, iph.value, ip6h, fragSize, pull, checks)
      case L3Unhandled(rd) => ParseResult(Unhandled, None, mem, rd)
      case L3Slow(p, rd) => ParseResult(SlowPath(Short(p)), None, mem, rd)
      case L3(proto, hlen, p, valid, rd) =>
        if !valid then ParseResult(Parsed(hlen, 0, 0, p), None, mem, rd)
        else ParseL4(mem, iph.value, ip6h, fragSize, mssAdj, hook, checks, proto, hlen, p, rd)
  }

  // ---------------------------------------------------------------------
  // The routine itself, step for step; each block of the C body is one
  // method here, proved equal to the function of its layer.

  /** Lines 119-150: the network header. */
  method NetworkLayer(mem: seq<uint8>, ip: nat, ip6h: Option<nat>, fragSize: uint32,
                      checks: HeaderChecks, pullIn: uint32) returns (l3: L3)
    ensures l3 == ParseL3(mem, ip, ip6h, fragSize, pullIn, checks)
  {
    var overread := Past(ip, 1, fragSize);
    var pullLen := pullIn;
    if Version(mem, ip) == 6 {
      if ip6h.Some? {
        var ip6 := ip6h.value;
        var ipProto := Peek(mem, ip6 + IP6_NXT_OFF);
        overread := overread || Past(ip6 + IP6_NXT_OFF, 1, fragSize);
        var hlen: uint32 := IP6_HDR_LEN;
        if ipProto == VR_IP6_PROTO_FRAG {
          pullLen := U32(pullLen + IP6_FRAG_HDR_LEN);
          if fragSize < pullLen {
            return L3Slow(pullLen, overread);
          }
          ipProto := Peek(mem, ip6 + hlen);
          overread := overread || Past(ip6 + hlen, 1, fragSize);
          hlen := hlen + IP6_FRAG_HDR_LEN;
        }
        l3 := L3(ipProto, hlen, pullLen, checks.ip6Valid(mem, ip6), overread);
      } else {
        l3 := L3Unhandled(overread);
      }
    } else if Version(mem, ip) == 4 {
      var ipProto := Peek(mem, ip + IP_PROTO_OFF);
      overread := overread || Past(ip + IP_PROTO_OFF, 1, fragSize);
      var thdrValid := checks.ipValid(mem, ip);
      var hlen: uint32 := 0;
      if thdrValid {
        hlen := Ihl(mem, ip) * 4;
        pullLen := U32(pullLen + hlen - IP_HDR_LEN);
      }
      l3 := L3(ipProto, hlen, pullLen, thdrValid, overread);
    } else {
      l3 := L3Unhandled(overread);
    }
  }

  /** Lines 173-203: the TCP header and its options. */
  method TcpLayer(mem: seq<uint8>, tcph: nat, hlen: uint32, pullIn: uint32, fragSize: uint32,
                  mssAdj: bool, hook: Option<MssHook>) returns (step: Step, memOut: seq<uint8>)
    ensures (step, memOut) == TcpStep(mem, tcph, hlen, pullIn, fragSize, mssAdj, hook)
  {
    memOut := mem;
    var pullLen := pullIn;
    var overread := Past(tcph + TCP_OFFSET_FLAGS_OFF, 2, fragSize);
    if SynSet(memOut, tcph) && mssAdj {
      if hook.Some? {
        memOut := hook.value(memOut, tcph, VROUTER_L2_OVERLAY_LEN, hlen % 256);
      } else {
        return Stop(NoMssHook, overread), memOut;
      }
    }
    if DataOffset(memOut, tcph) * 4 > TCP_HDR_LEN {
      pullLen := U32(pullLen + DataOffset(memOut, tcph) * 4 - TCP_HDR_LEN);
      if fragSize < pullLen {
        return Stop(Short(pullLen), overread), memOut;
      }
    }
    step := Step(HostLoad16(memOut, tcph + TCP_CSUM_OFF), pullLen,
                 overread || Past(tcph + TCP_CSUM_OFF, 2, fragSize));
  }

  /** Lines 204-242: ICMP and the datagram inside an ICMP error. */
  method IcmpLayer(mem: seq<uint8>, icmph: nat, pullIn: uint32, fragSize: uint32,
                   checks: HeaderChecks) returns (step: Step)
    ensures step == IcmpStep(mem, icmph, pullIn, fragSize, checks)
  {
    var pullLen := pullIn;
    var thCsum := HostLoad16(mem, icmph + ICMP_CSUM_OFF);
    var overread := Past(icmph + ICMP_CSUM_OFF, 2, fragSize);
    if checks.icmpError(mem, icmph) {
      pullLen := U32(pullLen + IP_HDR_LEN);
      if fragSize < pullLen {
        return Stop(Short(pullLen), overread);
      }
      var inner := icmph + ICMP_HDR_LEN;
      overread := overread || Past(inner, 1, fragSize);
      pullLen := U32(pullLen + Ihl(mem, inner) * 4 - IP_HDR_LEN);
      if fragSize < pullLen {
        return Stop(Short(pullLen), overread);
      }
      var proto := Peek(mem, inner + IP_PROTO_OFF);
      overread := overread || Past(inner + IP_PROTO_OFF, 1, fragSize);
      if IpProtoPull(proto) {
        pullLen := U32(pullLen + L4Len(proto));
        if fragSize < pullLen {
          return Stop(Short(pullLen), overread);
        }
        var l4 := inner + Ihl(mem, inner) * 4;
        if proto == VR_IP_PROTO_TCP {
          thCsum := HostLoad16(mem, l4 + TCP_CSUM_OFF);
          overread := overread || Past(l4 + TCP_CSUM_OFF, 2, fragSize);
        } else if proto == VR_IP_PROTO_UDP {
          thCsum := HostLoad16(mem, l4 + UDP_CSUM_OFF);
          overread := overread || Past(l4 + UDP_CSUM_OFF, 2, fragSize);
        } else if proto == VR_IP_PROTO_ICMP {
          thCsum := HostLoad16(mem, l4 + ICMP_CSUM_OFF);
          overread := overread || Past(l4 + ICMP_CSUM_OFF, 2, fragSize);
        }
      }
    }
    step := Step(thCsum, pullLen, overread);
  }

  /** Lines 262-311: the IPv6 datagram inside an ICMPv6 error. */
  method Icmp6ErrorLayer(mem: seq<uint8>, inner: nat, pullIn: uint32, fragSize: uint32,
                         overreadIn: bool) returns (step: Step)
    ensures step == Icmp6ErrorStep(mem, inner, pullIn, fragSize, overreadIn)
  {
    var pullLen := pullIn;
    var overread := overreadIn;
    var thCsum: uint16 := 0;
    if fragSize < pullLen {
      return Stop(Short(pullLen), overread);
    }
    var ipProto := Peek(mem, inner + IP6_NXT_OFF);
    overread := overread || Past(inner + IP6_NXT_OFF, 1, fragSize);
    if Ip6ProtoPull(ipProto) {
      var fragHdr := ipProto == VR_IP6_PROTO_FRAG;
      pullLen := U32(pullLen + Embedded6Len(ipProto));
      if fragSize < pullLen {
        return Stop(Short(pullLen), overread);
      }
      var thdr;
      if fragHdr {
        ipProto := Peek(mem, inner + IP6_HDR_LEN);
        overread := overread || Past(inner + IP6_HDR_LEN, 1, fragSize);
        thdr := inner + IP6_HDR_LEN + IP6_FRAG_HDR_LEN;
      } else {
        thdr := inner + IP6_HDR_LEN;
      }
      if ipProto == VR_IP_PROTO_TCP {
        thCsum := HostLoad16(mem, thdr + TCP_CSUM_OFF);
        overread := overread || Past(thdr + TCP_CSUM_OFF, 2, fragSize);
        if fragHdr { pullLen := U32(pullLen + TCP_HDR_LEN); }
      } else if ipProto == VR_IP_PROTO_UDP {
        thCsum := HostLoad16(mem, thdr + UDP_CSUM_OFF);
        overread := overread || Past(thdr + UDP_CSUM_OFF, 2, fragSize);
        if fragHdr { pullLen := U32(pullLen + UDP_HDR_LEN); }
      } else if ipProto == VR_IP_PROTO_ICMP6 {
        thCsum := HostLoad16(mem, thdr + ICMP_CSUM_OFF);
        overread := overread || Past(thdr + ICMP_CSUM_OFF, 2, fragSize);
        if fragHdr { pullLen := U32(pullLen + ICMP_HDR_LEN); }
      } else if ipProto == VR_IP_PROTO_SCTP {
        if fragHdr { pullLen := U32(pullLen + SCTP_HDR_LEN); }
      }
    }
    step := Step(thCsum, pullLen, overread);
  }

  /** Lines 246-316: ICMPv6. */
  method Icmp6Layer(mem: seq<uint8>, icmph: nat, pullIn: uint32, fragSize: uint32,
                    checks: HeaderChecks) returns (step: Step)
    ensures step == Icmp6Step(mem, icmph, pullIn, fragSize, checks)
  {
    var overread := Past(icmph, 1, fragSize);
    var ty := Peek(mem, icmph);
    if ty == VR_ICMP6_TYPE_NEIGH_SOL {
      step := Step(0, U32(pullIn + NEIGHBOR_OPTION_LEN + IP6_ADDRESS_LEN + ETHER_ALEN), overread);
    } else if ty == VR_ICMP6_TYPE_ROUTER_SOL {
      step := Step(0, U32(pullIn + 8), overread);
    } else if checks.icmp6Error(mem, icmph) {
      step := Icmp6ErrorLayer(mem, icmph + ICMP_HDR_LEN, U32(pullIn + IP6_HDR_LEN), fragSize, overread);
    } else {
      step := Step(0, pullIn, overread);
    }
    if step.Step? && fragSize < step.pull {
      step := Stop(Short(step.pull), step.overread);
    }
  }

  /** Lines 152-316: the transport header, once the network header is
      known to be valid. */
  method TransportLayer(mem: seq<uint8>, ip: nat, ip6h: Option<nat>, fragSize: uint32,
                        mssAdj: bool, hook: Option<MssHook>, checks: HeaderChecks,
                        proto: uint8, hlen: uint32, tcphPullLen: uint32, overreadIn: bool)
    returns (r: ParseResult)
    ensures r == ParseL4(mem, ip, ip6h, fragSize, mssAdj, hook, checks, proto, hlen, tcphPullLen, overreadIn)
  {
    var th := Some(ip + hlen);
    var pullLen := U32(tcphPullLen + L4Len(proto));
    if fragSize < pullLen {
      return ParseResult(SlowPath(Short(pullLen)), th, mem, overreadIn);
    }
    var step, memOut := Stop(NoMssHook, false), mem;
    if proto == VR_IP_PROTO_TCP {
      step, memOut := TcpLayer(mem, ip + hlen, hlen, pullLen, fragSize, mssAdj, hook);
    } else if proto == VR_IP_PROTO_ICMP {
      step := IcmpLayer(mem, ip + hlen, pullLen, fragSize, checks);
    } else {
      // The test below reads iph->ip_proto, not the effective protocol.
      var rdProto := Past(ip + IP_PROTO_OFF, 1, fragSize);
      if Peek(mem, ip + IP_PROTO_OFF) == VR_IP_PROTO_UDP {
        step := Step(HostLoad16(mem, ip + hlen + UDP_CSUM_OFF), pullLen,
                     rdProto || Past(ip + hlen + UDP_CSUM_OFF, 2, fragSize));
      } else if proto == VR_IP_PROTO_ICMP6 && ip6h.Some? {
        step := Icmp6Layer(mem, ip6h.value + hlen, pullLen, fragSize, checks);
        step := step.(overread := rdProto || step.overread);
      } else {
        step := Step(0, pullLen, rdProto);
      }
    }
    if step.Stop? {
      return ParseResult(SlowPath(step.reason), th, memOut, overreadIn || step.overread);
    }
    r := ParseResult(Parsed(hlen, step.csum, tcphPullLen, step.pull), th, memOut, overreadIn || step.overread);
  }

  /** vr_ip_transport_parse: walks from the network header to the transport
      header, accounting every header it crosses in pull_len and leaving by
      the slow path as soon as pull_len exceeds frag_size. */
  method IpTransportParse(mem: seq<uint8>, iph: Option<nat>, ip6h: Option<nat>, fragSize: uint32,
                          mssAdj: bool, hook: Option<MssHook>, checks: HeaderChecks, pullIn: uint32)
    returns (ret: Verdict, th: Option<nat>, memOut: seq<uint8>, overread: bool)
    ensures ParseResult(ret, th, memOut, overread)
            == TransportParse(mem, iph, ip6h, fragSize, mssAdj, hook, checks, pullIn)
  {
    if iph.None? {
      return Parsed(0, 0, 0, pullIn), None, mem, false;
    }
    var l3 := NetworkLayer(mem, iph.value, ip6h, fragSize, checks, pullIn);
    match l3
    case L3Unhandled(rd) =>
      ret, th, memOut, overread := Unhandled, None, mem, rd;
    case L3Slow(p, rd) =>
      ret, th, memOut, overread := SlowPath(Short(p)), None, mem, rd;
    case L3(proto, hlen, p, valid, rd) =>
      if !valid {
        ret, th, memOut, overread := Parsed(hlen, 0, 0, p), None, mem, rd;
      } else {
        var r := TransportLayer(mem, iph.value, ip6h, fragSize, mssAdj, hook, checks, proto, hlen, p, rd);
        ret, th, memOut, overread := r.verdict, r.th, r.mem, r.overread;
      }
  }
}
