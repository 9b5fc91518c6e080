/** TCP MSS clamping (__vr_adjust_tcp_mss, vr_adjust_tcp_mss): on a SYN,
    the MSS option is lowered to what the smallest physical MTU allows
    after the overlay overhead; the TCP header is an array rewritten in
    place. */
module TcpMss {
  import opened Bytes
  import opened PacketDefs

  /** VR_MAX_PHY_INF: the size of the router's physical interface table. */
  const VR_MAX_PHY_INF := 16

  /** The MSS values of a clamp that happened (*old_mss, *new_mss). */
  datatype MssChange = MssChange(oldMss: uint16, newMss: uint16)

  /** tcp_flag_syn: bit 1 of byte 13 of the TCP header. */
  predicate Syn(h: seq<uint8>)
    requires |h| >= TCP_HDR_LEN
  {
    (h[13] / 2) % 2 == 1
  }

  /** tcp_doff * 4: the header length with options, in bytes. */
  function OptionsEnd(h: seq<uint8>): nat
    requires |h| >= TCP_HDR_LEN
  {
    (h[TCP_OFFSET_FLAGS_OFF] / 16) * 4
  }

  /** A TCP header as the routine needs it: all its bytes are there. */
  predicate WellFormedHeader(h: seq<uint8>)
  {
    |h| >= TCP_HDR_LEN && OptionsEnd(h) <= |h|
  }

  /** Where the option walk from `off` finds a well-formed MSS option
      (its offset), or None when it meets the end-of-list option, runs out
      of header, or finds a malformed MSS option (lines 491-537). */
  function MssOption(h: seq<uint8>, off: nat, limit: nat): (r: Option<nat>)
    requires limit <= |h|
    ensures r.Some? ==>
              off <= r.value && r.value + VR_TCP_OLEN_MSS <= limit
              && h[r.value] == VR_TCP_OPT_MSS && h[r.value + 1] == VR_TCP_OLEN_MSS
    decreases limit - off
  {
    if off >= limit then None
    else if h[off] == VR_TCP_OPT_EOL then None
    else if h[off] == VR_TCP_OPT_NOP then MssOption(h, off + 1, limit)
    else if h[off] == VR_TCP_OPT_MSS then
      if off + VR_TCP_OLEN_MSS > limit || h[off + 1] != VR_TCP_OLEN_MSS then None else Some(off)
    else if off + 1 == limit then None
    else MssOption(h, off + (if h[off + 1] != 0 then h[off + 1] else 1), limit)
  }

  /** max_mss: the MTU less the overlay overhead and a bare TCP header,
      kept in 16 bits as the C assignment does. */
  function MaxMss(lenOverhead: uint16, ethMtu: uint16): uint16
  {
    U16(ethMtu - (lenOverhead + TCP_HDR_LEN))
  }

  /** The MSS value of the option at `off`, in network byte order. */
  function MssAt(h: seq<uint8>, off: nat): uint16
    requires off + 4 <= |h|
  {
    h[off + 2] as int * 256 + h[off + 3] as int
  }

  /** __vr_adjust_tcp_mss on a non-NULL header: the result and the header
      afterwards. */
  function ClampMss(h: seq<uint8>, lenOverhead: uint16, ethMtu: uint16): (Option<MssChange>, seq<uint8>)
    requires WellFormedHeader(h)
  {
    if !Syn(h) then (None, h)
    else
      match MssOption(h, TCP_HDR_LEN, OptionsEnd(h))
      case None => (None, h)
      case Some(off) =>
        var mx := MaxMss(lenOverhead, ethMtu);
        if MssAt(h, off) > mx then
          (Some(MssChange(MssAt(h, off), mx)), h[off + 2 := mx / 256][off + 3 := mx % 256])
        else (None, h)
  }

  /** __vr_adjust_tcp_mss: walks the options of a SYN and clamps its MSS
      option in place. */
  method AdjustTcpMssWithMtu(tcph: array?<uint8>, lenOverhead: uint16, ethMtu: uint16)
    returns (r: Option<MssChange>)
    requires tcph != null ==> WellFormedHeader(tcph[..])
    modifies tcph
    ensures tcph == null ==> r.None?
    ensures tcph != null ==>
              r == ClampMss(old(tcph[..]), lenOverhead, ethMtu).0
              && tcph[..] == ClampMss(old(tcph[..]), lenOverhead, ethMtu).1
  {
    if tcph == null || (tcph[13] / 2) % 2 != 1 {
      return None;
    }
    ghost var h := tcph[..];
    var limit := (tcph[TCP_OFFSET_FLAGS_OFF] / 16) * 4;
    var optOff := TCP_HDR_LEN;
    while optOff < limit
      invariant MssOption(h, optOff, limit) == MssOption(h, TCP_HDR_LEN, limit)
      invariant tcph[..] == h
      decreases limit - optOff
    {
      if tcph[optOff] == VR_TCP_OPT_EOL {
        return None;
      } else if tcph[optOff] == VR_TCP_OPT_NOP {
        optOff := optOff + 1;
      } else if tcph[optOff] == VR_TCP_OPT_MSS {
        if optOff + VR_TCP_OLEN_MSS > limit {
          return None;
        }
        if tcph[optOff + 1] != VR_TCP_OLEN_MSS {
          return None;
        }
        var pktMss: uint16 := tcph[optOff + 2] as int * 256 + tcph[optOff + 3] as int;
        var maxMss := MaxMss(lenOverhead, ethMtu);
        if pktMss > maxMss {
          tcph[optOff + 2] := maxMss / 256;
          tcph[optOff + 3] := maxMss % 256;
          return Some(MssChange(pktMss, maxMss));
        }
        return None;
      } else {
        if optOff + 1 == limit {
          return None;
        }
        if tcph[optOff + 1] != 0 {
          optOff := optOff + tcph[optOff + 1];
        } else {
          optOff := optOff + 1;
        }
      }
    }
    return None;
  }

  /** eth_mtu in vr_adjust_tcp_mss: the smallest MTU among the present
      physical interfaces, VR_INVALID_MTU when there is none. */
  function MinMtu(ifs: seq<Option<uint16>>): uint16
  {
    if ifs == [] then VR_INVALID_MTU
    else
      var m := MinMtu(ifs[..|ifs| - 1]);
      var last := ifs[|ifs| - 1];
      if last.Some? && last.value < m then last.value else m
  }

  /** Lines 551-565: the physical interface table scan. */
  method MinPhysicalMtu(ifs: seq<Option<uint16>>) returns (ethMtu: uint16)
    ensures ethMtu == MinMtu(ifs)
  {
    ethMtu := VR_INVALID_MTU;
    var i := 0;
    while i < |ifs|
      invariant 0 <= i <= |ifs|
      invariant ethMtu == MinMtu(ifs[..i])
    {
      assert ifs[..i + 1][..i] == ifs[..i];
      if ifs[i].Some? {
        var mtu := ifs[i].value;
        if mtu < ethMtu {
          ethMtu := mtu;
        }
      }
      i := i + 1;
    }
    assert ifs[..|ifs|] == ifs;
  }

  /** vr_adjust_tcp_mss: the router's physical interfaces (None when
      vrouter_get(0) finds no router; one entry per table slot, None for an
      empty slot, the interface's MTU otherwise) give eth_mtu; an invalid
      MTU leaves the packet alone. */
  method AdjustTcpMss(tcph: array?<uint8>, lenOverhead: uint16, router: Option<seq<Option<uint16>>>)
    returns (r: Option<MssChange>)
    requires router.Some? ==> |router.value| == VR_MAX_PHY_INF
    requires tcph != null ==> WellFormedHeader(tcph[..])
    modifies tcph
    ensures router.None? || tcph == null || MinMtu(router.value) == VR_INVALID_MTU ==>
              r.None? && (tcph != null ==> tcph[..] == old(tcph[..]))
    ensures router.Some? && tcph != null && MinMtu(router.value) != VR_INVALID_MTU ==>
              r == ClampMss(old(tcph[..]), lenOverhead, MinMtu(router.value)).0
              && tcph[..] == ClampMss(old(tcph[..]), lenOverhead, MinMtu(router.value)).1
  {
    if router.None? {
      return None;
    }
    var ethMtu := MinPhysicalMtu(router.value);
    if ethMtu == VR_INVALID_MTU {
      return None;
    }
    r := AdjustTcpMssWithMtu(tcph, lenOverhead, ethMtu);
  }

  /** The offset of the MSS option a clamp acts on, if any. */
  function ClampedOption(h: seq<uint8>): Option<nat>
    requires WellFormedHeader(h)
  {
    if Syn(h) then MssOption(h, TCP_HDR_LEN, OptionsEnd(h)) else None
  }

  /** The option walk reads nothing at or past the MSS value it finds, so
      rewriting that value does not change where the walk stops. */
  lemma {:induction false} MssOptionFrame(h: seq<uint8>, h': seq<uint8>, off: nat, limit: nat, m: nat)
    requires limit <= |h| == |h'|
    requires MssOption(h, off, limit) == Some(m)
    requires forall i :: 0 <= i < m + 2 ==> h'[i] == h[i]
    ensures MssOption(h', off, limit) == Some(m)
    decreases limit - off
  {
    if h[off] == VR_TCP_OPT_NOP {
      MssOptionFrame(h, h', off + 1, limit, m);
    } else if h[off] != VR_TCP_OPT_EOL && h[off] != VR_TCP_OPT_MSS {
      MssOptionFrame(h, h', off + (if h[off + 1] != 0 then h[off + 1] else 1), limit, m);
    }
  }

  /** __vr_adjust_tcp_mss returns true exactly for a SYN whose MSS option
      is well formed and larger than max_mss; it then reports the old value,
      writes max_mss in network byte order and changes no other byte; when
      it returns false the header is untouched. */
  lemma ClampOutcome(h: seq<uint8>, lenOverhead: uint16, ethMtu: uint16)
    requires WellFormedHeader(h)
    ensures var (r, h') := ClampMss(h, lenOverhead, ethMtu);
            var o := ClampedOption(h);
            |h'| == |h|
            && (r.Some? <==> o.Some? && MssAt(h, o.value) > MaxMss(lenOverhead, ethMtu))
            && (r.None? ==> h' == h)
            && (r.Some? ==>
                  r.value.oldMss == MssAt(h, o.value)
                  && r.value.newMss == MaxMss(lenOverhead, ethMtu) < r.value.oldMss
                  && MssAt(h', o.value) == r.value.newMss
                  && forall i :: 0 <= i < |h| && i != o.value + 2 && i != o.value + 3 ==> h'[i] == h[i])
  {
  }

  /** After the clamp, a SYN's MSS option is at most max_mss. */
  lemma ClampBounds(h: seq<uint8>, lenOverhead: uint16, ethMtu: uint16)
    requires WellFormedHeader(h)
    ensures var h' := ClampMss(h, lenOverhead, ethMtu).1;
            WellFormedHeader(h') && ClampedOption(h') == ClampedOption(h)
            && (ClampedOption(h').Some? ==> MssAt(h', ClampedOption(h').value) <= MaxMss(lenOverhead, ethMtu))
  {
    var (r, h') := ClampMss(h, lenOverhead, ethMtu);
    if r.Some? {
      var m := ClampedOption(h).value;
      assert h'[12] == h[12] && h'[13] == h[13];
      MssOptionFrame(h, h', TCP_HDR_LEN, OptionsEnd(h), m);
    }
  }

  /** Clamping twice with the same MTU is clamping once: the second call
      returns false and changes nothing. */
  lemma ClampIdempotent(h: seq<uint8>, lenOverhead: uint16, ethMtu: uint16)
    requires WellFormedHeader(h)
    ensures var h' := ClampMss(h, lenOverhead, ethMtu).1;
            WellFormedHeader(h') && ClampMss(h', lenOverhead, ethMtu) == (None, h')
  {
    ClampBounds(h, lenOverhead, ethMtu);
  }

  /** max_mss is computed in 16 bits: when the overhead and a TCP header
      exceed the MTU it wraps to a large value, and a SYN whose MSS is 1460
      is then not clamped at all. */
  lemma SmallMtuWraps(h: seq<uint8>)
    requires WellFormedHeader(h) && ClampedOption(h).Some? && MssAt(h, ClampedOption(h).value) == 1460
    ensures MaxMss(VROUTER_L2_OVERLAY_LEN, 68) == 0x1_0000 - 14
    ensures ClampMss(h, VROUTER_L2_OVERLAY_LEN, 68) == (None, h)
  {
  }

  /** The interface scan gives a value no larger than any present
      interface's MTU, and it is VR_INVALID_MTU or one of those MTUs. */
  lemma {:induction false} MinMtuIsMinimum(ifs: seq<Option<uint16>>)
    ensures forall i :: 0 <= i < |ifs| && ifs[i].Some? ==> MinMtu(ifs) <= ifs[i].value
    ensures MinMtu(ifs) == VR_INVALID_MTU
            || exists i :: 0 <= i < |ifs| && ifs[i].Some? && ifs[i].value == MinMtu(ifs)
  {
    if ifs != [] {
      var init := ifs[..|ifs| - 1];
      MinMtuIsMinimum(init);
      assert forall i :: 0 <= i < |init| ==> init[i] == ifs[i];
    }
  }
}
