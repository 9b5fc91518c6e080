/** The flow-hash key of vr_get_pkt_hash: a 5-tuple for IPv4 and IPv6
    packets, source and destination MAC plus one ethertype byte otherwise.
    The key bytes are modelled exactly (on a little-endian host); the hash
    function vr_hash itself is a parameter. */
module PktHash {
  import opened Bytes
  import opened PacketDefs

  /** pkt->vp_type, as far as the hash distinguishes it. */
  datatype PktType = VpTypeIp | VpTypeIp6 | VpTypeOther

  /** The parts of struct vr_packet the hash reads: its type, its buffer,
      and the offsets of the network header and of pkt_data. */
  datatype Packet = Packet(vpType: PktType, buf: seq<uint8>, network: nat, data: nat)

  /** vr_ip_fragment / vr_ip6_fragment on the header at an offset. */
  type FragmentTest = (seq<uint8>, nat) -> bool

  /** vr_hash(key, len, 0). */
  type HashFn = seq<uint8> -> uint32

  /** The hashed protocol and ports, in host order. */
  datatype Fields = Fields(proto: int, sport: uint16, dport: uint16)

  /** n bytes of the buffer from off. */
  function Slice(mem: seq<uint8>, off: nat, n: nat): seq<uint8>
  {
    seq<uint8>(n, i requires 0 <= i < n => Peek(mem, off + i))
  }

  /** Ports of a TCP or UDP header at l4 (both keep them at offsets 0 and
      2), zero for any other protocol. */
  function PortsOf(buf: seq<uint8>, proto: int, l4: nat): Fields
  {
    if proto == VR_IP_PROTO_TCP || proto == VR_IP_PROTO_UDP
    then Fields(proto, NetLoad16(buf, l4), NetLoad16(buf, l4 + 2))
    else Fields(proto, 0, 0)
  }

  /** proto, sport and dport as lines 589-628 leave them. */
  function HashFields(p: Packet, ipFragment: FragmentTest, ip6Fragment: FragmentTest): Fields
  {
    match p.vpType
    case VpTypeIp6 =>
      if ip6Fragment(p.buf, p.network) then Fields(0, 0, 0)
      else PortsOf(p.buf, Peek(p.buf, p.network + IP6_NXT_OFF), p.network + IP6_HDR_LEN)
    case VpTypeIp =>
      var proto := Peek(p.buf, p.network + IP_PROTO_OFF);
      if ipFragment(p.buf, p.network) then Fields(proto, 0, 0)
      else PortsOf(p.buf, proto, p.network + 4 * (Peek(p.buf, p.network) % 16))
    case VpTypeOther => Fields(-1, 0, 0)
  }

  /** The first byte of an int in memory: its low byte. */
  function LowByte(x: int): uint8 { x % 256 }

  /** The key handed to vr_hash (lines 630-653). Source and destination
      addresses sit at offsets 8 and 24 of an IPv6 header, 12 and 16 of an
      IPv4 header; eth_dmac is at 0 and eth_smac at 6 of an Ethernet
      header. */
  function HashKey(p: Packet, ipFragment: FragmentTest, ip6Fragment: FragmentTest): seq<uint8>
  {
    var f := HashFields(p, ipFragment, ip6Fragment);
    match p.vpType
    case VpTypeIp6 =>
      Slice(p.buf, p.network + 8, IP6_ADDRESS_LEN) + Slice(p.buf, p.network + 24, IP6_ADDRESS_LEN)
      + [LowByte(f.proto)] + ToLE(f.sport, 2) + ToLE(f.dport, 2)
    case VpTypeIp =>
      Slice(p.buf, p.network + 12, 4) + Slice(p.buf, p.network + 16, 4)
      + [LowByte(f.proto)] + ToLE(f.sport, 2) + ToLE(f.dport, 2)
    case VpTypeOther =>
      Slice(p.buf, p.data + ETH_SMAC_OFF, ETHER_ALEN) + Slice(p.buf, p.data, ETHER_ALEN)
      + [Peek(p.buf, p.data + ETH_PROTO_OFF)]
  }

  /** memcpy(key + at, src, |src|). */
  method Memcpy(key: array<uint8>, at: nat, src: seq<uint8>)
    requires at + |src| <= key.Length
    modifies key
    ensures forall k :: 0 <= k < key.Length ==>
              key[k] == (if at <= k < at + |src| then src[k - at] else old(key[k]))
  {
    var i := 0;
    while i < |src|
      invariant 0 <= i <= |src|
      invariant forall k :: 0 <= k < key.Length ==>
                  key[k] == (if at <= k < at + i then src[k - at] else old(key[k]))
    {
      key[at + i] := src[i];
      i := i + 1;
    }
  }

  /** Lines 589-628: protocol and ports. */
  method PktFields(p: Packet, ipFragment: FragmentTest, ip6Fragment: FragmentTest) returns (f: Fields)
    ensures f == HashFields(p, ipFragment, ip6Fragment)
  {
    var fragment := false;
    var proto: int;
    var sport: uint16 := 0;
    var dport: uint16 := 0;
    var l4 := 0;
    if p.vpType == VpTypeIp6 {
      l4 := p.network + IP6_HDR_LEN;
      if ip6Fragment(p.buf, p.network) {
        fragment := true;
        proto := 0;
      } else {
        proto := Peek(p.buf, p.network + IP6_NXT_OFF);
      }
    } else if p.vpType == VpTypeIp {
      l4 := p.network + 4 * (Peek(p.buf, p.network) % 16);
      if ipFragment(p.buf, p.network) {
        fragment := true;
      }
      proto := Peek(p.buf, p.network + IP_PROTO_OFF);
    } else {
      proto := -1;
    }
    if !fragment {
      if proto == VR_IP_PROTO_TCP || proto == VR_IP_PROTO_UDP {
        sport := NetLoad16(p.buf, l4);
        dport := NetLoad16(p.buf, l4 + 2);
      }
    }
    f := Fields(proto, sport, dport);
  }

  /** vr_get_pkt_hash: a NULL packet hashes to 0; otherwise the key is
      built in a 38-byte buffer and its first 37 (IPv6) or 13 bytes are
      hashed. */
  method GetPktHash(pkt: Option<Packet>, ipFragment: FragmentTest, ip6Fragment: FragmentTest, vrHash: HashFn)
    returns (hash: uint32)
    ensures pkt.None? ==> hash == 0
    ensures pkt.Some? ==> hash == vrHash(HashKey(pkt.value, ipFragment, ip6Fragment))
  {
    if pkt.None? {
      return 0;
    }
    var p := pkt.value;
    var f := PktFields(p, ipFragment, ip6Fragment);
    var key := new uint8[38];
    var sport := ToLE(f.sport, 2);
    var dport := ToLE(f.dport, 2);
    if p.vpType == VpTypeIp6 {
      var src := Slice(p.buf, p.network + 8, IP6_ADDRESS_LEN);
      var dst := Slice(p.buf, p.network + 24, IP6_ADDRESS_LEN);
      FillIpKey(key, src, dst, LowByte(f.proto), sport, dport);
      hash := vrHash(key[..37]);
    } else if p.vpType == VpTypeIp {
      var src := Slice(p.buf, p.network + 12, 4);
      var dst := Slice(p.buf, p.network + 16, 4);
      FillIpKey(key, src, dst, LowByte(f.proto), sport, dport);
      hash := vrHash(key[..13]);
    } else {
      var smac := Slice(p.buf, p.data + ETH_SMAC_OFF, ETHER_ALEN);
      var dmac := Slice(p.buf, p.data, ETHER_ALEN);
      Memcpy(key, 0, smac);
      Memcpy(key, 6, dmac);
      Memcpy(key, 12, [Peek(p.buf, p.data + ETH_PROTO_OFF)]);
      assert key[..13] == smac + dmac + [Peek(p.buf, p.data + ETH_PROTO_OFF)];
      hash := vrHash(key[..13]);
    }
  }

  /** The five memcpy calls of an IP key: the two addresses, the protocol
      byte and the two ports, back to back from byte 0. */
  method FillIpKey(key: array<uint8>, src: seq<uint8>, dst: seq<uint8>, proto: uint8,
                   sport: seq<uint8>, dport: seq<uint8>)
    requires |src| == |dst| && 2 * |src| + 1 + |sport| + |dport| <= key.Length
    modifies key
    ensures key[..2 * |src| + 1 + |sport| + |dport|] == src + dst + [proto] + sport + dport
  {
    var a := |src|;
    Memcpy(key, 0, src);
    Memcpy(key, a, dst);
    Memcpy(key, 2 * a, [proto]);
    Memcpy(key, 2 * a + 1, sport);
    Memcpy(key, 2 * a + 1 + |sport|, dport);
  }

  /** Reading the key back: addresses, the protocol byte and the two
      host-order ports of an IP packet, in that order, 37 bytes for IPv6
      and 13 for IPv4; MACs and the first ethertype byte otherwise. */
  lemma KeyLayout(p: Packet, ipFragment: FragmentTest, ip6Fragment: FragmentTest)
    ensures var k := HashKey(p, ipFragment, ip6Fragment);
            var f := HashFields(p, ipFragment, ip6Fragment);
            var a := if p.vpType == VpTypeIp6 then IP6_ADDRESS_LEN else 4;
            |k| == (if p.vpType == VpTypeIp6 then 37 else 13)
            && (p.vpType != VpTypeOther ==>
                  k[..a] == Slice(p.buf, p.network + (if a == 4 then 12 else 8), a)
                  && k[a..2 * a] == Slice(p.buf, p.network + (if a == 4 then 16 else 24), a)
                  && k[2 * a] == LowByte(f.proto)
                  && LE(k[2 * a + 1..2 * a + 3]) == f.sport
                  && LE(k[2 * a + 3..2 * a + 5]) == f.dport)
            && (p.vpType == VpTypeOther ==>
                  k[..6] == Slice(p.buf, p.data + ETH_SMAC_OFF, ETHER_ALEN)
                  && k[6..12] == Slice(p.buf, p.data, ETHER_ALEN)
                  && k[12] == NetLoad16(p.buf, p.data + ETH_PROTO_OFF) / 256)
  {
    var f := HashFields(p, ipFragment, ip6Fragment);
    var k := HashKey(p, ipFragment, ip6Fragment);
    if p.vpType != VpTypeOther {
      var a := if p.vpType == VpTypeIp6 then IP6_ADDRESS_LEN else 4;
      assert k[2 * a + 1..2 * a + 3] == ToLE(f.sport, 2);
      assert k[2 * a + 3..2 * a + 5] == ToLE(f.dport, 2);
      LEOfToLE(f.sport, 2);
      LEOfToLE(f.dport, 2);
    }
  }

  /** Fragments hash without ports; an IPv6 fragment also without its
      protocol, an IPv4 fragment with its ip_proto. */
  lemma FragmentKey(p: Packet, ipFragment: FragmentTest, ip6Fragment: FragmentTest)
    requires (p.vpType == VpTypeIp && ipFragment(p.buf, p.network))
             || (p.vpType == VpTypeIp6 && ip6Fragment(p.buf, p.network))
    ensures var k := HashKey(p, ipFragment, ip6Fragment);
            var a := if p.vpType == VpTypeIp6 then IP6_ADDRESS_LEN else 4;
            |k| == 2 * a + 5
            && (forall i :: 2 * a + 1 <= i < |k| ==> k[i] == 0)
            && k[2 * a] == (if p.vpType == VpTypeIp6 then 0 else Peek(p.buf, p.network + IP_PROTO_OFF))
  {
  }

  /** A TCP or UDP packet that is not a fragment puts its ports into the
      key in host order: on a little-endian host each port's two header
      bytes appear swapped. Other protocols hash with zero ports. */
  lemma PortBytes(p: Packet, ipFragment: FragmentTest, ip6Fragment: FragmentTest)
    requires (p.vpType == VpTypeIp && !ipFragment(p.buf, p.network))
             || (p.vpType == VpTypeIp6 && !ip6Fragment(p.buf, p.network))
    ensures var k := HashKey(p, ipFragment, ip6Fragment);
            var a := if p.vpType == VpTypeIp6 then IP6_ADDRESS_LEN else 4;
            var proto := Peek(p.buf, p.network + (if p.vpType == VpTypeIp6 then IP6_NXT_OFF else IP_PROTO_OFF));
            var l4 := p.network + (if p.vpType == VpTypeIp6 then IP6_HDR_LEN else 4 * (Peek(p.buf, p.network) % 16));
            k[2 * a] == proto
            && (proto == VR_IP_PROTO_TCP || proto == VR_IP_PROTO_UDP ==>
                  k[2 * a + 1..2 * a + 5] == [Peek(p.buf, l4 + 1), Peek(p.buf, l4), Peek(p.buf, l4 + 3), Peek(p.buf, l4 + 2)])
            && (proto != VR_IP_PROTO_TCP && proto != VR_IP_PROTO_UDP ==>
                  k[2 * a + 1..2 * a + 5] == [0, 0, 0, 0])
  {
    var f := HashFields(p, ipFragment, ip6Fragment);
    var k := HashKey(p, ipFragment, ip6Fragment);
    var a := if p.vpType == VpTypeIp6 then IP6_ADDRESS_LEN else 4;
    var l4 := p.network + (if p.vpType == VpTypeIp6 then IP6_HDR_LEN else 4 * (Peek(p.buf, p.network) % 16));
    var proto := Peek(p.buf, p.network + (if p.vpType == VpTypeIp6 then IP6_NXT_OFF else IP_PROTO_OFF));
    assert f == PortsOf(p.buf, proto, l4);
    KeyTail(p, ipFragment, ip6Fragment);
    if proto == VR_IP_PROTO_TCP || proto == VR_IP_PROTO_UDP {
      SwappedPort(p.buf, l4);
      SwappedPort(p.buf, l4 + 2);
      assert k[2 * a + 1..2 * a + 5] == ToLE(NetLoad16(p.buf, l4), 2) + ToLE(NetLoad16(p.buf, l4 + 2), 2);
    }
  }

  /** The last five key bytes: the protocol's low byte and both ports as
      two little-endian shorts. */
  lemma KeyTail(p: Packet, ipFragment: FragmentTest, ip6Fragment: FragmentTest)
    requires p.vpType != VpTypeOther
    ensures var k := HashKey(p, ipFragment, ip6Fragment);
            var f := HashFields(p, ipFragment, ip6Fragment);
            var a := if p.vpType == VpTypeIp6 then IP6_ADDRESS_LEN else 4;
            |k| == 2 * a + 5 && k[2 * a] == LowByte(f.proto)
            && k[2 * a + 1..2 * a + 5] == ToLE(f.sport, 2) + ToLE(f.dport, 2)
  {
  }

  /** A network-order 16-bit field stored in host (little-endian) order. */
  lemma SwappedPort(buf: seq<uint8>, i: nat)
    ensures ToLE(NetLoad16(buf, i), 2) == [Peek(buf, i + 1), Peek(buf, i)]
  {
    var v := NetLoad16(buf, i);
    assert v % 256 == Peek(buf, i + 1);
    assert v / 256 == Peek(buf, i);
    assert ToLE(v, 2) == [v % 256] + ToLE(v / 256, 1);
  }
}
