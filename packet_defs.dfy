/** Header sizes, protocol numbers and tunnel constants of the datapath.
    Header layouts follow RFC 791 (IPv4), RFC 8200 (IPv6 and its Fragment
    header), RFC 793 (TCP), RFC 768 (UDP), RFC 4861 (ICMPv6 solicitations),
    RFC 3032 (MPLS label stack entry), RFC 7348 (VXLAN) and IEEE 802.1Q/ah. */
module PacketDefs {

  // sizeof() of the datapath's header structures
  const IP_HDR_LEN := 20          // struct vr_ip, no options
  const IP6_HDR_LEN := 40         // struct vr_ip6
  const IP6_FRAG_HDR_LEN := 8     // struct vr_ip6_frag
  const TCP_HDR_LEN := 20         // struct vr_tcp, no options
  const UDP_HDR_LEN := 8          // struct vr_udp
  const ICMP_HDR_LEN := 8         // struct vr_icmp
  const SCTP_HDR_LEN := 12        // struct vr_sctp
  const NEIGHBOR_OPTION_LEN := 2  // struct vr_neighbor_option (type, length)
  const IP6_ADDRESS_LEN := 16     // VR_IP6_ADDRESS_LEN
  const ETHER_ALEN := 6           // VR_ETHER_ALEN
  const ETHER_HLEN := 14          // VR_ETHER_HLEN == sizeof(struct vr_eth)
  const VXLAN_LEN := 8            // struct vr_vxlan
  const VXLAN_HDR_LEN := 36       // VR_VXLAN_HDR_LEN: outer IP + UDP + VXLAN
  const MPLS_HDR_LEN := 4         // VR_MPLS_HDR_LEN
  const L2_CTRL_DATA_LEN := 4     // VR_L2_CTRL_DATA_LEN
  const PBB_ITAG_LEN := 4         // struct vr_pbb_itag
  const VLAN_HDR_LEN := 4         // struct vr_vlan_hdr (tag, proto)
  const ARP_LEN := 28             // struct vr_arp

  // Field offsets inside the headers
  const IP_PROTO_OFF := 9         // vr_ip.ip_proto
  const IP6_NXT_OFF := 6          // vr_ip6.ip6_nxt
  const TCP_OFFSET_FLAGS_OFF := 12 // vr_tcp.tcp_offset_r_flags
  const TCP_CSUM_OFF := 16        // vr_tcp.tcp_csum
  const UDP_CSUM_OFF := 6         // vr_udp.udp_csum
  const ICMP_CSUM_OFF := 2        // vr_icmp.icmp_csum
  const ETH_PROTO_OFF := 12       // vr_eth.eth_proto
  const ETH_SMAC_OFF := 6         // vr_eth.eth_smac
  const VLAN_PROTO_OFF := 2       // vr_vlan_hdr.vlan_proto

  // IP protocol numbers
  const VR_IP_PROTO_ICMP := 1
  const VR_IP_PROTO_TCP := 6
  const VR_IP_PROTO_UDP := 17
  const VR_IP_PROTO_GRE := 47
  const VR_IP6_PROTO_FRAG := 44
  const VR_IP_PROTO_ICMP6 := 58
  const VR_IP_PROTO_SCTP := 132

  const VR_ICMP6_TYPE_ROUTER_SOL := 133
  const VR_ICMP6_TYPE_NEIGH_SOL := 135

  const VR_TCP_FLAG_SYN := 0x0002
  /** Bytes the overlay adds in front of a VM's packet; the MSS hook's
      len_overhead argument. */
  const VROUTER_L2_OVERLAY_LEN := 62

  // TCP option kinds and the MSS option length (RFC 793 section 3.1)
  const VR_TCP_OPT_EOL := 0
  const VR_TCP_OPT_NOP := 1
  const VR_TCP_OPT_MSS := 2
  const VR_TCP_OLEN_MSS := 4

  // Ethertypes
  const VR_ETH_PROTO_IP := 0x0800
  const VR_ETH_PROTO_ARP := 0x0806
  const VR_ETH_PROTO_VLAN := 0x8100
  const VR_ETH_PROTO_IP6 := 0x86DD
  const VR_ETH_PROTO_PBB := 0x88E7

  // Tunnels
  const VR_GRE_PROTO_MPLS := 0x8847
  const VR_VXLAN_UDP_DST_PORT := 4789
  const VR_MPLS_LABEL_STACK_BIT_MASK := 0x100
  const VR_MPLS_LABEL_SHIFT := 12
  const VR_MPLS_LABEL_MASK := 0xFFFFF

  // What the tunnel-type callback reports
  const PKT_MPLS_TUNNEL_L3 := 1
  const PKT_MPLS_TUNNEL_L2_UCAST := 2
  const PKT_MPLS_TUNNEL_L2_MCAST := 3
  const PKT_MPLS_TUNNEL_L2_CONTROL_DATA := 4

  const VR_INVALID_MTU := 0xFFFF
}
