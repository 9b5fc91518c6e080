/** The signedness table of the vRouter Sandesh structures and the
    translation between Thrift wire types and the Sandesh unsigned types
    (tracing/vrftrace/cmd/vrctl/signedness.go). sandesh.go carries a
    second, identical copy of the table and the helpers; it is modelled
    once, here. */
module Signedness {
  import opened Bytes

  /** Thrift's TType is a byte. */
  type TType = uint8

  const STOP: TType := 0
  const VOID: TType := 1
  const BOOL: TType := 2
  const BYTE: TType := 3
  const DOUBLE: TType := 4
  const I16: TType := 6
  const I32: TType := 8
  const T_U64: TType := 9
  const I64: TType := 10
  const STRING: TType := 11
  const STRUCT: TType := 12
  const MAP: TType := 13
  const SET: TType := 14
  const LIST: TType := 15
  const UTF8: TType := 16
  const UTF16: TType := 17
  const T_U16: TType := 19
  const T_U32: TType := 20
  const T_XML: TType := 21
  const T_IPV4: TType := 22
  const T_UUID: TType := 23
  const T_IPADDR: TType := 24

  /** Field id -> "this field is unsigned", per Sandesh structure name. */
  type FieldSignedness = map<int16, bool>

  const SIGNEDNESS: map<string, FieldSignedness> := map[
    "sandesh_hdr" := map[1 := false, 2 := false],
    "vr_nexthop_req" := map[1 := false, 2 := false, 3 := false, 4 := false, 5 := false, 6 := false, 7 := false, 8 := false, 9 := false, 10 := true, 11 := true, 12 := false, 13 := false, 14 := false, 15 := false, 16 := true, 17 := false, 18 := false, 19 := false, 20 := false, 21 := false, 22 := false, 23 := false, 24 := false, 25 := false, 26 := false, 27 := false, 28 := false, 29 := true, 30 := false],
    "vr_interface_req" := map[1 := false, 2 := true, 3 := false, 4 := false, 5 := false, 6 := false, 7 := false, 8 := false, 9 := false, 10 := false, 11 := false, 12 := false, 13 := false, 14 := false, 15 := false, 16 := false, 17 := false, 18 := false, 19 := false, 20 := false, 21 := false, 22 := false, 23 := false, 24 := false, 25 := false, 26 := false, 27 := false, 28 := false, 29 := false, 30 := false, 31 := false, 32 := false, 33 := false, 34 := false, 35 := false, 36 := false, 37 := false, 38 := false, 39 := true, 40 := true, 41 := true, 42 := false, 43 := false, 44 := false, 45 := false, 46 := false, 47 := false, 48 := false, 49 := false, 50 := false, 51 := false, 52 := false, 53 := false, 54 := false, 55 := false, 56 := false, 57 := false, 58 := true, 59 := false, 60 := true, 61 := false, 62 := false, 63 := false, 64 := false, 65 := true, 66 := true, 67 := true, 68 := true, 77 := true, 78 := true, 79 := false, 80 := false, 81 := true, 82 := true, 83 := false, 84 := false, 85 := false, 86 := false, 87 := false, 88 := false, 89 := false, 90 := false, 91 := true, 92 := false, 93 := true],
    "vr_vxlan_req" := map[1 := false, 2 := false, 3 := false, 4 := false],
    "vr_route_req" := map[1 := false, 2 := false, 3 := false, 4 := false, 5 := false, 6 := false, 7 := false, 8 := false, 9 := false, 10 := false, 11 := false, 12 := false, 13 := false, 14 := false],
    "vr_mpls_req" := map[1 := false, 2 := false, 3 := false, 4 := false, 5 := false],
    "vr_mirror_req" := map[1 := false, 2 := false, 3 := false, 4 := false, 5 := false, 6 := false, 7 := false, 8 := false, 9 := false],
    "vr_vrf_req" := map[1 := false, 2 := false, 3 := false, 4 := false, 5 := false, 6 := false, 7 := false],
    "vr_flow_req" := map[1 := false, 2 := false, 3 := false, 4 := false, 5 := false, 6 := false, 7 := false, 8 := true, 9 := true, 10 := true, 11 := true, 12 := true, 13 := true, 14 := false, 15 := true, 16 := true, 17 := true, 18 := true, 19 := true, 20 := true, 21 := false, 22 := true, 23 := true, 24 := true, 25 := true, 26 := true, 27 := false, 28 := true, 29 := true, 30 := true, 31 := true, 32 := true, 33 := true, 34 := true, 35 := true, 36 := false, 37 := false, 38 := false, 39 := false],
    "vr_vrf_assign_req" := map[1 := false, 2 := false, 3 := false, 4 := false, 5 := false, 6 := false, 7 := false],
    "vr_vrf_stats_req" := map[1 := false, 2 := false, 3 := false, 4 := false, 5 := false, 6 := false, 7 := false, 8 := false, 9 := false, 10 := false, 11 := false, 12 := false, 13 := false, 14 := false, 15 := false, 16 := false, 17 := false, 18 := false, 19 := false, 20 := false, 21 := false, 22 := false, 23 := false, 24 := false, 25 := false, 26 := false, 27 := false, 28 := false, 29 := false, 30 := false, 31 := false, 32 := false, 33 := false],
    "vr_response" := map[1 := false, 2 := false],
    "vrouter_ops" := map[1 := false, 2 := false, 3 := false, 4 := false, 5 := false, 6 := false, 7 := false, 8 := false, 9 := false, 10 := false, 11 := false, 12 := false, 13 := true, 14 := false, 15 := false, 16 := false, 17 := false, 18 := false, 19 := false, 20 := false, 21 := false, 22 := false, 23 := false, 24 := false, 25 := false, 26 := false, 27 := false, 28 := false, 29 := false, 30 := true, 31 := true, 32 := true, 33 := true, 34 := false, 35 := false, 36 := false, 37 := false, 38 := true, 39 := false, 40 := false, 41 := false, 42 := false, 43 := false, 44 := false, 45 := false, 46 := false, 47 := false],
    "vr_mem_stats_req" := map[1 := false, 2 := false, 3 := false, 4 := false, 5 := false, 6 := false, 7 := false, 8 := false, 9 := false, 10 := false, 11 := false, 12 := false, 13 := false, 14 := false, 15 := false, 16 := false, 17 := false, 18 := false, 19 := false, 20 := false, 21 := false, 22 := false, 23 := false, 24 := false, 25 := false, 26 := false, 27 := false, 28 := false, 29 := false, 30 := false, 31 := false, 32 := false, 33 := false, 34 := false, 35 := false, 36 := false, 37 := false, 38 := false, 39 := false, 40 := false, 41 := false, 42 := false, 43 := false, 44 := false, 45 := false, 46 := false, 47 := false, 48 := false, 49 := false, 50 := false, 51 := false, 52 := false, 53 := false, 54 := false, 55 := false, 56 := false, 57 := false, 58 := false, 59 := false, 60 := false, 61 := false, 62 := false, 63 := false, 64 := false, 65 := false, 66 := false, 67 := false, 68 := false, 69 := false, 70 := false, 71 := false, 72 := false],
    "vr_info_req" := map[1 := false, 2 := false, 3 := false, 4 := false, 5 := false, 6 := false, 7 := false, 8 := false, 9 := false],
    "vr_pkt_drop_log_req" := map[1 := false, 2 := false, 3 := false, 4 := false, 5 := false, 6 := false, 7 := false, 8 := false, 9 := false, 10 := false, 11 := false, 12 := false],
    "vr_drop_stats_req" := map[1 := false, 2 := false, 3 := false, 4 := false, 5 := false, 6 := false, 7 := false, 8 := false, 9 := false, 10 := false, 11 := false, 12 := false, 13 := false, 14 := false, 15 := false, 16 := false, 17 := false, 18 := false, 19 := false, 20 := false, 21 := false, 22 := false, 23 := false, 24 := false, 25 := false, 26 := false, 27 := false, 28 := false, 29 := false, 30 := false, 31 := false, 32 := false, 33 := false, 34 := false, 35 := false, 36 := false, 37 := false, 38 := false, 39 := false, 40 := false, 41 := false, 42 := false, 43 := false, 44 := false, 45 := false, 46 := false, 47 := false, 48 := false, 49 := false, 50 := false, 51 := false, 52 := false, 53 := false, 54 := false, 55 := false, 56 := false, 57 := false, 58 := false],
    "vr_qos_map_req" := map[1 := false, 2 := true, 3 := true, 4 := false, 5 := false, 6 := false, 7 := false, 8 := false, 9 := false, 10 := false],
    "vr_fc_map_req" := map[1 := false, 2 := true, 3 := false, 4 := false, 5 := false, 6 := false, 7 := false, 8 := false],
    "vr_flow_response" := map[1 := false, 2 := true, 3 := true, 4 := true, 5 := true, 6 := true, 7 := true, 8 := false],
    "vr_flow_table_data" := map[1 := false, 2 := true, 3 := true, 4 := true, 5 := false, 6 := true, 7 := true, 8 := true, 9 := true, 10 := true, 11 := true, 12 := true, 13 := true, 14 := true, 15 := true, 16 := true, 17 := true],
    "vr_bridge_table_data" := map[1 := false, 2 := true, 3 := true, 4 := true, 5 := false],
    "vr_hugepage_config" := map[1 := false, 2 := true, 3 := true, 4 := true, 5 := true, 6 := false, 7 := true]
  ]

  /** signedness(st_name): the structure's table and true, or an empty
      table and false for a name the table does not list. */
  function Lookup(name: string): (r: (FieldSignedness, bool))
    ensures r.1 <==> name in SIGNEDNESS
    ensures r.1 ==> r.0 == SIGNEDNESS[name]
    ensures !r.1 ==> r.0 == map[]
  {
    if name in SIGNEDNESS then (SIGNEDNESS[name], true) else (map[], false)
  }

  /** The unsigned wire types, which exist only in Sandesh. */
  predicate IsUnsignedWireType(t: TType)
  {
    t == T_U16 || t == T_U32 || t == T_U64
  }

  /** The signed Thrift integer types that have an unsigned twin. */
  predicate IsWideSignedType(t: TType)
  {
    t == I16 || t == I32 || t == I64
  }

  /** translate_ttype_to_stype: an I16/I32/I64 field flagged unsigned is
      sent as T_U16/T_U32/T_U64; every other type goes out as it is. */
  function TtypeToStype(t: TType, unsigned: bool): (r: TType)
    ensures r != t <==> unsigned && IsWideSignedType(t)
    ensures r != t ==> IsUnsignedWireType(r)
    ensures t == I16 && unsigned ==> r == T_U16
    ensures t == I32 && unsigned ==> r == T_U32
    ensures t == I64 && unsigned ==> r == T_U64
  {
    if t == I16 && unsigned then T_U16
    else if t == I32 && unsigned then T_U32
    else if t == I64 && unsigned then T_U64
    else t
  }

  /** translate_stype_to_ttype: the unsigned wire types are read back as
      their signed Thrift twins; everything else is the identity. */
  function StypeToTtype(t: TType): (r: TType)
    ensures r != t <==> IsUnsignedWireType(t)
    ensures r != t ==> IsWideSignedType(r)
    ensures t == T_U16 ==> r == I16
    ensures t == T_U32 ==> r == I32
    ensures t == T_U64 ==> r == I64
  {
    if t == T_U16 then I16
    else if t == T_U32 then I32
    else if t == T_U64 then I64
    else t
  }

  /** Reading back what was written recovers the Thrift type, for every
      type that is not itself one of the Sandesh unsigned types. */
  lemma TranslationRoundTrip(t: TType, unsigned: bool)
    requires !IsUnsignedWireType(t)
    ensures StypeToTtype(TtypeToStype(t, unsigned)) == t
  {
  }

  /** The exception is exact: a Sandesh unsigned type handed to the writer
      comes back as its signed twin. */
  lemma WireTypeNotRecovered(t: TType, unsigned: bool)
    requires IsUnsignedWireType(t)
    ensures StypeToTtype(TtypeToStype(t, unsigned)) != t
  {
  }

  /** translate_stype_to_ttype is idempotent. */
  lemma ReverseIdempotent(t: TType)
    ensures StypeToTtype(StypeToTtype(t)) == StypeToTtype(t)
  {
  }

  /** The reader never produces a Sandesh unsigned type. */
  lemma ReverseLeavesNoWireType(t: TType)
    ensures !IsUnsignedWireType(StypeToTtype(t))
  {
  }

  /** Table lookup as WriteFieldBegin uses it: the flag recorded for the
      field id, and false for an id the table does not list. */
  function FieldUnsigned(s: FieldSignedness, id: int16): (r: bool)
    ensures r <==> id in s && s[id]
  {
    if id in s then s[id] else false
  }

  /** A name outside the table yields a table in which no field is
      unsigned. */
  lemma UnknownStructAllSigned(name: string, id: int16)
    requires name !in SIGNEDNESS
    ensures !FieldUnsigned(Lookup(name).0, id)
  {
  }
}
