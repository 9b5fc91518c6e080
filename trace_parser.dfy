/** The decoders vrft uses to turn the raw vRouter request structures
    captured by its probes into Sandesh request records
    (tracing/vrftrace/cmd/vrft/parser.go). Each decoder reads fixed
    offsets of the captured bytes; a capture shorter than the last byte
    a decoder slices makes Go panic, so each decoder requires that length.

    Each decoder is paired with an encoder that lays a record out at the
    same offsets with zero pad bytes. The round trip Parse(Encode(r)) == r
    shows that the offsets and byte orders of the fields are consistent
    and do not overlap; the Unread lemmas show that the pad bytes are
    never read. */
module TraceParser {
  import opened Bytes

  // --- Fixed-offset reads -----------------------------------------------

  lemma Widths()
    ensures Pow256(2) == 0x1_0000 && Pow256(4) == 0x1_0000_0000
    ensures Pow256(8) == 0x1_0000_0000_0000_0000
  {
  }

  /** int16(binary.LittleEndian.Uint16(b[off:off+2])). */
  function I16At(b: seq<uint8>, off: nat): int16
    requires off + 2 <= |b|
  {
    Widths(); Int16(LE(b[off..off + 2]))
  }

  /** int32(binary.LittleEndian.Uint32(b[off:off+4])). */
  function I32At(b: seq<uint8>, off: nat): int32
    requires off + 4 <= |b|
  {
    Widths(); Int32(LE(b[off..off + 4]))
  }

  /** int64(binary.LittleEndian.Uint64(b[off:off+8])). */
  function I64At(b: seq<uint8>, off: nat): int64
    requires off + 8 <= |b|
  {
    Widths(); Int64(LE(b[off..off + 8]))
  }

  /** int32(binary.BigEndian.Uint32(b[off:...])): the first four bytes. */
  function I32BeAt(b: seq<uint8>, off: nat): int32
    requires off + 4 <= |b|
  {
    Widths(); Int32(BE(b[off..off + 4]))
  }

  /** int64(binary.BigEndian.Uint64(b[off:off+8])). */
  function I64BeAt(b: seq<uint8>, off: nat): int64
    requires off + 8 <= |b|
  {
    Widths(); Int64(BE(b[off..off + 8]))
  }

  /** Two captures that agree on bytes [off, off+w) have equal slices there. */
  lemma AgreeSlice(b: seq<uint8>, b': seq<uint8>, off: nat, w: nat)
    requires off + w <= |b| && off + w <= |b'|
    requires forall i :: off <= i < off + w ==> b[i] == b'[i]
    ensures b[off..off + w] == b'[off..off + w]
  {
  }

  // --- vr_interface_req (parseVifr) -------------------------

  datatype VrInterfaceReq = VrInterfaceReq(
    hOp: uint8, vifrCore: int32, vifrType: int32, vifrFlags: int32, vifrVrf: int32,
    vifrIdx: int32, vifrRid: int32, vifrOsIdx: int32, vifrMtu: int32, vifrRefCnt: int32,
    vifrMarker: int32, vifrIP: int32, vifrIp6U: int64, vifrIp6L: int64, vifrVlanID: int16,
    vifrNhID: int32, vifrTransport: int8)

  const VIFR_LEN := 75

  /** The pad bytes of vr_interface_req that parseVifr skips. */
  predicate VifrPad(i: int) { 1 <= i <= 3 || 48 <= i <= 51 }

  /** parseVifr. */
  function ParseVifr(b: seq<uint8>): VrInterfaceReq
    requires |b| >= VIFR_LEN
  {
    VrInterfaceReq(b[0], I32At(b, 4), I32At(b, 8), I32At(b, 12), I32At(b, 16), I32At(b, 20),
      I32At(b, 24), I32At(b, 28), I32At(b, 32), I32At(b, 36), I32At(b, 40), I32BeAt(b, 44),
      I64BeAt(b, 52), I64BeAt(b, 60), I16At(b, 68), I32At(b, 70), Int8(b[74]))
  }

  /** Byte i of the capture EncodeVifr builds. */
  function VifrByte(r: VrInterfaceReq, i: int): uint8
  {
    if i == 0 then r.hOp else
    if 4 <= i < 8 then ToLE(Uint32(r.vifrCore), 4)[i - 4] else
    if 8 <= i < 12 then ToLE(Uint32(r.vifrType), 4)[i - 8] else
    if 12 <= i < 16 then ToLE(Uint32(r.vifrFlags), 4)[i - 12] else
    if 16 <= i < 20 then ToLE(Uint32(r.vifrVrf), 4)[i - 16] else
    if 20 <= i < 24 then ToLE(Uint32(r.vifrIdx), 4)[i - 20] else
    if 24 <= i < 28 then ToLE(Uint32(r.vifrRid), 4)[i - 24] else
    if 28 <= i < 32 then ToLE(Uint32(r.vifrOsIdx), 4)[i - 28] else
    if 32 <= i < 36 then ToLE(Uint32(r.vifrMtu), 4)[i - 32] else
    if 36 <= i < 40 then ToLE(Uint32(r.vifrRefCnt), 4)[i - 36] else
    if 40 <= i < 44 then ToLE(Uint32(r.vifrMarker), 4)[i - 40] else
    if 44 <= i < 48 then ToBE(Uint32(r.vifrIP), 4)[i - 44] else
    if 52 <= i < 60 then ToBE(Uint64(r.vifrIp6U), 8)[i - 52] else
    if 60 <= i < 68 then ToBE(Uint64(r.vifrIp6L), 8)[i - 60] else
    if 68 <= i < 70 then ToLE(Uint16(r.vifrVlanID), 2)[i - 68] else
    if 70 <= i < 74 then ToLE(Uint32(r.vifrNhID), 4)[i - 70] else
    if i == 74 then Uint8(r.vifrTransport) else
    0
  }

  /** The 75-byte capture that parseVifr decodes to r, with zero pad bytes. */
  function EncodeVifr(r: VrInterfaceReq): (b: seq<uint8>)
    ensures |b| == VIFR_LEN
    ensures forall i :: 0 <= i < VIFR_LEN && VifrPad(i) ==> b[i] == 0
  {
    seq(VIFR_LEN, i => VifrByte(r, i))
  }

  lemma VifrCoreBack(r: VrInterfaceReq)
    ensures I32At(EncodeVifr(r), 4) == r.vifrCore
  {
    var b := EncodeVifr(r);
    Widths();
    assert b[4..8] == ToLE(Uint32(r.vifrCore), 4);
    LEOfToLE(Uint32(r.vifrCore), 4);
  }

  lemma VifrTypeBack(r: VrInterfaceReq)
    ensures I32At(EncodeVifr(r), 8) == r.vifrType
  {
    var b := EncodeVifr(r);
    Widths();
    assert b[8..12] == ToLE(Uint32(r.vifrType), 4);
    LEOfToLE(Uint32(r.vifrType), 4);
  }

  lemma VifrFlagsBack(r: VrInterfaceReq)
    ensures I32At(EncodeVifr(r), 12) == r.vifrFlags
  {
    var b := EncodeVifr(r);
    Widths();
    assert b[12..16] == ToLE(Uint32(r.vifrFlags), 4);
    LEOfToLE(Uint32(r.vifrFlags), 4);
  }

  lemma VifrVrfBack(r: VrInterfaceReq)
    ensures I32At(EncodeVifr(r), 16) == r.vifrVrf
  {
    var b := EncodeVifr(r);
    Widths();
    assert b[16..20] == ToLE(Uint32(r.vifrVrf), 4);
    LEOfToLE(Uint32(r.vifrVrf), 4);
  }

  lemma VifrIdxBack(r: VrInterfaceReq)
    ensures I32At(EncodeVifr(r), 20) == r.vifrIdx
  {
    var b := EncodeVifr(r);
    Widths();
    assert b[20..24] == ToLE(Uint32(r.vifrIdx), 4);
    LEOfToLE(Uint32(r.vifrIdx), 4);
  }

  lemma VifrRidBack(r: VrInterfaceReq)
    ensures I32At(EncodeVifr(r), 24) == r.vifrRid
  {
    var b := EncodeVifr(r);
    Widths();
    assert b[24..28] == ToLE(Uint32(r.vifrRid), 4);
    LEOfToLE(Uint32(r.vifrRid), 4);
  }

  lemma VifrOsIdxBack(r: VrInterfaceReq)
    ensures I32At(EncodeVifr(r), 28) == r.vifrOsIdx
  {
    var b := EncodeVifr(r);
    Widths();
    assert b[28..32] == ToLE(Uint32(r.vifrOsIdx), 4);
    LEOfToLE(Uint32(r.vifrOsIdx), 4);
  }

  lemma VifrMtuBack(r: VrInterfaceReq)
    ensures I32At(EncodeVifr(r), 32) == r.vifrMtu
  {
    var b := EncodeVifr(r);
    Widths();
    assert b[32..36] == ToLE(Uint32(r.vifrMtu), 4);
    LEOfToLE(Uint32(r.vifrMtu), 4);
  }

  lemma VifrRefCntBack(r: VrInterfaceReq)
    ensures I32At(EncodeVifr(r), 36) == r.vifrRefCnt
  {
    var b := EncodeVifr(r);
    Widths();
    assert b[36..40] == ToLE(Uint32(r.vifrRefCnt), 4);
    LEOfToLE(Uint32(r.vifrRefCnt), 4);
  }

  lemma VifrMarkerBack(r: VrInterfaceReq)
    ensures I32At(EncodeVifr(r), 40) == r.vifrMarker
  {
    var b := EncodeVifr(r);
    Widths();
    assert b[40..44] == ToLE(Uint32(r.vifrMarker), 4);
    LEOfToLE(Uint32(r.vifrMarker), 4);
  }

  lemma VifrIPBack(r: VrInterfaceReq)
    ensures I32BeAt(EncodeVifr(r), 44) == r.vifrIP
  {
    var b := EncodeVifr(r);
    Widths();
    assert b[44..48] == ToBE(Uint32(r.vifrIP), 4);
    BEOfToBE(Uint32(r.vifrIP), 4);
  }

  lemma VifrIp6UBack(r: VrInterfaceReq)
    ensures I64BeAt(EncodeVifr(r), 52) == r.vifrIp6U
  {
    var b := EncodeVifr(r);
    Widths();
    assert b[52..60] == ToBE(Uint64(r.vifrIp6U), 8);
    BEOfToBE(Uint64(r.vifrIp6U), 8);
  }

  lemma VifrIp6LBack(r: VrInterfaceReq)
    ensures I64BeAt(EncodeVifr(r), 60) == r.vifrIp6L
  {
    var b := EncodeVifr(r);
    Widths();
    assert b[60..68] == ToBE(Uint64(r.vifrIp6L), 8);
    BEOfToBE(Uint64(r.vifrIp6L), 8);
  }

  lemma VifrVlanIDBack(r: VrInterfaceReq)
    ensures I16At(EncodeVifr(r), 68) == r.vifrVlanID
  {
    var b := EncodeVifr(r);
    Widths();
    assert b[68..70] == ToLE(Uint16(r.vifrVlanID), 2);
    LEOfToLE(Uint16(r.vifrVlanID), 2);
  }

  lemma VifrNhIDBack(r: VrInterfaceReq)
    ensures I32At(EncodeVifr(r), 70) == r.vifrNhID
  {
    var b := EncodeVifr(r);
    Widths();
    assert b[70..74] == ToLE(Uint32(r.vifrNhID), 4);
    LEOfToLE(Uint32(r.vifrNhID), 4);
  }

  /** EncodeVifr is a right inverse of ParseVifr. */
  lemma VifrRoundTrip(r: VrInterfaceReq)
    ensures ParseVifr(EncodeVifr(r)) == r
  {
    VifrCoreBack(r);
    VifrTypeBack(r);
    VifrFlagsBack(r);
    VifrVrfBack(r);
    VifrIdxBack(r);
    VifrRidBack(r);
    VifrOsIdxBack(r);
    VifrMtuBack(r);
    VifrRefCntBack(r);
    VifrMarkerBack(r);
    VifrIPBack(r);
    VifrIp6UBack(r);
    VifrIp6LBack(r);
    VifrVlanIDBack(r);
    VifrNhIDBack(r);
  }

  lemma VifrUnreadPart1(b: seq<uint8>, b': seq<uint8>)
    requires |b| >= VIFR_LEN && |b'| >= VIFR_LEN
    requires forall i :: 0 <= i < VIFR_LEN && !VifrPad(i) ==> b[i] == b'[i]
    ensures I32At(b, 4) == I32At(b', 4)
    ensures I32At(b, 8) == I32At(b', 8)
    ensures I32At(b, 12) == I32At(b', 12)
    ensures I32At(b, 16) == I32At(b', 16)
    ensures I32At(b, 20) == I32At(b', 20)
    ensures I32At(b, 24) == I32At(b', 24)
  {
    AgreeSlice(b, b', 4, 4);
    AgreeSlice(b, b', 8, 4);
    AgreeSlice(b, b', 12, 4);
    AgreeSlice(b, b', 16, 4);
    AgreeSlice(b, b', 20, 4);
    AgreeSlice(b, b', 24, 4);
  }

  lemma VifrUnreadPart2(b: seq<uint8>, b': seq<uint8>)
    requires |b| >= VIFR_LEN && |b'| >= VIFR_LEN
    requires forall i :: 0 <= i < VIFR_LEN && !VifrPad(i) ==> b[i] == b'[i]
    ensures I32At(b, 28) == I32At(b', 28)
    ensures I32At(b, 32) == I32At(b', 32)
    ensures I32At(b, 36) == I32At(b', 36)
    ensures I32At(b, 40) == I32At(b', 40)
    ensures I32BeAt(b, 44) == I32BeAt(b', 44)
    ensures I64BeAt(b, 52) == I64BeAt(b', 52)
  {
    AgreeSlice(b, b', 28, 4);
    AgreeSlice(b, b', 32, 4);
    AgreeSlice(b, b', 36, 4);
    AgreeSlice(b, b', 40, 4);
    AgreeSlice(b, b', 44, 4);
    AgreeSlice(b, b', 52, 8);
  }

  lemma VifrUnreadPart3(b: seq<uint8>, b': seq<uint8>)
    requires |b| >= VIFR_LEN && |b'| >= VIFR_LEN
    requires forall i :: 0 <= i < VIFR_LEN && !VifrPad(i) ==> b[i] == b'[i]
    ensures I64BeAt(b, 60) == I64BeAt(b', 60)
    ensures I16At(b, 68) == I16At(b', 68)
    ensures I32At(b, 70) == I32At(b', 70)
  {
    AgreeSlice(b, b', 60, 8);
    AgreeSlice(b, b', 68, 2);
    AgreeSlice(b, b', 70, 4);
  }

  /** Pad bytes 1-3, 48-51, and everything past byte 74, are never read. */
  lemma VifrUnread(b: seq<uint8>, b': seq<uint8>)
    requires |b| >= VIFR_LEN && |b'| >= VIFR_LEN
    requires forall i :: 0 <= i < VIFR_LEN && !VifrPad(i) ==> b[i] == b'[i]
    ensures ParseVifr(b) == ParseVifr(b')
  {
    VifrUnreadPart1(b, b');
    VifrUnreadPart2(b, b');
    VifrUnreadPart3(b, b');
  }

  // --- vr_route_req (parseRtr) ------------------------------

  datatype VrRouteReq = VrRouteReq(
    hOp: uint8, rtrVrfID: int32, rtrFamily: int32, rtrRid: int16, rtrNhID: int32,
    rtrIndex: int32)

  const RTR_LEN := 24

  /** The pad bytes of vr_route_req that parseRtr skips. */
  predicate RtrPad(i: int) { 1 <= i <= 3 || 12 <= i <= 13 }

  /** parseRtr. */
  function ParseRtr(b: seq<uint8>): VrRouteReq
    requires |b| >= RTR_LEN
  {
    VrRouteReq(b[0], I32At(b, 4), I32At(b, 8), I16At(b, 14), I32At(b, 16), I32At(b, 20))
  }

  /** Byte i of the capture EncodeRtr builds. */
  function RtrByte(r: VrRouteReq, i: int): uint8
  {
    if i == 0 then r.hOp else
    if 4 <= i < 8 then ToLE(Uint32(r.rtrVrfID), 4)[i - 4] else
    if 8 <= i < 12 then ToLE(Uint32(r.rtrFamily), 4)[i - 8] else
    if 14 <= i < 16 then ToLE(Uint16(r.rtrRid), 2)[i - 14] else
    if 16 <= i < 20 then ToLE(Uint32(r.rtrNhID), 4)[i - 16] else
    if 20 <= i < 24 then ToLE(Uint32(r.rtrIndex), 4)[i - 20] else
    0
  }

  /** The 24-byte capture that parseRtr decodes to r, with zero pad bytes. */
  function EncodeRtr(r: VrRouteReq): (b: seq<uint8>)
    ensures |b| == RTR_LEN
    ensures forall i :: 0 <= i < RTR_LEN && RtrPad(i) ==> b[i] == 0
  {
    seq(RTR_LEN, i => RtrByte(r, i))
  }

  lemma RtrVrfIDBack(r: VrRouteReq)
    ensures I32At(EncodeRtr(r), 4) == r.rtrVrfID
  {
    var b := EncodeRtr(r);
    Widths();
    assert b[4..8] == ToLE(Uint32(r.rtrVrfID), 4);
    LEOfToLE(Uint32(r.rtrVrfID), 4);
  }

  lemma RtrFamilyBack(r: VrRouteReq)
    ensures I32At(EncodeRtr(r), 8) == r.rtrFamily
  {
    var b := EncodeRtr(r);
    Widths();
    assert b[8..12] == ToLE(Uint32(r.rtrFamily), 4);
    LEOfToLE(Uint32(r.rtrFamily), 4);
  }

  lemma RtrRidBack(r: VrRouteReq)
    ensures I16At(EncodeRtr(r), 14) == r.rtrRid
  {
    var b := EncodeRtr(r);
    Widths();
    assert b[14..16] == ToLE(Uint16(r.rtrRid), 2);
    LEOfToLE(Uint16(r.rtrRid), 2);
  }

  lemma RtrNhIDBack(r: VrRouteReq)
    ensures I32At(EncodeRtr(r), 16) == r.rtrNhID
  {
    var b := EncodeRtr(r);
    Widths();
    assert b[16..20] == ToLE(Uint32(r.rtrNhID), 4);
    LEOfToLE(Uint32(r.rtrNhID), 4);
  }

  lemma RtrIndexBack(r: VrRouteReq)
    ensures I32At(EncodeRtr(r), 20) == r.rtrIndex
  {
    var b := EncodeRtr(r);
    Widths();
    assert b[20..24] == ToLE(Uint32(r.rtrIndex), 4);
    LEOfToLE(Uint32(r.rtrIndex), 4);
  }

  /** EncodeRtr is a right inverse of ParseRtr. */
  lemma RtrRoundTrip(r: VrRouteReq)
    ensures ParseRtr(EncodeRtr(r)) == r
  {
    RtrVrfIDBack(r);
    RtrFamilyBack(r);
    RtrRidBack(r);
    RtrNhIDBack(r);
    RtrIndexBack(r);
  }

  /** Pad bytes 1-3, 12-13, and everything past byte 23, are never read. */
  lemma RtrUnread(b: seq<uint8>, b': seq<uint8>)
    requires |b| >= RTR_LEN && |b'| >= RTR_LEN
    requires forall i :: 0 <= i < RTR_LEN && !RtrPad(i) ==> b[i] == b'[i]
    ensures ParseRtr(b) == ParseRtr(b')
  {
    AgreeSlice(b, b', 4, 4);
    AgreeSlice(b, b', 8, 4);
    AgreeSlice(b, b', 14, 2);
    AgreeSlice(b, b', 16, 4);
    AgreeSlice(b, b', 20, 4);
  }

  // --- vr_nexthop_req (parseNhr) ----------------------------

  datatype VrNexthopReq = VrNexthopReq(
    hOp: uint8, nhrType: int8, nhrFamily: int8, nhrID: int32, nhrRid: int32, nhrFlags: int32)

  const NHR_LEN := 20

  /** The pad bytes of vr_nexthop_req that parseNhr skips. */
  predicate NhrPad(i: int) { 1 <= i <= 5 }

  /** parseNhr. */
  function ParseNhr(b: seq<uint8>): VrNexthopReq
    requires |b| >= NHR_LEN
  {
    VrNexthopReq(b[0], Int8(b[6]), Int8(b[7]), I32At(b, 8), I32At(b, 12), I32At(b, 16))
  }

  /** Byte i of the capture EncodeNhr builds. */
  function NhrByte(r: VrNexthopReq, i: int): uint8
  {
    if i == 0 then r.hOp else
    if i == 6 then Uint8(r.nhrType) else
    if i == 7 then Uint8(r.nhrFamily) else
    if 8 <= i < 12 then ToLE(Uint32(r.nhrID), 4)[i - 8] else
    if 12 <= i < 16 then ToLE(Uint32(r.nhrRid), 4)[i - 12] else
    if 16 <= i < 20 then ToLE(Uint32(r.nhrFlags), 4)[i - 16] else
    0
  }

  /** The 20-byte capture that parseNhr decodes to r, with zero pad bytes. */
  function EncodeNhr(r: VrNexthopReq): (b: seq<uint8>)
    ensures |b| == NHR_LEN
    ensures forall i :: 0 <= i < NHR_LEN && NhrPad(i) ==> b[i] == 0
  {
    seq(NHR_LEN, i => NhrByte(r, i))
  }

  lemma NhrIDBack(r: VrNexthopReq)
    ensures I32At(EncodeNhr(r), 8) == r.nhrID
  {
    var b := EncodeNhr(r);
    Widths();
    assert b[8..12] == ToLE(Uint32(r.nhrID), 4);
    LEOfToLE(Uint32(r.nhrID), 4);
  }

  lemma NhrRidBack(r: VrNexthopReq)
    ensures I32At(EncodeNhr(r), 12) == r.nhrRid
  {
    var b := EncodeNhr(r);
    Widths();
    assert b[12..16] == ToLE(Uint32(r.nhrRid), 4);
    LEOfToLE(Uint32(r.nhrRid), 4);
  }

  lemma NhrFlagsBack(r: VrNexthopReq)
    ensures I32At(EncodeNhr(r), 16) == r.nhrFlags
  {
    var b := EncodeNhr(r);
    Widths();
    assert b[16..20] == ToLE(Uint32(r.nhrFlags), 4);
    LEOfToLE(Uint32(r.nhrFlags), 4);
  }

  /** EncodeNhr is a right inverse of ParseNhr. */
  lemma NhrRoundTrip(r: VrNexthopReq)
    ensures ParseNhr(EncodeNhr(r)) == r
  {
    NhrIDBack(r);
    NhrRidBack(r);
    NhrFlagsBack(r);
  }

  /** Pad bytes 1-5, and everything past byte 19, are never read. */
  lemma NhrUnread(b: seq<uint8>, b': seq<uint8>)
    requires |b| >= NHR_LEN && |b'| >= NHR_LEN
    requires forall i :: 0 <= i < NHR_LEN && !NhrPad(i) ==> b[i] == b'[i]
    ensures ParseNhr(b) == ParseNhr(b')
  {
    AgreeSlice(b, b', 8, 4);
    AgreeSlice(b, b', 12, 4);
    AgreeSlice(b, b', 16, 4);
  }

  // --- vr_vrf_assign_req (parseVar) -------------------------

  datatype VrVrfAssignReq = VrVrfAssignReq(
    hOp: uint8, varRid: int16, varVifIndex: int16, varVifVrf: int32, varVlanID: int16,
    varMarker: int16, varNhID: int32)

  const VAR_LEN := 20

  /** The pad bytes of vr_vrf_assign_req that parseVar skips. */
  predicate VarPad(i: int) { 1 <= i <= 3 }

  /** parseVar. */
  function ParseVar(b: seq<uint8>): VrVrfAssignReq
    requires |b| >= VAR_LEN
  {
    VrVrfAssignReq(b[0], I16At(b, 4), I16At(b, 6), I32At(b, 8), I16At(b, 12), I16At(b, 14),
      I32At(b, 16))
  }

  /** Byte i of the capture EncodeVar builds. */
  function VarByte(r: VrVrfAssignReq, i: int): uint8
  {
    if i == 0 then r.hOp else
    if 4 <= i < 6 then ToLE(Uint16(r.varRid), 2)[i - 4] else
    if 6 <= i < 8 then ToLE(Uint16(r.varVifIndex), 2)[i - 6] else
    if 8 <= i < 12 then ToLE(Uint32(r.varVifVrf), 4)[i - 8] else
    if 12 <= i < 14 then ToLE(Uint16(r.varVlanID), 2)[i - 12] else
    if 14 <= i < 16 then ToLE(Uint16(r.varMarker), 2)[i - 14] else
    if 16 <= i < 20 then ToLE(Uint32(r.varNhID), 4)[i - 16] else
    0
  }

  /** The 20-byte capture that parseVar decodes to r, with zero pad bytes. */
  function EncodeVar(r: VrVrfAssignReq): (b: seq<uint8>)
    ensures |b| == VAR_LEN
    ensures forall i :: 0 <= i < VAR_LEN && VarPad(i) ==> b[i] == 0
  {
    seq(VAR_LEN, i => VarByte(r, i))
  }

  lemma VarRidBack(r: VrVrfAssignReq)
    ensures I16At(EncodeVar(r), 4) == r.varRid
  {
    var b := EncodeVar(r);
    Widths();
    assert b[4..6] == ToLE(Uint16(r.varRid), 2);
    LEOfToLE(Uint16(r.varRid), 2);
  }

  lemma VarVifIndexBack(r: VrVrfAssignReq)
    ensures I16At(EncodeVar(r), 6) == r.varVifIndex
  {
    var b := EncodeVar(r);
    Widths();
    assert b[6..8] == ToLE(Uint16(r.varVifIndex), 2);
    LEOfToLE(Uint16(r.varVifIndex), 2);
  }

  lemma VarVifVrfBack(r: VrVrfAssignReq)
    ensures I32At(EncodeVar(r), 8) == r.varVifVrf
  {
    var b := EncodeVar(r);
    Widths();
    assert b[8..12] == ToLE(Uint32(r.varVifVrf), 4);
    LEOfToLE(Uint32(r.varVifVrf), 4);
  }

  lemma VarVlanIDBack(r: VrVrfAssignReq)
    ensures I16At(EncodeVar(r), 12) == r.varVlanID
  {
    var b := EncodeVar(r);
    Widths();
    assert b[12..14] == ToLE(Uint16(r.varVlanID), 2);
    LEOfToLE(Uint16(r.varVlanID), 2);
  }

  lemma VarMarkerBack(r: VrVrfAssignReq)
    ensures I16At(EncodeVar(r), 14) == r.varMarker
  {
    var b := EncodeVar(r);
    Widths();
    assert b[14..16] == ToLE(Uint16(r.varMarker), 2);
    LEOfToLE(Uint16(r.varMarker), 2);
  }

  lemma VarNhIDBack(r: VrVrfAssignReq)
    ensures I32At(EncodeVar(r), 16) == r.varNhID
  {
    var b := EncodeVar(r);
    Widths();
    assert b[16..20] == ToLE(Uint32(r.varNhID), 4);
    LEOfToLE(Uint32(r.varNhID), 4);
  }

  /** EncodeVar is a right inverse of ParseVar. */
  lemma VarRoundTrip(r: VrVrfAssignReq)
    ensures ParseVar(EncodeVar(r)) == r
  {
    VarRidBack(r);
    VarVifIndexBack(r);
    VarVifVrfBack(r);
    VarVlanIDBack(r);
    VarMarkerBack(r);
    VarNhIDBack(r);
  }

  /** Pad bytes 1-3, and everything past byte 19, are never read. */
  lemma VarUnread(b: seq<uint8>, b': seq<uint8>)
    requires |b| >= VAR_LEN && |b'| >= VAR_LEN
    requires forall i :: 0 <= i < VAR_LEN && !VarPad(i) ==> b[i] == b'[i]
    ensures ParseVar(b) == ParseVar(b')
  {
    AgreeSlice(b, b', 4, 2);
    AgreeSlice(b, b', 6, 2);
    AgreeSlice(b, b', 8, 4);
    AgreeSlice(b, b', 12, 2);
    AgreeSlice(b, b', 14, 2);
    AgreeSlice(b, b', 16, 4);
  }

  // --- vr_mpls_req (parseMr) --------------------------------

  datatype VrMplsReq = VrMplsReq(
    hOp: uint8, mrLabel: int32, mrRid: int16, mrNhid: int32, mrMarker: int32)

  const MR_LEN := 20

  /** The pad bytes of vr_mpls_req that parseMr skips. */
  predicate MrPad(i: int) { 1 <= i <= 3 || 10 <= i <= 11 }

  /** parseMr. */
  function ParseMr(b: seq<uint8>): VrMplsReq
    requires |b| >= MR_LEN
  {
    VrMplsReq(b[0], I32At(b, 4), I16At(b, 8), I32At(b, 12), I32At(b, 16))
  }

  /** Byte i of the capture EncodeMr builds. */
  function MrByte(r: VrMplsReq, i: int): uint8
  {
    if i == 0 then r.hOp else
    if 4 <= i < 8 then ToLE(Uint32(r.mrLabel), 4)[i - 4] else
    if 8 <= i < 10 then ToLE(Uint16(r.mrRid), 2)[i - 8] else
    if 12 <= i < 16 then ToLE(Uint32(r.mrNhid), 4)[i - 12] else
    if 16 <= i < 20 then ToLE(Uint32(r.mrMarker), 4)[i - 16] else
    0
  }

  /** The 20-byte capture that parseMr decodes to r, with zero pad bytes. */
  function EncodeMr(r: VrMplsReq): (b: seq<uint8>)
    ensures |b| == MR_LEN
    ensures forall i :: 0 <= i < MR_LEN && MrPad(i) ==> b[i] == 0
  {
    seq(MR_LEN, i => MrByte(r, i))
  }

  lemma MrLabelBack(r: VrMplsReq)
    ensures I32At(EncodeMr(r), 4) == r.mrLabel
  {
    var b := EncodeMr(r);
    Widths();
    assert b[4..8] == ToLE(Uint32(r.mrLabel), 4);
    LEOfToLE(Uint32(r.mrLabel), 4);
  }

  lemma MrRidBack(r: VrMplsReq)
    ensures I16At(EncodeMr(r), 8) == r.mrRid
  {
    var b := EncodeMr(r);
    Widths();
    assert b[8..10] == ToLE(Uint16(r.mrRid), 2);
    LEOfToLE(Uint16(r.mrRid), 2);
  }

  lemma MrNhidBack(r: VrMplsReq)
    ensures I32At(EncodeMr(r), 12) == r.mrNhid
  {
    var b := EncodeMr(r);
    Widths();
    assert b[12..16] == ToLE(Uint32(r.mrNhid), 4);
    LEOfToLE(Uint32(r.mrNhid), 4);
  }

  lemma MrMarkerBack(r: VrMplsReq)
    ensures I32At(EncodeMr(r), 16) == r.mrMarker
  {
    var b := EncodeMr(r);
    Widths();
    assert b[16..20] == ToLE(Uint32(r.mrMarker), 4);
    LEOfToLE(Uint32(r.mrMarker), 4);
  }

  /** EncodeMr is a right inverse of ParseMr. */
  lemma MrRoundTrip(r: VrMplsReq)
    ensures ParseMr(EncodeMr(r)) == r
  {
    MrLabelBack(r);
    MrRidBack(r);
    MrNhidBack(r);
    MrMarkerBack(r);
  }

  /** Pad bytes 1-3, 10-11, and everything past byte 19, are never read. */
  lemma MrUnread(b: seq<uint8>, b': seq<uint8>)
    requires |b| >= MR_LEN && |b'| >= MR_LEN
    requires forall i :: 0 <= i < MR_LEN && !MrPad(i) ==> b[i] == b'[i]
    ensures ParseMr(b) == ParseMr(b')
  {
    AgreeSlice(b, b', 4, 4);
    AgreeSlice(b, b', 8, 2);
    AgreeSlice(b, b', 12, 4);
    AgreeSlice(b, b', 16, 4);
  }

  // --- vr_vrf_stats_req (parseVsr) --------------------------

  datatype VrVrfStatsReq = VrVrfStatsReq(
    hOp: uint8, vsrRid: int16, vsrFamily: int16, vsrType: int16, vsrVrf: int32,
    vsrDiscards: int64, vsrResolves: int64, vsrReceives: int64, vsrEcmpComposites: int64,
    vsrL2McastComposites: int64, vsrFabricComposites: int64, vsrUDPTunnels: int64,
    vsrUDPMplsTunnels: int64, vsrGreMplsTunnels: int64, vsrL2Encaps: int64, vsrEncaps: int64,
    vsrMarker: int16, vsrGros: int64, vsrDiags: int64, vsrEncapComposites: int64,
    vsrEvpnComposites: int64, vsrVrfTranslates: int64, vsrVxlanTunnels: int64,
    vsrArpVirtualProxy: int64, vsrArpVirtualStitch: int64, vsrArpVirtualFlood: int64,
    vsrArpPhysicalStitch: int64, vsrArpTorProxy: int64, vsrArpPhysicalFlood: int64,
    vsrL2Receives: int64, vsrUucFloods: int64, vsrPbbTunnels: int64,
    vsrUDPMplsOverMplsTunnels: int64)

  const VSR_LEN := 240

  /** The pad bytes of vr_vrf_stats_req that parseVsr skips. */
  predicate VsrPad(i: int) { 1 <= i <= 3 || 8 <= i <= 9 || 106 <= i <= 111 }

  /** parseVsr. */
  function ParseVsr(b: seq<uint8>): VrVrfStatsReq
    requires |b| >= VSR_LEN
  {
    VrVrfStatsReq(b[0], I16At(b, 4), I16At(b, 6), I16At(b, 10), I32At(b, 12), I64At(b, 16),
      I64At(b, 24), I64At(b, 32), I64At(b, 40), I64At(b, 48), I64At(b, 56), I64At(b, 64),
      I64At(b, 72), I64At(b, 80), I64At(b, 88), I64At(b, 96), I16At(b, 104), I64At(b, 112),
      I64At(b, 120), I64At(b, 128), I64At(b, 136), I64At(b, 144), I64At(b, 152), I64At(b, 160),
      I64At(b, 168), I64At(b, 176), I64At(b, 184), I64At(b, 192), I64At(b, 200), I64At(b, 208),
      I64At(b, 216), I64At(b, 224), I64At(b, 232))
  }

  /** Byte i of the capture EncodeVsr builds. */
  function VsrByte(r: VrVrfStatsReq, i: int): uint8
  {
    if i == 0 then r.hOp else
    if 4 <= i < 6 then ToLE(Uint16(r.vsrRid), 2)[i - 4] else
    if 6 <= i < 8 then ToLE(Uint16(r.vsrFamily), 2)[i - 6] else
    if 10 <= i < 12 then ToLE(Uint16(r.vsrType), 2)[i - 10] else
    if 12 <= i < 16 then ToLE(Uint32(r.vsrVrf), 4)[i - 12] else
    if 16 <= i < 24 then ToLE(Uint64(r.vsrDiscards), 8)[i - 16] else
    if 24 <= i < 32 then ToLE(Uint64(r.vsrResolves), 8)[i - 24] else
    if 32 <= i < 40 then ToLE(Uint64(r.vsrReceives), 8)[i - 32] else
    if 40 <= i < 48 then ToLE(Uint64(r.vsrEcmpComposites), 8)[i - 40] else
    if 48 <= i < 56 then ToLE(Uint64(r.vsrL2McastComposites), 8)[i - 48] else
    if 56 <= i < 64 then ToLE(Uint64(r.vsrFabricComposites), 8)[i - 56] else
    if 64 <= i < 72 then ToLE(Uint64(r.vsrUDPTunnels), 8)[i - 64] else
    if 72 <= i < 80 then ToLE(Uint64(r.vsrUDPMplsTunnels), 8)[i - 72] else
    if 80 <= i < 88 then ToLE(Uint64(r.vsrGreMplsTunnels), 8)[i - 80] else
    if 88 <= i < 96 then ToLE(Uint64(r.vsrL2Encaps), 8)[i - 88] else
    if 96 <= i < 104 then ToLE(Uint64(r.vsrEncaps), 8)[i - 96] else
    if 104 <= i < 106 then ToLE(Uint16(r.vsrMarker), 2)[i - 104] else
    if 112 <= i < 120 then ToLE(Uint64(r.vsrGros), 8)[i - 112] else
    if 120 <= i < 128 then ToLE(Uint64(r.vsrDiags), 8)[i - 120] else
    if 128 <= i < 136 then ToLE(Uint64(r.vsrEncapComposites), 8)[i - 128] else
    if 136 <= i < 144 then ToLE(Uint64(r.vsrEvpnComposites), 8)[i - 136] else
    if 144 <= i < 152 then ToLE(Uint64(r.vsrVrfTranslates), 8)[i - 144] else
    if 152 <= i < 160 then ToLE(Uint64(r.vsrVxlanTunnels), 8)[i - 152] else
    if 160 <= i < 168 then ToLE(Uint64(r.vsrArpVirtualProxy), 8)[i - 160] else
    if 168 <= i < 176 then ToLE(Uint64(r.vsrArpVirtualStitch), 8)[i - 168] else
    if 176 <= i < 184 then ToLE(Uint64(r.vsrArpVirtualFlood), 8)[i - 176] else
    if 184 <= i < 192 then ToLE(Uint64(r.vsrArpPhysicalStitch), 8)[i - 184] else
    if 192 <= i < 200 then ToLE(Uint64(r.vsrArpTorProxy), 8)[i - 192] else
    if 200 <= i < 208 then ToLE(Uint64(r.vsrArpPhysicalFlood), 8)[i - 200] else
    if 208 <= i < 216 then ToLE(Uint64(r.vsrL2Receives), 8)[i - 208] else
    if 216 <= i < 224 then ToLE(Uint64(r.vsrUucFloods), 8)[i - 216] else
    if 224 <= i < 232 then ToLE(Uint64(r.vsrPbbTunnels), 8)[i - 224] else
    if 232 <= i < 240 then ToLE(Uint64(r.vsrUDPMplsOverMplsTunnels), 8)[i - 232] else
    0
  }

  /** The 240-byte capture that parseVsr decodes to r, with zero pad bytes. */
  function EncodeVsr(r: VrVrfStatsReq): (b: seq<uint8>)
    ensures |b| == VSR_LEN
    ensures forall i :: 0 <= i < VSR_LEN && VsrPad(i) ==> b[i] == 0
  {
    seq(VSR_LEN, i => VsrByte(r, i))
  }

  lemma VsrRidBack(r: VrVrfStatsReq)
    ensures I16At(EncodeVsr(r), 4) == r.vsrRid
  {
    var b := EncodeVsr(r);
    Widths();
    assert b[4..6] == ToLE(Uint16(r.vsrRid), 2);
    LEOfToLE(Uint16(r.vsrRid), 2);
  }

  lemma VsrFamilyBack(r: VrVrfStatsReq)
    ensures I16At(EncodeVsr(r), 6) == r.vsrFamily
  {
    var b := EncodeVsr(r);
    Widths();
    assert b[6..8] == ToLE(Uint16(r.vsrFamily), 2);
    LEOfToLE(Uint16(r.vsrFamily), 2);
  }

  lemma VsrTypeBack(r: VrVrfStatsReq)
    ensures I16At(EncodeVsr(r), 10) == r.vsrType
  {
    var b := EncodeVsr(r);
    Widths();
    assert b[10..12] == ToLE(Uint16(r.vsrType), 2);
    LEOfToLE(Uint16(r.vsrType), 2);
  }

  lemma VsrVrfBack(r: VrVrfStatsReq)
    ensures I32At(EncodeVsr(r), 12) == r.vsrVrf
  {
    var b := EncodeVsr(r);
    Widths();
    assert b[12..16] == ToLE(Uint32(r.vsrVrf), 4);
    LEOfToLE(Uint32(r.vsrVrf), 4);
  }

  lemma VsrDiscardsBack(r: VrVrfStatsReq)
    ensures I64At(EncodeVsr(r), 16) == r.vsrDiscards
  {
    var b := EncodeVsr(r);
    Widths();
    assert b[16..24] == ToLE(Uint64(r.vsrDiscards), 8);
    LEOfToLE(Uint64(r.vsrDiscards), 8);
  }

  lemma VsrResolvesBack(r: VrVrfStatsReq)
    ensures I64At(EncodeVsr(r), 24) == r.vsrResolves
  {
    var b := EncodeVsr(r);
    Widths();
    assert b[24..32] == ToLE(Uint64(r.vsrResolves), 8);
    LEOfToLE(Uint64(r.vsrResolves), 8);
  }

  lemma VsrReceivesBack(r: VrVrfStatsReq)
    ensures I64At(EncodeVsr(r), 32) == r.vsrReceives
  {
    var b := EncodeVsr(r);
    Widths();
    assert b[32..40] == ToLE(Uint64(r.vsrReceives), 8);
    LEOfToLE(Uint64(r.vsrReceives), 8);
  }

  lemma VsrEcmpCompositesBack(r: VrVrfStatsReq)
    ensures I64At(EncodeVsr(r), 40) == r.vsrEcmpComposites
  {
    var b := EncodeVsr(r);
    Widths();
    assert b[40..48] == ToLE(Uint64(r.vsrEcmpComposites), 8);
    LEOfToLE(Uint64(r.vsrEcmpComposites), 8);
  }

  lemma VsrL2McastCompositesBack(r: VrVrfStatsReq)
    ensures I64At(EncodeVsr(r), 48) == r.vsrL2McastComposites
  {
    var b := EncodeVsr(r);
    Widths();
    assert b[48..56] == ToLE(Uint64(r.vsrL2McastComposites), 8);
    LEOfToLE(Uint64(r.vsrL2McastComposites), 8);
  }

  lemma VsrFabricCompositesBack(r: VrVrfStatsReq)
    ensures I64At(EncodeVsr(r), 56) == r.vsrFabricComposites
  {
    var b := EncodeVsr(r);
    Widths();
    assert b[56..64] == ToLE(Uint64(r.vsrFabricComposites), 8);
    LEOfToLE(Uint64(r.vsrFabricComposites), 8);
  }

  lemma VsrUDPTunnelsBack(r: VrVrfStatsReq)
    ensures I64At(EncodeVsr(r), 64) == r.vsrUDPTunnels
  {
    var b := EncodeVsr(r);
    Widths();
    assert b[64..72] == ToLE(Uint64(r.vsrUDPTunnels), 8);
    LEOfToLE(Uint64(r.vsrUDPTunnels), 8);
  }

  lemma VsrUDPMplsTunnelsBack(r: VrVrfStatsReq)
    ensures I64At(EncodeVsr(r), 72) == r.vsrUDPMplsTunnels
  {
    var b := EncodeVsr(r);
    Widths();
    assert b[72..80] == ToLE(Uint64(r.vsrUDPMplsTunnels), 8);
    LEOfToLE(Uint64(r.vsrUDPMplsTunnels), 8);
  }

  lemma VsrGreMplsTunnelsBack(r: VrVrfStatsReq)
    ensures I64At(EncodeVsr(r), 80) == r.vsrGreMplsTunnels
  {
    var b := EncodeVsr(r);
    Widths();
    assert b[80..88] == ToLE(Uint64(r.vsrGreMplsTunnels), 8);
    LEOfToLE(Uint64(r.vsrGreMplsTunnels), 8);
  }

  lemma VsrL2EncapsBack(r: VrVrfStatsReq)
    ensures I64At(EncodeVsr(r), 88) == r.vsrL2Encaps
  {
    var b := EncodeVsr(r);
    Widths();
    assert b[88..96] == ToLE(Uint64(r.vsrL2Encaps), 8);
    LEOfToLE(Uint64(r.vsrL2Encaps), 8);
  }

  lemma VsrEncapsBack(r: VrVrfStatsReq)
    ensures I64At(EncodeVsr(r), 96) == r.vsrEncaps
  {
    var b := EncodeVsr(r);
    Widths();
    assert b[96..104] == ToLE(Uint64(r.vsrEncaps), 8);
    LEOfToLE(Uint64(r.vsrEncaps), 8);
  }

  lemma VsrMarkerBack(r: VrVrfStatsReq)
    ensures I16At(EncodeVsr(r), 104) == r.vsrMarker
  {
    var b := EncodeVsr(r);
    Widths();
    assert b[104..106] == ToLE(Uint16(r.vsrMarker), 2);
    LEOfToLE(Uint16(r.vsrMarker), 2);
  }

  lemma VsrGrosBack(r: VrVrfStatsReq)
    ensures I64At(EncodeVsr(r), 112) == r.vsrGros
  {
    var b := EncodeVsr(r);
    Widths();
    assert b[112..120] == ToLE(Uint64(r.vsrGros), 8);
    LEOfToLE(Uint64(r.vsrGros), 8);
  }

  lemma VsrDiagsBack(r: VrVrfStatsReq)
    ensures I64At(EncodeVsr(r), 120) == r.vsrDiags
  {
    var b := EncodeVsr(r);
    Widths();
    assert b[120..128] == ToLE(Uint64(r.vsrDiags), 8);
    LEOfToLE(Uint64(r.vsrDiags), 8);
  }

  lemma VsrEncapCompositesBack(r: VrVrfStatsReq)
    ensures I64At(EncodeVsr(r), 128) == r.vsrEncapComposites
  {
    var b := EncodeVsr(r);
    Widths();
    assert b[128..136] == ToLE(Uint64(r.vsrEncapComposites), 8);
    LEOfToLE(Uint64(r.vsrEncapComposites), 8);
  }

  lemma VsrEvpnCompositesBack(r: VrVrfStatsReq)
    ensures I64At(EncodeVsr(r), 136) == r.vsrEvpnComposites
  {
    var b := EncodeVsr(r);
    Widths();
    assert b[136..144] == ToLE(Uint64(r.vsrEvpnComposites), 8);
    LEOfToLE(Uint64(r.vsrEvpnComposites), 8);
  }

  lemma VsrVrfTranslatesBack(r: VrVrfStatsReq)
    ensures I64At(EncodeVsr(r), 144) == r.vsrVrfTranslates
  {
    var b := EncodeVsr(r);
    Widths();
    assert b[144..152] == ToLE(Uint64(r.vsrVrfTranslates), 8);
    LEOfToLE(Uint64(r.vsrVrfTranslates), 8);
  }

  lemma VsrVxlanTunnelsBack(r: VrVrfStatsReq)
    ensures I64At(EncodeVsr(r), 152) == r.vsrVxlanTunnels
  {
    var b := EncodeVsr(r);
    Widths();
    assert b[152..160] == ToLE(Uint64(r.vsrVxlanTunnels), 8);
    LEOfToLE(Uint64(r.vsrVxlanTunnels), 8);
  }

  lemma VsrArpVirtualProxyBack(r: VrVrfStatsReq)
    ensures I64At(EncodeVsr(r), 160) == r.vsrArpVirtualProxy
  {
    var b := EncodeVsr(r);
    Widths();
    assert b[160..168] == ToLE(Uint64(r.vsrArpVirtualProxy), 8);
    LEOfToLE(Uint64(r.vsrArpVirtualProxy), 8);
  }

  lemma VsrArpVirtualStitchBack(r: VrVrfStatsReq)
    ensures I64At(EncodeVsr(r), 168) == r.vsrArpVirtualStitch
  {
    var b := EncodeVsr(r);
    Widths();
    assert b[168..176] == ToLE(Uint64(r.vsrArpVirtualStitch), 8);
    LEOfToLE(Uint64(r.vsrArpVirtualStitch), 8);
  }

  lemma VsrArpVirtualFloodBack(r: VrVrfStatsReq)
    ensures I64At(EncodeVsr(r), 176) == r.vsrArpVirtualFlood
  {
    var b := EncodeVsr(r);
    Widths();
    assert b[176..184] == ToLE(Uint64(r.vsrArpVirtualFlood), 8);
    LEOfToLE(Uint64(r.vsrArpVirtualFlood), 8);
  }

  lemma VsrArpPhysicalStitchBack(r: VrVrfStatsReq)
    ensures I64At(EncodeVsr(r), 184) == r.vsrArpPhysicalStitch
  {
    var b := EncodeVsr(r);
    Widths();
    assert b[184..192] == ToLE(Uint64(r.vsrArpPhysicalStitch), 8);
    LEOfToLE(Uint64(r.vsrArpPhysicalStitch), 8);
  }

  lemma VsrArpTorProxyBack(r: VrVrfStatsReq)
    ensures I64At(EncodeVsr(r), 192) == r.vsrArpTorProxy
  {
    var b := EncodeVsr(r);
    Widths();
    assert b[192..200] == ToLE(Uint64(r.vsrArpTorProxy), 8);
    LEOfToLE(Uint64(r.vsrArpTorProxy), 8);
  }

  lemma VsrArpPhysicalFloodBack(r: VrVrfStatsReq)
    ensures I64At(EncodeVsr(r), 200) == r.vsrArpPhysicalFlood
  {
    var b := EncodeVsr(r);
    Widths();
    assert b[200..208] == ToLE(Uint64(r.vsrArpPhysicalFlood), 8);
    LEOfToLE(Uint64(r.vsrArpPhysicalFlood), 8);
  }

  lemma VsrL2ReceivesBack(r: VrVrfStatsReq)
    ensures I64At(EncodeVsr(r), 208) == r.vsrL2Receives
  {
    var b := EncodeVsr(r);
    Widths();
    assert b[208..216] == ToLE(Uint64(r.vsrL2Receives), 8);
    LEOfToLE(Uint64(r.vsrL2Receives), 8);
  }

  lemma VsrUucFloodsBack(r: VrVrfStatsReq)
    ensures I64At(EncodeVsr(r), 216) == r.vsrUucFloods
  {
    var b := EncodeVsr(r);
    Widths();
    assert b[216..224] == ToLE(Uint64(r.vsrUucFloods), 8);
    LEOfToLE(Uint64(r.vsrUucFloods), 8);
  }

  lemma VsrPbbTunnelsBack(r: VrVrfStatsReq)
    ensures I64At(EncodeVsr(r), 224) == r.vsrPbbTunnels
  {
    var b := EncodeVsr(r);
    Widths();
    assert b[224..232] == ToLE(Uint64(r.vsrPbbTunnels), 8);
    LEOfToLE(Uint64(r.vsrPbbTunnels), 8);
  }

  lemma VsrUDPMplsOverMplsTunnelsBack(r: VrVrfStatsReq)
    ensures I64At(EncodeVsr(r), 232) == r.vsrUDPMplsOverMplsTunnels
  {
    var b := EncodeVsr(r);
    Widths();
    assert b[232..240] == ToLE(Uint64(r.vsrUDPMplsOverMplsTunnels), 8);
    LEOfToLE(Uint64(r.vsrUDPMplsOverMplsTunnels), 8);
  }

  /** EncodeVsr is a right inverse of ParseVsr. */
  lemma VsrRoundTrip(r: VrVrfStatsReq)
    ensures ParseVsr(EncodeVsr(r)) == r
  {
    VsrRidBack(r);
    VsrFamilyBack(r);
    VsrTypeBack(r);
    VsrVrfBack(r);
    VsrDiscardsBack(r);
    VsrResolvesBack(r);
    VsrReceivesBack(r);
    VsrEcmpCompositesBack(r);
    VsrL2McastCompositesBack(r);
    VsrFabricCompositesBack(r);
    VsrUDPTunnelsBack(r);
    VsrUDPMplsTunnelsBack(r);
    VsrGreMplsTunnelsBack(r);
    VsrL2EncapsBack(r);
    VsrEncapsBack(r);
    VsrMarkerBack(r);
    VsrGrosBack(r);
    VsrDiagsBack(r);
    VsrEncapCompositesBack(r);
    VsrEvpnCompositesBack(r);
    VsrVrfTranslatesBack(r);
    VsrVxlanTunnelsBack(r);
    VsrArpVirtualProxyBack(r);
    VsrArpVirtualStitchBack(r);
    VsrArpVirtualFloodBack(r);
    VsrArpPhysicalStitchBack(r);
    VsrArpTorProxyBack(r);
    VsrArpPhysicalFloodBack(r);
    VsrL2ReceivesBack(r);
    VsrUucFloodsBack(r);
    VsrPbbTunnelsBack(r);
    VsrUDPMplsOverMplsTunnelsBack(r);
  }

  lemma VsrUnreadPart1(b: seq<uint8>, b': seq<uint8>)
    requires |b| >= VSR_LEN && |b'| >= VSR_LEN
    requires forall i :: 0 <= i < VSR_LEN && !VsrPad(i) ==> b[i] == b'[i]
    ensures I16At(b, 4) == I16At(b', 4)
    ensures I16At(b, 6) == I16At(b', 6)
    ensures I16At(b, 10) == I16At(b', 10)
    ensures I32At(b, 12) == I32At(b', 12)
    ensures I64At(b, 16) == I64At(b', 16)
    ensures I64At(b, 24) == I64At(b', 24)
  {
    AgreeSlice(b, b', 4, 2);
    AgreeSlice(b, b', 6, 2);
    AgreeSlice(b, b', 10, 2);
    AgreeSlice(b, b', 12, 4);
    AgreeSlice(b, b', 16, 8);
    AgreeSlice(b, b', 24, 8);
  }

  lemma VsrUnreadPart2(b: seq<uint8>, b': seq<uint8>)
    requires |b| >= VSR_LEN && |b'| >= VSR_LEN
    requires forall i :: 0 <= i < VSR_LEN && !VsrPad(i) ==> b[i] == b'[i]
    ensures I64At(b, 32) == I64At(b', 32)
    ensures I64At(b, 40) == I64At(b', 40)
    ensures I64At(b, 48) == I64At(b', 48)
    ensures I64At(b, 56) == I64At(b', 56)
    ensures I64At(b, 64) == I64At(b', 64)
    ensures I64At(b, 72) == I64At(b', 72)
  {
    AgreeSlice(b, b', 32, 8);
    AgreeSlice(b, b', 40, 8);
    AgreeSlice(b, b', 48, 8);
    AgreeSlice(b, b', 56, 8);
    AgreeSlice(b, b', 64, 8);
    AgreeSlice(b, b', 72, 8);
  }

  lemma VsrUnreadPart3(b: seq<uint8>, b': seq<uint8>)
    requires |b| >= VSR_LEN && |b'| >= VSR_LEN
    requires forall i :: 0 <= i < VSR_LEN && !VsrPad(i) ==> b[i] == b'[i]
    ensures I64At(b, 80) == I64At(b', 80)
    ensures I64At(b, 88) == I64At(b', 88)
    ensures I64At(b, 96) == I64At(b', 96)
    ensures I16At(b, 104) == I16At(b', 104)
    ensures I64At(b, 112) == I64At(b', 112)
    ensures I64At(b, 120) == I64At(b', 120)
  {
    AgreeSlice(b, b', 80, 8);
    AgreeSlice(b, b', 88, 8);
    AgreeSlice(b, b', 96, 8);
    AgreeSlice(b, b', 104, 2);
    AgreeSlice(b, b', 112, 8);
    AgreeSlice(b, b', 120, 8);
  }

  lemma VsrUnreadPart4(b: seq<uint8>, b': seq<uint8>)
    requires |b| >= VSR_LEN && |b'| >= VSR_LEN
    requires forall i :: 0 <= i < VSR_LEN && !VsrPad(i) ==> b[i] == b'[i]
    ensures I64At(b, 128) == I64At(b', 128)
    ensures I64At(b, 136) == I64At(b', 136)
    ensures I64At(b, 144) == I64At(b', 144)
    ensures I64At(b, 152) == I64At(b', 152)
    ensures I64At(b, 160) == I64At(b', 160)
    ensures I64At(b, 168) == I64At(b', 168)
  {
    AgreeSlice(b, b', 128, 8);
    AgreeSlice(b, b', 136, 8);
    AgreeSlice(b, b', 144, 8);
    AgreeSlice(b, b', 152, 8);
    AgreeSlice(b, b', 160, 8);
    AgreeSlice(b, b', 168, 8);
  }

  lemma VsrUnreadPart5(b: seq<uint8>, b': seq<uint8>)
    requires |b| >= VSR_LEN && |b'| >= VSR_LEN
    requires forall i :: 0 <= i < VSR_LEN && !VsrPad(i) ==> b[i] == b'[i]
    ensures I64At(b, 176) == I64At(b', 176)
    ensures I64At(b, 184) == I64At(b', 184)
    ensures I64At(b, 192) == I64At(b', 192)
    ensures I64At(b, 200) == I64At(b', 200)
    ensures I64At(b, 208) == I64At(b', 208)
    ensures I64At(b, 216) == I64At(b', 216)
  {
    AgreeSlice(b, b', 176, 8);
    AgreeSlice(b, b', 184, 8);
    AgreeSlice(b, b', 192, 8);
    AgreeSlice(b, b', 200, 8);
    AgreeSlice(b, b', 208, 8);
    AgreeSlice(b, b', 216, 8);
  }

  lemma VsrUnreadPart6(b: seq<uint8>, b': seq<uint8>)
    requires |b| >= VSR_LEN && |b'| >= VSR_LEN
    requires forall i :: 0 <= i < VSR_LEN && !VsrPad(i) ==> b[i] == b'[i]
    ensures I64At(b, 224) == I64At(b', 224)
    ensures I64At(b, 232) == I64At(b', 232)
  {
    AgreeSlice(b, b', 224, 8);
    AgreeSlice(b, b', 232, 8);
  }

  /** Pad bytes 1-3, 8-9, 106-111, and everything past byte 239, are never read. */
  lemma VsrUnread(b: seq<uint8>, b': seq<uint8>)
    requires |b| >= VSR_LEN && |b'| >= VSR_LEN
    requires forall i :: 0 <= i < VSR_LEN && !VsrPad(i) ==> b[i] == b'[i]
    ensures ParseVsr(b) == ParseVsr(b')
  {
    VsrUnreadPart1(b, b');
    VsrUnreadPart2(b, b');
    VsrUnreadPart3(b, b');
    VsrUnreadPart4(b, b');
    VsrUnreadPart5(b, b');
    VsrUnreadPart6(b, b');
  }

  // --- parseSreq ------------------------------------------------------

  /** The requests parseSreq can return, one constructor per decoder. */
  datatype Sreq =
    | Vifr(vifr: VrInterfaceReq)
    | Rtr(rtr: VrRouteReq)
    | Nhr(nhr: VrNexthopReq)
    | Var(assign: VrVrfAssignReq)
    | Mr(mr: VrMplsReq)
    | Vsr(vsr: VrVrfStatsReq)

  /** The structure name under which a probe reports each kind of request. */
  function SreqName(s: Sreq): string
  {
    match s
    case Vifr(_) => "vr_interface_req"
    case Rtr(_) => "vr_route_req"
    case Nhr(_) => "vr_nexthop_req"
    case Var(_) => "vr_vrf_assign_req"
    case Mr(_) => "vr_mpls_req"
    case Vsr(_) => "vr_vrf_stats_req"
  }

  /** The six structure names parseSreq has a decoder for. */
  predicate KnownSname(sname: string)
  {
    sname == "vr_interface_req" || sname == "vr_route_req" || sname == "vr_nexthop_req"
    || sname == "vr_vrf_assign_req" || sname == "vr_mpls_req" || sname == "vr_vrf_stats_req"
  }

  /** How many bytes the decoder chosen by sname slices; 0 when there is none. */
  function SnameLength(sname: string): (n: nat)
    ensures !KnownSname(sname) ==> n == 0
  {
    if sname == "vr_interface_req" then VIFR_LEN
    else if sname == "vr_route_req" then RTR_LEN
    else if sname == "vr_nexthop_req" then NHR_LEN
    else if sname == "vr_vrf_assign_req" then VAR_LEN
    else if sname == "vr_mpls_req" then MR_LEN
    else if sname == "vr_vrf_stats_req" then VSR_LEN
    else 0
  }

  /** parseSreq: the decoder is chosen by the probe's structure name, and an
      unknown name yields nil (None). */
  function ParseSreq(sname: string, data: seq<uint8>): (r: Option<Sreq>)
    requires |data| >= SnameLength(sname)
    ensures r.None? <==> !KnownSname(sname)
  {
    if sname == "vr_interface_req" then Some(Vifr(ParseVifr(data)))
    else if sname == "vr_route_req" then Some(Rtr(ParseRtr(data)))
    else if sname == "vr_nexthop_req" then Some(Nhr(ParseNhr(data)))
    else if sname == "vr_vrf_assign_req" then Some(Var(ParseVar(data)))
    else if sname == "vr_mpls_req" then Some(Mr(ParseMr(data)))
    else if sname == "vr_vrf_stats_req" then Some(Vsr(ParseVsr(data)))
    else None
  }

  /** The capture a probe would report for s. */
  function EncodeSreq(s: Sreq): (b: seq<uint8>)
    ensures |b| == SnameLength(SreqName(s))
  {
    match s
    case Vifr(r) => EncodeVifr(r)
    case Rtr(r) => EncodeRtr(r)
    case Nhr(r) => EncodeNhr(r)
    case Var(r) => EncodeVar(r)
    case Mr(r) => EncodeMr(r)
    case Vsr(r) => EncodeVsr(r)
  }

  lemma SreqVifrCase(data: seq<uint8>)
    requires |data| >= VIFR_LEN
    ensures ParseSreq("vr_interface_req", data) == Some(Vifr(ParseVifr(data)))
  {
  }

  lemma SreqVifrRoundTrip(r: VrInterfaceReq)
    ensures ParseSreq("vr_interface_req", EncodeVifr(r)) == Some(Vifr(r))
  {
    SreqVifrCase(EncodeVifr(r));
    VifrRoundTrip(r);
  }

  lemma SreqRtrCase(data: seq<uint8>)
    requires |data| >= RTR_LEN
    ensures ParseSreq("vr_route_req", data) == Some(Rtr(ParseRtr(data)))
  {
  }

  lemma SreqRtrRoundTrip(r: VrRouteReq)
    ensures ParseSreq("vr_route_req", EncodeRtr(r)) == Some(Rtr(r))
  {
    SreqRtrCase(EncodeRtr(r));
    RtrRoundTrip(r);
  }

  lemma SreqNhrCase(data: seq<uint8>)
    requires |data| >= NHR_LEN
    ensures ParseSreq("vr_nexthop_req", data) == Some(Nhr(ParseNhr(data)))
  {
  }

  lemma SreqNhrRoundTrip(r: VrNexthopReq)
    ensures ParseSreq("vr_nexthop_req", EncodeNhr(r)) == Some(Nhr(r))
  {
    SreqNhrCase(EncodeNhr(r));
    NhrRoundTrip(r);
  }

  lemma SreqVarCase(data: seq<uint8>)
    requires |data| >= VAR_LEN
    ensures ParseSreq("vr_vrf_assign_req", data) == Some(Var(ParseVar(data)))
  {
  }

  lemma SreqVarRoundTrip(r: VrVrfAssignReq)
    ensures ParseSreq("vr_vrf_assign_req", EncodeVar(r)) == Some(Var(r))
  {
    SreqVarCase(EncodeVar(r));
    VarRoundTrip(r);
  }

  lemma SreqMrCase(data: seq<uint8>)
    requires |data| >= MR_LEN
    ensures ParseSreq("vr_mpls_req", data) == Some(Mr(ParseMr(data)))
  {
  }

  lemma SreqMrRoundTrip(r: VrMplsReq)
    ensures ParseSreq("vr_mpls_req", EncodeMr(r)) == Some(Mr(r))
  {
    SreqMrCase(EncodeMr(r));
    MrRoundTrip(r);
  }

  lemma SreqVsrCase(data: seq<uint8>)
    requires |data| >= VSR_LEN
    ensures ParseSreq("vr_vrf_stats_req", data) == Some(Vsr(ParseVsr(data)))
  {
  }

  lemma SreqVsrRoundTrip(r: VrVrfStatsReq)
    ensures ParseSreq("vr_vrf_stats_req", EncodeVsr(r)) == Some(Vsr(r))
  {
    SreqVsrCase(EncodeVsr(r));
    VsrRoundTrip(r);
  }

  /** Every request is recovered from its structure name and capture. */
  lemma SreqRoundTrip(s: Sreq)
    ensures ParseSreq(SreqName(s), EncodeSreq(s)) == Some(s)
  {
    match s
    case Vifr(r) => SreqVifrRoundTrip(r);
    case Rtr(r) => SreqRtrRoundTrip(r);
    case Nhr(r) => SreqNhrRoundTrip(r);
    case Var(r) => SreqVarRoundTrip(r);
    case Mr(r) => SreqMrRoundTrip(r);
    case Vsr(r) => SreqVsrRoundTrip(r);
  }
}
