/** Machine integers, byte-level memory access and the big-/little-endian
    codecs that every other module reads packets and records through. */
module Bytes {

  type uint8 = x: int | 0 <= x < 0x100
  type uint16 = x: int | 0 <= x < 0x1_0000
  type uint32 = x: int | 0 <= x < 0x1_0000_0000
  type uint64 = x: int | 0 <= x < 0x1_0000_0000_0000_0000

  type int8 = x: int | -0x80 <= x < 0x80
  type int16 = x: int | -0x8000 <= x < 0x8000
  type int32 = x: int | -0x8000_0000 <= x < 0x8000_0000
  type int64 = x: int | -0x8000_0000_0000_0000 <= x < 0x8000_0000_0000_0000

  datatype Option<+T> = None | Some(value: T)

  /** 256 to the power n: the number of values an n-byte field can hold. */
  function Pow256(n: nat): (r: int)
    ensures r > 0
  {
    if n == 0 then 1 else 256 * Pow256(n - 1)
  }

  /** Unsigned C arithmetic: the value kept by a 32-bit or 16-bit variable. */
  function U32(x: int): uint32 { if 0 <= x < 0x1_0000_0000 then x else x % 0x1_0000_0000 }
  function U16(x: int): uint16 { if 0 <= x < 0x1_0000 then x else x % 0x1_0000 }

  /** One byte of the modelled memory. Addresses outside the modelled
      region read as 0; whether such a read happened is tracked separately
      by the parsers. */
  function Peek(mem: seq<uint8>, i: int): uint8
  {
    if 0 <= i < |mem| then mem[i] else 0
  }

  /** A 16-bit field loaded as the host (little-endian) sees it: no ntohs. */
  function HostLoad16(mem: seq<uint8>, i: int): uint16
  {
    Peek(mem, i) + 256 * Peek(mem, i + 1)
  }

  /** A 16-bit field in network byte order, as ntohs() returns it. */
  function NetLoad16(mem: seq<uint8>, i: int): uint16
  {
    256 * Peek(mem, i) + Peek(mem, i + 1)
  }

  /** A 32-bit field loaded as the host (little-endian) sees it. */
  function HostLoad32(mem: seq<uint8>, i: int): uint32
  {
    Peek(mem, i) + 0x100 * Peek(mem, i + 1)
      + 0x1_0000 * Peek(mem, i + 2) + 0x100_0000 * Peek(mem, i + 3)
  }

  /** A 32-bit field in network byte order, as ntohl() returns it. */
  function NetLoad32(mem: seq<uint8>, i: int): uint32
  {
    0x100_0000 * Peek(mem, i) + 0x1_0000 * Peek(mem, i + 1)
      + 0x100 * Peek(mem, i + 2) + Peek(mem, i + 3)
  }

  /** The unsigned value of a byte string, most significant byte first
      (Go's binary.BigEndian.UintN). */
  function BE(s: seq<uint8>): (r: nat)
    ensures r < Pow256(|s|)
  {
    if s == [] then 0 else BE(s[..|s| - 1]) * 256 + s[|s| - 1]
  }

  /** The unsigned value of a byte string, least significant byte first
      (Go's binary.LittleEndian.UintN). */
  function LE(s: seq<uint8>): (r: nat)
    ensures r < Pow256(|s|)
  {
    if s == [] then 0 else s[0] + 256 * LE(s[1..])
  }

  /** The n low-order bytes of v, most significant first (PutUintN). */
  function ToBE(v: nat, n: nat): (s: seq<uint8>)
    ensures |s| == n
  {
    if n == 0 then [] else ToBE(v / 256, n - 1) + [v % 256]
  }

  /** The n low-order bytes of v, least significant first. */
  function ToLE(v: nat, n: nat): (s: seq<uint8>)
    ensures |s| == n
  {
    if n == 0 then [] else [v % 256] + ToLE(v / 256, n - 1)
  }

  /** Decoding the encoding of v gives v back. */
  lemma {:induction false} BEOfToBE(v: nat, n: nat)
    requires v < Pow256(n)
    ensures BE(ToBE(v, n)) == v
  {
    if n > 0 {
      var init := ToBE(v / 256, n - 1);
      assert ToBE(v, n)[..n - 1] == init;
      assert 256 * (v / 256) <= v < 256 * Pow256(n - 1);
      BEOfToBE(v / 256, n - 1);
      assert BE(ToBE(v, n)) == BE(init) * 256 + v % 256;
    }
  }

  lemma {:induction false} LEOfToLE(v: nat, n: nat)
    requires v < Pow256(n)
    ensures LE(ToLE(v, n)) == v
  {
    if n > 0 {
      var s := ToLE(v, n);
      assert s[1..] == ToLE(v / 256, n - 1);
      assert 256 * (v / 256) <= v < 256 * Pow256(n - 1);
      LEOfToLE(v / 256, n - 1);
    }
  }

  /** Encoding the value of a byte string gives the byte string back. */
  lemma {:induction false} ToBEOfBE(s: seq<uint8>)
    ensures ToBE(BE(s), |s|) == s
  {
    if s != [] {
      var init := s[..|s| - 1];
      ToBEOfBE(init);
      assert (BE(init) * 256 + s[|s| - 1]) / 256 == BE(init);
      assert s == init + [s[|s| - 1]];
    }
  }

  lemma {:induction false} ToLEOfLE(s: seq<uint8>)
    ensures ToLE(LE(s), |s|) == s
  {
    if s != [] {
      ToLEOfLE(s[1..]);
      assert (s[0] + 256 * LE(s[1..])) / 256 == LE(s[1..]);
      assert s == [s[0]] + s[1..];
    }
  }

  /** Go's two's-complement conversions between same-width integers,
      such as int32(uint32) and uint16(int16). */
  function Int8(u: uint8): int8 { if u < 0x80 then u else u - 0x100 }
  function Int16(u: uint16): int16 { if u < 0x8000 then u else u - 0x1_0000 }
  function Int32(u: uint32): int32 { if u < 0x8000_0000 then u else u - 0x1_0000_0000 }
  function Int64(u: uint64): int64
  {
    if u < 0x8000_0000_0000_0000 then u else u - 0x1_0000_0000_0000_0000
  }
  function Uint8(x: int8): uint8 { if x < 0 then x + 0x100 else x }
  function Uint16(x: int16): uint16 { if x < 0 then x + 0x1_0000 else x }
  function Uint32(x: int32): uint32 { if x < 0 then x + 0x1_0000_0000 else x }
  function Uint64(x: int64): uint64 { if x < 0 then x + 0x1_0000_0000_0000_0000 else x }
}
