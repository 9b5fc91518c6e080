/** The Sandesh binary protocol used by vrctl to talk to the vRouter
    kernel module (tracing/vrftrace/cmd/vrctl/sandesh.go): big-endian
    fixed-width integers, length-prefixed strings, one-byte field types
    translated through the signedness table, and a shared 64-byte scratch
    buffer that every integer read and write goes through.

    The transport is a byte sequence: what is handed to it is appended to
    `written`, and reads consume `input` from `pos`. Writes never fail. */
module Sandesh {
  import opened Bytes
  import opened Signedness

  /** Errors a read reports. Eof and UnexpectedEof are io.EOF and
      io.ErrUnexpectedEOF from the transport; NegativeSize and SizeLimit
      are the Thrift protocol exception types checkSizeForProtocol uses. */
  datatype ProtoError = Eof | UnexpectedEof | NegativeSize | SizeLimit

  /** The length of TSandeshProtocol.Buffer. */
  const BUFFER_SIZE := 64

  /** int32(n) for a Go int: the low 32 bits, read as two's complement. */
  function LengthField(n: int): int32 { Int32(U32(n)) }

  // --- Wire encodings -------------------------------------------------

  function EncodeI16(v: int16): (s: seq<uint8>)
    ensures |s| == 2
  {
    ToBE(Uint16(v), 2)
  }

  function EncodeI32(v: int32): (s: seq<uint8>)
    ensures |s| == 4
  {
    ToBE(Uint32(v), 4)
  }

  function EncodeI64(v: int64): (s: seq<uint8>)
    ensures |s| == 8
  {
    ToBE(Uint64(v), 8)
  }

  /** int16(binary.BigEndian.Uint16(s)): the unique value whose encoding
      is s. */
  function DecodeI16(s: seq<uint8>): (v: int16)
    requires |s| == 2
    ensures EncodeI16(v) == s
  {
    assert Pow256(2) == 0x1_0000;
    ToBEOfBE(s);
    Int16(BE(s))
  }

  function DecodeI32(s: seq<uint8>): (v: int32)
    requires |s| == 4
    ensures EncodeI32(v) == s
  {
    assert Pow256(4) == 0x1_0000_0000;
    ToBEOfBE(s);
    Int32(BE(s))
  }

  function DecodeI64(s: seq<uint8>): (v: int64)
    requires |s| == 8
    ensures EncodeI64(v) == s
  {
    assert Pow256(8) == 0x1_0000_0000_0000_0000;
    ToBEOfBE(s);
    Int64(BE(s))
  }

  /** A length-prefixed string or byte slice: int32(len) then the bytes. */
  function EncodeString(s: seq<uint8>): (r: seq<uint8>)
    ensures |r| == 4 + |s| && r[4..] == s
  {
    EncodeI32(LengthField(|s|)) + s
  }

  /** A field header: the translated type byte, then the big-endian id. */
  function EncodeFieldHeader(t: TType, id: int16, unsigned: bool): (r: seq<uint8>)
    ensures |r| == 3 && r[1..] == EncodeI16(id)
    ensures StypeToTtype(r[0]) == StypeToTtype(t)
  {
    [TtypeToStype(t, unsigned)] + EncodeI16(id)
  }

  // --- Reading from the transport ---------------------------------------

  /** How many of the n bytes a full read asks for the transport still
      holds. */
  function Avail(input: seq<uint8>, pos: nat, n: nat): (k: nat)
    ensures k <= n && pos + k <= |input| + (if pos > |input| then pos - |input| else 0)
    ensures k < n ==> pos + k >= |input|
  {
    if pos >= |input| then 0 else if |input| - pos < n then |input| - pos else n
  }

  /** io.ReadFull's verdict after k of n bytes arrived. */
  function ShortRead(k: nat, n: nat): (r: Option<ProtoError>)
    ensures r.None? <==> k == n
    ensures r == Some(Eof) <==> k == 0 && n != 0
  {
    if k == n then None else if k == 0 then Some(Eof) else Some(UnexpectedEof)
  }

  /** The scratch buffer after a read placed the next k input bytes at its
      front. */
  function Fill(buf: seq<uint8>, input: seq<uint8>, pos: nat, k: nat): (r: seq<uint8>)
    requires pos + k <= |input| && k <= |buf|
    ensures |r| == |buf| && r[..k] == input[pos..pos + k] && r[k..] == buf[k..]
  {
    input[pos..pos + k] + buf[k..]
  }

  /** checkSizeForProtocol: negative sizes and sizes above the configured
      maximum are refused, everything else is accepted. */
  function CheckSize(size: int32, maxSize: int): (r: Option<ProtoError>)
    ensures r == Some(NegativeSize) <==> size < 0
    ensures r == Some(SizeLimit) <==> 0 <= size && maxSize < size
    ensures r.None? <==> 0 <= size <= maxSize
  {
    if size < 0 then Some(NegativeSize)
    else if size > maxSize then Some(SizeLimit)
    else None
  }

  /** What ReadString and ReadBinary return and where they leave the
      transport: the length prefix, the size check, then as much of the
      payload as the transport holds. */
  datatype PayloadRead = PayloadRead(value: seq<uint8>, err: Option<ProtoError>, pos: nat)

  /** The payload part of ReadString, after an accepted size: nothing for
      size 0; a payload below 64 bytes goes through the scratch buffer with
      io.ReadFull; a larger one is copied with io.CopyN, which reports
      io.EOF for any short read. */
  function StringPayload(input: seq<uint8>, pos: nat, size: nat): (r: PayloadRead)
    requires pos <= |input|
    ensures pos <= r.pos <= |input| && r.value == input[pos..r.pos] && |r.value| <= size
  {
    if size == 0 then PayloadRead([], None, pos)
    else
      var k := Avail(input, pos, size);
      var err := if size < BUFFER_SIZE then ShortRead(k, size) else if k < size then Some(Eof) else None;
      PayloadRead(input[pos..pos + k], err, pos + k)
  }

  /** ReadString: the length prefix, the size check, then the payload. */
  function StringRead(input: seq<uint8>, pos: nat, maxSize: int): (r: PayloadRead)
    requires pos <= |input|
    ensures pos <= r.pos <= |input| && |r.value| <= r.pos - pos
  {
    var h := Avail(input, pos, 4);
    if h < 4 then PayloadRead([], ShortRead(h, 4), pos + h)
    else
      var size := DecodeI32(input[pos..pos + 4]);
      if CheckSize(size, maxSize).Some? then PayloadRead([], CheckSize(size, maxSize), pos + 4)
      else StringPayload(input, pos + 4, size)
  }

  /** ReadBinary: the same framing, with the payload always copied by
      safeReadBytes. */
  function BinaryRead(input: seq<uint8>, pos: nat, maxSize: int): (r: PayloadRead)
    requires pos <= |input|
    ensures pos <= r.pos <= |input| && |r.value| <= r.pos - pos
  {
    var h := Avail(input, pos, 4);
    if h < 4 then PayloadRead([], ShortRead(h, 4), pos + h)
    else
      var size := DecodeI32(input[pos..pos + 4]);
      if CheckSize(size, maxSize).Some? then PayloadRead([], CheckSize(size, maxSize), pos + 4)
      else
        var k := Avail(input, pos + 4, size);
        PayloadRead(input[pos + 4..pos + 4 + k], if k < size then Some(Eof) else None, pos + 4 + k)
  }

  /** The scratch buffer after ReadString: the four length bytes that
      arrived, then, for an accepted size between 1 and 63, the payload
      bytes that arrived. */
  function StringScratch(buf: seq<uint8>, input: seq<uint8>, pos: nat, maxSize: int): (r: seq<uint8>)
    requires pos <= |input| && |buf| == BUFFER_SIZE
    ensures |r| == BUFFER_SIZE
  {
    var h := Avail(input, pos, 4);
    var b := Fill(buf, input, pos, h);
    if h < 4 then b
    else
      var size := DecodeI32(input[pos..pos + 4]);
      if CheckSize(size, maxSize).None? && 0 < size < BUFFER_SIZE
      then Fill(b, input, pos + 4, Avail(input, pos + 4, size))
      else b
  }

  /** StringRead and StringScratch once the four length bytes arrived:
      the steps ReadString takes after its ReadI32. */
  lemma StringReadSteps(b0: seq<uint8>, input: seq<uint8>, p0: nat, maxSize: int)
    requires p0 + 4 <= |input| && |b0| == BUFFER_SIZE
    ensures var size := DecodeI32(input[p0..p0 + 4]);
            var b1 := Fill(b0, input, p0, 4);
            (CheckSize(size, maxSize).Some? ==>
               StringRead(input, p0, maxSize) == PayloadRead([], CheckSize(size, maxSize), p0 + 4)
               && StringScratch(b0, input, p0, maxSize) == b1)
            && (CheckSize(size, maxSize).None? ==>
               StringRead(input, p0, maxSize) == StringPayload(input, p0 + 4, size)
               && StringScratch(b0, input, p0, maxSize)
                  == if 0 < size < BUFFER_SIZE then Fill(b1, input, p0 + 4, Avail(input, p0 + 4, size)) else b1)
  {
  }

  /** The scratch buffer after ReadBinary: only the length bytes. */
  function BinaryScratch(buf: seq<uint8>, input: seq<uint8>, pos: nat): (r: seq<uint8>)
    requires pos <= |input| && |buf| == BUFFER_SIZE
    ensures |r| == BUFFER_SIZE
  {
    Fill(buf, input, pos, Avail(input, pos, 4))
  }

  /** Copies e to the front of a, as PutUintN and io.ReadFull do with
      the scratch buffer. */
  method CopyToFront(a: array<uint8>, e: seq<uint8>)
    requires |e| <= a.Length
    modifies a
    ensures a[..] == e + old(a[..])[|e|..]
  {
    for i := 0 to |e|
      invariant forall j :: 0 <= j < i ==> a[j] == e[j]
      invariant forall j :: i <= j < a.Length ==> a[j] == old(a[j])
    {
      a[i] := e[i];
    }
  }

  /** A TSandeshProtocol over a byte transport. */
  class Protocol {
    /** Every byte handed to the transport so far. */
    var written: seq<uint8>
    /** The bytes the transport delivers, and how many were consumed. */
    var input: seq<uint8>
    var pos: nat
    /** Buffer [64]byte, the scratch space of the integer reads and
        writes and of short string reads. */
    const buffer: array<uint8>
    /** The signedness table of the structure being written. */
    var signedness: FieldSignedness
    /** The flag of the field being written (true meaning unsigned). */
    var isSigned: bool
    /** cfg.GetMaxMessageSize(). */
    const maxMessageSize: int

    ghost predicate Valid()
      reads this
    {
      buffer.Length == BUFFER_SIZE && pos <= |input|
    }

    /** NewTSandeshProtocolConf: nothing written, nothing read, a zeroed
        buffer, no structure table and the flag clear. */
    constructor (input: seq<uint8>, maxMessageSize: int)
      ensures Valid() && fresh(buffer)
      ensures this.input == input && pos == 0 && written == []
      ensures buffer[..] == seq(BUFFER_SIZE, _ => 0)
      ensures signedness == map[] && !isSigned && this.maxMessageSize == maxMessageSize
    {
      this.input := input;
      pos := 0;
      written := [];
      buffer := new uint8[BUFFER_SIZE](_ => 0);
      signedness := map[];
      isSigned := false;
      this.maxMessageSize := maxMessageSize;
    }

    // --- Writing ----------------------------------------------------------

    /** PutUintN into Buffer followed by trans.Write(Buffer[0:n]). */
    method PutScratch(e: seq<uint8>)
      requires Valid() && |e| <= BUFFER_SIZE
      modifies this, buffer
      ensures Valid() && input == old(input) && pos == old(pos)
      ensures buffer[..] == e + old(buffer[..])[|e|..]
      ensures written == old(written) + e
      ensures signedness == old(signedness) && isSigned == old(isSigned)
    {
      CopyToFront(buffer, e);
      written := written + buffer[..|e|];
    }

    /** WriteByte: the byte of the int8. */
    method WriteByte(v: int8)
      requires Valid()
      modifies this
      ensures Valid() && input == old(input) && pos == old(pos)
      ensures written == old(written) + [Uint8(v)]
      ensures signedness == old(signedness) && isSigned == old(isSigned)
    {
      written := written + [Uint8(v)];
    }

    /** WriteBool: 1 for true, 0 for false. */
    method WriteBool(v: bool)
      requires Valid()
      modifies this
      ensures Valid() && input == old(input) && pos == old(pos)
      ensures written == old(written) + [if v then 1 else 0]
      ensures signedness == old(signedness) && isSigned == old(isSigned)
    {
      if v {
        WriteByte(1);
      } else {
        WriteByte(0);
      }
    }

    method WriteI16(v: int16)
      requires Valid()
      modifies this, buffer
      ensures Valid() && input == old(input) && pos == old(pos)
      ensures written == old(written) + EncodeI16(v)
      ensures buffer[..] == EncodeI16(v) + old(buffer[..])[2..]
      ensures signedness == old(signedness) && isSigned == old(isSigned)
    {
      PutScratch(EncodeI16(v));
    }

    method WriteI32(v: int32)
      requires Valid()
      modifies this, buffer
      ensures Valid() && input == old(input) && pos == old(pos)
      ensures written == old(written) + EncodeI32(v)
      ensures buffer[..] == EncodeI32(v) + old(buffer[..])[4..]
      ensures signedness == old(signedness) && isSigned == old(isSigned)
    {
      PutScratch(EncodeI32(v));
    }

    method WriteI64(v: int64)
      requires Valid()
      modifies this, buffer
      ensures Valid() && input == old(input) && pos == old(pos)
      ensures written == old(written) + EncodeI64(v)
      ensures buffer[..] == EncodeI64(v) + old(buffer[..])[8..]
      ensures signedness == old(signedness) && isSigned == old(isSigned)
    {
      PutScratch(EncodeI64(v));
    }

    /** WriteString: int32(len) through the buffer, then the bytes. */
    method WriteString(s: seq<uint8>)
      requires Valid()
      modifies this, buffer
      ensures Valid() && input == old(input) && pos == old(pos)
      ensures written == old(written) + EncodeString(s)
      ensures buffer[..] == EncodeI32(LengthField(|s|)) + old(buffer[..])[4..]
      ensures signedness == old(signedness) && isSigned == old(isSigned)
    {
      WriteI32(LengthField(|s|));
      written := written + s;
    }

    /** WriteBinary: framed as WriteString. */
    method WriteBinary(s: seq<uint8>)
      requires Valid()
      modifies this, buffer
      ensures Valid() && input == old(input) && pos == old(pos)
      ensures written == old(written) + EncodeString(s)
      ensures buffer[..] == EncodeI32(LengthField(|s|)) + old(buffer[..])[4..]
      ensures signedness == old(signedness) && isSigned == old(isSigned)
    {
      WriteI32(LengthField(|s|));
      written := written + s;
    }

    /** WriteStructBegin: selects the structure's signedness table (an
        empty one for an unknown name: the error built for it is
        discarded) and writes the name as a string. */
    method WriteStructBegin(name: seq<uint8>)
      requires Valid()
      modifies this, buffer
      ensures Valid() && input == old(input) && pos == old(pos)
      ensures signedness == Lookup(AsString(name)).0 && isSigned == old(isSigned)
      ensures written == old(written) + EncodeString(name)
      ensures buffer[..] == EncodeI32(LengthField(|name|)) + old(buffer[..])[4..]
    {
      SelectStruct(name);
      WriteI32(LengthField(|name|));
      written := written + name;
    }

    /** The table half of WriteStructBegin: p.signedness = s. */
    method SelectStruct(name: seq<uint8>)
      requires Valid()
      modifies this
      ensures Valid() && input == old(input) && pos == old(pos) && written == old(written)
      ensures signedness == Lookup(AsString(name)).0 && isSigned == old(isSigned)
    {
      signedness := Lookup(AsString(name)).0;
    }

    /** WriteStructEnd: a STOP byte. */
    method WriteStructEnd()
      requires Valid()
      modifies this
      ensures Valid() && input == old(input) && pos == old(pos)
      ensures written == old(written) + [STOP]
      ensures signedness == old(signedness) && isSigned == old(isSigned)
    {
      WriteByte(Int8(STOP));
    }

    /** WriteFieldBegin: records whether field id of the current structure
        is unsigned, then writes the translated type and the id. */
    method WriteFieldBegin(typeId: TType, id: int16)
      requires Valid()
      modifies this, buffer
      ensures Valid() && input == old(input) && pos == old(pos)
      ensures isSigned == FieldUnsigned(signedness, id) && signedness == old(signedness)
      ensures written == old(written) + EncodeFieldHeader(typeId, id, isSigned)
      ensures buffer[..] == EncodeI16(id) + old(buffer[..])[2..]
    {
      if id in signedness {
        isSigned := signedness[id];
      } else {
        isSigned := false;
      }
      var t := TtypeToStype(typeId, isSigned);
      WriteByte(Int8(t));
      WriteI16(id);
    }

    /** WriteListBegin: the element type translated with the flag of the
        field last begun, then int32(size). */
    method WriteListBegin(elemType: TType, size: int)
      requires Valid()
      modifies this, buffer
      ensures Valid() && input == old(input) && pos == old(pos)
      ensures signedness == old(signedness) && isSigned == old(isSigned)
      ensures written == old(written) + [TtypeToStype(elemType, isSigned)] + EncodeI32(LengthField(size))
      ensures buffer[..] == EncodeI32(LengthField(size)) + old(buffer[..])[4..]
    {
      var t := TtypeToStype(elemType, isSigned);
      WriteByte(Int8(t));
      WriteI32(LengthField(size));
    }

    // --- Reading ----------------------------------------------------------

    /** ReadByte: the next byte as an int8, or 0 and io.EOF. */
    method ReadByte() returns (v: int8, err: Option<ProtoError>)
      requires Valid()
      modifies this
      ensures Valid() && input == old(input) && written == old(written)
      ensures signedness == old(signedness) && isSigned == old(isSigned)
      ensures old(pos) < |input| ==> v == Int8(input[old(pos)]) && err.None? && pos == old(pos) + 1
      ensures old(pos) == |input| ==> v == 0 && err == Some(Eof) && pos == old(pos)
    {
      if pos < |input| {
        v := Int8(input[pos]);
        pos := pos + 1;
        err := None;
      } else {
        v := 0;
        err := Some(Eof);
      }
    }

    /** ReadBool: true exactly when the byte read is 1. */
    method ReadBool() returns (v: bool, err: Option<ProtoError>)
      requires Valid()
      modifies this
      ensures Valid() && input == old(input) && written == old(written)
      ensures signedness == old(signedness) && isSigned == old(isSigned)
      ensures old(pos) < |input| ==> (v <==> input[old(pos)] == 1) && err.None? && pos == old(pos) + 1
      ensures old(pos) == |input| ==> !v && err == Some(Eof) && pos == old(pos)
    {
      var b;
      b, err := ReadByte();
      v := b == 1;
    }

    /** readAll: io.ReadFull of Buffer[0:n]. */
    method ReadFull(n: nat) returns (err: Option<ProtoError>)
      requires Valid() && n <= BUFFER_SIZE
      modifies this, buffer
      ensures Valid() && input == old(input) && written == old(written)
      ensures signedness == old(signedness) && isSigned == old(isSigned)
      ensures pos == old(pos) + Avail(input, old(pos), n)
      ensures buffer[..] == Fill(old(buffer[..]), input, old(pos), Avail(input, old(pos), n))
      ensures err == ShortRead(Avail(input, old(pos), n), n)
    {
      var k := Avail(input, pos, n);
      CopyToFront(buffer, input[pos..pos + k]);
      pos := pos + k;
      err := ShortRead(k, n);
    }

    /** safeReadBytes (and readStringBody): io.CopyN of size bytes, which
        reports io.EOF when the transport runs dry first. */
    method SafeReadBytes(size: nat) returns (value: seq<uint8>, err: Option<ProtoError>)
      requires Valid()
      modifies this
      ensures Valid() && input == old(input) && written == old(written)
      ensures signedness == old(signedness) && isSigned == old(isSigned)
      ensures pos == old(pos) + Avail(input, old(pos), size) && value == input[old(pos)..pos]
      ensures err == (if pos - old(pos) < size then Some(Eof) else None)
    {
      var k := Avail(input, pos, size);
      value := input[pos..pos + k];
      pos := pos + k;
      err := if k < size then Some(Eof) else None;
    }

    /** ReadI16: the value is decoded from the buffer even after a short
        read, so it then mixes new bytes with stale ones. */
    method ReadI16() returns (v: int16, err: Option<ProtoError>)
      requires Valid()
      modifies this, buffer
      ensures Valid() && input == old(input) && written == old(written)
      ensures signedness == old(signedness) && isSigned == old(isSigned)
      ensures pos == old(pos) + Avail(input, old(pos), 2)
      ensures buffer[..] == Fill(old(buffer[..]), input, old(pos), Avail(input, old(pos), 2))
      ensures v == DecodeI16(buffer[..2]) && err == ShortRead(Avail(input, old(pos), 2), 2)
    {
      err := ReadFull(2);
      v := DecodeI16(buffer[..2]);
    }

    method ReadI32() returns (v: int32, err: Option<ProtoError>)
      requires Valid()
      modifies this, buffer
      ensures Valid() && input == old(input) && written == old(written)
      ensures signedness == old(signedness) && isSigned == old(isSigned)
      ensures pos == old(pos) + Avail(input, old(pos), 4)
      ensures buffer[..] == Fill(old(buffer[..]), input, old(pos), Avail(input, old(pos), 4))
      ensures v == DecodeI32(buffer[..4]) && err == ShortRead(Avail(input, old(pos), 4), 4)
    {
      err := ReadFull(4);
      v := DecodeI32(buffer[..4]);
    }

    method ReadI64() returns (v: int64, err: Option<ProtoError>)
      requires Valid()
      modifies this, buffer
      ensures Valid() && input == old(input) && written == old(written)
      ensures signedness == old(signedness) && isSigned == old(isSigned)
      ensures pos == old(pos) + Avail(input, old(pos), 8)
      ensures buffer[..] == Fill(old(buffer[..]), input, old(pos), Avail(input, old(pos), 8))
      ensures v == DecodeI64(buffer[..8]) && err == ShortRead(Avail(input, old(pos), 8), 8)
    {
      err := ReadFull(8);
      v := DecodeI64(buffer[..8]);
    }

    /** ReadString (and ReadStructBegin, which is ReadString). */
    method ReadString() returns (value: seq<uint8>, err: Option<ProtoError>)
      requires Valid()
      modifies this, buffer
      ensures Valid() && input == old(input) && written == old(written)
      ensures signedness == old(signedness) && isSigned == old(isSigned)
      ensures PayloadRead(value, err, pos) == StringRead(input, old(pos), maxMessageSize)
      ensures buffer[..] == StringScratch(old(buffer[..]), input, old(pos), maxMessageSize)
    {
      ghost var p0 := pos;
      ghost var b0 := buffer[..];
      var size;
      size, err := ReadI32();
      if err.Some? {
        return [], err;
      }
      assert buffer[..4] == input[p0..p0 + 4];
      StringReadSteps(b0, input, p0, maxMessageSize);
      err := CheckSize(size, maxMessageSize);
      if err.Some? {
        return [], err;
      }
      value, err := ReadStringPayload(size);
    }

    /** The part of ReadString after an accepted size. */
    method ReadStringPayload(size: nat) returns (value: seq<uint8>, err: Option<ProtoError>)
      requires Valid()
      modifies this, buffer
      ensures Valid() && input == old(input) && written == old(written)
      ensures signedness == old(signedness) && isSigned == old(isSigned)
      ensures PayloadRead(value, err, pos) == StringPayload(input, old(pos), size)
      ensures buffer[..] == if 0 < size < BUFFER_SIZE
                            then Fill(old(buffer[..]), input, old(pos), Avail(input, old(pos), size))
                            else old(buffer[..])
    {
      if size == 0 {
        return [], None;
      }
      if size < BUFFER_SIZE {
        var start := pos;
        err := ReadFull(size);
        value := buffer[..pos - start];
      } else {
        value, err := SafeReadBytes(size);
      }
    }

    method ReadBinary() returns (value: seq<uint8>, err: Option<ProtoError>)
      requires Valid()
      modifies this, buffer
      ensures Valid() && input == old(input) && written == old(written)
      ensures signedness == old(signedness) && isSigned == old(isSigned)
      ensures PayloadRead(value, err, pos) == BinaryRead(input, old(pos), maxMessageSize)
      ensures buffer[..] == BinaryScratch(old(buffer[..]), input, old(pos))
    {
      var size;
      size, err := ReadI32();
      if err.Some? {
        return [], err;
      }
      err := CheckSize(size, maxMessageSize);
      if err.Some? {
        return [], err;
      }
      value, err := SafeReadBytes(size);
    }

    /** ReadFieldBegin: the type byte translated back; the id is read only
        when that type is not STOP. */
    method ReadFieldBegin() returns (typeId: TType, id: int16, err: Option<ProtoError>)
      requires Valid()
      modifies this, buffer
      ensures Valid() && input == old(input) && written == old(written)
      ensures signedness == old(signedness) && isSigned == old(isSigned)
      ensures old(pos) == |input| ==>
                typeId == STOP && id == 0 && err == Some(Eof) && pos == old(pos) && buffer[..] == old(buffer[..])
      ensures old(pos) < |input| ==> typeId == StypeToTtype(input[old(pos)])
      ensures old(pos) < |input| && typeId == STOP ==>
                id == 0 && err.None? && pos == old(pos) + 1 && buffer[..] == old(buffer[..])
      ensures old(pos) < |input| && typeId != STOP ==>
                pos == old(pos) + 1 + Avail(input, old(pos) + 1, 2)
                && buffer[..] == Fill(old(buffer[..]), input, old(pos) + 1, Avail(input, old(pos) + 1, 2))
                && id == DecodeI16(buffer[..2]) && err == ShortRead(Avail(input, old(pos) + 1, 2), 2)
    {
      var t;
      t, err := ReadByte();
      typeId := StypeToTtype(Uint8(t));
      id := 0;
      if err.Some? {
        return;
      }
      if typeId == STOP {
        return;
      }
      id, err := ReadI16();
    }

    /** ReadListBegin: the element type translated back, then the size,
        which must pass the size check. */
    method ReadListBegin() returns (elemType: TType, size: int, err: Option<ProtoError>)
      requires Valid()
      modifies this, buffer
      ensures Valid() && input == old(input) && written == old(written)
      ensures signedness == old(signedness) && isSigned == old(isSigned)
      ensures old(pos) == |input| ==>
                elemType == STOP && size == 0 && err == Some(Eof) && pos == old(pos) && buffer[..] == old(buffer[..])
      ensures old(pos) < |input| ==>
                var k := Avail(input, old(pos) + 1, 4);
                elemType == StypeToTtype(input[old(pos)])
                && pos == old(pos) + 1 + k
                && buffer[..] == Fill(old(buffer[..]), input, old(pos) + 1, k)
                && (k < 4 ==> size == 0 && err == ShortRead(k, 4))
                && (k == 4 ==> var s := DecodeI32(input[old(pos) + 1..old(pos) + 5]);
                               err == CheckSize(s, maxMessageSize) && size == (if err.None? then s else 0))
    {
      var b, e := ReadByte();
      size := 0;
      if e.Some? {
        return 0, 0, e;
      }
      elemType := StypeToTtype(Uint8(b));
      var size32;
      size32, e := ReadI32();
      if e.Some? {
        return elemType, 0, e;
      }
      err := CheckSize(size32, maxMessageSize);
      if err.Some? {
        return;
      }
      size := size32;
    }
  }

  // --- Properties of the encodings --------------------------------------

  /** The integer encodings are inverted by the matching decoders. */
  lemma I16Codec(v: int16)
    ensures DecodeI16(EncodeI16(v)) == v
  {
    assert Pow256(2) == 0x1_0000;
    BEOfToBE(Uint16(v), 2);
  }

  lemma I32Codec(v: int32)
    ensures DecodeI32(EncodeI32(v)) == v
  {
    assert Pow256(4) == 0x1_0000_0000;
    BEOfToBE(Uint32(v), 4);
  }

  lemma I64Codec(v: int64)
    ensures DecodeI64(EncodeI64(v)) == v
  {
    assert Pow256(8) == 0x1_0000_0000_0000_0000;
    BEOfToBE(Uint64(v), 8);
  }

  /** A length below 2^31 is sent as itself. */
  lemma LengthFieldExact(n: nat)
    requires n < 0x8000_0000
    ensures LengthField(n) == n
  {
  }

  /** A string or byte slice that passes the size check is read back whole,
      and the read stops right after it, whatever follows. */
  lemma PayloadRoundTrip(pre: seq<uint8>, s: seq<uint8>, rest: seq<uint8>, maxSize: int)
    requires |s| <= maxSize && |s| < 0x8000_0000
    ensures StringRead(pre + EncodeString(s) + rest, |pre|, maxSize) == PayloadRead(s, None, |pre| + 4 + |s|)
    ensures BinaryRead(pre + EncodeString(s) + rest, |pre|, maxSize) == PayloadRead(s, None, |pre| + 4 + |s|)
  {
    var input := pre + EncodeString(s) + rest;
    var p := |pre|;
    assert input[p..p + 4] == EncodeI32(LengthField(|s|));
    I32Codec(LengthField(|s|));
    LengthFieldExact(|s|);
    assert input[p + 4..p + 4 + |s|] == s;
  }

  /** A length prefix the size check refuses ends the read right after the
      prefix: no payload byte is consumed and nothing is returned. */
  lemma RefusedSizeConsumesNoPayload(input: seq<uint8>, pos: nat, maxSize: int)
    requires pos + 4 <= |input|
    requires CheckSize(DecodeI32(input[pos..pos + 4]), maxSize).Some?
    ensures StringRead(input, pos, maxSize) == BinaryRead(input, pos, maxSize)
    ensures var r := StringRead(input, pos, maxSize);
            r.value == [] && r.pos == pos + 4 && r.err == CheckSize(DecodeI32(input[pos..pos + 4]), maxSize)
  {
  }

  /** ReadString and ReadBinary consume the same bytes and return the same
      value; they report different errors only for a truncated payload
      shorter than the scratch buffer, where ReadString says
      io.ErrUnexpectedEOF after a partial read. */
  lemma StringAndBinaryAgree(input: seq<uint8>, pos: nat, maxSize: int)
    requires pos <= |input|
    ensures var (a, b) := (StringRead(input, pos, maxSize), BinaryRead(input, pos, maxSize));
            a.value == b.value && a.pos == b.pos
            && (a.err != b.err ==>
                  (a.err == Some(UnexpectedEof) && b.err == Some(Eof)
                   && pos + 4 < a.pos == |input| && a.pos - pos - 4 < BUFFER_SIZE))
  {
  }

  // --- Round trips through the protocol ---------------------------------

  /** An int16 written by one protocol is read back by another reading the
      bytes the first one produced. */
  method I16RoundTrip(v: int16) returns (r: int16, err: Option<ProtoError>)
    ensures r == v && err.None?
  {
    var w := new Protocol([], 0);
    w.WriteI16(v);
    var rd := new Protocol(w.written, 0);
    r, err := rd.ReadI16();
    assert rd.buffer[..2] == EncodeI16(v);
    I16Codec(v);
  }

  method I32RoundTrip(v: int32) returns (r: int32, err: Option<ProtoError>)
    ensures r == v && err.None?
  {
    var w := new Protocol([], 0);
    w.WriteI32(v);
    var rd := new Protocol(w.written, 0);
    r, err := rd.ReadI32();
    assert rd.buffer[..4] == EncodeI32(v);
    I32Codec(v);
  }

  method I64RoundTrip(v: int64) returns (r: int64, err: Option<ProtoError>)
    ensures r == v && err.None?
  {
    var w := new Protocol([], 0);
    w.WriteI64(v);
    var rd := new Protocol(w.written, 0);
    r, err := rd.ReadI64();
    assert rd.buffer[..8] == EncodeI64(v);
    I64Codec(v);
  }

  method BoolRoundTrip(v: bool) returns (r: bool, err: Option<ProtoError>)
    ensures r == v && err.None?
  {
    var w := new Protocol([], 0);
    w.WriteBool(v);
    var rd := new Protocol(w.written, 0);
    r, err := rd.ReadBool();
  }

  /** A string accepted by the reader's size limit comes back whole. */
  method StringRoundTrip(v: seq<uint8>, maxSize: int) returns (r: seq<uint8>, err: Option<ProtoError>)
    requires |v| <= maxSize && |v| < 0x8000_0000
    ensures r == v && err.None?
  {
    var w := new Protocol([], maxSize);
    w.WriteString(v);
    assert w.written == [] + EncodeString(v) + [];
    PayloadRoundTrip([], v, [], maxSize);
    var rd := new Protocol(w.written, maxSize);
    r, err := rd.ReadString();
  }

  /** A field header read back, whatever follows it: the type with the
      Sandesh unsigned types mapped back to their Thrift twins, and the id. */
  method FieldRoundTrip(t: TType, id: int16, unsigned: bool, rest: seq<uint8>)
      returns (rt: TType, rid: int16, err: Option<ProtoError>)
    requires t != STOP
    ensures rt == StypeToTtype(t) && rid == id && err.None?
    ensures !IsUnsignedWireType(t) ==> rt == t
  {
    var header := EncodeFieldHeader(t, id, unsigned);
    var rd := new Protocol(header + rest, 0);
    assert (header + rest)[1..3] == EncodeI16(id);
    rt, rid, err := rd.ReadFieldBegin();
    assert rd.buffer[..2] == EncodeI16(id);
    I16Codec(id);
  }

  /** The end of a structure is read as a STOP field that consumes one
      byte and no id, whatever follows. */
  method StructEndRoundTrip(rest: seq<uint8>) returns (rt: TType, rid: int16, consumed: nat, err: Option<ProtoError>)
    ensures rt == STOP && rid == 0 && consumed == 1 && err.None?
  {
    var w := new Protocol([], 0);
    w.WriteStructEnd();
    var rd := new Protocol(w.written + rest, 0);
    rt, rid, err := rd.ReadFieldBegin();
    consumed := rd.pos;
  }

  /** A list header read back: the element type mapped back and the size,
      for any size the reader accepts. */
  method ListRoundTrip(elem: TType, size: nat, maxSize: int) returns (rt: TType, rsize: int, err: Option<ProtoError>)
    requires size <= maxSize && size < 0x8000_0000
    ensures rt == StypeToTtype(elem) && rsize == size && err.None?
  {
    var w := new Protocol([], maxSize);
    w.WriteListBegin(elem, size);
    var rd := new Protocol(w.written, maxSize);
    LengthFieldExact(size);
    assert w.written[1..5] == EncodeI32(size);
    I32Codec(size);
    rt, rsize, err := rd.ReadListBegin();
  }

  /** The structure name as the signedness table spells it. */
  function AsString(name: seq<uint8>): (r: string)
    ensures |r| == |name| && forall i :: 0 <= i < |name| ==> r[i] as int == name[i]
  {
    seq(|name|, i requires 0 <= i < |name| => name[i] as char)
  }
}
