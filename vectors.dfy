/**
 * The layouts and buffers of the crate's own tests, worked through the model.
 */
module Vectors {
  import opened BitOps
  import opened Bitstream
  import opened Schema
  import opened Derive
  import opened Generated
  import opened Correctness
  import opened Roundtrip

  /** `#[bits(6)] f1`, `#[bits(4)] f2`, `#[bits(6)] f3`. */
  const Packet: seq<Field> := [Bits(6), Bits(4), Bits(6)]

  const PacketValues: seq<Value> := [Num(0x29), Num(0x05), Num(0x1B)]

  lemma PacketWidths()
    ensures BitsTo(Packet, 1) == 6 && BitsTo(Packet, 2) == 10 && BitsTo(Packet, 3) == 16
  {
    assert BitsTo(Packet, 1) == 6;
    assert BitsTo(Packet, 2) == 10;
  }

  lemma PacketFieldBits()
    ensures ToBits(0x29, 6) + ToBits(0x05, 4) + ToBits(0x1B, 6) == ToBits(0xA5, 8) + ToBits(0x5B, 8)
  {
    hide ToBits;
    FieldBitsF1();
    FieldBitsF2();
    FieldBitsF3();
    ByteBitsA5();
    ByteBits5B();
  }

  lemma FieldBitsF1()
    ensures ToBits(0x29, 6) == [true, false, true, false, false, true]
  {
  }

  lemma FieldBitsF2()
    ensures ToBits(0x05, 4) == [false, true, false, true]
  {
  }

  lemma FieldBitsF3()
    ensures ToBits(0x1B, 6) == [false, true, true, false, true, true]
  {
  }

  lemma ByteBitsA5()
    ensures ToBits(0xA5, 8) == [true, false, true, false, false, true, false, true]
  {
  }

  lemma ByteBits5B()
    ensures ToBits(0x5B, 8) == [false, true, false, true, true, false, true, true]
  {
  }

  /** The bit stream of the record: 101001 0101 011011. */
  lemma PacketStream()
    ensures Typed(Packet, PacketValues) && TotalBits(Packet) == 16
    ensures StreamTo(Packet, PacketValues, 3) == ToBits(0xA5, 8) + ToBits(0x5B, 8)
  {
    hide ToBits;
    PacketWidths();
    PacketFieldBits();
  }

  /** Two bytes' worth of bits cut into bytes gives the two bytes. */
  lemma TwoBytes(a: byte, b: byte)
    ensures BitsToBytes(ToBits(a, 8) + ToBits(b, 8)) == [a, b]
  {
    BitsToBytesAppend(ToBits(a, 8), ToBits(b, 8));
    BitsToBytesOne(ToBits(a, 8));
    BitsToBytesOne(ToBits(b, 8));
    FromToBits(a, 8);
    FromToBits(b, 8);
    assert Pow2(8) == 256;
    LowOfSmall(a, 8);
    LowOfSmall(b, 8);
  }

  /** tests/bits_no_std.rs: the record (0x29, 0x05, 0x1B) encodes as [0xA5, 0x5B]. */
  lemma PacketEncoding()
    ensures Typed(Packet, PacketValues) && TotalBits(Packet) == 16
    ensures Encode(Packet, PacketValues) == [0xA5, 0x5B]
  {
    PacketStream();
    TwoBytes(0xA5, 0x5B);
  }

  /** tests/bits_no_std.rs, through the generated `pack`: it appends [0xA5, 0x5B] and returns 2. */
  lemma PacketPack()
    ensures PackBytes(Walk(Packet, 3, Init).packList, PacketValues) == [0xA5, 0x5B]
  {
    hide Walk, PackBytes, Encode, StreamTo;
    PacketEncoding();
    PacketWidths();
    PackCorrect(Packet, PacketValues);
  }

  /**
   * tests/bits_no_std.rs, through the generated `unpack`: from a default record
   * it reads f1 = 0x29, f2 = 0x05, f3 = 0x1B out of [0xA5, 0x5B] and returns 2.
   */
  lemma PacketUnpack(nested: (nat, seq<byte>) -> nat)
    ensures RunUnpack(UnpackState(0, [Num(0), Num(0), Num(0)]), Walk(Packet, 3, Init).unpackList, [0xA5, 0x5B], nested)
      == Some(UnpackState(2, PacketValues))
  {
    hide Walk, PackBytes, Encode, StreamTo, RunUnpack, Truncated;
    var init := [Num(0), Num(0), Num(0)];
    PacketEncoding();
    PacketWidths();
    PackCorrect(Packet, PacketValues);
    UnpackPacked(Packet, PacketValues, nested, init);
    PacketFits(init);
  }

  /** The record's values already fit their widths, so unpack gives them back whole. */
  lemma PacketFits(init: seq<Value>)
    requires |init| == 3
    ensures Truncated(Packet, PacketValues, init) == PacketValues
  {
    assert Pow2(4) == 16 && Pow2(6) == 64;
    LowOfSmall(0x29, 6);
    LowOfSmall(0x05, 4);
    LowOfSmall(0x1B, 6);
  }

  /**
   * tests/bitfield.rs: the `bits` fields of the record above, then the nested
   * structs F1 and F2 (16 bits each, so each one's unpack reports 2 bytes),
   * then `#[bits(8)] tail`.
   */
  const WithNested: seq<Field> := [Bits(6), Bits(4), Bits(6), Bitfield, Bitfield, Bits(8)]

  /**
   * The byte count the `unpack` of the struct in a field reports for the
   * bytes it is handed in the test: F1 (field 3) and F2 (field 4) report 2
   * each, as InnerUnpack1 and InnerUnpack2 show.
   */
  function NestedCount(field: nat, s: seq<byte>): nat
  {
    2
  }

  const NestedData: seq<byte> := [0xA5, 0x5B, 0xF5, 0x67, 0x89, 0xAF, 0xAA]

  /** The record unpack leaves: the nested structs were handed the bytes from 2 and from 4 on. */
  const NestedValues: seq<Value> :=
    [Num(0x29), Num(0x05), Num(0x1B), Nested(NestedData[2..]), Nested(NestedData[4..]), Num(0xAA)]

  lemma NestedWidths()
    ensures BitsTo(WithNested, 1) == 6 && BitsTo(WithNested, 2) == 10 && BitsTo(WithNested, 3) == 16
    ensures BitsTo(WithNested, 4) == 16 && BitsTo(WithNested, 5) == 16 && BitsTo(WithNested, 6) == 24
  {
    assert BitsTo(WithNested, 1) == 6;
    assert BitsTo(WithNested, 2) == 10;
    assert BitsTo(WithNested, 3) == 16;
    assert BitsTo(WithNested, 4) == 16;
    assert BitsTo(WithNested, 5) == 16;
  }

  /** The derive accepts the layout: both nested structs start on a byte boundary and 24 bits make 3 bytes. */
  lemma NestedAccepted()
    ensures Accepted(WithNested)
  {
    NestedWidths();
  }

  /** The nested structs contribute nothing to the bit stream. */
  lemma NestedStream()
    ensures Typed(WithNested, NestedValues) && TotalBits(WithNested) == 24
    ensures StreamTo(WithNested, NestedValues, 6) == (ToBits(0xA5, 8) + ToBits(0x5B, 8)) + ToBits(0xAA, 8)
  {
    hide ToBits;
    NestedWidths();
    PacketFieldBits();
    var v := NestedValues;
    assert StreamTo(WithNested, v, 1) == ToBits(0x29, 6);
    assert StreamTo(WithNested, v, 2) == ToBits(0x29, 6) + ToBits(0x05, 4);
    assert StreamTo(WithNested, v, 3) == (ToBits(0x29, 6) + ToBits(0x05, 4)) + ToBits(0x1B, 6);
    assert StreamTo(WithNested, v, 5) == StreamTo(WithNested, v, 3);
    AppendAssoc(ToBits(0x29, 6), ToBits(0x05, 4), ToBits(0x1B, 6));
  }

  lemma ThreeBytes(a: byte, b: byte, c: byte)
    ensures BitsToBytes((ToBits(a, 8) + ToBits(b, 8)) + ToBits(c, 8)) == [a, b, c]
  {
    hide ToBits, BitsToBytes, FromBits;
    TwoBytes(a, b);
    BitsToBytesAppend(ToBits(a, 8) + ToBits(b, 8), ToBits(c, 8));
    BitsToBytesOne(ToBits(c, 8));
    FromToBits(c, 8);
    assert Pow2(8) == 256;
    LowOfSmall(c, 8);
  }

  /**
   * tests/bitfield.rs, through the generated `pack`: it appends the 3 bytes
   * [0xA5, 0x5B, 0xAA], because `build_field` emits no pack statement for a
   * `#[bitfield]` field.  The test expects the 7 bytes it unpacked.
   */
  lemma NestedPack()
    ensures PackBytes(Walk(WithNested, 6, Init).packList, NestedValues) == [0xA5, 0x5B, 0xAA]
    ensures PackBytes(Walk(WithNested, 6, Init).packList, NestedValues) != NestedData
  {
    hide Walk, PackBytes, StreamTo, ToBits, BitsToBytes;
    NestedAccepted();
    NestedStream();
    ThreeBytes(0xA5, 0x5B, 0xAA);
    PackCorrect(WithNested, NestedValues);
  }

  /** A field whose stream bits are the w-bit picture of v < 2^w decodes as v. */
  lemma ReadsAs(bits: seq<bool>, v: nat, w: nat)
    requires bits == ToBits(v, w) && v < Pow2(w)
    ensures FromBits(bits) == v
  {
    FromToBits(v, w);
    LowOfSmall(v, w);
  }

  /** The stream of the test buffer, field by field. */
  lemma NestedDataBits()
    ensures BytesToBits(NestedData)[0..6] == ToBits(0x29, 6)
    ensures BytesToBits(NestedData)[6..10] == ToBits(0x05, 4)
    ensures BytesToBits(NestedData)[10..16] == ToBits(0x1B, 6)
    ensures BytesToBits(NestedData)[48..56] == ToBits(0xAA, 8)
  {
    hide ToBits, BytesToBits;
    var bits := BytesToBits(NestedData);
    BytesToBitsAt(NestedData, 0);
    BytesToBitsAt(NestedData, 1);
    BytesToBitsAt(NestedData, 6);
    var head := ToBits(0xA5, 8) + ToBits(0x5B, 8);
    assert bits[0..16] == head;
    PacketFieldBits();
    FieldBitsF1();
    FieldBitsF2();
    FieldBitsF3();
    SliceOfSlice(bits, 0, 16, 0, 6);
    SliceOfSlice(bits, 0, 16, 6, 10);
    SliceOfSlice(bits, 0, 16, 10, 16);
    assert head[0..6] == ToBits(0x29, 6);
    assert head[6..10] == ToBits(0x05, 4);
    assert head[10..16] == ToBits(0x1B, 6);
  }

  /** The reference decoding of the test buffer. */
  lemma NestedDecode(init: seq<Value>)
    requires |init| == 6
    ensures Decode(WithNested, NestedData, NestedCount, init) == Some((NestedValues, 7))
  {
    hide ToBits, BytesToBits, FromBits;
    var nested := NestedCount;
    var bits := BytesToBits(NestedData);
    NestedDataBits();
    assert Pow2(4) == 16 && Pow2(6) == 64 && Pow2(8) == 256;
    ReadsAs(bits[0..6], 0x29, 6);
    ReadsAs(bits[6..10], 0x05, 4);
    ReadsAs(bits[10..16], 0x1B, 6);
    ReadsAs(bits[48..56], 0xAA, 8);
    var v1 := init[0 := Num(0x29)];
    var v2 := v1[1 := Num(0x05)];
    var v3 := v2[2 := Num(0x1B)];
    var v4 := v3[3 := Nested(NestedData[2..])];
    var v5 := v4[4 := Nested(NestedData[4..])];
    var v6 := v5[5 := Num(0xAA)];
    assert DecodeTo(WithNested, 1, NestedData, nested, init) == Some(Decoded(v1, 6));
    assert DecodeTo(WithNested, 2, NestedData, nested, init) == Some(Decoded(v2, 10));
    assert DecodeTo(WithNested, 3, NestedData, nested, init) == Some(Decoded(v3, 16));
    assert DecodeTo(WithNested, 4, NestedData, nested, init) == Some(Decoded(v4, 32));
    assert DecodeTo(WithNested, 5, NestedData, nested, init) == Some(Decoded(v5, 48));
    assert DecodeTo(WithNested, 6, NestedData, nested, init) == Some(Decoded(v6, 56));
    assert v6 == NestedValues;
  }

  /**
   * tests/bitfield.rs, through the generated `unpack`: it reads the three
   * leading fields and `tail` = 0xAA, hands each nested struct the bytes from
   * its offset on, and returns 7.
   */
  lemma NestedUnpack(init: seq<Value>)
    requires |init| == 6
    ensures RunUnpack(UnpackState(0, init), Walk(WithNested, 6, Init).unpackList, NestedData, NestedCount)
      == Some(UnpackState(7, NestedValues))
  {
    hide Walk, RunUnpack, Decode;
    NestedAccepted();
    NestedDecode(init);
    UnpackCorrect(WithNested, NestedData, NestedCount, init);
  }

  // ---------------------------------------------------------------------------
  // The nested structs of tests/bitfield.rs, derived on their own
  // ---------------------------------------------------------------------------

  /** F1: `#[bits(4)] skip_2`, `#[bits(12)] or_mask_test`. */
  const Inner1: seq<Field> := [Bits(4), Bits(12)]

  const Inner1Values: seq<Value> := [Num(0x0F), Num(0x0567)]

  /** F2: `#[bits(13)] or_rshift_test`, `#[bits(3)] skip_3`. */
  const Inner2: seq<Field> := [Bits(13), Bits(3)]

  const Inner2Values: seq<Value> := [Num(0x1135), Num(0x07)]

  lemma BitsOf0F()
    ensures ToBits(0x0F, 4) == [true, true, true, true]
  {
  }

  lemma BitsOf567()
    ensures ToBits(0x0567, 12) == [false, true, false, true, false, true, true, false, false, true, true, true]
  {
  }

  lemma BitsOfF5()
    ensures ToBits(0xF5, 8) == [true, true, true, true, false, true, false, true]
  {
  }

  lemma BitsOf67()
    ensures ToBits(0x67, 8) == [false, true, true, false, false, true, true, true]
  {
  }

  /** The top eight of the 13 bits are 0x89. */
  lemma BitsOf1135()
    ensures ToBits(0x1135, 13) == ToBits(0x89, 8) + [true, false, true, false, true]
  {
    ToBitsSplit(0x1135, 13, 5);
    assert Shr(0x1135, 5) == 0x89;
    assert ToBits(0x1135, 5) == [true, false, true, false, true];
  }

  lemma BitsOf07()
    ensures ToBits(0x07, 3) == [true, true, true]
  {
  }

  lemma BitsOf89()
    ensures ToBits(0x89, 8) == [true, false, false, false, true, false, false, true]
  {
  }

  lemma BitsOfAF()
    ensures ToBits(0xAF, 8) == [true, false, true, false, true, true, true, true]
  {
  }

  /** F1 with skip_2 = 0x0F and or_mask_test = 0x0567 encodes as [0xF5, 0x67]. */
  lemma Inner1Encoding()
    ensures Accepted(Inner1) && NoBitfield(Inner1) && Typed(Inner1, Inner1Values) && TotalBits(Inner1) == 16
    ensures Encode(Inner1, Inner1Values) == [0xF5, 0x67]
  {
    hide ToBits;
    assert BitsTo(Inner1, 1) == 4;
    assert StreamTo(Inner1, Inner1Values, 1) == ToBits(0x0F, 4);
    assert StreamTo(Inner1, Inner1Values, 2) == ToBits(0x0F, 4) + ToBits(0x0567, 12);
    Inner1Bits();
    TwoBytes(0xF5, 0x67);
  }

  lemma Inner1Bits()
    ensures ToBits(0x0F, 4) + ToBits(0x0567, 12) == ToBits(0xF5, 8) + ToBits(0x67, 8)
  {
    hide ToBits;
    BitsOf0F();
    BitsOf567();
    BitsOfF5();
    BitsOf67();
  }

  /** F2 with or_rshift_test = 0x1135 and skip_3 = 0x07 encodes as [0x89, 0xAF]. */
  lemma Inner2Encoding()
    ensures Accepted(Inner2) && NoBitfield(Inner2) && Typed(Inner2, Inner2Values) && TotalBits(Inner2) == 16
    ensures Encode(Inner2, Inner2Values) == [0x89, 0xAF]
  {
    hide ToBits;
    assert BitsTo(Inner2, 1) == 13;
    assert StreamTo(Inner2, Inner2Values, 1) == ToBits(0x1135, 13);
    assert StreamTo(Inner2, Inner2Values, 2) == ToBits(0x1135, 13) + ToBits(0x07, 3);
    Inner2Bits();
    TwoBytes(0x89, 0xAF);
  }

  lemma Inner2Bits()
    ensures ToBits(0x1135, 13) + ToBits(0x07, 3) == ToBits(0x89, 8) + ToBits(0xAF, 8)
  {
    hide ToBits;
    BitsOf1135();
    BitsOf07();
    BitsOf89();
    BitsOfAF();
  }

  /**
   * tests/bitfield.rs, F1's generated `unpack` of the bytes the outer record
   * hands it (those from 2 on): skip_2 = 0x0F, or_mask_test = 0x0567, and it
   * returns 2.
   */
  lemma InnerUnpack1(init: seq<Value>, nested: (nat, seq<byte>) -> nat)
    requires |init| == 2
    ensures RunUnpack(UnpackState(0, init), Walk(Inner1, 2, Init).unpackList, NestedData[2..], nested)
      == Some(UnpackState(2, Inner1Values))
  {
    hide Walk, PackBytes, Encode, StreamTo, RunUnpack, Truncated;
    Inner1Encoding();
    PackCorrect(Inner1, Inner1Values);
    UnpackPackedPrefix(Inner1, Inner1Values, NestedData[2..], nested, init);
    Inner1Fits(init);
  }

  lemma Inner1Fits(init: seq<Value>)
    requires |init| == 2
    ensures Truncated(Inner1, Inner1Values, init) == Inner1Values
  {
    assert Pow2(4) == 16 && Pow2(12) == 4096;
    LowOfSmall(0x0F, 4);
    LowOfSmall(0x0567, 12);
  }

  /**
   * tests/bitfield.rs, F2's generated `unpack` of the bytes the outer record
   * hands it (those from 4 on): or_rshift_test = 0x1135, skip_3 = 0x07, and
   * it returns 2.
   */
  lemma InnerUnpack2(init: seq<Value>, nested: (nat, seq<byte>) -> nat)
    requires |init| == 2
    ensures RunUnpack(UnpackState(0, init), Walk(Inner2, 2, Init).unpackList, NestedData[4..], nested)
      == Some(UnpackState(2, Inner2Values))
  {
    hide Walk, PackBytes, Encode, StreamTo, RunUnpack, Truncated;
    Inner2Encoding();
    PackCorrect(Inner2, Inner2Values);
    UnpackPackedPrefix(Inner2, Inner2Values, NestedData[4..], nested, init);
    Inner2Fits(init);
  }

  lemma Inner2Fits(init: seq<Value>)
    requires |init| == 2
    ensures Truncated(Inner2, Inner2Values, init) == Inner2Values
  {
    assert Pow2(3) == 8 && Pow2(13) == 8192;
    LowOfSmall(0x1135, 13);
    LowOfSmall(0x07, 3);
  }
}
