/**
 * A record layout as the derive sees it: the struct's fields in declaration
 * order, each either `#[bits(w)]`, `#[bitfield]` (a nested struct that
 * unpacks itself) or carrying neither attribute.  This module also gives the
 * reference meaning of a layout in terms of the MSB-first bit stream.
 */
module Schema {
  import opened BitOps
  import opened Bitstream

  datatype Option<T> = None | Some(value: T)

  /** A field of the struct, as far as its attributes go. */
  datatype Field =
    | Bits(width: nat)   // #[bits(width)]
    | Bitfield           // #[bitfield]
    | Plain              // no bitwrap attribute

  /**
   * What a field of the struct holds: an unsigned number for a `bits` field,
   * for a nested struct the bytes its own unpack was handed, or anything else.
   */
  datatype Value = Num(n: nat) | Nested(input: seq<byte>) | Opaque(tag: nat)

  function Width(f: Field): nat
  {
    if f.Bits? then f.width else 0
  }

  /** Every `bits` width is at least one. */
  predicate WellFormed(fields: seq<Field>)
  {
    forall k :: 0 <= k < |fields| ==> Width(fields[k]) >= 1 || !fields[k].Bits?
  }

  predicate NoBitfield(fields: seq<Field>)
  {
    forall k :: 0 <= k < |fields| ==> !fields[k].Bitfield?
  }

  /** The number of `bits` bits declared by the first k fields. */
  function BitsTo(fields: seq<Field>, k: nat): nat
    requires k <= |fields|
  {
    if k == 0 then 0 else BitsTo(fields, k - 1) + Width(fields[k - 1])
  }

  function TotalBits(fields: seq<Field>): nat
  {
    BitsTo(fields, |fields|)
  }

  /** Each nested struct among the first n fields starts on a byte boundary of the bit stream. */
  predicate AlignedBefore(fields: seq<Field>, n: nat)
    requires n <= |fields|
  {
    forall k :: 0 <= k < n && fields[k].Bitfield? ==> BitsTo(fields, k) % 8 == 0
  }

  predicate BitfieldsAligned(fields: seq<Field>)
  {
    AlignedBefore(fields, |fields|)
  }

  /** The layouts the derive turns into code. */
  predicate Accepted(fields: seq<Field>)
  {
    WellFormed(fields) && BitfieldsAligned(fields) && TotalBits(fields) % 8 == 0
  }

  /** A value of the right shape for every field: a number under every `bits` field. */
  predicate Typed(fields: seq<Field>, values: seq<Value>)
  {
    |values| == |fields| && forall k :: 0 <= k < |fields| && fields[k].Bits? ==> values[k].Num?
  }

  function FieldStream(f: Field, v: Value): (s: seq<bool>)
    requires f.Bits? ==> v.Num?
    ensures |s| == Width(f)
  {
    if f.Bits? then ToBits(v.n, f.width) else []
  }

  /** The bit stream of the first k fields: each `bits` field's w low bits, MSB first. */
  function StreamTo(fields: seq<Field>, values: seq<Value>, k: nat): (s: seq<bool>)
    requires Typed(fields, values) && k <= |fields|
    ensures |s| == BitsTo(fields, k)
  {
    if k == 0 then [] else StreamTo(fields, values, k - 1) + FieldStream(fields[k - 1], values[k - 1])
  }

  /** The reference encoding of a record: its bit stream cut into bytes. */
  function Encode(fields: seq<Field>, values: seq<Value>): seq<byte>
    requires Typed(fields, values) && TotalBits(fields) % 8 == 0
  {
    BitsToBytes(StreamTo(fields, values, |fields|))
  }

  /** Decoding state: the record so far and the bit position reached in the source. */
  datatype Decoded = Decoded(values: seq<Value>, pos: nat)

  /**
   * The reference decoding of field k at bit position d.pos of src.  A `bits`
   * field reads the next w bits of the stream, and fails when they run past
   * the end.  A nested struct is handed the bytes from the current one on,
   * fails when that position is past the end, and moves the position on by
   * the byte count `nested` reports for field k.
   */
  function DecodeField(f: Field, k: nat, d: Decoded, src: seq<byte>, nested: (nat, seq<byte>) -> nat): Option<Decoded>
    requires k < |d.values|
  {
    match f
    case Bits(w) =>
      if d.pos + w <= 8 * |src|
      then Some(Decoded(d.values[k := Num(FromBits(BytesToBits(src)[d.pos..d.pos + w]))], d.pos + w))
      else None
    case Bitfield =>
      if d.pos / 8 <= |src|
      then Some(Decoded(d.values[k := Nested(src[d.pos / 8..])], d.pos + 8 * nested(k, src[d.pos / 8..])))
      else None
    case Plain => Some(d)
  }

  /** The reference decoding of the first k fields into the record `init`. */
  function DecodeTo(fields: seq<Field>, k: nat, src: seq<byte>, nested: (nat, seq<byte>) -> nat, init: seq<Value>): (r: Option<Decoded>)
    requires k <= |fields| && |init| == |fields|
    ensures r.Some? ==> |r.value.values| == |fields|
  {
    if k == 0 then Some(Decoded(init, 0))
    else
      match DecodeTo(fields, k - 1, src, nested, init)
      case None => None
      case Some(d) => DecodeField(fields[k - 1], k - 1, d, src, nested)
  }

  /** The reference decoding of a whole record: the new field values and the bytes consumed. */
  function Decode(fields: seq<Field>, src: seq<byte>, nested: (nat, seq<byte>) -> nat, init: seq<Value>): Option<(seq<Value>, nat)>
    requires |init| == |fields|
  {
    match DecodeTo(fields, |fields|, src, nested, init)
    case None => None
    case Some(d) => Some((d.values, d.pos / 8))
  }
}
