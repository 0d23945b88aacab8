/**
 * The derive and the code it generates, used together: `#[derive(BitWrap)]`
 * applied to a layout, then the generated `pack` or `unpack` called on a
 * value of the struct.  A layout the derive rejects panics at compile time,
 * which is `ok == false` here.
 */
module Pipeline {
  import opened BitOps
  import opened Schema
  import opened Derive
  import opened Generated
  import opened Correctness

  /**
   * Derive, then `r.pack(dst)`: for a layout the derive accepts, `dst` grows
   * by the record's MSB-first encoding and the call returns its length.
   */
  method DerivePack(fields: seq<Field>, r: Record, dst: ByteVec) returns (ok: bool, n: nat)
    requires WellFormed(fields) && Typed(fields, r.values)
    modifies dst
    ensures ok == Accepted(fields)
    ensures ok ==> dst.data == old(dst.data) + Encode(fields, r.values) && n == TotalBits(fields) / 8
    ensures !ok ==> dst.data == old(dst.data)
  {
    var m := new BitWrapMacro();
    ok := m.Build(fields);
    if !ok {
      n := 0;
      return;
    }
    PackCorrect(fields, r.values);
    n := r.Pack(m.packList, dst);
  }

  /**
   * Derive, then `r.unpack(src)`: for a layout the derive accepts, the call
   * panics exactly where the reference decoding fails, and otherwise leaves
   * the decoded fields in `r` and returns the number of bytes consumed.
   */
  method DeriveUnpack(fields: seq<Field>, r: Record, src: array<byte>, nested: (nat, seq<byte>) -> nat) returns (ok: bool, res: Option<nat>)
    requires WellFormed(fields) && |r.values| == |fields|
    modifies r
    ensures ok == Accepted(fields)
    ensures ok ==> var e := Decode(fields, src[..], nested, old(r.values));
      (res.None? <==> e.None?) && (res.Some? ==> res.value == e.value.1 && r.values == e.value.0)
    ensures !ok ==> r.values == old(r.values)
  {
    var m := new BitWrapMacro();
    ok := m.Build(fields);
    if !ok {
      res := None;
      return;
    }
    UnpackCorrect(fields, src[..], nested, r.values);
    res := r.Unpack(m.unpackList, src, nested);
  }
}
