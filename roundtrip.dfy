/**
 * Round trips of the reference meaning, and through it of the generated
 * code: unpacking what pack wrote recovers every `bits` field modulo 2^w,
 * packing what unpack read reproduces the bytes it read, pack depends on each
 * field only modulo 2^w, and unpack leaves fields without an attribute alone.
 */
module Roundtrip {
  import opened BitOps
  import opened Bitstream
  import opened Schema
  import opened Derive
  import opened Generated
  import opened Correctness

  /** The record `init` with its first k `bits` fields replaced by the w low bits of the fields of `values`. */
  function TruncatedTo(fields: seq<Field>, values: seq<Value>, init: seq<Value>, k: nat): (r: seq<Value>)
    requires Typed(fields, values) && |init| == |fields| && k <= |fields|
    ensures |r| == |fields|
  {
    seq(|fields|, i requires 0 <= i < |fields| =>
      if i < k && fields[i].Bits? then Num(Low(values[i].n, fields[i].width)) else init[i])
  }

  /** What unpacking the packed `values` into `init` leaves: every `bits` field cut to its width, the others as in `init`. */
  function Truncated(fields: seq<Field>, values: seq<Value>, init: seq<Value>): (r: seq<Value>)
    requires Typed(fields, values) && |init| == |fields|
    ensures |r| == |fields|
  {
    TruncatedTo(fields, values, init, |fields|)
  }

  /** The stream of the first k fields is a prefix of the stream of the first j. */
  lemma {:induction false} StreamPrefix(fields: seq<Field>, values: seq<Value>, k: nat, j: nat)
    requires Typed(fields, values) && k <= j <= |fields|
    ensures BitsTo(fields, k) <= BitsTo(fields, j)
    ensures StreamTo(fields, values, j)[..BitsTo(fields, k)] == StreamTo(fields, values, k)
    decreases j
  {
    hide StreamTo, FieldStream;
    if k < j {
      StreamPrefix(fields, values, k, j - 1);
      var s := StreamTo(fields, values, j - 1);
      var t := FieldStream(fields[j - 1], values[j - 1]);
      StreamStep(fields, values, j);
      ConcatParts(s, t);
      assert StreamTo(fields, values, j)[..BitsTo(fields, k)] == s[..BitsTo(fields, k)];
    }
  }

  /** The stream of the first k fields is that of the first k - 1 followed by field k - 1's. */
  lemma StreamStep(fields: seq<Field>, values: seq<Value>, k: nat)
    requires Typed(fields, values) && 0 < k <= |fields|
    ensures StreamTo(fields, values, k) == StreamTo(fields, values, k - 1) + FieldStream(fields[k - 1], values[k - 1])
  {
  }

  /**
   * Decoding any buffer whose bit stream begins with the stream of `values`
   * recovers the first k `bits` fields modulo 2^w, at bit position BitsTo(k).
   */
  lemma {:induction false} DecodeStream(fields: seq<Field>, values: seq<Value>, k: nat, src: seq<byte>, nested: (nat, seq<byte>) -> nat, init: seq<Value>)
    requires NoBitfield(fields) && Typed(fields, values) && |init| == |fields| && k <= |fields|
    requires TotalBits(fields) <= 8 * |src| && BytesToBits(src)[..TotalBits(fields)] == StreamTo(fields, values, |fields|)
    ensures DecodeTo(fields, k, src, nested, init) == Some(Decoded(TruncatedTo(fields, values, init, k), BitsTo(fields, k)))
  {
    hide TruncatedTo, StreamTo, BytesToBits, FromBits, ToBits;
    if k > 0 {
      DecodeStream(fields, values, k - 1, src, nested, init);
      var p := BitsTo(fields, k - 1);
      var prev := TruncatedTo(fields, values, init, k - 1);
      var next := TruncatedTo(fields, values, init, k);
      assert !fields[k - 1].Bitfield?;
      StreamPrefix(fields, values, k, |fields|);
      if fields[k - 1].Bits? {
        var w := fields[k - 1].width;
        var v := values[k - 1].n;
        var bits := BytesToBits(src);
        var sk := StreamTo(fields, values, k);
        StreamStep(fields, values, k);
        assert sk == StreamTo(fields, values, k - 1) + ToBits(v, w);
        PrefixSlice(bits, TotalBits(fields), sk, p, p + w);
        TailSlice(StreamTo(fields, values, k - 1), ToBits(v, w));
        FromToBits(v, w);
        TruncatedStep(fields, values, init, k);
      } else {
        TruncatedStep(fields, values, init, k);
      }
    } else {
      TruncatedNone(fields, values, init);
    }
  }

  /** Bits p..q of a sequence are bits p..q of any t it begins with. */
  lemma PrefixSlice<T>(s: seq<T>, n: nat, t: seq<T>, p: nat, q: nat)
    requires p <= q <= n <= |s| && s[..n][..q] == t
    ensures s[p..q] == t[p..q]
  {
    assert |t| == q;
    forall i | p <= i < q
      ensures s[i] == t[i]
    {
      assert t[i] == s[..n][..q][i];
    }
  }

  lemma TailSlice<T>(a: seq<T>, b: seq<T>)
    ensures (a + b)[|a|..|a| + |b|] == b
  {
  }

  lemma TruncatedNone(fields: seq<Field>, values: seq<Value>, init: seq<Value>)
    requires Typed(fields, values) && |init| == |fields|
    ensures TruncatedTo(fields, values, init, 0) == init
  {
  }

  /** Field k - 1 is the one TruncatedTo(k) adds to TruncatedTo(k - 1). */
  lemma TruncatedStep(fields: seq<Field>, values: seq<Value>, init: seq<Value>, k: nat)
    requires Typed(fields, values) && |init| == |fields| && 0 < k <= |fields|
    ensures TruncatedTo(fields, values, init, k) ==
      if fields[k - 1].Bits?
      then TruncatedTo(fields, values, init, k - 1)[k - 1 := Num(Low(values[k - 1].n, fields[k - 1].width))]
      else TruncatedTo(fields, values, init, k - 1)
  {
  }

  /**
   * Decoding the encoding of a record into `init` succeeds, consumes the
   * whole encoding, and recovers every `bits` field modulo 2^w; fields without
   * an attribute keep their value from `init`.
   */
  lemma DecodeEncode(fields: seq<Field>, values: seq<Value>, nested: (nat, seq<byte>) -> nat, init: seq<Value>)
    requires Accepted(fields) && NoBitfield(fields) && Typed(fields, values) && |init| == |fields|
    ensures Decode(fields, Encode(fields, values), nested, init) == Some((Truncated(fields, values, init), TotalBits(fields) / 8))
  {
    hide TruncatedTo, StreamTo, BytesToBits, DecodeTo;
    var s := StreamTo(fields, values, |fields|);
    var src := Encode(fields, values);
    BitsBytesBits(s);
    assert BytesToBits(src)[..TotalBits(fields)] == s;
    DecodeStream(fields, values, |fields|, src, nested, init);
  }

  /**
   * The generated code round trip: for a layout without nested structs that
   * the derive accepts, `unpack` of the bytes `pack` appended succeeds,
   * consumes all of them, and leaves each `bits` field equal to the packed
   * value modulo 2^w.
   */
  lemma UnpackPacked(fields: seq<Field>, values: seq<Value>, nested: (nat, seq<byte>) -> nat, init: seq<Value>)
    requires Accepted(fields) && NoBitfield(fields) && Typed(fields, values) && |init| == |fields|
    ensures var code := Walk(fields, |fields|, Init);
      RunUnpack(UnpackState(0, init), code.unpackList, PackBytes(code.packList, values), nested)
      == Some(UnpackState(TotalBits(fields) / 8, Truncated(fields, values, init)))
  {
    hide Walk, RunUnpack, PackBytes, Decode, Encode, Truncated;
    var code := Walk(fields, |fields|, Init);
    PackCorrect(fields, values);
    UnpackCorrect(fields, Encode(fields, values), nested, init);
    DecodeEncode(fields, values, nested, init);
  }

  /**
   * Decoding a buffer that starts with a record's encoding, whatever follows
   * it, gives what decoding the encoding alone gives.
   */
  lemma DecodeEncodePrefix(fields: seq<Field>, values: seq<Value>, src: seq<byte>, nested: (nat, seq<byte>) -> nat, init: seq<Value>)
    requires Accepted(fields) && NoBitfield(fields) && Typed(fields, values) && |init| == |fields|
    requires TotalBits(fields) / 8 <= |src| && src[..TotalBits(fields) / 8] == Encode(fields, values)
    ensures Decode(fields, src, nested, init) == Some((Truncated(fields, values, init), TotalBits(fields) / 8))
  {
    hide TruncatedTo, StreamTo, BytesToBits, DecodeTo;
    var s := StreamTo(fields, values, |fields|);
    var n := TotalBits(fields) / 8;
    assert 8 * n == TotalBits(fields);
    BitsBytesBits(s);
    BytesToBitsPrefix(src, n);
    assert BytesToBits(src)[..TotalBits(fields)] == s;
    DecodeStream(fields, values, |fields|, src, nested, init);
  }

  /**
   * The generated `unpack` of a buffer that begins with what the generated
   * `pack` appends for `values` reads those bytes alone: it returns their
   * count and leaves each `bits` field equal to the packed value modulo 2^w.
   */
  lemma UnpackPackedPrefix(fields: seq<Field>, values: seq<Value>, src: seq<byte>, nested: (nat, seq<byte>) -> nat, init: seq<Value>)
    requires Accepted(fields) && NoBitfield(fields) && Typed(fields, values) && |init| == |fields|
    requires var bytes := PackBytes(Walk(fields, |fields|, Init).packList, values);
      |bytes| <= |src| && src[..|bytes|] == bytes
    ensures RunUnpack(UnpackState(0, init), Walk(fields, |fields|, Init).unpackList, src, nested)
      == Some(UnpackState(TotalBits(fields) / 8, Truncated(fields, values, init)))
  {
    hide Walk, RunUnpack, PackBytes, Decode, Truncated, StreamTo, BitsToBytes;
    PackCorrect(fields, values);
    UnpackCorrect(fields, src, nested, init);
    DecodeEncodePrefix(fields, values, src, nested, init);
  }

  /** Changing a field at or after k leaves the stream of the first k fields as it was. */
  lemma {:induction false} StreamFrame(fields: seq<Field>, values: seq<Value>, k: nat, j: nat, x: Value)
    requires Typed(fields, values) && k <= j < |fields| && (fields[j].Bits? ==> x.Num?)
    ensures Typed(fields, values[j := x]) && StreamTo(fields, values[j := x], k) == StreamTo(fields, values, k)
    decreases k
  {
    if k > 0 {
      StreamFrame(fields, values, k - 1, j, x);
    }
  }

  /**
   * Decoding the first k fields of a buffer long enough for them, into a
   * record whose `bits` fields hold numbers, succeeds, reaches bit BitsTo(k),
   * and leaves a record whose first k fields encode exactly the first BitsTo(k)
   * bits of the buffer.
   */
  lemma {:induction false} DecodeRestream(fields: seq<Field>, k: nat, src: seq<byte>, nested: (nat, seq<byte>) -> nat, init: seq<Value>)
    requires NoBitfield(fields) && Typed(fields, init) && k <= |fields| && TotalBits(fields) <= 8 * |src|
    ensures BitsTo(fields, k) <= TotalBits(fields)
    ensures var r := DecodeTo(fields, k, src, nested, init);
      r.Some? && r.value.pos == BitsTo(fields, k) && Typed(fields, r.value.values) &&
      StreamTo(fields, r.value.values, k) == BytesToBits(src)[..BitsTo(fields, k)]
  {
    hide StreamTo, BytesToBits, FromBits, ToBits;
    BitsToMono(fields, k, |fields|);
    if k > 0 {
      DecodeRestream(fields, k - 1, src, nested, init);
      var d := DecodeTo(fields, k - 1, src, nested, init).value;
      var p := d.pos;
      var bits := BytesToBits(src);
      assert !fields[k - 1].Bitfield?;
      if fields[k - 1].Bits? {
        var w := fields[k - 1].width;
        var x := Num(FromBits(bits[p..p + w]));
        var vals := d.values[k - 1 := x];
        StreamFrame(fields, d.values, k - 1, k - 1, x);
        ToFromBits(bits[p..p + w]);
        StreamStep(fields, vals, k);
        assert StreamTo(fields, vals, k) == StreamTo(fields, vals, k - 1) + ToBits(FromBits(bits[p..p + w]), w);
        assert bits[..p + w] == bits[..p] + bits[p..p + w];
      } else {
        StreamStep(fields, d.values, k);
        assert StreamTo(fields, d.values, k) == StreamTo(fields, d.values, k - 1) + [];
      }
    }
  }

  lemma {:induction false} BitsToMono(fields: seq<Field>, k: nat, j: nat)
    requires k <= j <= |fields|
    ensures BitsTo(fields, k) <= BitsTo(fields, j)
    decreases j
  {
    if k < j {
      BitsToMono(fields, k, j - 1);
    }
  }

  /**
   * Encoding what was decoded from a buffer reproduces the bytes the decoding
   * consumed: the first TotalBits / 8 bytes of the buffer.
   */
  lemma EncodeDecode(fields: seq<Field>, src: seq<byte>, nested: (nat, seq<byte>) -> nat, init: seq<Value>)
    requires Accepted(fields) && NoBitfield(fields) && Typed(fields, init) && TotalBits(fields) <= 8 * |src|
    ensures var r := Decode(fields, src, nested, init);
      r.Some? && r.value.1 == TotalBits(fields) / 8 && Typed(fields, r.value.0) &&
      Encode(fields, r.value.0) == src[..TotalBits(fields) / 8]
  {
    hide StreamTo, BytesToBits, DecodeTo;
    var n := TotalBits(fields) / 8;
    DecodeRestream(fields, |fields|, src, nested, init);
    BytesToBitsPrefix(src, n);
    BytesBitsBytes(src[..n]);
  }

  /**
   * The generated code the other way round: for a layout without nested
   * structs that the derive accepts, `unpack` of a buffer holding at least
   * TotalBits / 8 bytes succeeds and consumes that many, and `pack` of the
   * record it leaves appends exactly those bytes.
   */
  lemma PackUnpacked(fields: seq<Field>, src: seq<byte>, nested: (nat, seq<byte>) -> nat, init: seq<Value>)
    requires Accepted(fields) && NoBitfield(fields) && Typed(fields, init) && TotalBits(fields) <= 8 * |src|
    ensures var code := Walk(fields, |fields|, Init);
      var r := RunUnpack(UnpackState(0, init), code.unpackList, src, nested);
      r.Some? && r.value.offset == TotalBits(fields) / 8 && Typed(fields, r.value.values) &&
      PackBytes(code.packList, r.value.values) == src[..TotalBits(fields) / 8]
  {
    hide Walk, RunUnpack, PackBytes, Decode, Encode;
    EncodeDecode(fields, src, nested, init);
    UnpackCorrect(fields, src, nested, init);
    var r := RunUnpack(UnpackState(0, init), Walk(fields, |fields|, Init).unpackList, src, nested);
    PackCorrect(fields, r.value.values);
  }

  /** Two records whose `bits` fields agree modulo 2^w. */
  predicate SameLowBits(fields: seq<Field>, a: seq<Value>, b: seq<Value>)
    requires Typed(fields, a) && Typed(fields, b)
  {
    forall i :: 0 <= i < |fields| && fields[i].Bits? ==> Low(a[i].n, fields[i].width) == Low(b[i].n, fields[i].width)
  }

  /** The bit streams of two records agree exactly where their `bits` fields agree modulo 2^w. */
  lemma {:induction false} StreamLowBits(fields: seq<Field>, a: seq<Value>, b: seq<Value>, k: nat)
    requires Typed(fields, a) && Typed(fields, b) && k <= |fields| && SameLowBits(fields, a, b)
    ensures StreamTo(fields, a, k) == StreamTo(fields, b, k)
  {
    if k > 0 {
      StreamLowBits(fields, a, b, k - 1);
      if fields[k - 1].Bits? {
        ToBitsLow(a[k - 1].n, fields[k - 1].width);
        ToBitsLow(b[k - 1].n, fields[k - 1].width);
      }
    }
  }

  /**
   * Pack depends on each `bits` field only modulo 2^w, and for a layout
   * without nested structs it tells apart any two records that differ there.
   */
  lemma PackModulo(fields: seq<Field>, a: seq<Value>, b: seq<Value>)
    requires Accepted(fields) && Typed(fields, a) && Typed(fields, b)
    ensures SameLowBits(fields, a, b) ==> Encode(fields, a) == Encode(fields, b)
    ensures NoBitfield(fields) && Encode(fields, a) == Encode(fields, b) ==> SameLowBits(fields, a, b)
  {
    if SameLowBits(fields, a, b) {
      StreamLowBits(fields, a, b, |fields|);
    }
    if NoBitfield(fields) && Encode(fields, a) == Encode(fields, b) {
      var nested := (f: nat, s: seq<byte>) => 0;
      DecodeEncode(fields, a, nested, a);
      DecodeEncode(fields, b, nested, a);
      forall i | 0 <= i < |fields| && fields[i].Bits?
        ensures Low(a[i].n, fields[i].width) == Low(b[i].n, fields[i].width)
      {
        assert Truncated(fields, a, a)[i] == Truncated(fields, b, a)[i];
      }
    }
  }

  /** The reference decoding leaves every field without an attribute as it was. */
  lemma {:induction false} DecodeKeepsPlain(fields: seq<Field>, k: nat, src: seq<byte>, nested: (nat, seq<byte>) -> nat, init: seq<Value>, i: nat)
    requires k <= |fields| && |init| == |fields| && i < |fields| && fields[i].Plain?
    ensures DecodeTo(fields, k, src, nested, init).Some? ==> DecodeTo(fields, k, src, nested, init).value.values[i] == init[i]
  {
    hide BytesToBits, FromBits;
    if k > 0 {
      DecodeKeepsPlain(fields, k - 1, src, nested, init, i);
    }
  }

  /** The generated `unpack` leaves every field without an attribute as it was. */
  lemma UnpackKeepsPlain(fields: seq<Field>, src: seq<byte>, nested: (nat, seq<byte>) -> nat, init: seq<Value>, i: nat)
    requires Accepted(fields) && |init| == |fields| && i < |fields| && fields[i].Plain?
    ensures var r := RunUnpack(UnpackState(0, init), Walk(fields, |fields|, Init).unpackList, src, nested);
      r.Some? ==> i < |r.value.values| && r.value.values[i] == init[i]
  {
    hide Walk, RunUnpack, DecodeTo;
    UnpackCorrect(fields, src, nested, init);
    DecodeKeepsPlain(fields, |fields|, src, nested, init, i);
  }

  /**
   * Without nested structs the reference decoding fails exactly when the
   * buffer holds fewer bits than the fields, and otherwise ends at their total.
   */
  lemma {:induction false} DecodeLength(fields: seq<Field>, k: nat, src: seq<byte>, nested: (nat, seq<byte>) -> nat, init: seq<Value>)
    requires NoBitfield(fields) && k <= |fields| && |init| == |fields|
    ensures var r := DecodeTo(fields, k, src, nested, init);
      (r.Some? <==> BitsTo(fields, k) <= 8 * |src|) && (r.Some? ==> r.value.pos == BitsTo(fields, k))
  {
    hide BytesToBits, FromBits;
    if k > 0 {
      DecodeLength(fields, k - 1, src, nested, init);
      assert !fields[k - 1].Bitfield?;
    }
  }

  /**
   * For a layout without nested structs that the derive accepts, the
   * generated `unpack` panics exactly when `src` is shorter than the fields'
   * total width, and otherwise returns that width in bytes.
   */
  lemma UnpackShort(fields: seq<Field>, src: seq<byte>, nested: (nat, seq<byte>) -> nat, init: seq<Value>)
    requires Accepted(fields) && NoBitfield(fields) && |init| == |fields|
    ensures var r := RunUnpack(UnpackState(0, init), Walk(fields, |fields|, Init).unpackList, src, nested);
      (r.None? <==> 8 * |src| < TotalBits(fields)) && (r.Some? ==> r.value.offset == TotalBits(fields) / 8)
  {
    hide Walk, RunUnpack, DecodeTo;
    UnpackCorrect(fields, src, nested, init);
    DecodeLength(fields, |fields|, src, nested, init);
  }
}
