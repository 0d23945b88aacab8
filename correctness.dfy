/**
 * The generated code against the reference meaning of a layout: for every
 * layout the derive accepts, the `pack` it emits appends exactly the bytes of
 * the record's bit stream, and the `unpack` it emits reads the same stream
 * back, failing exactly where the stream runs past the end of the source.
 */
module Correctness {
  import opened BitOps
  import opened Bitstream
  import opened Schema
  import opened Derive
  import opened Generated

  // ---------------------------------------------------------------------------
  // pack
  // ---------------------------------------------------------------------------

  /** The bits `pending` of the byte being filled sit at the top of the accumulator, the rest of it clear. */
  predicate Pending(acc: nat, pending: seq<bool>)
  {
    |pending| < 8 && acc == Shl(FromBits(pending), 8 - |pending|)
  }

  /**
   * Pack has placed the bit string s: the whole bytes of s follow `dst` in the
   * output, and the bits after the last whole byte wait in the accumulator.
   */
  predicate Packed(st: PackState, dst: seq<byte>, s: seq<bool>)
  {
    var n := |s| / 8 * 8;
    st.out == dst + BitsToBytes(s[..n]) && (|s| % 8 != 0 ==> Pending(st.acc, s[n..]))
  }

  /** Whole bytes already pushed can be counted as part of the placed bit string. */
  lemma PackedPrefix(st: PackState, dst: seq<byte>, a: seq<bool>, b: seq<bool>)
    requires |a| % 8 == 0 && Packed(st, dst + BitsToBytes(a), b)
    ensures Packed(st, dst, a + b)
  {
    hide BitsToBytes, FromBits, Shl, Pending;
    var nb := |b| / 8 * 8;
    var n := |a + b| / 8 * 8;
    WholeBytesShift(|a| / 8, |b|);
    assert n == |a| + nb && |a + b| % 8 == |b| % 8;
    assert (a + b)[..n] == a + b[..nb];
    assert (a + b)[n..] == b[nb..];
    BitsToBytesAppend(a, b[..nb]);
    AppendAssoc(dst, BitsToBytes(a), BitsToBytes(b[..nb]));
  }

  lemma WholeBytesShift(q: nat, m: nat)
    ensures (8 * q + m) / 8 * 8 == 8 * q + m / 8 * 8 && (8 * q + m) % 8 == m % 8
  {
  }

  /** Three pack statements in a row. */
  lemma RunPack3(st: PackState, a: PackOp, b: PackOp, c: PackOp, values: seq<Value>)
    ensures RunPack(st, [a, b, c], values) == PackStep(PackStep(PackStep(st, a, values), b, values), c, values)
  {
    RunPackAppend(st, [a], [b, c], values);
    RunPack2(PackStep(st, a, values), b, c, values);
    assert [a] + [b, c] == [a, b, c];
    RunPackOne(st, a, values);
  }

  /** Two pack statements in a row. */
  lemma RunPack2(st: PackState, a: PackOp, b: PackOp, values: seq<Value>)
    ensures RunPack(st, [a, b], values) == PackStep(PackStep(st, a, values), b, values)
  {
    RunPackAppend(st, [a], [b], values);
    assert [a] + [b] == [a, b];
    RunPackOne(st, a, values);
    RunPackOne(PackStep(st, a, values), b, values);
  }

  /** One pack statement. */
  lemma RunPackOne(st: PackState, a: PackOp, values: seq<Value>)
    ensures RunPack(st, [a], values) == PackStep(st, a, values)
  {
    assert [a][1..] == [];
  }

  /**
   * `let b = b | (((self.f >> shift) as u8) & mask)` with `mask` the `free` low
   * ones completes the byte: the pending bits followed by the top `free` of the
   * field's `rem` remaining bits.
   */
  lemma OrHighFills(acc: byte, pending: seq<bool>, v: nat, rem: nat)
    requires Pending(acc, pending) && 8 - |pending| < rem
    ensures var free := 8 - |pending|;
      OrU8(acc, AndU8(AsU8(Shr(v, rem - free)), LowMask(free))) == FromBits(pending + ToBits(Shr(v, rem - free), free))
  {
    hide BitOr, Shl, Low, FromBits, ToBits, AndU8, AsU8, LowMask, ShlU8, Pow2, Shr;
    var free := 8 - |pending|;
    var y := Low(Shr(v, rem - free), free);
    MaskOfU8(Shr(v, rem - free), free);
    OrShifted(FromBits(pending), free, y);
    FromBitsAppend(pending, ToBits(Shr(v, rem - free), free));
    FromToBits(Shr(v, rem - free), free);
  }

  /**
   * `let b = b | (((self.f as u8) & mask) << shift)` places the field's last
   * `rem` bits right after the pending ones, `shift` bits still free below them.
   */
  lemma OrLowShlPlaces(acc: byte, pending: seq<bool>, v: nat, rem: nat)
    requires Pending(acc, pending) && 1 <= rem < 8 - |pending|
    ensures var s := 8 - |pending| - rem;
      OrU8(acc, ShlU8(AndU8(AsU8(v), LowMask(rem)), s)) == Shl(FromBits(pending + ToBits(v, rem)), s)
  {
    hide BitOr, Shl, Low, FromBits, ToBits, AndU8, AsU8, LowMask, ShlU8, Pow2, Shr;
    var free := 8 - |pending|;
    var s := free - rem;
    var p := FromBits(pending);
    var y := Low(v, rem);
    MaskOfU8(v, rem);
    ShlU8Fits(y, rem, s);
    ShlBelow(y, rem, s);
    OrShifted(p, free, Shl(y, s));
    FromBitsAppend(pending, ToBits(v, rem));
    FromToBits(v, rem);
    ShlAdd(Shl(p, rem), y, s);
    ShlShl(p, rem, s);
  }

  /** `let b = b | ((self.f as u8) & mask)` completes the byte with the field's last `rem` bits. */
  lemma OrLowCompletes(acc: byte, pending: seq<bool>, v: nat, rem: nat)
    requires Pending(acc, pending) && 1 <= rem == 8 - |pending|
    ensures OrU8(acc, AndU8(AsU8(v), LowMask(rem))) == FromBits(pending + ToBits(v, rem))
  {
    hide BitOr, Shl, Low, FromBits, ToBits, AndU8, AsU8, LowMask, ShlU8, Pow2, Shr;
    var y := Low(v, rem);
    MaskOfU8(v, rem);
    OrShifted(FromBits(pending), rem, y);
    FromBitsAppend(pending, ToBits(v, rem));
    FromToBits(v, rem);
  }

  /**
   * The statements `build_field_bits` emits for the `rem` bits of field k that
   * remain, with pending bits in the accumulator, place exactly those bits
   * after the pending ones: every byte they complete is pushed, and what is
   * left over waits in the accumulator.
   */
  lemma {:induction false} PackSlicesPlace(k: nat, rem: nat, values: seq<Value>, st: PackState, pending: seq<bool>)
    requires rem >= 1 && k < |values| && values[k].Num?
    requires Pending(st.acc, pending)
    ensures Packed(RunPack(st, PackSlices(k, rem, 8 - |pending|), values), st.out, pending + ToBits(values[k].n, rem))
    decreases rem, 1
  {
    hide *;
    var free := 8 - |pending|;
    if rem > free {
      SlicesFill(k, rem, values, st, pending);
    } else if rem < free {
      SliceShl(k, rem, values, st, pending);
    } else {
      SliceComplete(k, rem, values, st, pending);
    }
  }

  /** A part that runs past the current byte: fill the byte, push it, and place the rest from a fresh byte. */
  lemma {:induction false} SlicesFill(k: nat, rem: nat, values: seq<Value>, st: PackState, pending: seq<bool>)
    requires rem >= 1 && k < |values| && values[k].Num?
    requires Pending(st.acc, pending) && rem > 8 - |pending|
    ensures Packed(RunPack(st, PackSlices(k, rem, 8 - |pending|), values), st.out, pending + ToBits(values[k].n, rem))
    decreases rem, 0
  {
    hide PackSlices, RunPack, PackStep, BitsToBytes, FromBits, ToBits, Shl, Shr, OrU8, AndU8, AsU8, ShlU8, LowMask, Packed, BitAnd, BitOr;
    var free := 8 - |pending|;
    var v := values[k].n;
    var head := ToBits(Shr(v, rem - free), free);
    var tail := ToBits(v, rem - free);
    var st3 := FillByte(k, rem, values, st, pending);
    var r := RunPack(st3, PackSlices(k, rem - free, 8), values);
    assert Packed(r, st3.out, tail) by {
      ShlZero(8);
      PendingNone(st3.acc);
      PackSlicesPlace(k, rem - free, values, st3, []);
      assert [] + tail == tail;
    }
    PackedPrefix(r, st.out, pending + head, tail);
    assert pending + ToBits(v, rem) == (pending + head) + tail by {
      ToBitsSplit(v, rem, rem - free);
    }
  }

  /**
   * The first three statements of a part that runs past the current byte:
   * the byte is filled and pushed, and `b` starts again from 0.
   */
  lemma FillByte(k: nat, rem: nat, values: seq<Value>, st: PackState, pending: seq<bool>) returns (st3: PackState)
    requires k < |values| && values[k].Num?
    requires Pending(st.acc, pending) && rem > 8 - |pending|
    ensures var free := 8 - |pending|;
      RunPack(st, PackSlices(k, rem, free), values) == RunPack(st3, PackSlices(k, rem - free, 8), values)
    ensures st3.out == st.out + BitsToBytes(pending + ToBits(Shr(values[k].n, rem - (8 - |pending|)), 8 - |pending|))
    ensures st3.acc == 0
  {
    hide PackSlices, RunPack, PackStep, BitsToBytes, FromBits, ToBits, Shl, Shr, OrU8, AndU8, AsU8, ShlU8, LowMask, Packed, BitAnd, BitOr;
    var free := 8 - |pending|;
    SliceMore(k, rem, free);
    var a, b, c := OrHigh(k, rem - free, LowMask(free)), Push, ClearAcc;
    var st1 := PackStep(st, a, values);
    var st2 := PackStep(st1, b, values);
    st3 := PackStep(st2, c, values);
    var head := ToBits(Shr(values[k].n, rem - free), free);
    RunPackAppend(st, [a, b, c], PackSlices(k, rem - free, 8), values);
    RunPack3(st, a, b, c, values);
    OrHighStep(k, rem, values, st, pending);
    BitsToBytesOne(pending + head);
  }

  /** `b |= ((f >> shift) as u8) & mask` as a pack statement: the pending byte is full, `dst` as it was. */
  lemma OrHighStep(k: nat, rem: nat, values: seq<Value>, st: PackState, pending: seq<bool>)
    requires k < |values| && values[k].Num? && Pending(st.acc, pending) && rem > 8 - |pending|
    ensures var free := 8 - |pending|;
      var st1 := PackStep(st, OrHigh(k, rem - free, LowMask(free)), values);
      st1.out == st.out && st1.acc == FromBits(pending + ToBits(Shr(values[k].n, rem - free), free))
  {
    hide BitsToBytes, FromBits, ToBits, Shl, Shr, OrU8, AndU8, AsU8, ShlU8, LowMask, BitAnd, BitOr;
    assert NumAt(values, k) == values[k].n;
    OrHighFills(st.acc, pending, values[k].n, rem);
  }

  lemma PendingNone(acc: nat)
    requires acc == 0 && Shl(0, 8) == 0
    ensures Pending(acc, [])
  {
  }

  /** The last part of a field, leaving bits of the byte free: `b |= ((f as u8) & mask) << shift`. */
  lemma SliceShl(k: nat, rem: nat, values: seq<Value>, st: PackState, pending: seq<bool>)
    requires rem >= 1 && k < |values| && values[k].Num?
    requires Pending(st.acc, pending) && rem < 8 - |pending|
    ensures Packed(RunPack(st, PackSlices(k, rem, 8 - |pending|), values), st.out, pending + ToBits(values[k].n, rem))
  {
    hide PackSlices, RunPack, BitsToBytes, FromBits, ToBits, Shl, Shr, OrU8, AndU8, AsU8, ShlU8, LowMask, Packed, Pending;
    var free := 8 - |pending|;
    var v := values[k].n;
    var all := pending + ToBits(v, rem);
    assert NumAt(values, k) == v;
    SliceLast(k, rem, free);
    var op := OrLowShl(k, LowMask(rem), free - rem);
    RunPackOne(st, op, values);
    OrLowShlPlaces(st.acc, pending, v, rem);
    PackedPartial(PackStep(st, op, values), st.out, all);
  }

  /** Fewer than eight bits placed: nothing pushed, all of them in the accumulator. */
  lemma PackedPartial(st: PackState, dst: seq<byte>, s: seq<bool>)
    requires 1 <= |s| < 8 && st.out == dst && st.acc == Shl(FromBits(s), 8 - |s|)
    ensures Packed(st, dst, s)
  {
    hide FromBits, Shl;
    assert s[..0] == [] && s[0..] == s;
    assert BitsToBytes([]) == [];
  }

  /** The last part of a field, completing the byte: `b |= (f as u8) & mask`, then `dst.push(b)`. */
  lemma SliceComplete(k: nat, rem: nat, values: seq<Value>, st: PackState, pending: seq<bool>)
    requires rem >= 1 && k < |values| && values[k].Num?
    requires Pending(st.acc, pending) && rem == 8 - |pending|
    ensures Packed(RunPack(st, PackSlices(k, rem, 8 - |pending|), values), st.out, pending + ToBits(values[k].n, rem))
  {
    hide PackSlices, RunPack, BitsToBytes, FromBits, ToBits, Shl, Shr, OrU8, AndU8, AsU8, ShlU8, LowMask, Packed, Pending;
    var free := 8 - |pending|;
    var v := values[k].n;
    var all := pending + ToBits(v, rem);
    assert NumAt(values, k) == v;
    SliceLast(k, rem, free);
    RunPack2(st, OrLow(k, LowMask(rem)), Push, values);
    OrLowCompletes(st.acc, pending, v, rem);
    PackedByte(RunPack(st, PackSlices(k, rem, free), values), st.out, all);
  }

  /** Eight bits placed: one byte pushed. */
  lemma PackedByte(st: PackState, dst: seq<byte>, s: seq<bool>)
    requires |s| == 8 && st.out == dst + [FromBits(s)]
    ensures Packed(st, dst, s)
  {
    hide FromBits, Shl;
    BitsToBytesOne(s);
    assert s[..8] == s;
  }

  /**
   * The statements `build_field` emits for field k, run when the bits S of the
   * fields before it have been placed, place the field's own bits after S.
   * The counter they were generated with is 8 - |S| % 8.
   */
  lemma FieldPlace(f: Field, k: nat, values: seq<Value>, st: PackState, dst: seq<byte>, s: seq<bool>)
    requires k < |values| && (f.Bits? ==> f.width >= 1 && values[k].Num?)
    requires Packed(st, dst, s)
    ensures Packed(RunPack(st, FieldPackCode(f, k, 8 - |s| % 8), values), dst, s + FieldStream(f, values[k]))
  {
    hide PackSlices, RunPack, Packed, FieldPack;
    if f.Bits? {
      if |s| % 8 == 0 {
        BitsPlaceFresh(f.width, k, values, st, dst, s);
      } else {
        BitsPlaceMid(f.width, k, values, st, dst, s);
      }
    } else {
      RunPackNone(st, values);
      assert s + FieldStream(f, values[k]) == s;
    }
  }

  /** A `bits` field that starts a byte: `let b = 0;`, then its slices. */
  lemma BitsPlaceFresh(w: nat, k: nat, values: seq<Value>, st: PackState, dst: seq<byte>, s: seq<bool>)
    requires w >= 1 && k < |values| && values[k].Num?
    requires Packed(st, dst, s) && |s| % 8 == 0
    ensures Packed(RunPack(st, FieldPack(k, w, 8), values), dst, s + ToBits(values[k].n, w))
  {
    hide PackSlices, RunPack, BitsToBytes, FromBits, ToBits, Shl;
    var tb := ToBits(values[k].n, w);
    RunPackAppend(st, [ClearAcc], PackSlices(k, w, 8), values);
    RunPackOne(st, ClearAcc, values);
    ShlZero(8);
    PackSlicesPlace(k, w, values, st.(acc := 0), []);
    assert [] + tb == tb;
    assert s[..|s| / 8 * 8] == s;
    PackedPrefix(RunPack(st.(acc := 0), PackSlices(k, w, 8), values), dst, s, tb);
  }

  /** A `bits` field that starts inside a byte: its slices go on from the pending bits. */
  lemma BitsPlaceMid(w: nat, k: nat, values: seq<Value>, st: PackState, dst: seq<byte>, s: seq<bool>)
    requires w >= 1 && k < |values| && values[k].Num?
    requires Packed(st, dst, s) && |s| % 8 != 0
    ensures Packed(RunPack(st, FieldPack(k, w, 8 - |s| % 8), values), dst, s + ToBits(values[k].n, w))
  {
    hide PackSlices, RunPack, BitsToBytes, FromBits, ToBits, Shl;
    var free := 8 - |s| % 8;
    var tb := ToBits(values[k].n, w);
    var n := |s| / 8 * 8;
    var pending := s[n..];
    assert FieldPack(k, w, free) == PackSlices(k, w, free);
    PackSlicesPlace(k, w, values, st, pending);
    PackedPrefix(RunPack(st, PackSlices(k, w, free), values), dst, s[..n], pending + tb);
    assert s + tb == s[..n] + (pending + tb);
  }

  /** Nothing placed: nothing output. */
  lemma PackedEmpty(st: PackState)
    requires st.out == []
    ensures Packed(st, [], [])
  {
    var e: seq<bool> := [];
    assert e[..0] == e;
  }

  /** After the statements for the first k fields, pack has placed the bit stream of those fields. */
  lemma {:induction false} PackWalk(fields: seq<Field>, values: seq<Value>, k: nat)
    requires WellFormed(fields) && Typed(fields, values) && k <= |fields|
    ensures Packed(RunPack(PackState(0, []), Walk(fields, k, Init).packList, values), [], StreamTo(fields, values, k))
  {
    hide FieldPackCode, FieldUnpackCode, RunPack, Packed;
    if k == 0 {
      RunPackNone(PackState(0, []), values);
      PackedEmpty(PackState(0, []));
    } else {
      var m := Walk(fields, k - 1, Init);
      var f := fields[k - 1];
      var before := RunPack(PackState(0, []), m.packList, values);
      PackWalk(fields, values, k - 1);
      BitsAt(fields, k - 1, Init);
      RunPackAppend(PackState(0, []), m.packList, FieldPackCode(f, k - 1, m.bits), values);
      FieldPlace(f, k - 1, values, before, [], StreamTo(fields, values, k - 1));
    }
  }

  /** No statements: nothing changes. */
  lemma RunPackNone(st: PackState, values: seq<Value>)
    ensures RunPack(st, [], values) == st
  {
  }

  /** Once a whole number of bytes is placed, the output holds all of them. */
  lemma PackedWhole(st: PackState, s: seq<bool>)
    requires |s| % 8 == 0 && Packed(st, [], s)
    ensures st.out == BitsToBytes(s)
  {
    hide BitsToBytes, FromBits, Shl, Pending;
    assert |s| / 8 * 8 == |s|;
    assert s[..|s|] == s;
  }

  /**
   * For every layout the derive accepts and every record of its shape, the
   * bytes the generated `pack` appends are the record's bit stream cut into
   * bytes, most significant bit first.
   */
  lemma PackCorrect(fields: seq<Field>, values: seq<Value>)
    requires Accepted(fields) && Typed(fields, values)
    ensures PackBytes(Walk(fields, |fields|, Init).packList, values) == Encode(fields, values)
  {
    hide RunPack, Walk, BitsToBytes, StreamTo, Packed, FromBits, ToBits, Shl;
    var s := StreamTo(fields, values, |fields|);
    PackWalk(fields, values, |fields|);
    PackedWhole(RunPack(PackState(0, []), Walk(fields, |fields|, Init).packList, values), s);
  }

  // ---------------------------------------------------------------------------
  // unpack
  // ---------------------------------------------------------------------------

  /** Bits a..b of byte o of src, as a number, are the stream bits 8o+a..8o+b. */
  lemma ByteBits(src: seq<byte>, o: nat, a: nat, b: nat)
    requires o < |src| && a <= b <= 8
    ensures Low(Shr(src[o], 8 - b), b - a) == FromBits(BytesToBits(src)[8 * o + a..8 * o + b])
  {
    BitsOfByte(src, o, a, b);
    SliceValue(src[o], 8, a, b);
  }

  /**
   * `((src[o] >> shift) & mask)` with `mask` the `rem` low ones, `a` bits of
   * byte o already read and `shift` = 8 - a - rem, reads the next `rem`
   * stream bits.
   */
  lemma ReadByte(src: seq<byte>, o: nat, a: nat, rem: nat)
    requires o < |src| && a + rem <= 8
    ensures BitAnd(Shr(src[o], 8 - a - rem), LowMask(rem)) == FromBits(BytesToBits(src)[8 * o + a..8 * o + a + rem])
  {
    hide *;
    AndLowMask(Shr(src[o], 8 - a - rem), rem);
    ByteBits(src, o, a, a + rem);
  }

  lemma ShrZero(x: nat)
    ensures Shr(x, 0) == x
  {
  }

  /**
   * The operands `build_field_bits` emits for the `rem` bits of a field that
   * remain, starting at stream bit pos (byte pos / 8, 8 - pos % 8 bits of it
   * unread), with the bits `read` already ORed into `acc` above them: they
   * read exactly the next `rem` stream bits, and index past the end of `src`
   * exactly when those run past it.  The offset they leave is the byte
   * holding the field's last bit.
   */
  lemma {:induction false} TermsRead(rem: nat, src: seq<byte>, pos: nat, acc: nat, read: seq<bool>)
    requires rem >= 1 && acc == Shl(FromBits(read), rem)
    ensures var r := EvalTerms(UnpackTerms(rem, 8 - pos % 8), src, pos / 8, acc);
      (r.Some? <==> pos + rem <= 8 * |src|) &&
      (pos + rem <= 8 * |src| ==> r.value == (FromBits(read + BytesToBits(src)[pos..pos + rem]), (pos + rem - 1) / 8))
    decreases rem
  {
    hide UnpackTerms, BitOr, BitAnd, Shl, Shr, FromBits, BytesToBits, LowMask, Takes;
    var free := 8 - pos % 8;
    var o := pos / 8;
    var terms := UnpackTerms(rem, free);
    var bits := BytesToBits(src);
    if rem > free {
      SliceMore(0, rem, free);
      assert terms[0] == TakeByte(LowMask(free), rem - free) && terms[1..] == UnpackTerms(rem - free, 8);
      if o < |src| {
        var chunk := bits[pos..pos + free];
        TakeStep(src, pos, read, rem);
        TermsRead(rem - free, src, pos + free, Shl(FromBits(read + chunk), rem - free), read + chunk);
        assert (pos + free) / 8 == o + 1 && (pos + free) % 8 == 0;
        if pos + rem <= 8 * |src| {
          assert bits[pos..pos + rem] == chunk + bits[pos + free..pos + rem];
          AppendAssoc(read, chunk, bits[pos + free..pos + rem]);
        }
      }
    } else {
      SliceLast(0, rem, free);
      var t := if free - rem != 0 then LastShr(free - rem, LowMask(rem)) else Last(LowMask(rem));
      assert terms[0] == t && terms[1..] == [];
      if o < |src| {
        LastStep(src, pos, read, rem);
        ShrZero(src[o]);
      }
    }
  }

  /** One `TakeByte` operand: the rest of the current byte joins the bits read, `rem - free` bits still to come below them. */
  lemma TakeStep(src: seq<byte>, pos: nat, read: seq<bool>, rem: nat)
    requires 8 - pos % 8 < rem && pos / 8 < |src|
    ensures var free := 8 - pos % 8;
      BitOr(Shl(FromBits(read), rem), Shl(BitAnd(src[pos / 8], LowMask(free)), rem - free))
      == Shl(FromBits(read + BytesToBits(src)[pos..pos + free]), rem - free)
  {
    hide *;
    var free := 8 - pos % 8;
    var o := pos / 8;
    var a := pos % 8;
    assert pos == 8 * o + a && pos + free == 8 * o + a + free;
    var chunk := BytesToBits(src)[pos..pos + free];
    var c := FromBits(chunk);
    var r0 := FromBits(read);
    ReadByte(src, o, a, free);
    ShrZero(src[o]);
    assert BitAnd(src[o], LowMask(free)) == c;
    ShlShl(r0, free, rem - free);
    OrShl(Shl(r0, free), c, rem - free);
    OrShifted(r0, free, c);
    FromBitsAppend(read, chunk);
  }

  /** The last operand of an assignment: the field's last `rem` bits join the bits read. */
  lemma LastStep(src: seq<byte>, pos: nat, read: seq<bool>, rem: nat)
    requires 1 <= rem <= 8 - pos % 8 && pos / 8 < |src|
    ensures var free := 8 - pos % 8;
      BitOr(Shl(FromBits(read), rem), BitAnd(Shr(src[pos / 8], free - rem), LowMask(rem)))
      == FromBits(read + BytesToBits(src)[pos..pos + rem])
  {
    hide *;
    var free := 8 - pos % 8;
    var o := pos / 8;
    var a := pos % 8;
    assert pos == 8 * o + a && free - rem == 8 - a - rem;
    var chunk := BytesToBits(src)[pos..pos + rem];
    ReadByte(src, o, a, rem);
    OrShifted(FromBits(read), rem, FromBits(chunk));
    FromBitsAppend(read, chunk);
  }

  /** The state of the generated `unpack` matches a reference decoding: same fields, offset at the byte holding the position. */
  predicate Tracks(st: UnpackState, d: Decoded)
  {
    st.values == d.values && st.offset == d.pos / 8
  }

  /** The generated `unpack` panics exactly where the reference decoding fails, and otherwise matches it. */
  predicate Agree(r: Option<UnpackState>, e: Option<Decoded>)
  {
    (r.Some? <==> e.Some?) && (r.Some? ==> Tracks(r.value, e.value))
  }

  /** One unpack statement. */
  lemma RunUnpackOne(st: UnpackState, op: UnpackOp, src: seq<byte>, nested: (nat, seq<byte>) -> nat)
    ensures RunUnpack(st, [op], src, nested) == UnpackStep(st, op, src, nested)
  {
    assert [op][1..] == [];
  }

  /** No statements: nothing changes. */
  lemma RunUnpackNone(st: UnpackState, src: seq<byte>, nested: (nat, seq<byte>) -> nat)
    ensures RunUnpack(st, [], src, nested) == Some(st)
  {
  }

  /** `src.len() >= (w + 7) / 8 + offset` holds exactly when w bits from byte `offset` on fit in `src`. */
  lemma CeilBytes(w: nat, o: nat, n: nat)
    ensures (n >= (w + 7) / 8 + o) <==> (8 * o + w <= 8 * n)
  {
  }

  /** The offset after a field's last operand, moved on by `offset += 1` when the field ends a byte. */
  lemma OffsetAfter(pos: nat, w: nat)
    requires w >= 1
    ensures (pos + w - 1) / 8 + (if (pos + w) % 8 == 0 then 1 else 0) == (pos + w) / 8
  {
  }

  /**
   * The assignment `self.f = ...` of a w-bit field and the `offset += 1` that
   * may follow it read the next w bits of the stream into field k, or panic
   * exactly when those run past the end of `src`.
   */
  lemma AssignRead(w: nat, k: nat, src: seq<byte>, nested: (nat, seq<byte>) -> nat, st: UnpackState, d: Decoded)
    requires w >= 1 && k < |d.values| && Tracks(st, d)
    ensures var free := 8 - d.pos % 8;
      Agree(RunUnpack(st, [SetField(k, UnpackTerms(w, free))] + (if NextFree(free, w) == 8 then [Advance] else []), src, nested),
            DecodeField(Bits(w), k, d, src, nested))
  {
    hide UnpackTerms, EvalTerms, RunUnpack, FromBits, BytesToBits, Shl;
    var pos := d.pos;
    var free := 8 - pos % 8;
    var assign := SetField(k, UnpackTerms(w, free));
    var post := if NextFree(free, w) == 8 then [Advance] else [];
    RunUnpackAppend(st, [assign], post, src, nested);
    RunUnpackOne(st, assign, src, nested);
    ShlZero(w);
    assert FromBits([]) == 0 by {
      FromBitsEmpty();
    }
    TermsRead(w, src, pos, 0, []);
    if pos + w <= 8 * |src| {
      var slice := BytesToBits(src)[pos..pos + w];
      var mid := UnpackState((pos + w - 1) / 8, st.values[k := Num(FromBits(slice))]);
      assert [] + slice == slice;
      assert RunUnpack(st, [assign], src, nested) == Some(mid);
      ModSum(pos, w);
      OffsetAfter(pos, w);
      if NextFree(free, w) == 8 {
        RunUnpackOne(mid, Advance, src, nested);
      } else {
        RunUnpackNone(mid, src, nested);
      }
    }
  }

  lemma FromBitsEmpty()
    ensures FromBits([]) == 0
  {
  }

  /** The statements of a w-bit field, `debug_assert!` included when it starts a byte. */
  lemma BitsRead(w: nat, k: nat, src: seq<byte>, nested: (nat, seq<byte>) -> nat, st: UnpackState, d: Decoded)
    requires w >= 1 && k < |d.values| && Tracks(st, d)
    ensures Agree(RunUnpack(st, FieldUnpack(k, w, 8 - d.pos % 8), src, nested), DecodeField(Bits(w), k, d, src, nested))
  {
    hide UnpackTerms, RunUnpack;
    var free := 8 - d.pos % 8;
    var rest := [SetField(k, UnpackTerms(w, free))] + (if NextFree(free, w) == 8 then [Advance] else []);
    AssignRead(w, k, src, nested, st, d);
    if free == 8 {
      assert FieldUnpack(k, w, free) == [CheckLen(w)] + rest;
      RunUnpackAppend(st, [CheckLen(w)], rest, src, nested);
      RunUnpackOne(st, CheckLen(w), src, nested);
      assert d.pos == 8 * st.offset;
      CeilBytes(w, st.offset, |src|);
    } else {
      assert FieldUnpack(k, w, free) == rest;
    }
  }

  /**
   * The statements `build_field` emits for field k, with the counter at
   * 8 - pos % 8, do what the reference decoding of that field does, and
   * panic exactly where it fails.
   */
  lemma FieldRead(f: Field, k: nat, src: seq<byte>, nested: (nat, seq<byte>) -> nat, st: UnpackState, d: Decoded)
    requires (f.Bits? ==> f.width >= 1) && k < |d.values| && Tracks(st, d)
    ensures Agree(RunUnpack(st, FieldUnpackCode(f, k, 8 - d.pos % 8), src, nested), DecodeField(f, k, d, src, nested))
  {
    hide FieldUnpack, RunUnpack;
    match f
    case Bits(w) =>
      BitsRead(w, k, src, nested, st, d);
    case Bitfield =>
      RunUnpackOne(st, UnpackNested(k), src, nested);
      if d.pos / 8 <= |src| {
        NestedOffset(d.pos, nested(k, src[d.pos / 8..]));
      }
    case Plain =>
      RunUnpackNone(st, src, nested);
  }

  /** `offset += self.f.unpack(..)`: moving on n bytes moves the bit position on 8n. */
  lemma NestedOffset(pos: nat, n: nat)
    ensures (pos + 8 * n) / 8 == pos / 8 + n && (pos + 8 * n) % 8 == pos % 8
  {
  }

  /**
   * The unpack statements for the first k fields, run from offset 0 on the
   * record `init`, panic exactly where the reference decoding of those fields
   * fails, and otherwise leave the same fields and the offset of the byte
   * holding the bit position reached, which is BitsTo(k) modulo 8.
   */
  lemma {:induction false} UnpackWalk(fields: seq<Field>, k: nat, src: seq<byte>, nested: (nat, seq<byte>) -> nat, init: seq<Value>)
    requires WellFormed(fields) && k <= |fields| && |init| == |fields|
    ensures Agree(RunUnpack(UnpackState(0, init), Walk(fields, k, Init).unpackList, src, nested), DecodeTo(fields, k, src, nested, init))
    ensures DecodeTo(fields, k, src, nested, init).Some? ==> DecodeTo(fields, k, src, nested, init).value.pos % 8 == BitsTo(fields, k) % 8
  {
    hide FieldPackCode, FieldUnpackCode, RunUnpack, DecodeField, Agree;
    var st0 := UnpackState(0, init);
    if k == 0 {
      RunUnpackNone(st0, src, nested);
      assert Agree(Some(st0), Some(Decoded(init, 0))) by {
        AgreeSome(st0, Decoded(init, 0));
      }
    } else {
      var m := Walk(fields, k - 1, Init);
      var f := fields[k - 1];
      var code := FieldUnpackCode(f, k - 1, m.bits);
      UnpackWalk(fields, k - 1, src, nested, init);
      BitsAt(fields, k - 1, Init);
      RunUnpackAppend(st0, m.unpackList, code, src, nested);
      var before := RunUnpack(st0, m.unpackList, src, nested);
      var e := DecodeTo(fields, k - 1, src, nested, init);
      AgreeCases(before, e);
      if e.Some? {
        var d := e.value;
        FieldRead(f, k - 1, src, nested, before.value, d);
        FieldPos(f, k - 1, d, src, nested);
        ModSum(d.pos, Width(f));
        ModSum(BitsTo(fields, k - 1), Width(f));
      } else {
        AgreeNone();
      }
    }
  }

  lemma AgreeSome(st: UnpackState, d: Decoded)
    requires Tracks(st, d)
    ensures Agree(Some(st), Some(d))
  {
  }

  lemma AgreeNone()
    ensures Agree(None, None)
  {
  }

  lemma AgreeCases(r: Option<UnpackState>, e: Option<Decoded>)
    requires Agree(r, e)
    ensures r.Some? == e.Some? && (r.Some? ==> Tracks(r.value, e.value))
  {
  }

  /** Decoding a field moves the bit position on by its width, or by whole bytes for a nested struct. */
  lemma FieldPos(f: Field, k: nat, d: Decoded, src: seq<byte>, nested: (nat, seq<byte>) -> nat)
    requires k < |d.values|
    ensures DecodeField(f, k, d, src, nested).Some? ==>
      DecodeField(f, k, d, src, nested).value.pos % 8 == (d.pos + Width(f)) % 8
  {
    if f.Bitfield? && d.pos / 8 <= |src| {
      NestedOffset(d.pos, nested(k, src[d.pos / 8..]));
    }
  }

  /**
   * For every layout the derive accepts, the generated `unpack` run on `src`
   * from a record `init` panics exactly where the reference decoding fails;
   * otherwise it leaves the decoded fields in the record and returns the
   * number of bytes the decoding consumed.
   */
  lemma UnpackCorrect(fields: seq<Field>, src: seq<byte>, nested: (nat, seq<byte>) -> nat, init: seq<Value>)
    requires Accepted(fields) && |init| == |fields|
    ensures var r := RunUnpack(UnpackState(0, init), Walk(fields, |fields|, Init).unpackList, src, nested);
      var e := Decode(fields, src, nested, init);
      (r.Some? <==> e.Some?) && (r.Some? ==> r.value.values == e.value.0 && r.value.offset == e.value.1)
  {
    hide RunUnpack, Walk, DecodeTo;
    UnpackWalk(fields, |fields|, src, nested, init);
  }
}
