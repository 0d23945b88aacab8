/**
 * What the code the derive emits does when it runs: `pack` executes the pack
 * statements against a byte accumulator `b` and the output vector `dst`;
 * `unpack` executes the unpack statements against `src` with a byte cursor
 * `offset`.  A statement that indexes past the end of `src`, a failing
 * `debug_assert!`, or a slice `src[offset ..]` that starts past the end makes
 * `unpack` panic, which is `None` here.  A nested struct's own `unpack` is a
 * parameter: the number of bytes the struct in field f reports for the input
 * it is handed, so nested fields of different types may report differently.
 */
module Generated {
  import opened BitOps
  import opened Schema
  import opened Derive

  /**
   * The number held by field f.  The generated code names only the struct's
   * own `bits` fields; for any other index this is 0, which keeps the model total.
   */
  function NumAt(values: seq<Value>, f: nat): nat
  {
    if f < |values| && values[f].Num? then values[f].n else 0
  }

  /** `self.f = v`, for a field of the struct (any other index changes nothing). */
  function SetAt(values: seq<Value>, f: nat, v: Value): (r: seq<Value>)
    ensures |r| == |values|
  {
    if f < |values| then values[f := v] else values
  }

  // ---------------------------------------------------------------------------
  // pack
  // ---------------------------------------------------------------------------

  /** The locals of the generated `pack` between two statements: `b` and the contents of `dst`. */
  datatype PackState = PackState(acc: byte, out: seq<byte>)

  /**
   * One pack statement.  Only `dst.push(b)` touches `dst`, and it appends
   * `b`; no statement but `let b = 0;` clears a bit of `b`, and that one
   * clears them all.
   */
  function PackStep(st: PackState, op: PackOp, values: seq<Value>): (r: PackState)
    ensures r.out == if op.Push? then st.out + [st.acc] else st.out
    ensures if op.ClearAcc? then r.acc == 0 else BitAnd(r.acc, st.acc) == st.acc
  {
    match op
    case ClearAcc => st.(acc := 0)
    case OrHigh(f, shift, mask) =>
      var x := AndU8(AsU8(Shr(NumAt(values, f), shift)), mask);
      OrKeeps(st.acc, x);
      st.(acc := OrU8(st.acc, x))
    case OrLow(f, mask) =>
      var x := AndU8(AsU8(NumAt(values, f)), mask);
      OrKeeps(st.acc, x);
      st.(acc := OrU8(st.acc, x))
    case OrLowShl(f, mask, shift) =>
      var x := ShlU8(AndU8(AsU8(NumAt(values, f)), mask), shift);
      OrKeeps(st.acc, x);
      st.(acc := OrU8(st.acc, x))
    case Push =>
      AndSelf(st.acc);
      st.(out := st.out + [st.acc])
  }

  /** The pack statements run in order; what `dst` held before stays in front. */
  function RunPack(st: PackState, ops: seq<PackOp>, values: seq<Value>): (r: PackState)
    ensures st.out <= r.out
    decreases |ops|
  {
    if ops == [] then st else RunPack(PackStep(st, ops[0], values), ops[1..], values)
  }

  /** The bytes the generated `pack` appends to `dst`. */
  function PackBytes(ops: seq<PackOp>, values: seq<Value>): seq<byte>
  {
    RunPack(PackState(0, []), ops, values).out
  }

  /** Running two lists of statements one after the other is running their concatenation. */
  lemma {:induction false} RunPackAppend(st: PackState, a: seq<PackOp>, b: seq<PackOp>, values: seq<Value>)
    ensures RunPack(st, a + b, values) == RunPack(RunPack(st, a, values), b, values)
    decreases |a|
  {
    if a == [] {
      assert a + b == b;
    } else {
      assert (a + b)[0] == a[0] && (a + b)[1..] == a[1..] + b;
      RunPackAppend(PackStep(st, a[0], values), a[1..], b, values);
    }
  }

  /** Pack only appends to `dst`, and what it appends does not depend on what `dst` held. */
  lemma {:induction false} RunPackOut(acc: byte, out: seq<byte>, ops: seq<PackOp>, values: seq<Value>)
    ensures RunPack(PackState(acc, out), ops, values).out == out + RunPack(PackState(acc, []), ops, values).out
    ensures RunPack(PackState(acc, out), ops, values).acc == RunPack(PackState(acc, []), ops, values).acc
    decreases |ops|
  {
    if ops != [] {
      var s := PackStep(PackState(acc, out), ops[0], values);
      var t := PackStep(PackState(acc, []), ops[0], values);
      assert s == PackState(t.acc, out + t.out);
      RunPackOut(t.acc, out + t.out, ops[1..], values);
      RunPackOut(t.acc, t.out, ops[1..], values);
      AppendAssoc(out, t.out, RunPack(PackState(t.acc, []), ops[1..], values).out);
    }
  }

  // ---------------------------------------------------------------------------
  // unpack
  // ---------------------------------------------------------------------------

  /** The locals of the generated `unpack` between two statements: `offset` and the struct's fields. */
  datatype UnpackState = UnpackState(offset: nat, values: seq<Value>)

  /**
   * The operands of one assignment, left to right, ORed into `acc`: the value
   * and the offset after them, or None where one indexes past the end of
   * `src`, which happens iff the byte the last operand reads, `offset` plus
   * the post-increments before it, lies past the end.
   */
  function EvalTerms(terms: seq<Term>, src: seq<byte>, offset: nat, acc: nat): (r: Option<(nat, nat)>)
    ensures r.None? <==> terms != [] && offset + Takes(terms[..|terms| - 1]) >= |src|
    ensures r.Some? ==> r.value.1 >= offset
    decreases |terms|
  {
    if terms == [] then Some((acc, offset))
    else if offset >= |src| then None
    else
      TakesInit(terms);
      match terms[0]
      case TakeByte(mask, shift) =>
        EvalTerms(terms[1..], src, offset + 1, BitOr(acc, Shl(BitAnd(src[offset], mask), shift)))
      case Last(mask) =>
        EvalTerms(terms[1..], src, offset, BitOr(acc, BitAnd(src[offset], mask)))
      case LastShr(shift, mask) =>
        EvalTerms(terms[1..], src, offset, BitOr(acc, BitAnd(Shr(src[offset], shift), mask)))
  }

  /**
   * One unpack statement.  It never moves `offset` back, and it changes no
   * field but the one it assigns.
   */
  function UnpackStep(st: UnpackState, op: UnpackOp, src: seq<byte>, nested: (nat, seq<byte>) -> nat): (r: Option<UnpackState>)
    ensures r.Some? ==> r.value.offset >= st.offset && |r.value.values| == |st.values|
    ensures r.Some? ==> forall i :: 0 <= i < |st.values| && !Assigns(op, i) ==> r.value.values[i] == st.values[i]
  {
    match op
    case CheckLen(w) =>
      if |src| >= (w + 7) / 8 + st.offset then Some(st) else None
    case SetField(f, terms) =>
      (match EvalTerms(terms, src, st.offset, 0)
       case None => None
       case Some(r) => Some(UnpackState(r.1, SetAt(st.values, f, Num(r.0)))))
    case Advance =>
      Some(st.(offset := st.offset + 1))
    case UnpackNested(f) =>
      if st.offset <= |src|
      then Some(UnpackState(st.offset + nested(f, src[st.offset..]), SetAt(st.values, f, Nested(src[st.offset..]))))
      else None
  }

  /**
   * The unpack statements run in order, stopping at the first panic.  A run
   * never moves `offset` back, and a field no statement assigns keeps its value.
   */
  function RunUnpack(st: UnpackState, ops: seq<UnpackOp>, src: seq<byte>, nested: (nat, seq<byte>) -> nat): (r: Option<UnpackState>)
    ensures r.Some? ==> r.value.offset >= st.offset && |r.value.values| == |st.values|
    ensures r.Some? ==> forall i :: 0 <= i < |st.values| && Writes(ops, i) == 0 ==> r.value.values[i] == st.values[i]
    decreases |ops|
  {
    if ops == [] then Some(st)
    else
      WritesHead(ops);
      match UnpackStep(st, ops[0], src, nested)
      case None => None
      case Some(next) => RunUnpack(next, ops[1..], src, nested)
  }

  /** Running two lists of statements one after the other is running their concatenation. */
  lemma {:induction false} RunUnpackAppend(st: UnpackState, a: seq<UnpackOp>, b: seq<UnpackOp>, src: seq<byte>, nested: (nat, seq<byte>) -> nat)
    ensures RunUnpack(st, a + b, src, nested) ==
      match RunUnpack(st, a, src, nested)
      case None => None
      case Some(mid) => RunUnpack(mid, b, src, nested)
    decreases |a|
  {
    if a == [] {
      assert a + b == b;
    } else {
      assert (a + b)[0] == a[0] && (a + b)[1..] == a[1..] + b;
      match UnpackStep(st, a[0], src, nested)
      case None =>
      case Some(next) => RunUnpackAppend(next, a[1..], b, src, nested);
    }
  }

  // ---------------------------------------------------------------------------
  // Byte counts of a run
  // ---------------------------------------------------------------------------

  /** Running pack statements grows `dst` by one byte per `dst.push(b)` among them. */
  lemma {:induction false} RunPackPushes(st: PackState, ops: seq<PackOp>, values: seq<Value>)
    ensures |RunPack(st, ops, values).out| == |st.out| + Pushes(ops)
    decreases |ops|
  {
    if ops != [] {
      var n := |ops|;
      var init := ops[..n - 1];
      var last := ops[n - 1];
      assert ops == init + [last];
      RunPackAppend(st, init, [last], values);
      RunPackPushes(st, init, values);
      var mid := RunPack(st, init, values);
      assert [last][1..] == [];
      assert RunPack(mid, [last], values) == PackStep(mid, last, values);
    }
  }

  /** An assignment's operands move `offset` on once per byte they take whole. */
  lemma {:induction false} EvalTermsTakes(terms: seq<Term>, src: seq<byte>, offset: nat, acc: nat)
    ensures EvalTerms(terms, src, offset, acc).Some? ==> EvalTerms(terms, src, offset, acc).value.1 == offset + Takes(terms)
    decreases |terms|
  {
    if terms != [] && offset < |src| {
      assert terms == [terms[0]] + terms[1..];
      TakesAppend([terms[0]], terms[1..]);
      TakesOne(terms[0]);
      match terms[0]
      case TakeByte(mask, shift) =>
        EvalTermsTakes(terms[1..], src, offset + 1, BitOr(acc, Shl(BitAnd(src[offset], mask), shift)));
      case Last(mask) =>
        EvalTermsTakes(terms[1..], src, offset, BitOr(acc, BitAnd(src[offset], mask)));
      case LastShr(shift, mask) =>
        EvalTermsTakes(terms[1..], src, offset, BitOr(acc, BitAnd(Shr(src[offset], shift), mask)));
    }
  }

  /** Unpack statements that call no nested `unpack` move `offset` on by exactly their advances. */
  lemma {:induction false} RunUnpackAdvances(st: UnpackState, ops: seq<UnpackOp>, src: seq<byte>, nested: (nat, seq<byte>) -> nat)
    requires NoNested(ops)
    ensures RunUnpack(st, ops, src, nested).Some? ==> RunUnpack(st, ops, src, nested).value.offset == st.offset + Advances(ops)
    decreases |ops|
  {
    if ops != [] {
      assert ops == [ops[0]] + ops[1..];
      AdvancesAppend([ops[0]], ops[1..]);
      AdvancesOne(ops[0]);
      assert NoNested(ops[1..]) by {
        forall i | 0 <= i < |ops[1..]|
          ensures !ops[1..][i].UnpackNested?
        {
          assert ops[1..][i] == ops[i + 1];
        }
      }
      match UnpackStep(st, ops[0], src, nested)
      case None =>
      case Some(next) =>
        RunUnpackAdvances(next, ops[1..], src, nested);
        if ops[0].SetField? {
          EvalTermsTakes(ops[0].terms, src, st.offset, 0);
        }
    }
  }

  /**
   * Pack and unpack in lockstep, on runs: the generated `pack` of any
   * layout the derive walks returns the fields' total width in bytes.
   */
  lemma PackLength(fields: seq<Field>, values: seq<Value>)
    requires WellFormed(fields)
    ensures |PackBytes(Walk(fields, |fields|, Init).packList, values)| == TotalBits(fields) / 8
  {
    hide Walk, RunPack;
    PackPushes(fields, |fields|, Init);
    RunPackPushes(PackState(0, []), Walk(fields, |fields|, Init).packList, values);
  }

  /**
   * ... and without nested structs, the generated `unpack`, when it does not
   * panic, returns the same count.
   */
  lemma UnpackLength(fields: seq<Field>, src: seq<byte>, nested: (nat, seq<byte>) -> nat, init: seq<Value>)
    requires WellFormed(fields) && NoBitfield(fields)
    ensures var r := RunUnpack(UnpackState(0, init), Walk(fields, |fields|, Init).unpackList, src, nested);
      r.Some? ==> r.value.offset == TotalBits(fields) / 8
  {
    hide Walk, RunUnpack;
    UnpackAdvances(fields, |fields|, Init);
    WalkNoNested(fields, |fields|, Init);
    RunUnpackAdvances(UnpackState(0, init), Walk(fields, |fields|, Init).unpackList, src, nested);
  }

  // ---------------------------------------------------------------------------
  // The generated methods, run on a struct value
  // ---------------------------------------------------------------------------

  /** A `Vec<u8>`. */
  class ByteVec {
    var data: seq<byte>

    constructor (init: seq<byte>)
      ensures data == init
    {
      data := init;
    }
  }

  /** A value of the struct the derive was applied to: its fields in declaration order. */
  class Record {
    var values: seq<Value>

    constructor (init: seq<Value>)
      ensures values == init
    {
      values := init;
    }

    /**
     * `pack(&self, dst)` for the given pack statements: appends the packed
     * bytes to `dst` and returns how many it appended (`dst.len() - len`).
     */
    method Pack(code: seq<PackOp>, dst: ByteVec) returns (n: nat)
      modifies dst
      ensures dst.data == old(dst.data) + PackBytes(code, values)
      ensures n == |PackBytes(code, values)|
    {
      var len := |dst.data|;
      ghost var goal := RunPack(PackState(0, dst.data), code, values);
      var b: byte := 0;
      var i := 0;
      while i < |code|
        invariant i <= |code|
        decreases |code| - i
        invariant RunPack(PackState(b, dst.data), code[i..], values) == goal
        invariant |dst.data| >= len
      {
        assert code[i..][0] == code[i] && code[i..][1..] == code[i + 1..];
        match code[i] {
        case ClearAcc =>
          b := 0;
        case OrHigh(f, shift, mask) =>
          b := OrU8(b, AndU8(AsU8(Shr(NumAt(values, f), shift)), mask));
        case OrLow(f, mask) =>
          b := OrU8(b, AndU8(AsU8(NumAt(values, f)), mask));
        case OrLowShl(f, mask, shift) =>
          b := OrU8(b, ShlU8(AndU8(AsU8(NumAt(values, f)), mask), shift));
        case Push =>
          dst.data := dst.data + [b];
        }
        i := i + 1;
      }
      RunPackOut(0, old(dst.data), code, values);
      n := |dst.data| - len;
    }

    /**
     * `unpack(&mut self, src)` for the given unpack statements: on success the
     * fields hold what the statements assign and the result is the final
     * `offset`; None where the generated code panics.
     */
    method Unpack(code: seq<UnpackOp>, src: array<byte>, nested: (nat, seq<byte>) -> nat) returns (r: Option<nat>)
      modifies this
      ensures RunUnpack(UnpackState(0, old(values)), code, src[..], nested).None? <==> r.None?
      ensures r.Some? ==>
        r.value == RunUnpack(UnpackState(0, old(values)), code, src[..], nested).value.offset &&
        values == RunUnpack(UnpackState(0, old(values)), code, src[..], nested).value.values
    {
      ghost var goal := RunUnpack(UnpackState(0, values), code, src[..], nested);
      var offset: nat := 0;
      var i := 0;
      while i < |code|
        invariant i <= |code|
        decreases |code| - i
        invariant RunUnpack(UnpackState(offset, values), code[i..], src[..], nested) == goal
      {
        assert code[i..][0] == code[i] && code[i..][1..] == code[i + 1..];
        match code[i] {
        case CheckLen(w) =>
          if src.Length < (w + 7) / 8 + offset {
            return None;
          }
        case SetField(f, terms) =>
          var v := EvalTermsM(terms, src, offset);
          if v.None? {
            return None;
          }
          offset := v.value.1;
          values := SetAt(values, f, Num(v.value.0));
        case Advance =>
          offset := offset + 1;
        case UnpackNested(f) =>
          if offset > src.Length {
            return None;
          }
          var rest := src[offset..];
          values := SetAt(values, f, Nested(rest));
          offset := offset + nested(f, rest);
        }
        i := i + 1;
      }
      r := Some(offset);
    }
  }

  /** The operands of one assignment evaluated left to right, reading `src` from `offset`. */
  method EvalTermsM(terms: seq<Term>, src: array<byte>, offset: nat) returns (r: Option<(nat, nat)>)
    ensures r == EvalTerms(terms, src[..], offset, 0)
  {
    var acc: nat := 0;
    var o: nat := offset;
    var j := 0;
    while j < |terms|
      invariant j <= |terms|
      decreases |terms| - j
      invariant EvalTerms(terms[j..], src[..], o, acc) == EvalTerms(terms, src[..], offset, 0)
    {
      assert terms[j..][0] == terms[j] && terms[j..][1..] == terms[j + 1..];
      if o >= src.Length {
        return None;
      }
      match terms[j] {
      case TakeByte(mask, shift) =>
        acc := BitOr(acc, Shl(BitAnd(src[o], mask), shift));
        o := o + 1;
      case Last(mask) =>
        acc := BitOr(acc, BitAnd(src[o], mask));
      case LastShr(shift, mask) =>
        acc := BitOr(acc, BitAnd(Shr(src[o], shift), mask));
      }
      j := j + 1;
    }
    assert terms[j..] == [];
    r := Some((acc, o));
  }
}
