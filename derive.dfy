/**
 * The `BitWrap` derive: `BitWrapMacro` walks the fields in declaration order
 * with one counter, `bits`, the number of bits still free in the current
 * byte, and appends to two lists the statements of the generated `pack` and
 * `unpack` bodies.  Statements are modelled as values of `PackOp` and
 * `UnpackOp`; their meaning is given in module Generated.
 */
module Derive {
  import opened BitOps
  import opened Schema

  /** Statements of the generated `pack(&self, dst: &mut Vec<u8>)`. */
  datatype PackOp =
    | ClearAcc                                           // let b = 0;
    | OrHigh(field: nat, shift: nat, mask: byte)         // let b = b | (((self.f >> shift) as u8) & mask);
    | OrLow(field: nat, mask: byte)                      // let b = b | ((self.f as u8) & mask);
    | OrLowShl(field: nat, mask: byte, shift: nat)       // let b = b | (((self.f as u8) & mask) << shift);
    | Push                                               // dst.push(b);

  /** Operands of the expression assigned to a `bits` field by the generated `unpack`. */
  datatype Term =
    | TakeByte(mask: byte, shift: nat)                   // (((src[offset++] & mask) as T) << shift) |
    | Last(mask: byte)                                   // ((src[offset] & mask) as T)
    | LastShr(shift: nat, mask: byte)                    // (((src[offset] >> shift) & mask) as T)

  /** Statements of the generated `unpack(&mut self, src: &[u8])`. */
  datatype UnpackOp =
    | CheckLen(width: nat)                               // debug_assert!(src.len() >= (width + 7) / 8 + offset)
    | SetField(field: nat, terms: seq<Term>)             // self.f = t1 | t2 | ... ;
    | Advance                                            // offset += 1;
    | UnpackNested(field: nat)                           // offset += self.f.unpack(&src[offset ..]);

  /** The counter after a w-bit field that starts with `free` bits free: 8 minus the bits used of the byte it ends in. */
  function NextFree(free: nat, w: nat): (r: nat)
    requires 1 <= free <= 8
    ensures 1 <= r <= 8
  {
    8 - (8 - free + w) % 8
  }

  /**
   * The pack statements for the part of a field still to be placed: `rem`
   * bits, `free` bits free.  Every slice reads field k (SlicesEnd says
   * where the last one leaves `b`).
   */
  function PackSlices(k: nat, rem: nat, free: nat): (r: seq<PackOp>)
    requires 1 <= free <= 8 && rem >= 1
    ensures |r| >= 1
    ensures forall i :: 0 <= i < |r| && !r[i].Push? && !r[i].ClearAcc? ==> r[i].field == k
    decreases rem
  {
    if rem > free then
      [OrHigh(k, rem - free, LowMask(free)), Push, ClearAcc] + PackSlices(k, rem - free, 8)
    else
      [if free - rem != 0 then OrLowShl(k, LowMask(rem), free - rem) else OrLow(k, LowMask(rem))]
      + (if free - rem == 0 then [Push] else [])
  }

  /** A field's last pack statement pushes `b` exactly when the field ends on a byte boundary. */
  lemma {:induction false} SlicesEnd(k: nat, rem: nat, free: nat)
    requires 1 <= free <= 8 && rem >= 1
    ensures var r := PackSlices(k, rem, free); r[|r| - 1].Push? <==> NextFree(free, rem) == 8
    decreases rem
  {
    if rem > free {
      SlicesEnd(k, rem - free, 8);
      var tail := PackSlices(k, rem - free, 8);
      var r := [OrHigh(k, rem - free, LowMask(free)), Push, ClearAcc] + tail;
      assert PackSlices(k, rem, free) == r;
      assert r[|r| - 1] == tail[|tail| - 1];
      assert (8 - free + rem) % 8 == (8 - 8 + (rem - free)) % 8;
    }
  }

  /**
   * The operands read for the part of a field still to be read: `rem` bits,
   * `free` bits unread.  Every operand but the last post-increments `offset`.
   */
  function UnpackTerms(rem: nat, free: nat): (r: seq<Term>)
    requires 1 <= free <= 8 && rem >= 1
    ensures |r| >= 1 && forall i :: 0 <= i < |r| ==> (r[i].TakeByte? <==> i < |r| - 1)
    decreases rem
  {
    if rem > free then [TakeByte(LowMask(free), rem - free)] + UnpackTerms(rem - free, 8)
    else [if free - rem != 0 then LastShr(free - rem, LowMask(rem)) else Last(LowMask(rem))]
  }

  /** Everything `build_field_bits` appends to the pack list for field k of width w. */
  function FieldPack(k: nat, w: nat, free: nat): seq<PackOp>
    requires 1 <= free <= 8 && w >= 1
  {
    (if free == 8 then [ClearAcc] else []) + PackSlices(k, w, free)
  }

  /** Everything `build_field_bits` appends to the unpack list for field k of width w. */
  function FieldUnpack(k: nat, w: nat, free: nat): seq<UnpackOp>
    requires 1 <= free <= 8 && w >= 1
  {
    (if free == 8 then [CheckLen(w)] else [])
    + [SetField(k, UnpackTerms(w, free))]
    + (if NextFree(free, w) == 8 then [Advance] else [])
  }

  function FieldFree(f: Field, free: nat): (r: nat)
    requires 1 <= free <= 8 && (f.Bits? ==> f.width >= 1)
    ensures 1 <= r <= 8
  {
    if f.Bits? then NextFree(free, f.width) else free
  }

  function FieldPackCode(f: Field, k: nat, free: nat): seq<PackOp>
    requires 1 <= free <= 8 && (f.Bits? ==> f.width >= 1)
  {
    if f.Bits? then FieldPack(k, f.width, free) else []
  }

  function FieldUnpackCode(f: Field, k: nat, free: nat): seq<UnpackOp>
    requires 1 <= free <= 8 && (f.Bits? ==> f.width >= 1)
  {
    match f
    case Bits(w) => FieldUnpack(k, w, free)
    case Bitfield => [UnpackNested(k)]
    case Plain => []
  }

  /** What `BitWrapMacro` holds while `build` walks the fields: both lists and the counter. */
  datatype MacroState = MacroState(packList: seq<PackOp>, unpackList: seq<UnpackOp>, bits: nat)

  /** The state `build` starts its walk from after `new`: empty lists, counter 8. */
  const Init := MacroState([], [], 8)

  /** `build_field` on a field the derive accepts: both lists grow by the field's statements. */
  function FieldStep(f: Field, k: nat, m: MacroState): (r: MacroState)
    requires 1 <= m.bits <= 8 && (f.Bits? ==> f.width >= 1)
  {
    MacroState(m.packList + FieldPackCode(f, k, m.bits), m.unpackList + FieldUnpackCode(f, k, m.bits), FieldFree(f, m.bits))
  }

  /** The macro state after `build` has walked the first k fields from state m. */
  function Walk(fields: seq<Field>, k: nat, m: MacroState): (r: MacroState)
    requires WellFormed(fields) && k <= |fields| && 1 <= m.bits <= 8
    ensures 1 <= r.bits <= 8
  {
    if k == 0 then m else FieldStep(fields[k - 1], k - 1, Walk(fields, k - 1, m))
  }

  // ---------------------------------------------------------------------------
  // The counter
  // ---------------------------------------------------------------------------

  /** Before field k the counter is 8 minus the bits declared so far, modulo 8. */
  lemma {:induction false} BitsAt(fields: seq<Field>, k: nat, m: MacroState)
    requires WellFormed(fields) && k <= |fields| && m.bits == 8
    ensures Walk(fields, k, m).bits == 8 - BitsTo(fields, k) % 8
  {
    hide FieldPackCode, FieldUnpackCode;
    if k > 0 {
      BitsAt(fields, k - 1, m);
      ModSum(BitsTo(fields, k - 1), Width(fields[k - 1]));
    }
  }

  /** The first k + 1 fields are aligned when the first k are and field k, if nested, starts on a byte boundary. */
  lemma AlignedMore(fields: seq<Field>, k: nat)
    requires k < |fields|
    ensures AlignedBefore(fields, k + 1) == (AlignedBefore(fields, k) && (fields[k].Bitfield? ==> BitsTo(fields, k) % 8 == 0))
  {
  }

  /** A layout whose nested structs are all aligned has every prefix aligned. */
  lemma AlignedPrefix(fields: seq<Field>, k: nat)
    requires k <= |fields|
    ensures BitfieldsAligned(fields) ==> AlignedBefore(fields, k)
  {
  }

  lemma ModSum(s: nat, w: nat)
    ensures (s % 8 + w) % 8 == (s + w) % 8
  {
  }

  /** A field part that runs past the current byte: fill the byte, push it, go on with a fresh one. */
  lemma SliceMore(k: nat, rem: nat, free: nat)
    requires 1 <= free < rem && free <= 8
    ensures PackSlices(k, rem, free) == [OrHigh(k, rem - free, LowMask(free)), Push, ClearAcc] + PackSlices(k, rem - free, 8)
    ensures UnpackTerms(rem, free) == [TakeByte(LowMask(free), rem - free)] + UnpackTerms(rem - free, 8)
    ensures NextFree(free, rem) == NextFree(8, rem - free)
  {
  }

  /** The last part of a field: it fits in the current byte, which is pushed if it becomes full. */
  lemma SliceLast(k: nat, rem: nat, free: nat)
    requires 1 <= rem <= free <= 8
    ensures PackSlices(k, rem, free) ==
      (if free - rem != 0 then [OrLowShl(k, LowMask(rem), free - rem)] else [OrLow(k, LowMask(rem)), Push])
    ensures UnpackTerms(rem, free) == [if free - rem != 0 then LastShr(free - rem, LowMask(rem)) else Last(LowMask(rem))]
    ensures NextFree(free, rem) == if free - rem != 0 then free - rem else 8
  {
    if free - rem != 0 {
      assert [OrLowShl(k, LowMask(rem), free - rem)] + [] == [OrLowShl(k, LowMask(rem), free - rem)];
    }
  }

  /** The statements `build_field_bits` appends for a w-bit field, grouped as it appends them. */
  lemma FieldStepBits(w: nat, k: nat, m: MacroState)
    requires 1 <= m.bits <= 8 && w >= 1
    ensures FieldStep(Bits(w), k, m).packList == (m.packList + (if m.bits == 8 then [ClearAcc] else [])) + PackSlices(k, w, m.bits)
    ensures FieldStep(Bits(w), k, m).unpackList ==
      ((m.unpackList + (if m.bits == 8 then [CheckLen(w)] else [])) + [SetField(k, UnpackTerms(w, m.bits))])
      + (if NextFree(m.bits, w) == 8 then [Advance] else [])
    ensures FieldStep(Bits(w), k, m).bits == NextFree(m.bits, w)
  {
    var pre := if m.bits == 8 then [CheckLen(w)] else [];
    var assign := [SetField(k, UnpackTerms(w, m.bits))];
    var post := if NextFree(m.bits, w) == 8 then [Advance] else [];
    AppendAssoc(m.packList, if m.bits == 8 then [ClearAcc] else [], PackSlices(k, w, m.bits));
    AppendAssoc(m.unpackList, pre, assign);
    AppendAssoc(m.unpackList, pre + assign, post);
  }

  lemma AppendAssoc<T>(a: seq<T>, b: seq<T>, c: seq<T>)
    ensures a + (b + c) == (a + b) + c
  {
  }

  // ---------------------------------------------------------------------------
  // Byte counts: where pack pushes and unpack moves on
  // ---------------------------------------------------------------------------

  function Pushes(ops: seq<PackOp>): nat
  {
    if ops == [] then 0 else Pushes(ops[..|ops| - 1]) + (if ops[|ops| - 1].Push? then 1 else 0)
  }

  function Takes(terms: seq<Term>): nat
  {
    if terms == [] then 0 else Takes(terms[..|terms| - 1]) + (if terms[|terms| - 1].TakeByte? then 1 else 0)
  }

  /** How far the unpack statements move `offset`, nested structs aside. */
  function Advances(ops: seq<UnpackOp>): nat
  {
    if ops == [] then 0
    else
      Advances(ops[..|ops| - 1])
      + match ops[|ops| - 1]
        case Advance => 1
        case SetField(_, terms) => Takes(terms)
        case _ => 0
  }

  lemma PushesAppend(a: seq<PackOp>, b: seq<PackOp>)
    ensures Pushes(a + b) == Pushes(a) + Pushes(b)
    decreases |b|
  {
    if b != [] {
      assert (a + b)[..|a + b| - 1] == a + b[..|b| - 1];
      assert (a + b)[|a + b| - 1] == b[|b| - 1];
      PushesAppend(a, b[..|b| - 1]);
    } else {
      assert a + b == a;
    }
  }

  lemma PushesOne(op: PackOp)
    ensures Pushes([op]) == if op.Push? then 1 else 0
  {
    assert [op][..0] == [];
  }

  lemma TakesAppend(a: seq<Term>, b: seq<Term>)
    ensures Takes(a + b) == Takes(a) + Takes(b)
    decreases |b|
  {
    if b != [] {
      assert (a + b)[..|a + b| - 1] == a + b[..|b| - 1];
      assert (a + b)[|a + b| - 1] == b[|b| - 1];
      TakesAppend(a, b[..|b| - 1]);
    } else {
      assert a + b == a;
    }
  }

  /** Takes of all operands but the last, split after the first. */
  lemma TakesInit(terms: seq<Term>)
    requires terms != []
    ensures |terms| == 1 ==> Takes(terms[..0]) == 0
    ensures |terms| >= 2 ==>
      Takes(terms[..|terms| - 1]) == (if terms[0].TakeByte? then 1 else 0) + Takes(terms[1..][..|terms| - 2])
  {
    if |terms| >= 2 {
      assert terms[..|terms| - 1] == [terms[0]] + terms[1..][..|terms| - 2];
      TakesAppend([terms[0]], terms[1..][..|terms| - 2]);
      TakesOne(terms[0]);
    }
  }

  lemma TakesOne(t: Term)
    ensures Takes([t]) == if t.TakeByte? then 1 else 0
  {
    assert [t][..0] == [];
  }

  lemma AdvancesAppend(a: seq<UnpackOp>, b: seq<UnpackOp>)
    ensures Advances(a + b) == Advances(a) + Advances(b)
    decreases |b|
  {
    if b != [] {
      assert (a + b)[..|a + b| - 1] == a + b[..|b| - 1];
      assert (a + b)[|a + b| - 1] == b[|b| - 1];
      AdvancesAppend(a, b[..|b| - 1]);
    } else {
      assert a + b == a;
    }
  }

  lemma AdvancesOne(op: UnpackOp)
    ensures Advances([op]) == match op
      case Advance => 1
      case SetField(_, terms) => Takes(terms)
      case _ => 0
  {
    assert [op][..0] == [];
  }

  /** The pack statements for the rest of a field push one byte per byte they complete. */
  lemma {:induction false} SlicePushes(k: nat, rem: nat, free: nat)
    requires 1 <= free <= 8 && rem >= 1
    ensures Pushes(PackSlices(k, rem, free)) == (8 - free + rem) / 8
    decreases rem
  {
    if rem > free {
      var x := OrHigh(k, rem - free, LowMask(free));
      SlicePushes(k, rem - free, 8);
      PushesAppend([x, Push, ClearAcc], PackSlices(k, rem - free, 8));
      PushesOne(x);
      PushesOne(Push);
      PushesOne(ClearAcc);
      PushesAppend([x], [Push]);
      PushesAppend([x, Push], [ClearAcc]);
      assert [x, Push, ClearAcc] == [x, Push] + [ClearAcc];
      assert [x, Push] == [x] + [Push];
      assert 8 - free + rem == 8 + (rem - free);
    } else {
      var x := if free - rem != 0 then OrLowShl(k, LowMask(rem), free - rem) else OrLow(k, LowMask(rem));
      PushesOne(x);
      PushesOne(Push);
      PushesAppend([x], if free - rem == 0 then [Push] else []);
      assert [x] + [] == [x];
    }
  }

  /** The operands read for the rest of a field take one byte per byte they leave behind. */
  lemma {:induction false} TermTakes(rem: nat, free: nat)
    requires 1 <= free <= 8 && rem >= 1
    ensures Takes(UnpackTerms(rem, free)) + (if NextFree(free, rem) == 8 then 1 else 0) == (8 - free + rem) / 8
    decreases rem
  {
    if rem > free {
      var t := TakeByte(LowMask(free), rem - free);
      TermTakes(rem - free, 8);
      TakesAppend([t], UnpackTerms(rem - free, 8));
      TakesOne(t);
      assert 8 - free + rem == 8 + (rem - free);
    } else {
      TakesOne(if free - rem != 0 then LastShr(free - rem, LowMask(rem)) else Last(LowMask(rem)));
    }
  }

  /** A `bits` field starting with `free` bits free makes pack push (8 - free + w) / 8 bytes. */
  lemma FieldPushes(k: nat, w: nat, free: nat)
    requires 1 <= free <= 8 && w >= 1
    ensures Pushes(FieldPack(k, w, free)) == (8 - free + w) / 8
  {
    SlicePushes(k, w, free);
    PushesOne(ClearAcc);
    PushesAppend(if free == 8 then [ClearAcc] else [], PackSlices(k, w, free));
  }

  /** A `bits` field starting with `free` bits free makes unpack move `offset` on by (8 - free + w) / 8. */
  lemma FieldAdvances(k: nat, w: nat, free: nat)
    requires 1 <= free <= 8 && w >= 1
    ensures Advances(FieldUnpack(k, w, free)) == (8 - free + w) / 8
  {
    TermTakes(w, free);
    var pre := if free == 8 then [CheckLen(w)] else [];
    var assign := [SetField(k, UnpackTerms(w, free))];
    var post := if NextFree(free, w) == 8 then [Advance] else [];
    AdvancesOne(CheckLen(w));
    AdvancesOne(SetField(k, UnpackTerms(w, free)));
    AdvancesOne(Advance);
    AdvancesAppend(pre, assign);
    AdvancesAppend(pre + assign, post);
  }

  /** Field k, reached after s declared bits, makes pack push and unpack advance over the bytes it completes. */
  lemma FieldBytes(f: Field, k: nat, s: nat)
    requires f.Bits? ==> f.width >= 1
    ensures Pushes(FieldPackCode(f, k, 8 - s % 8)) == (s % 8 + Width(f)) / 8
    ensures Advances(FieldUnpackCode(f, k, 8 - s % 8)) == (s % 8 + Width(f)) / 8
  {
    var free := 8 - s % 8;
    match f
    case Bits(w) =>
      FieldPushes(k, w, free);
      FieldAdvances(k, w, free);
    case Bitfield =>
      AdvancesOne(UnpackNested(k));
    case Plain =>
  }

  /**
   * Pack pushes one byte per byte the `bits` fields fill: walking k fields
   * from a byte boundary adds BitsTo(fields, k) / 8 pushes to the pack list.
   */
  lemma {:induction false} PackPushes(fields: seq<Field>, k: nat, m: MacroState)
    requires WellFormed(fields) && k <= |fields| && m.bits == 8
    ensures Pushes(Walk(fields, k, m).packList) == Pushes(m.packList) + BitsTo(fields, k) / 8
  {
    hide FieldStep;
    if k > 0 {
      var j := k - 1;
      PackPushes(fields, j, m);
      PushesStep(fields, k, m);
    }
  }

  /** One more field adds the pushes of the bytes it completes. */
  lemma PushesStep(fields: seq<Field>, k: nat, m: MacroState)
    requires WellFormed(fields) && 0 < k <= |fields| && m.bits == 8
    ensures Pushes(Walk(fields, k, m).packList) == Pushes(Walk(fields, k - 1, m).packList) + (BitsTo(fields, k) / 8 - BitsTo(fields, k - 1) / 8)
  {
    hide FieldPackCode, FieldUnpackCode, Pushes, NextFree;
    var j := k - 1;
    var prev := Walk(fields, j, m);
    var f := fields[j];
    var s := BitsTo(fields, j);
    BitsAt(fields, j, m);
    FieldBytes(f, j, s);
    PushesAppend(prev.packList, FieldPackCode(f, j, prev.bits));
    DivSplit(s, Width(f));
  }

  /**
   * Unpack moves `offset` on in lockstep with pack: walking k fields from a
   * byte boundary adds BitsTo(fields, k) / 8 to what the unpack list advances,
   * nested structs aside.
   */
  lemma {:induction false} UnpackAdvances(fields: seq<Field>, k: nat, m: MacroState)
    requires WellFormed(fields) && k <= |fields| && m.bits == 8
    ensures Advances(Walk(fields, k, m).unpackList) == Advances(m.unpackList) + BitsTo(fields, k) / 8
  {
    hide FieldStep;
    if k > 0 {
      var j := k - 1;
      UnpackAdvances(fields, j, m);
      AdvancesStep(fields, k, m);
    }
  }

  /** One more field advances over the bytes it completes. */
  lemma AdvancesStep(fields: seq<Field>, k: nat, m: MacroState)
    requires WellFormed(fields) && 0 < k <= |fields| && m.bits == 8
    ensures Advances(Walk(fields, k, m).unpackList) == Advances(Walk(fields, k - 1, m).unpackList) + (BitsTo(fields, k) / 8 - BitsTo(fields, k - 1) / 8)
  {
    hide FieldPackCode, FieldUnpackCode, Advances, Takes, NextFree;
    var j := k - 1;
    var prev := Walk(fields, j, m);
    var f := fields[j];
    var s := BitsTo(fields, j);
    BitsAt(fields, j, m);
    FieldBytes(f, j, s);
    AdvancesAppend(prev.unpackList, FieldUnpackCode(f, j, prev.bits));
    DivSplit(s, Width(f));
  }

  /** No statement of the list hands bytes to a nested struct. */
  predicate NoNested(ops: seq<UnpackOp>)
  {
    forall i :: 0 <= i < |ops| ==> !ops[i].UnpackNested?
  }

  /** Without `#[bitfield]` fields, the unpack body calls no nested `unpack`. */
  lemma {:induction false} WalkNoNested(fields: seq<Field>, k: nat, m: MacroState)
    requires WellFormed(fields) && NoBitfield(fields) && k <= |fields| && 1 <= m.bits <= 8 && NoNested(m.unpackList)
    ensures NoNested(Walk(fields, k, m).unpackList)
  {
    hide FieldPackCode, UnpackTerms;
    if k > 0 {
      WalkNoNested(fields, k - 1, m);
      assert !fields[k - 1].Bitfield?;
    }
  }

  /** Bytes completed after s + w bits: those completed after s, plus those the next w bits complete. */
  lemma DivSplit(s: nat, w: nat)
    ensures (s + w) / 8 == s / 8 + (s % 8 + w) / 8
  {
  }

  // ---------------------------------------------------------------------------
  // Each field is written by exactly one unpack statement
  // ---------------------------------------------------------------------------

  predicate Assigns(op: UnpackOp, i: nat)
  {
    (op.SetField? || op.UnpackNested?) && op.field == i
  }

  /** The number of unpack statements that assign field i. */
  function Writes(ops: seq<UnpackOp>, i: nat): nat
  {
    if ops == [] then 0
    else Writes(ops[..|ops| - 1], i) + (if Assigns(ops[|ops| - 1], i) then 1 else 0)
  }

  lemma WritesAppend(a: seq<UnpackOp>, b: seq<UnpackOp>, i: nat)
    ensures Writes(a + b, i) == Writes(a, i) + Writes(b, i)
    decreases |b|
  {
    if b != [] {
      assert (a + b)[..|a + b| - 1] == a + b[..|b| - 1];
      assert (a + b)[|a + b| - 1] == b[|b| - 1];
      WritesAppend(a, b[..|b| - 1], i);
    } else {
      assert a + b == a;
    }
  }

  /** The writes of a list, split after its first statement. */
  lemma WritesHead(ops: seq<UnpackOp>)
    requires ops != []
    ensures forall i :: Writes(ops, i) == (if Assigns(ops[0], i) then 1 else 0) + Writes(ops[1..], i)
  {
    forall i
      ensures Writes(ops, i) == (if Assigns(ops[0], i) then 1 else 0) + Writes(ops[1..], i)
    {
      assert ops == [ops[0]] + ops[1..];
      WritesAppend([ops[0]], ops[1..], i);
      WritesOne(ops[0], i);
    }
  }

  lemma WritesOne(op: UnpackOp, i: nat)
    ensures Writes([op], i) == if Assigns(op, i) then 1 else 0
  {
    assert [op][..0] == [];
  }

  /** The statements of field k assign field k once and no other field. */
  lemma FieldWrites(f: Field, k: nat, free: nat, i: nat)
    requires 1 <= free <= 8 && (f.Bits? ==> f.width >= 1)
    ensures Writes(FieldUnpackCode(f, k, free), i) == if i == k && !f.Plain? then 1 else 0
  {
    hide UnpackTerms, NextFree, PackSlices;
    match f
    case Bits(w) =>
      var pre := if free == 8 then [CheckLen(w)] else [];
      var assign := [SetField(k, UnpackTerms(w, free))];
      var post := if NextFree(free, w) == 8 then [Advance] else [];
      WritesOne(CheckLen(w), i);
      WritesOne(SetField(k, UnpackTerms(w, free)), i);
      WritesOne(Advance, i);
      WritesAppend(pre, assign, i);
      WritesAppend(pre + assign, post, i);
    case Bitfield =>
      WritesOne(UnpackNested(k), i);
    case Plain =>
  }

  /**
   * Walking k fields adds exactly one assignment of each `bits` and `bitfield`
   * field among them, and none of a field that has neither attribute or lies
   * beyond them.
   */
  lemma {:induction false} WritesOnce(fields: seq<Field>, k: nat, m: MacroState, i: nat)
    requires WellFormed(fields) && k <= |fields| && 1 <= m.bits <= 8 && i < |fields|
    ensures Writes(Walk(fields, k, m).unpackList, i) == Writes(m.unpackList, i) + if i < k && !fields[i].Plain? then 1 else 0
  {
    hide FieldStep;
    if k > 0 {
      var j := k - 1;
      WritesOnce(fields, j, m, i);
      WritesStep(fields, k, m, i);
    }
  }

  /** Field k - 1 adds one assignment of itself, unless it has no attribute, and none of any other field. */
  lemma WritesStep(fields: seq<Field>, k: nat, m: MacroState, i: nat)
    requires WellFormed(fields) && 0 < k <= |fields| && 1 <= m.bits <= 8
    ensures Writes(Walk(fields, k, m).unpackList, i) == Writes(Walk(fields, k - 1, m).unpackList, i) + if i == k - 1 && !fields[i].Plain? then 1 else 0
  {
    hide FieldPackCode, FieldUnpackCode;
    var j := k - 1;
    var prev := Walk(fields, j, m);
    WritesAppend(prev.unpackList, FieldUnpackCode(fields[j], j, prev.bits), i);
    FieldWrites(fields[j], j, prev.bits, i);
  }

  // ---------------------------------------------------------------------------
  // The macro state
  // ---------------------------------------------------------------------------

  class BitWrapMacro {
    var packList: seq<PackOp>
    var unpackList: seq<UnpackOp>
    var bits: nat

    function State(): MacroState
      reads this
    {
      MacroState(packList, unpackList, bits)
    }

    /** `BitWrapMacro::new`: empty lists, counter 0 until `build` sets it. */
    constructor ()
      ensures State() == MacroState([], [], 0)
    {
      packList := [];
      unpackList := [];
      bits := 0;
    }

    /** `build_field_bits`: emit the shift/mask schedule of field k, w bits wide. */
    method BuildFieldBits(k: nat, w: nat)
      requires 1 <= bits <= 8 && w >= 1
      modifies this
      ensures State() == FieldStep(Bits(w), k, old(State()))
    {
      hide FieldStep, PackSlices, UnpackTerms, NextFree, LowMask;
      ghost var goal := FieldStep(Bits(w), k, State());
      ghost var termsGoal := UnpackTerms(w, bits);
      FieldStepBits(w, k, State());
      var rem := w;
      if bits == 8 {
        packList := packList + [ClearAcc];
        unpackList := unpackList + [CheckLen(w)];
      } else {
        assert packList + [] == packList && unpackList + [] == unpackList;
      }
      ghost var head := unpackList;
      var terms: seq<Term> := [];
      while rem > bits
        invariant 1 <= bits <= 8 && rem >= 1
        invariant NextFree(bits, rem) == goal.bits
        invariant packList + PackSlices(k, rem, bits) == goal.packList
        invariant terms + UnpackTerms(rem, bits) == termsGoal
        invariant unpackList == head
        decreases rem
      {
        var shift := rem - bits;
        var mask := LowMask(bits);
        SliceMore(k, rem, bits);
        AppendAssoc(packList, [OrHigh(k, shift, mask), Push, ClearAcc], PackSlices(k, shift, 8));
        AppendAssoc(terms, [TakeByte(mask, shift)], UnpackTerms(shift, 8));
        packList := packList + [OrHigh(k, shift, mask), Push, ClearAcc];
        terms := terms + [TakeByte(mask, shift)];
        rem := rem - bits;
        bits := 8;
      }
      SliceLast(k, rem, bits);
      var shift := bits - rem;
      var mask := LowMask(rem);
      if shift != 0 {
        packList := packList + [OrLowShl(k, mask, shift)];
        terms := terms + [LastShr(shift, mask)];
      } else {
        AppendAssoc(packList, [OrLow(k, mask)], [Push]);
        packList := packList + [OrLow(k, mask)];
        terms := terms + [Last(mask)];
      }
      unpackList := unpackList + [SetField(k, terms)];
      bits := bits - rem;
      if bits == 0 {
        bits := 8;
        packList := packList + [Push];
        unpackList := unpackList + [Advance];
      } else {
        assert unpackList + [] == unpackList;
      }
    }

    /** `build_unpack_bitfield`: `ok` is false where its alignment assertion panics. */
    method BuildUnpackBitfield(k: nat) returns (ok: bool)
      modifies this
      ensures ok == (old(bits) == 8)
      ensures ok ==> State() == FieldStep(Bitfield, k, old(State()))
      ensures !ok ==> State() == old(State())
    {
      ok := bits == 8;
      if ok {
        unpackList := unpackList + [UnpackNested(k)];
      }
    }

    /** `build_field`: dispatch on the field's attribute; a field with neither emits nothing. */
    method BuildField(f: Field, k: nat) returns (ok: bool)
      requires 1 <= bits <= 8 && (f.Bits? ==> f.width >= 1)
      modifies this
      ensures ok == (!f.Bitfield? || old(bits) == 8)
      ensures ok ==> State() == FieldStep(f, k, old(State()))
    {
      match f
      case Bits(w) =>
        BuildFieldBits(k, w);
        ok := true;
      case Bitfield =>
        ok := BuildUnpackBitfield(k);
      case Plain =>
        assert packList + [] == packList && unpackList + [] == unpackList;
        ok := true;
    }

    /**
     * `build`: walk the fields with the counter starting at 8.  `ok` is false
     * exactly where one of its alignment assertions panics, which happens
     * unless every nested struct starts, and the record ends, on a byte boundary.
     */
    method Build(fields: seq<Field>) returns (ok: bool)
      requires WellFormed(fields)
      modifies this
      ensures ok == (BitfieldsAligned(fields) && TotalBits(fields) % 8 == 0)
      ensures ok ==> State() == Walk(fields, |fields|, MacroState(old(packList), old(unpackList), 8))
    {
      hide FieldStep;
      bits := 8;
      ghost var start := State();
      var k := 0;
      while k < |fields|
        invariant 0 <= k <= |fields|
        invariant State() == Walk(fields, k, start)
        invariant AlignedBefore(fields, k)
      {
        BitsAt(fields, k, start);
        AlignedMore(fields, k);
        ok := BuildField(fields[k], k);
        if !ok {
          AlignedPrefix(fields, k + 1);
          return;
        }
        k := k + 1;
      }
      BitsAt(fields, k, start);
      ok := bits == 8;
    }
  }
}
