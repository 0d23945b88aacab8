# bitwrap: the bit-layout engine of the `BitWrap` derive

`#[derive(BitWrap)]` turns a struct whose fields carry `#[bits(w)]` or
`#[bitfield]` attributes into an implementation of `pack` and `unpack`. The
derive's `BitWrapMacro` walks the fields in declaration order. It keeps one
counter, `bits`: the number of bits still free in the current byte. For each
field it appends statements to two token lists, one forming the body of
`pack(&self, dst: &mut Vec<u8>) -> usize` and the other the body of
`unpack(&mut self, src: &[u8]) -> usize`.

This project models the engine and proves what the generated code does.

- **`BitOps`** models the byte operators the generated code uses on natural numbers: `|`, `&`, `>>`, `<<`, `as u8`, and the mask literal `0xFFu8 >> (8 - n)`.
- **`Bitstream`** gives the reference picture of the wire format. A record is one stream of bits, each field most significant bit first. The stream is cut into bytes, and the first bit of each group of eight becomes bit 7.
- **`Schema`** describes a layout as a sequence of fields: `Bits(w)`, `Bitfield` or `Plain`. It also gives the layout's reference encoding (`Encode`) and decoding (`Decode`).
- **`Derive`** holds the class `BitWrapMacro`.
  - Its fields are `packList`, `unpackList` and `bits`.
  - Its methods `BuildFieldBits`, `BuildUnpackBitfield`, `BuildField` and `Build` mirror the derive's own methods, loop by loop.
  - The emitted statements are values of `PackOp`, `Term` and `UnpackOp`.
  - The function `Walk` specifies what `Build` leaves.
  - Lemmas cover the counter, byte counts and single assignment.
- **`Generated`** gives the meaning of the emitted statements.
  - `RunPack` and `RunUnpack` run the statement lists.
  - The class `Record` executes them with a `while` loop: `Pack` appends to a `ByteVec`, and `Unpack` reads an `array<byte>` with a mutable `offset`.
- **`Correctness`** proves that the generated code matches the reference meaning:
  - the generated `pack` emits the record's MSB-first bit stream;
  - the generated `unpack` panics exactly where the reference decoding runs out of input, and otherwise returns the same fields and byte count.
- **`Roundtrip`** proves the round trips and modular behaviour on top of that.
- **`Pipeline`** puts the pieces together: it creates a `BitWrapMacro`, runs `Build` on a layout, and calls `Record.Pack` or `Record.Unpack` with the lists `Build` produced.
- **`Vectors`** works two of the crate's tests through the model. This includes the nested structs F1 and F2 of tests/bitfield.rs, each derived on its own.

The generated `unpack` can panic in three ways:

- an index past the end of `src`;
- a failing `debug_assert!`;
- a slice `src[offset ..]` that starts past the end.

The model represents each of these as `None`. A nested struct's own `unpack` is a parameter `nested: (nat, seq<byte>) -> nat`: given the field's index and the bytes it is handed, it gives the byte count that field's `unpack` returns. Nested fields of different types can therefore report different counts for the same bytes.

The code and the crate's tests disagree on one point. `build_field` emits no pack statement for a `#[bitfield]` field (bitwrap_derive/src/lib.rs:113-121 adds to `unpack_list` only). tests/bitfield.rs:43-47 nevertheless expects `pack` to reproduce all 7 bytes. The model follows the code: `Vectors.NestedPack` proves that the generated `pack` appends `[0xA5, 0x5B, 0xAA]` for that record, not the 7 bytes. As a result, the pack round trips are stated for layouts without `#[bitfield]`.

## Model

| member | source | states |
|---|---|---|
| Derive.BitWrapMacro.constructor | bitwrap_derive/src/lib.rs:25-32 | `new` starts with both statement lists empty and the counter at 0 |
| Derive.BitWrapMacro.BuildFieldBits | bitwrap_derive/src/lib.rs:34-111 | for a w-bit field, the loop and the tail append the statements `FieldStep` specifies, and the counter moves to 8 - (8 - bits + w) % 8. The loop's invariant ties the partly emitted lists to that specification |
| Derive.BitWrapMacro.BuildUnpackBitfield | bitwrap_derive/src/lib.rs:113-121 | succeeds iff the counter is 8; then it appends only the nested `unpack` call and nothing to the pack list; otherwise it changes nothing (the assertion panics) |
| Derive.BitWrapMacro.BuildField | bitwrap_derive/src/lib.rs:123-139 | dispatches on the attribute; fails only for a misaligned `#[bitfield]`; a field without a bitwrap attribute emits nothing |
| Derive.BitWrapMacro.Build | bitwrap_derive/src/lib.rs:141-154 | accepts a layout iff every nested struct starts on a byte boundary and the total of the widths is a multiple of 8; on success the lists are `Walk` of the fields from counter 8 |
| Derive.NextFree | bitwrap_derive/src/lib.rs:58-74 | the counter after a field stays within 1..8 |
| Derive.Walk | bitwrap_derive/src/lib.rs:99-101 | the counter stays within 1..8 after every prefix of the fields (a counter of 0 rolls over to 8) |
| Derive.BitsAt | bitwrap_derive/src/lib.rs:58-110 | before field k the counter equals 8 - S % 8, where S is the total width of the fields before k |
| Derive.SliceMore | bitwrap_derive/src/lib.rs:58-74 | the closed-form counter `NextFree` agrees with one loop iteration (`bits -= self.bits; self.bits = 8`); the list equations are the unfolding `BuildFieldBits` relies on |
| Derive.SliceLast | bitwrap_derive/src/lib.rs:76-110 | the closed-form counter agrees with the tail (`self.bits -= bits`, 0 rolling over to 8); the list equations are the unfolding `BuildFieldBits` relies on |
| Derive.PackSlices | bitwrap_derive/src/lib.rs:58-105 | the pack statements for the rest of a field: per loop iteration the high-slice OR, `dst.push(b)` and `let b = 0;`, then the tail OR, shifted iff `shift != 0`. The list is never empty and every OR reads field k |
| Derive.SlicesEnd | bitwrap_derive/src/lib.rs:99-105 | a field's last pack statement is `dst.push(b)` exactly when the counter rolls over to 8, i.e. the field ends on a byte boundary |
| Derive.UnpackTerms | bitwrap_derive/src/lib.rs:68-97 | the operands for the rest of a field: a post-incremented `src[offset++]` per loop iteration, then the tail's `src[offset]`, shifted iff `shift != 0`. Every operand but the last post-increments `offset` |
| Derive.SlicePushes | bitwrap_derive/src/lib.rs:58-105 | a field's pack statements push one byte per byte boundary they cross: (8 - free + rem) / 8 |
| Derive.TermTakes | bitwrap_derive/src/lib.rs:68-109 | a field's unpack reads move `offset` on at exactly as many byte boundaries as pack pushes |
| Derive.FieldBytes | bitwrap_derive/src/lib.rs:58-110 | after S bits, a field of width w makes pack push, and unpack advance, (S % 8 + w) / 8 bytes (lockstep) |
| Derive.PackPushes | bitwrap_derive/src/lib.rs:62-66 | after fields of total width S, the generated pack body contains exactly S / 8 `dst.push(b)` statements |
| Derive.UnpackAdvances | bitwrap_derive/src/lib.rs:68-69 | after fields of total width S, the generated unpack body increments `offset` by 1 exactly S / 8 times, counting post-increments and `offset += 1` but not the nested `offset +=` |
| Derive.WalkNoNested | bitwrap_derive/src/lib.rs:118-120 | without `#[bitfield]` fields the unpack body has no nested `unpack` call |
| Generated.PackStep | bitwrap_derive/src/lib.rs:44-105 | the meaning of `let b = 0;` (45, 65), the three OR forms (63, 81, 85) and `dst.push(b)` (64, 104): only the push touches `dst`, and it appends `b`; `let b = 0;` leaves `b` at 0; every other statement keeps every bit `b` already had |
| Generated.RunPack | bitwrap_derive/src/lib.rs:162-166 | the pack statements run in order; what `dst` held before stays in front of what they append |
| Generated.EvalTerms | bitwrap_derive/src/lib.rs:68-97 | the operands of one assignment ORed left to right, `src[offset++]` moving `offset`. It panics iff the byte the last operand reads (`offset` plus the post-increments before it) is past the end of `src`; it never moves `offset` back |
| Generated.UnpackStep | bitwrap_derive/src/lib.rs:48-120 | the meaning of the `debug_assert!` (49), an assignment (54-97), `offset += 1` (108) and the nested `offset += self.f.unpack(&src[offset ..])` (119): a statement that does not panic never moves `offset` back, keeps the struct's fields, and changes no field but the one it assigns |
| Generated.RunUnpack | bitwrap_derive/src/lib.rs:168-172 | the unpack statements run in order, stopping at the first panic; a run never moves `offset` back, and a field that no statement assigns keeps its value |
| Generated.RunPackPushes | bitwrap_derive/src/lib.rs:64 | a run of pack statements grows `dst` by one byte per `dst.push(b)` among them |
| Generated.EvalTermsTakes | bitwrap_derive/src/lib.rs:69 | an assignment that does not panic moves `offset` on once per operand that takes a whole byte |
| Generated.RunUnpackAdvances | bitwrap_derive/src/lib.rs:107-109 | a run of unpack statements without nested calls that does not panic moves `offset` on by exactly its increments |
| Generated.PackLength | bitwrap_derive/src/lib.rs:162-166 | for every layout the derive walks, the generated `pack` returns the total width / 8 |
| Generated.UnpackLength | bitwrap_derive/src/lib.rs:168-172 | without nested structs, the generated `unpack` that does not panic returns the same count as pack (lockstep on runs) |
| Derive.FieldWrites | bitwrap_derive/src/lib.rs:123-139 | a field's unpack statements assign only that field, once, unless it has no bitwrap attribute |
| Derive.WritesOnce | bitwrap_derive/src/lib.rs:54-56 | the unpack body assigns every `bits` and `bitfield` field exactly once and never assigns a field without an attribute |
| BitOps.LowMaskIsShr | bitwrap_derive/src/lib.rs:60 | the mask the derive embeds is `0xFFu8 >> (8 - n)` |
| BitOps.AndLowMask | bitwrap_derive/src/lib.rs:77 | `x & mask` keeps the n low bits of x |
| Bitstream.SliceValue | bitwrap_derive/src/lib.rs:59-63 | `(v >> (w - j)) & mask(j - i)` is the value of bits i..j of v's w-bit MSB-first picture |
| Bitstream.FromToBits | bitwrap_derive/src/lib.rs:160-174 | a property of the reference bit-stream picture that `Schema.Encode`/`Decode` give of the generated `pack`/`unpack`, not of one generated statement: reading back the w bits written for v gives v modulo 2^w (used by `Correctness.OrHighFills` and `Roundtrip.DecodeEncode`) |
| Bitstream.ToFromBits | bitwrap_derive/src/lib.rs:160-174 | a property of the reference bit-stream picture: rewriting the value read from a bit string reproduces the string (used by `Roundtrip.EncodeDecode`) |
| Bitstream.BitsBytesBits | bitwrap_derive/src/lib.rs:160-174 | a property of the reference bit-stream picture: cutting a whole-byte bit stream into bytes and spelling them out gives the stream (used by `Roundtrip.DecodeEncode`) |
| Bitstream.BytesBitsBytes | bitwrap_derive/src/lib.rs:160-174 | a property of the reference bit-stream picture: spelling out a buffer's bits and cutting them into bytes gives the buffer (used by `Roundtrip.EncodeDecode`) |
| Generated.Record.Pack | bitwrap_derive/src/lib.rs:162-166 | `pack` leaves the old contents of `dst` in place, appends exactly the bytes the statements produce, and returns how many it appended |
| Generated.Record.Unpack | bitwrap_derive/src/lib.rs:168-172 | `unpack` returns `None` exactly where the statements panic; otherwise the fields are those the statements leave, and it returns the final `offset` |
| Generated.EvalTermsM | bitwrap_derive/src/lib.rs:69 | evaluates one assignment's operands left to right with post-incremented `offset`, as `EvalTerms` specifies |
| Generated.RunPackOut | bitwrap_derive/src/lib.rs:163-165 | pack only appends to `dst`, and what it appends does not depend on what `dst` held |
| Correctness.OrHighFills | bitwrap_derive/src/lib.rs:59-63 | the loop's OR completes the current byte with the top `free` bits of the field's remaining bits, after the pending ones |
| Correctness.OrLowShlPlaces | bitwrap_derive/src/lib.rs:76-82 | the shifted tail OR places the field's last bits right after the pending ones, MSB first |
| Correctness.OrLowCompletes | bitwrap_derive/src/lib.rs:84-86 | the unshifted tail OR fills the byte exactly |
| Correctness.PackSlicesPlace | bitwrap_derive/src/lib.rs:58-105 | a field's pack statements append its bits to the stream: every byte completed is pushed; the rest waits in `b` |
| Correctness.FieldPlace | bitwrap_derive/src/lib.rs:123-139 | each field's pack statements extend the packed stream by that field's bits (nothing for `bitfield` and plain fields) |
| Correctness.PackWalk | bitwrap_derive/src/lib.rs:150-152 | after the first k fields' statements, pack has placed exactly those fields' MSB-first bit stream |
| Correctness.PackCorrect | bitwrap_derive/src/lib.rs:160-166 | for every accepted layout, the generated `pack` appends the record's bit stream cut into bytes, bit 7 first |
| Correctness.TermsRead | bitwrap_derive/src/lib.rs:68-97 | an assignment's operands read exactly the next w stream bits and leave `offset` at the byte holding the last one; they index past `src` iff those bits run past its end |
| Correctness.AssignRead | bitwrap_derive/src/lib.rs:54-110 | the assignment of a w-bit field, with its `offset += 1`, decodes that field as the reference does, or panics exactly where the reference fails |
| Correctness.BitsRead | bitwrap_derive/src/lib.rs:43-52 | with the `debug_assert!` at a byte start included, a `bits` field still panics exactly where its bits run past `src` |
| Correctness.FieldRead | bitwrap_derive/src/lib.rs:118-137 | each field's unpack statements agree with the reference decoding of that field; a nested struct gets `src[offset ..]` and moves `offset` by its own count |
| Correctness.UnpackWalk | bitwrap_derive/src/lib.rs:150-152 | after the first k fields' statements, unpack panics iff the reference decoding fails, and otherwise holds the same fields with `offset` = the bit position / 8 |
| Correctness.UnpackCorrect | bitwrap_derive/src/lib.rs:168-172 | for every accepted layout, `unpack` panics iff the reference decoding fails; otherwise it leaves the decoded fields and returns the bytes consumed |
| Roundtrip.DecodeEncode | bitwrap_derive/src/lib.rs:68-96 | decoding a record's encoding recovers every `bits` field modulo 2^w, leaves the rest as they were, and consumes the sum of widths / 8 bytes |
| Roundtrip.UnpackPacked | bitwrap_derive/src/lib.rs:160-174 | the generated `unpack` applied to what the generated `pack` wrote: same result as DecodeEncode, and it returns the byte count pack produced |
| Roundtrip.EncodeDecode | bitwrap_derive/src/lib.rs:68-96 | a buffer long enough always decodes, and encoding the decoded record reproduces the bytes read |
| Roundtrip.PackUnpacked | bitwrap_derive/src/lib.rs:160-174 | the generated `pack` of what the generated `unpack` read reproduces the bytes it read |
| Roundtrip.DecodeEncodePrefix | bitwrap_derive/src/lib.rs:68-96 | decoding a buffer that begins with a record's encoding ignores the bytes that follow |
| Roundtrip.UnpackPackedPrefix | bitwrap_derive/src/lib.rs:160-174 | the generated `unpack` of a buffer that begins with what the generated `pack` wrote reads only those bytes and recovers every field modulo 2^w |
| Roundtrip.DecodeLength | bitwrap_derive/src/lib.rs:68-97 | without nested structs, the reference decoding fails iff the buffer holds fewer bits than the fields; otherwise it ends at their total |
| Roundtrip.UnpackShort | bitwrap_derive/src/lib.rs:168-172 | for an accepted layout without nested structs, the generated `unpack` panics iff 8·|src| < the total width, and otherwise returns total / 8 |
| Roundtrip.StreamLowBits | bitwrap_derive/src/lib.rs:60-65 | records with the same w low bits in every `bits` field have the same bit stream |
| Roundtrip.PackModulo | bitwrap_derive/src/lib.rs:77-86 | pack depends only on each field's value modulo 2^w; without nested structs, equal output also implies equal values modulo 2^w |
| Roundtrip.DecodeKeepsPlain | bitwrap_derive/src/lib.rs:124-137 | the reference decoding never changes a field without a bitwrap attribute |
| Roundtrip.UnpackKeepsPlain | bitwrap_derive/src/lib.rs:124-137 | the generated `unpack` never changes a field without a bitwrap attribute |
| Vectors.PacketPack | tests/bits_no_std.rs:26-30 | packing (0x29, 0x05, 0x1B) with widths 6, 4, 6 appends [0xA5, 0x5B] |
| Vectors.PacketUnpack | tests/bits_no_std.rs:18-24 | unpacking [0xA5, 0x5B] gives 0x29, 0x05, 0x1B and returns 2 |
| Vectors.NestedDecode | tests/bitfield.rs:30-41 | the reference decoding of the test's buffer: the `bits` fields are 0x29, 0x05, 0x1B and 0xAA, the nested structs are handed the bytes from 2 and from 4 on, and 7 bytes are consumed |
| Vectors.NestedUnpack | tests/bitfield.rs:30-41 | the generated `unpack` of the test's buffer gives the same and returns 7 |
| Vectors.Inner1Encoding | tests/bitfield.rs:8-12 | F1 with skip_2 = 0x0F and or_mask_test = 0x0567 encodes as [0xF5, 0x67] |
| Vectors.Inner2Encoding | tests/bitfield.rs:14-18 | F2 with or_rshift_test = 0x1135 and skip_3 = 0x07 encodes as [0x89, 0xAF] |
| Vectors.InnerUnpack1 | tests/bitfield.rs:37-38 | F1's generated `unpack` of the bytes from 2 on gives skip_2 = 0x0F and or_mask_test = 0x0567, and returns 2 (the count `NestedCount` supplies) |
| Vectors.InnerUnpack2 | tests/bitfield.rs:39-40 | F2's generated `unpack` of the bytes from 4 on gives or_rshift_test = 0x1135 and skip_3 = 0x07, and returns 2 |
| Pipeline.DerivePack | bitwrap_derive/src/lib.rs:141-166 | the derive accepts a layout iff it is aligned and whole bytes; then `pack` appends the record's encoding to `dst` and returns its length; otherwise `dst` is untouched |
| Pipeline.DeriveUnpack | bitwrap_derive/src/lib.rs:141-172 | the derive accepts a layout iff it is aligned and whole bytes; then `unpack` panics iff the reference decoding fails, and otherwise leaves the decoded fields and returns the bytes consumed |
| Vectors.NestedPack | tests/bitfield.rs:43-47 | the generated `pack` of that record appends [0xA5, 0x5B, 0xAA], not the 7 bytes the test expects |

## Left out

- The proc-macro machinery is not part of this model: `syn` parsing, `quote!` token building, the `bitwrap_derive` entry point, and the panics on a malformed attribute (bitwrap_derive/src/lib.rs:35-38, 124-132, 179-189). A struct's layout is given directly as a sequence of `Field`. A field carrying several bitwrap attributes is not modelled: each field has at most one.
- Tuple and unit structs hit `unimplemented!()` (bitwrap_derive/src/lib.rs:146-147) and are not modelled.
- `#[bits(0)]` is excluded (every width is at least 1). `0xFFu8 >> 8` overflows in the derive itself.
- Storage types and Rust casts are not modelled. Field values are unbounded naturals, and `as #ty` on a type narrower than the field is not represented. The model's unpack therefore yields the exact w-bit value.
- Generated.NumAt and Generated.SetAt are total: an index that is not a field, or a field not holding a number, reads as 0 or is ignored. Generated code only names the struct's own fields, so this never matters for code `Build` emits.
- Nested structs' own `pack` and `unpack` are not modelled. The derive emits no pack for them. Their unpack is the parameter `nested`, which gives the byte count for each field index and input. A panic inside it is not represented.
- Generated.Record.Pack and Generated.Record.Unpack take the statement list as an argument instead of being specialised per struct; `Correctness` connects them to `Build`'s lists.
- Pack round trips (Roundtrip.DecodeEncode, UnpackPacked, EncodeDecode, PackUnpacked, the converse half of PackModulo) require layouts without `#[bitfield]`, since the derive packs nothing for those fields.
- The `BitWrap` trait declaration (src/lib.rs) holds no logic.
- Test dialects from other versions of the crate are not modelled: `#[bits]` without a width, `bits_skip`, `bitfield(n)`, `bytes`, eq/min/max checks, `Result`-returning `pack`/`unpack`, and `pack` into a fixed array. For tests/bits_no_std.rs, the model packs into a growing byte vector.
- The IPv4 vector of tests/complex.rs relies on those dialects and on standard-library codecs, so it is not worked through.
- The assertions of tests/macro.rs are commented out in the source.
