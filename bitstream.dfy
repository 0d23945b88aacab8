/**
 * The reference picture of the wire format: a record is one stream of bits,
 * each field written most significant bit first, and the stream is cut into
 * bytes eight bits at a time, the first bit of each group being the byte's
 * bit 7.
 */
module Bitstream {
  import opened BitOps

  /** The w low bits of v, most significant first. */
  function ToBits(v: nat, w: nat): (s: seq<bool>)
    ensures |s| == w
  {
    if w == 0 then [] else ToBits(v / 2, w - 1) + [v % 2 == 1]
  }

  /** The number a bit string denotes, its first bit being the most significant. */
  function FromBits(s: seq<bool>): (n: nat)
    ensures n < Pow2(|s|)
  {
    if s == [] then 0
    else 2 * FromBits(s[..|s| - 1]) + (if s[|s| - 1] then 1 else 0)
  }

  /** Eight bits per byte, bit 7 first. */
  function BytesToBits(bs: seq<byte>): (s: seq<bool>)
    ensures |s| == 8 * |bs|
  {
    if bs == [] then [] else BytesToBits(bs[..|bs| - 1]) + ToBits(bs[|bs| - 1], 8)
  }

  /** Groups of eight bits, the first of each group becoming bit 7 of its byte. */
  function BitsToBytes(s: seq<bool>): (bs: seq<byte>)
    requires |s| % 8 == 0
    ensures |bs| == |s| / 8
  {
    if s == [] then []
    else
      assert Pow2(8) == 256;
      BitsToBytes(s[..|s| - 8]) + [FromBits(s[|s| - 8..])]
  }

  /** Writing the w low bits of v and reading them back gives the w low bits of v. */
  lemma {:induction false} FromToBits(v: nat, w: nat)
    ensures FromBits(ToBits(v, w)) == Low(v, w)
  {
    if w > 0 {
      var t := ToBits(v / 2, w - 1);
      assert ToBits(v, w)[..w - 1] == t;
      FromToBits(v / 2, w - 1);
    }
  }

  /** Eight bits make one byte. */
  lemma BitsToBytesOne(s: seq<bool>)
    requires |s| == 8
    ensures BitsToBytes(s) == [FromBits(s)]
  {
    assert s[..0] == [] && s[0..] == s;
  }

  /** Cutting a concatenation of whole bytes into bytes cuts each part. */
  lemma {:induction false} BitsToBytesAppend(a: seq<bool>, b: seq<bool>)
    requires |a| % 8 == 0 && |b| % 8 == 0
    ensures BitsToBytes(a + b) == BitsToBytes(a) + BitsToBytes(b)
    decreases |b|
  {
    if b == [] {
      assert a + b == a;
    } else {
      var n := |a + b|;
      var c := b[..|b| - 8];
      assert (a + b)[..n - 8] == a + c;
      assert (a + b)[n - 8..] == b[|b| - 8..];
      BitsToBytesAppend(a, c);
    }
  }

  /** Reading a bit string as a number and writing it back with the same width gives the string. */
  lemma {:induction false} ToFromBits(s: seq<bool>)
    ensures ToBits(FromBits(s), |s|) == s
  {
    if s != [] {
      var n := |s|;
      var f := FromBits(s[..n - 1]);
      var x := FromBits(s);
      assert x / 2 == f && (x % 2 == 1) == s[n - 1];
      ToFromBits(s[..n - 1]);
      assert s == s[..n - 1] + [s[n - 1]];
    }
  }

  /** The w-bit picture of v depends on the w low bits of v only. */
  lemma ToBitsLow(v: nat, w: nat)
    ensures ToBits(v, w) == ToBits(Low(v, w), w)
  {
    ToFromBits(ToBits(v, w));
    FromToBits(v, w);
  }

  /** The bits of a concatenation denote the first part shifted past the second. */
  lemma {:induction false} FromBitsAppend(a: seq<bool>, b: seq<bool>)
    ensures FromBits(a + b) == Shl(FromBits(a), |b|) + FromBits(b)
  {
    if b == [] {
      assert a + b == a;
    } else {
      var c := b[..|b| - 1];
      var bit := if b[|b| - 1] then 1 else 0;
      assert FromBits(a + b) == 2 * FromBits(a + c) + bit by {
        assert (a + b)[..|a + b| - 1] == a + c;
        assert (a + b)[|a + b| - 1] == b[|b| - 1];
      }
      FromBitsAppend(a, c);
    }
  }

  /** The w-bit picture of v is the picture of its high part followed by its m low bits. */
  lemma {:induction false} ToBitsSplit(v: nat, w: nat, m: nat)
    requires m <= w
    ensures ToBits(v, w) == ToBits(Shr(v, m), w - m) + ToBits(v, m)
  {
    if m > 0 {
      ToBitsSplit(v / 2, w - 1, m - 1);
    }
  }

  /** Bits i..j of the w-bit picture of v are the (j-i)-bit picture of v shifted right by w-j. */
  lemma ToBitsSlice(v: nat, w: nat, i: nat, j: nat)
    requires i <= j <= w
    ensures ToBits(v, w)[i..j] == ToBits(Shr(v, w - j), j - i)
  {
    var u := Shr(v, w - j);
    var all := ToBits(v, w);
    var high := ToBits(u, j);
    var low := ToBits(v, w - j);
    var top := ToBits(Shr(u, j - i), i);
    var mid := ToBits(u, j - i);
    assert all == high + low by {
      ToBitsSplit(v, w, w - j);
    }
    assert high == top + mid by {
      ToBitsSplit(u, j, j - i);
    }
    ConcatSlice(top, mid, low);
  }

  lemma ConcatSlice<T>(a: seq<T>, b: seq<T>, c: seq<T>)
    ensures ((a + b) + c)[|a|..|a| + |b|] == b
  {
    assert ((a + b) + c)[|a|..|a| + |b|] == (a + b)[|a|..];
  }

  /** The value of bits i..j of the w-bit picture of v: `(v >> (w - j)) & ones(j - i)`. */
  lemma SliceValue(v: nat, w: nat, i: nat, j: nat)
    requires i <= j <= w
    ensures FromBits(ToBits(v, w)[i..j]) == Low(Shr(v, w - j), j - i)
  {
    ToBitsSlice(v, w, i, j);
    FromToBits(Shr(v, w - j), j - i);
  }

  /** Byte o of a buffer occupies bits 8o..8o+8 of its bit stream. */
  lemma {:induction false} BytesToBitsAt(bs: seq<byte>, o: nat)
    requires o < |bs|
    ensures BytesToBits(bs)[8 * o..8 * o + 8] == ToBits(bs[o], 8)
  {
    var n := |bs|;
    if o < n - 1 {
      BytesToBitsAt(bs[..n - 1], o);
      assert BytesToBits(bs)[..8 * (n - 1)] == BytesToBits(bs[..n - 1]);
      assert BytesToBits(bs)[8 * o..8 * o + 8] == BytesToBits(bs)[..8 * (n - 1)][8 * o..8 * o + 8];
    }
  }

  /** Bits a..b of byte o are bits 8o+a..8o+b of the buffer's stream. */
  lemma BitsOfByte(bs: seq<byte>, o: nat, a: nat, b: nat)
    requires o < |bs| && a <= b <= 8
    ensures BytesToBits(bs)[8 * o + a..8 * o + b] == ToBits(bs[o], 8)[a..b]
  {
    var base := 8 * o;
    var s := BytesToBits(bs);
    BytesToBitsAt(bs, o);
    assert s[base..base + 8] == ToBits(bs[o], 8);
    SliceOfSlice(s, base, base + 8, a, b);
  }

  lemma SliceOfSlice<T>(s: seq<T>, lo: nat, hi: nat, a: nat, b: nat)
    requires lo <= hi <= |s| && a <= b <= hi - lo
    ensures s[lo..hi][a..b] == s[lo + a..lo + b]
  {
    var l := s[lo..hi][a..b];
    var r := s[lo + a..lo + b];
    assert |l| == |r|;
    forall k | 0 <= k < |l|
      ensures l[k] == r[k]
    {
      assert l[k] == s[lo..hi][a + k] == s[lo + a + k];
    }
  }

  /** The first m bytes of a buffer give the first 8m bits of its stream. */
  lemma {:induction false} BytesToBitsPrefix(bs: seq<byte>, m: nat)
    requires m <= |bs|
    ensures BytesToBits(bs[..m]) == BytesToBits(bs)[..8 * m]
  {
    var n := |bs|;
    if m < n {
      BytesToBitsPrefix(bs[..n - 1], m);
      assert bs[..n - 1][..m] == bs[..m];
      assert BytesToBits(bs)[..8 * (n - 1)] == BytesToBits(bs[..n - 1]);
      assert BytesToBits(bs)[..8 * m] == BytesToBits(bs)[..8 * (n - 1)][..8 * m];
    } else {
      assert bs[..m] == bs;
    }
  }

  /** Cutting the bit stream of a buffer back into bytes gives the buffer. */
  lemma {:induction false} BytesBitsBytes(bs: seq<byte>)
    ensures BitsToBytes(BytesToBits(bs)) == bs
  {
    hide ToBits, Low;
    if bs != [] {
      var n := |bs|;
      var init := bs[..n - 1];
      var last := bs[n - 1];
      var s := BytesToBits(bs);
      var head := BytesToBits(init);
      var tail := ToBits(last, 8);
      assert s == head + tail;
      assert s[..|s| - 8] == head && s[|s| - 8..] == tail by {
        ConcatParts(head, tail);
      }
      assert FromBits(tail) == last by {
        FromToBits(last, 8);
        assert Pow2(8) == 256;
        LowOfSmall(last, 8);
      }
      BytesBitsBytes(init);
      assert bs == init + [last];
    }
  }

  lemma ConcatParts<T>(a: seq<T>, b: seq<T>)
    ensures (a + b)[..|a|] == a && (a + b)[|a|..] == b
  {
  }

  /** Cutting a bit string into bytes and spelling the bytes out again gives the string. */
  lemma {:induction false} BitsBytesBits(s: seq<bool>)
    requires |s| % 8 == 0
    ensures BytesToBits(BitsToBytes(s)) == s
  {
    hide FromBits, ToBits;
    if s != [] {
      var m := |s| - 8;
      var init := s[..m];
      var last := s[m..];
      var bs := BitsToBytes(s);
      assert bs == BitsToBytes(init) + [FromBits(last)];
      assert bs[..|bs| - 1] == BitsToBytes(init);
      BitsBytesBits(init);
      ToFromBits(last);
      assert BytesToBits(bs) == BytesToBits(BitsToBytes(init)) + ToBits(FromBits(last), 8);
      assert s == init + last;
    }
  }
}
