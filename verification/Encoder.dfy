/** The base-32 encoder: a bit accumulator, and the bit stream it reads. */
module Encoder {
  import opened Bytes

  const ALPHABET: seq<byte> := [
    0x41, 0x42, 0x43, 0x44, 0x45, 0x46, 0x47, 0x48, 0x4A, 0x4B, 0x4C, 0x4D, 0x4E, 0x50, 0x51, 0x52,
    0x53, 0x54, 0x55, 0x56, 0x57, 0x58, 0x59, 0x5A, 0x32, 0x33, 0x34, 0x35, 0x36, 0x37, 0x38, 0x39
  ]

  type bit = x: int | 0 <= x < 2

  /** The low `n` bits of a number, most significant first. */
  function ToBits(x: nat, n: nat): (s: seq<bit>)
    ensures |s| == n
  {
    if n == 0 then [] else ToBits(x / 2, n - 1) + [x % 2]
  }

  function Value(s: seq<bit>): nat {
    if s == [] then 0 else 2 * Value(s[..|s| - 1]) + s[|s| - 1]
  }

  lemma {:induction false} ValueBound(s: seq<bit>)
    ensures Value(s) < Pow2(|s|)
  {
    if s != [] {
      ValueBound(s[..|s| - 1]);
    }
  }

  // ---- Shifts and masks of an unsigned integer ----

  /** `x << n`, no bit lost. */
  function ShiftLeft(x: nat, n: nat): nat {
    if n == 0 then x else 2 * ShiftLeft(x, n - 1)
  }

  /** `x >> n`. */
  function ShiftRight(x: nat, n: nat): nat {
    if n == 0 then x else ShiftRight(x / 2, n - 1)
  }

  /** `x & ((1 << n) - 1)`. */
  function Mask(x: nat, n: nat): nat {
    if n == 0 then 0 else 2 * Mask(x / 2, n - 1) + x % 2
  }

  lemma {:induction false} ValueAppend(s: seq<bit>, x: nat, n: nat)
    requires x < Pow2(n)
    ensures Value(s + ToBits(x, n)) == ShiftLeft(Value(s), n) + x
  {
    if n == 0 {
      assert s + ToBits(x, n) == s;
    } else {
      var t := s + ToBits(x, n);
      ValueAppend(s, x / 2, n - 1);
      assert t[..|t| - 1] == s + ToBits(x / 2, n - 1);
    }
  }

  lemma {:induction false} ValueShiftRight(s: seq<bit>, n: nat)
    requires n <= |s|
    ensures ShiftRight(Value(s), n) == Value(s[..|s| - n])
  {
    if n == 0 {
      assert s[..|s|] == s;
    } else {
      var t := s[..|s| - 1];
      ValueShiftRight(t, n - 1);
      assert Value(s) / 2 == Value(t);
      assert t[..|t| - (n - 1)] == s[..|s| - n];
    }
  }

  lemma {:induction false} ValueMask(s: seq<bit>, n: nat)
    requires n <= |s|
    ensures Mask(Value(s), n) == Value(s[|s| - n..])
  {
    if n > 0 {
      var t, u := s[..|s| - 1], s[|s| - n..];
      ValueMask(t, n - 1);
      assert Value(s) / 2 == Value(t) && Value(s) % 2 == s[|s| - 1];
      assert u[..|u| - 1] == t[|t| - (n - 1)..];
    }
  }

  lemma {:induction false} ValueInjective(s: seq<bit>, t: seq<bit>)
    requires |s| == |t| && Value(s) == Value(t)
    ensures s == t
  {
    if s != [] {
      ValueInjective(s[..|s| - 1], t[..|t| - 1]);
      assert s == s[..|s| - 1] + [s[|s| - 1]] && t == t[..|t| - 1] + [t[|t| - 1]];
    }
  }

  /** The bytes as one stream of bits, the first byte and its top bit first. */
  function Stream(bs: seq<byte>): (s: seq<bit>)
    ensures |s| == 8 * |bs|
  {
    seq(8 * |bs|, j requires 0 <= j < 8 * |bs| => ToBits(bs[j / 8], 8)[j % 8])
  }

  /** Character `i` is the alphabet entry of bits 5i to 5i + 4 of the stream. */
  function CharAt(bs: seq<byte>, i: nat): byte
    requires 5 * (i + 1) <= 8 * |bs|
  {
    ValueBound(Stream(bs)[5 * i..5 * i + 5]);
    assert Pow2(5) == 32;
    ALPHABET[Value(Stream(bs)[5 * i..5 * i + 5])]
  }

  function Encoded(bs: seq<byte>, n: nat): (out: seq<byte>)
    requires 5 * n <= 8 * |bs|
    ensures |out| == n
  {
    seq(n, i requires 0 <= i < n => CharAt(bs, i))
  }

  // ---- The accumulator ----

  lemma TakeFive(s: seq<bit>)
    requires |s| >= 5
    ensures Mask(ShiftRight(Value(s), |s| - 5), 5) == Value(s[..5]) < 32
    ensures Mask(Value(s), |s| - 5) == Value(s[5..])
  {
    ValueShiftRight(s, |s| - 5);
    ValueMask(s[..5], 5);
    assert s[..5][0..] == s[..5];
    ValueMask(s, |s| - 5);
    ValueBound(s[..5]);
    assert Pow2(5) == 32;
  }

  lemma StreamByte(bs: seq<byte>, k: nat)
    requires k < |bs|
    ensures Stream(bs)[8 * k..8 * (k + 1)] == ToBits(bs[k], 8)
  {
    forall i | 0 <= i < 8 ensures Stream(bs)[8 * k + i] == ToBits(bs[k], 8)[i] {
      assert (8 * k + i) / 8 == k && (8 * k + i) % 8 == i;
    }
  }

  /** One byte shifted into the accumulator extends the window of unread bits. */
  lemma ShiftIn(bs: seq<byte>, from: nat, k: nat)
    requires k < |bs| && from <= 8 * k
    ensures Value(Stream(bs)[from..8 * (k + 1)]) == ShiftLeft(Value(Stream(bs)[from..8 * k]), 8) + bs[k]
    ensures Value(Stream(bs)[from..8 * (k + 1)]) < Pow2(8 * (k + 1) - from)
  {
    var s, mid, end := Stream(bs), 8 * k, 8 * (k + 1);
    StreamByte(bs, k);
    assert s[from..end] == s[from..mid] + s[mid..end];
    assert Pow2(8) == 256;
    ValueAppend(s[from..mid], bs[k], 8);
    ValueBound(s[from..end]);
  }

  /** The bits read but not yet emitted, as the accumulator holds them. */
  function Pending(bs: seq<byte>, from: nat, k: nat): nat
    requires from <= 8 * k <= 8 * |bs|
  {
    Value(Stream(bs)[from..8 * k])
  }

  /** With at most twelve bits waiting, the accumulator is below 4096: a 32-bit shift by eight loses nothing. */
  lemma AccumulatorFits(bs: seq<byte>, from: nat, k: nat)
    requires from <= 8 * k <= 8 * |bs| && 8 * k - from <= 12
    ensures Pending(bs, from, k) < Pow2(8 * k - from) <= 4096
  {
    ValueBound(Stream(bs)[from..8 * k]);
    Pow2Monotone(8 * k - from, 12);
    Pow2Of12();
  }

  lemma Pow2Of12()
    ensures Pow2(12) == 4096
  {
    assert Pow2(4) == 16;
    assert Pow2(8) == 256;
  }

  lemma {:induction false} Pow2Monotone(m: nat, n: nat)
    requires m <= n
    ensures Pow2(m) <= Pow2(n)
  {
    if m < n {
      Pow2Monotone(m, n - 1);
    }
  }

  lemma SplitWindow(s: seq<bit>, from: nat, to: nat)
    requires from + 5 <= to <= |s|
    ensures var acc, bits := Value(s[from..to]), to - from;
            && acc < Pow2(bits)
            && Mask(ShiftRight(acc, bits - 5), 5) == Value(s[from..from + 5]) < 32
            && Mask(acc, bits - 5) == Value(s[from + 5..to])
  {
    var window := s[from..to];
    ValueBound(window);
    TakeFive(window);
    assert window[..5] == s[from..from + 5] && window[5..] == s[from + 5..to];
  }

  lemma EncodedSnoc(bs: seq<byte>, m: nat)
    requires 5 * (m + 1) <= 8 * |bs|
    ensures Encoded(bs, m + 1) == Encoded(bs, m) + [CharAt(bs, m)]
  {
  }

  lemma Emit(bs: seq<byte>, i: nat, k: nat)
    requires 5 * (i + 1) <= 8 * k <= 8 * |bs|
    ensures var acc, bits := Pending(bs, 5 * i, k), 8 * k - 5 * i;
            && Mask(ShiftRight(acc, bits - 5), 5) < 32
            && ALPHABET[Mask(ShiftRight(acc, bits - 5), 5)] == CharAt(bs, i)
            && Mask(acc, bits - 5) == Pending(bs, 5 * (i + 1), k)
  {
    SplitWindow(Stream(bs), 5 * i, 8 * k);
  }

  /**
   * Read bytes until at least five bits wait. The accumulator never exceeds twelve bits, so
   * the 32-bit shift of the source loses nothing.
   */
  method Refill(bs: seq<byte>, ghost from: nat, acc0: nat, bits0: nat, byteIdx0: nat)
    returns (acc: nat, bits: nat, byteIdx: nat)
    requires from + 5 <= 8 * |bs| && byteIdx0 <= |bs| && bits0 == 8 * byteIdx0 - from && bits0 < 8
    requires acc0 == Pending(bs, from, byteIdx0)
    ensures byteIdx <= |bs| && bits == 8 * byteIdx - from && 5 <= bits <= 12
    ensures acc == Pending(bs, from, byteIdx) && acc < Pow2(bits) <= 4096
    ensures byteIdx == (from + 5 + 7) / 8
  {
    acc, bits, byteIdx := acc0, bits0, byteIdx0;
    while bits < 5
      invariant byteIdx <= |bs| && bits == 8 * byteIdx - from && bits <= 12
      invariant acc == Pending(bs, from, byteIdx)
    {
      ShiftIn(bs, from, byteIdx);
      acc := ShiftLeft(acc, 8) + bs[byteIdx];
      byteIdx := byteIdx + 1;
      bits := bits + 8;
    }
    AccumulatorFits(bs, from, byteIdx);
  }

  /** One character: refill, take the top five waiting bits, keep the rest. */
  method NextChar(bs: seq<byte>, ghost i: nat, acc0: nat, bits0: nat, byteIdx0: nat)
    returns (c: byte, acc: nat, bits: nat, byteIdx: nat)
    requires 5 * (i + 1) <= 8 * |bs| && byteIdx0 <= |bs| && bits0 == 8 * byteIdx0 - 5 * i && bits0 < 8
    requires acc0 == Pending(bs, 5 * i, byteIdx0)
    ensures c == CharAt(bs, i)
    ensures byteIdx == (5 * (i + 1) + 7) / 8 && byteIdx <= |bs| && bits == 8 * byteIdx - 5 * (i + 1) && bits < 8
    ensures acc == Pending(bs, 5 * (i + 1), byteIdx)
  {
    acc, bits, byteIdx := Refill(bs, 5 * i, acc0, bits0, byteIdx0);
    Emit(bs, i, byteIdx);
    var idx := Mask(ShiftRight(acc, bits - 5), 5);
    bits := bits - 5;
    acc := Mask(acc, bits);
    c := ALPHABET[idx];
  }

  /** Emit the top five waiting bits `n` times; ceil(5n / 8) bytes are read. */
  method EncodeSlots(bs: seq<byte>, out: array<byte>, n: nat) returns (bytesRead: nat)
    requires n <= out.Length && 5 * n <= 8 * |bs|
    modifies out
    ensures out[..n] == Encoded(bs, n) && out[n..] == old(out[n..])
    ensures bytesRead == (5 * n + 7) / 8
  {
    var acc, bits, byteIdx := 0, 0, 0;
    var i := 0;
    while i < n
      invariant 0 <= i <= n && out[..i] == Encoded(bs, i) && out[n..] == old(out[n..])
      invariant byteIdx == (5 * i + 7) / 8 && byteIdx <= |bs| && bits == 8 * byteIdx - 5 * i
      invariant 0 <= bits < 8 && acc == Pending(bs, 5 * i, byteIdx)
    {
      var c: byte;
      c, acc, bits, byteIdx := NextChar(bs, i, acc, bits, byteIdx);
      EncodedSnoc(bs, i);
      out[i] := c;
      i := i + 1;
    }
    bytesRead := byteIdx;
  }

  /** The host's form: sixteen characters, of which the caller takes the first `n`. */
  method EncodeHost(bs: seq<byte>, n: nat) returns (out: seq<byte>)
    requires n <= 16 && 5 * n <= 8 * |bs|
    ensures out == Encoded(bs, n) + Repeat(0x41, 16 - n)
  {
    var slots := new byte[16](_ => 0x41);
    assert slots[n..] == Repeat(0x41, 16 - n);
    var _ := EncodeSlots(bs, slots, n);
    assert slots[..] == slots[..n] + slots[n..];
    out := slots[..];
  }

  /** The embedded form: exactly `n` characters. */
  method EncodeEmbedded(bs: seq<byte>, n: nat) returns (out: seq<byte>)
    requires 5 * n <= 8 * |bs|
    ensures out == Encoded(bs, n)
  {
    var slots := new byte[n](_ => 0x41);
    var _ := EncodeSlots(bs, slots, n);
    assert slots[..] == slots[..n];
    out := slots[..];
  }

  // ---- What the encoding tells apart ----

  lemma AlphabetText()
    ensures ALPHABET == Ascii("ABCDEFGHJKLMNPQRSTUVWXYZ23456789")
  {
  }

  /** The alphabet is four ascending runs: A to H, J to N, P to Z and 2 to 9. */
  lemma AlphabetRuns(x: nat)
    requires x < 32
    ensures ALPHABET[x] ==
            if x < 8 then 0x41 + x else if x < 13 then 0x42 + x else if x < 24 then 0x43 + x else 0x1A + x
  {
  }

  lemma AlphabetInjective(x: nat, y: nat)
    requires x < 32 && y < 32 && ALPHABET[x] == ALPHABET[y]
    ensures x == y
  {
    AlphabetRuns(x);
    AlphabetRuns(y);
  }

  lemma EncodedIsAlphanumeric(bs: seq<byte>, n: nat)
    requires 5 * n <= 8 * |bs|
    ensures AllAlphanumeric(Encoded(bs, n))
  {
    forall i | 0 <= i < n ensures IsAlphanumeric(Encoded(bs, n)[i]) {
      ValueBound(Stream(bs)[5 * i..5 * i + 5]);
      assert Pow2(5) == 32;
      AlphabetRuns(Value(Stream(bs)[5 * i..5 * i + 5]));
    }
  }

  lemma SameCharIff(xs: seq<byte>, ys: seq<byte>, i: nat)
    requires 5 * (i + 1) <= 8 * |xs| && 5 * (i + 1) <= 8 * |ys|
    ensures CharAt(xs, i) == CharAt(ys, i) <==> Stream(xs)[5 * i..5 * i + 5] == Stream(ys)[5 * i..5 * i + 5]
  {
    var p, q := Stream(xs)[5 * i..5 * i + 5], Stream(ys)[5 * i..5 * i + 5];
    ValueBound(p);
    ValueBound(q);
    assert Pow2(5) == 32;
    if CharAt(xs, i) == CharAt(ys, i) {
      AlphabetInjective(Value(p), Value(q));
      ValueInjective(p, q);
    }
  }

  /** Two bit strings agree up to 5n exactly when their first n groups of five do. */
  lemma GroupsIff(s: seq<bit>, t: seq<bit>, n: nat)
    requires 5 * n <= |s| && 5 * n <= |t|
    ensures s[..5 * n] == t[..5 * n] <==> forall i :: 0 <= i < n ==> s[5 * i..5 * i + 5] == t[5 * i..5 * i + 5]
  {
    if s[..5 * n] == t[..5 * n] {
      forall i | 0 <= i < n ensures s[5 * i..5 * i + 5] == t[5 * i..5 * i + 5] {
        assert s[5 * i..5 * i + 5] == s[..5 * n][5 * i..5 * i + 5];
      }
    } else {
      var j :| 0 <= j < 5 * n && s[j] != t[j];
      var i, r := j / 5, j % 5;
      assert s[5 * i..5 * i + 5][r] == s[j] && t[5 * i..5 * i + 5][r] == t[j];
    }
  }

  /** Two digests give the same `n` characters exactly when their first 5n bits agree. */
  lemma SameEncodingIff(xs: seq<byte>, ys: seq<byte>, n: nat)
    requires 5 * n <= 8 * |xs| && 5 * n <= 8 * |ys|
    ensures Encoded(xs, n) == Encoded(ys, n) <==> Stream(xs)[..5 * n] == Stream(ys)[..5 * n]
  {
    var s, t := Stream(xs), Stream(ys);
    GroupsIff(s, t, n);
    if Encoded(xs, n) == Encoded(ys, n) {
      forall i | 0 <= i < n ensures s[5 * i..5 * i + 5] == t[5 * i..5 * i + 5] {
        assert CharAt(xs, i) == Encoded(xs, n)[i] == Encoded(ys, n)[i] == CharAt(ys, i);
        SameCharIff(xs, ys, i);
      }
    } else if s[..5 * n] == t[..5 * n] {
      SameGroupsSameChars(xs, ys, n);
    }
  }

  lemma SameGroupsSameChars(xs: seq<byte>, ys: seq<byte>, n: nat)
    requires 5 * n <= 8 * |xs| && 5 * n <= 8 * |ys|
    requires forall i :: 0 <= i < n ==> Stream(xs)[5 * i..5 * i + 5] == Stream(ys)[5 * i..5 * i + 5]
    ensures Encoded(xs, n) == Encoded(ys, n)
  {
    forall i | 0 <= i < n ensures Encoded(xs, n)[i] == Encoded(ys, n)[i] {
      SameCharIff(xs, ys, i);
    }
  }
}
