/** Bytes, fixed-width unsigned integers and their big-endian form. */
module Bytes {

  type byte = x: int | 0 <= x < 256
  type u32 = x: int | 0 <= x < 0x1_0000_0000
  type u64 = x: int | 0 <= x < 0x1_0000_0000_0000_0000

  const U32_MAX: u32 := 0xFFFF_FFFF
  const U64_MAX: u64 := 0xFFFF_FFFF_FFFF_FFFF

  datatype Option<+T> = None | Some(value: T)

  datatype Result<+T, +E> = Ok(value: T) | Err(error: E)

  function Repeat<T>(x: T, n: nat): (s: seq<T>)
    ensures |s| == n
    ensures forall i :: 0 <= i < n ==> s[i] == x
  {
    seq(n, _ => x)
  }

  function Min(a: int, b: int): int {
    if a <= b then a else b
  }

  function Max(a: int, b: int): int {
    if a <= b then b else a
  }

  /** The bytes of an ASCII text. */
  function Ascii(text: string): (bs: seq<byte>)
    ensures |bs| == |text|
  {
    seq(|text|, i requires 0 <= i < |text| => if text[i] as int < 256 then text[i] as int else 0)
  }

  /** 2 to the power `n`. */
  function Pow2(n: nat): (p: nat)
    ensures p >= 1
  {
    if n == 0 then 1 else 2 * Pow2(n - 1)
  }

  /** 256 to the power `n`. */
  function Pow256(n: nat): (p: nat)
    ensures p >= 1
  {
    if n == 0 then 1 else 256 * Pow256(n - 1)
  }

  /** `to_be_bytes` of an unsigned integer that is `width` bytes wide. */
  function ToBE(x: nat, width: nat): (bs: seq<byte>)
    ensures |bs| == width
  {
    if width == 0 then [] else ToBE(x / 256, width - 1) + [x % 256]
  }

  /** `from_be_bytes`. */
  function FromBE(bs: seq<byte>): nat {
    if bs == [] then 0 else 256 * FromBE(bs[..|bs| - 1]) + bs[|bs| - 1]
  }

  lemma {:induction false} FromBEBound(bs: seq<byte>)
    ensures FromBE(bs) < Pow256(|bs|)
  {
    if bs != [] {
      FromBEBound(bs[..|bs| - 1]);
    }
  }

  lemma {:induction false} DecodeEncode(x: nat, width: nat)
    requires x < Pow256(width)
    ensures FromBE(ToBE(x, width)) == x
  {
    if width > 0 {
      DecodeEncode(x / 256, width - 1);
      var bs := ToBE(x, width);
      assert bs[..width - 1] == ToBE(x / 256, width - 1);
    }
  }

  lemma {:induction false} EncodeDecode(bs: seq<byte>)
    ensures ToBE(FromBE(bs), |bs|) == bs
  {
    if bs != [] {
      EncodeDecode(bs[..|bs| - 1]);
      var last := bs[|bs| - 1];
      assert FromBE(bs) % 256 == last && FromBE(bs) / 256 == FromBE(bs[..|bs| - 1]);
    }
  }

  /** Byte-wise larger strings encode larger numbers. */
  lemma {:induction false} FromBEMonotone(lo: seq<byte>, hi: seq<byte>)
    requires |lo| == |hi|
    requires forall i :: 0 <= i < |lo| ==> lo[i] <= hi[i]
    ensures FromBE(lo) <= FromBE(hi)
  {
    if lo != [] {
      FromBEMonotone(lo[..|lo| - 1], hi[..|hi| - 1]);
    }
  }

  lemma Widths()
    ensures Pow256(1) == 0x100
    ensures Pow256(2) == 0x1_0000
    ensures Pow256(4) == 0x1_0000_0000
    ensures Pow256(8) == 0x1_0000_0000_0000_0000
  {
    assert Pow256(0) == 1 && Pow256(1) == 0x100 && Pow256(2) == 0x1_0000;
    assert Pow256(3) == 0x100_0000 && Pow256(4) == 0x1_0000_0000;
    assert Pow256(5) == 0x100_0000_0000 && Pow256(6) == 0x1_0000_0000_0000;
    assert Pow256(7) == 0x100_0000_0000_0000 && Pow256(8) == 0x1_0000_0000_0000_0000;
  }

  function FromBE64(bs: seq<byte>): u64
    requires |bs| == 8
  {
    FromBEBound(bs);
    Widths();
    FromBE(bs)
  }

  function FromBE32(bs: seq<byte>): u32
    requires |bs| == 4
  {
    FromBEBound(bs);
    Widths();
    FromBE(bs)
  }

  predicate Increasing(ts: seq<u64>) {
    forall i, j :: 0 <= i < j < |ts| ==> ts[i] < ts[j]
  }

  predicate AllAbove(ts: seq<u64>, floor: u64) {
    forall i :: 0 <= i < |ts| ==> ts[i] > floor
  }

  predicate IsAlphanumeric(b: byte) {
    || 0x30 <= b <= 0x39
    || 0x41 <= b <= 0x5A
    || 0x61 <= b <= 0x7A
  }

  predicate AllAlphanumeric(bs: seq<byte>) {
    forall i :: 0 <= i < |bs| ==> IsAlphanumeric(bs[i])
  }
}
