/**
 * CRC-32/ISO-HDLC (the CRC of section 8 of RFC 1952), bit by bit, and what it detects.
 *
 * One bit step of the register is linear and has a trivial kernel. Every detection
 * result below is a consequence of these two facts.
 */
module Crc32 {
  import opened Bytes
  import opened LinearRegister

  const POLYNOMIAL: bv32 := 0xEDB8_8320

  function BitStep(x: bv32): bv32 {
    if x & 1 == 1 then (x >> 1) ^ POLYNOMIAL else x >> 1
  }

  function EightSteps(x: bv32): bv32 {
    Iterate(BitStep, x, 8)
  }

  function Xor(x: bv32, y: bv32): bv32 {
    x ^ y
  }

  function Machine(): Register<bv32> {
    Register(EightSteps, Xor)
  }

  /** The low `n` bits of a number, as a word. */
  function Bits(x: nat, n: nat): bv32 {
    if n == 0 then 0 else (Bits(x / 2, n - 1) << 1) | (if x % 2 == 1 then 1 else 0)
  }

  function Words(bs: seq<byte>): (ws: seq<bv32>)
    ensures |ws| == |bs|
    ensures forall i :: 0 <= i < |bs| ==> ws[i] == Bits(bs[i], 8)
  {
    seq(|bs|, i requires 0 <= i < |bs| => Bits(bs[i], 8))
  }

  function Register32(bs: seq<byte>): bv32 {
    Run(Machine(), 0xFFFF_FFFF, Words(bs))
  }

  function Checksum(bs: seq<byte>): (crc: u32) {
    (Register32(bs) ^ 0xFFFF_FFFF) as int
  }

  // ---- Words ----

  function Limit(n: nat): bv32 {
    if n == 0 then 1 else Limit(n - 1) << 1
  }

  lemma AppendBit(p: bv32, t: bv32, a: bv32)
    requires p < t <= 0x80 && a <= 1
    ensures (p << 1) | a < t << 1 <= 0x100
  {
  }

  lemma Limits(n: nat)
    requires n <= 8
    ensures n < 8 ==> Limit(n) <= 0x80
    ensures Limit(8) == 0x100
  {
    assert Limit(1) == 2 && Limit(2) == 4 && Limit(3) == 8 && Limit(4) == 0x10;
    assert Limit(5) == 0x20 && Limit(6) == 0x40 && Limit(7) == 0x80 && Limit(8) == 0x100;
  }

  lemma {:induction false} BitsBound(x: nat, n: nat)
    requires n <= 8
    ensures Bits(x, n) < Limit(n)
  {
    if n > 0 {
      BitsBound(x / 2, n - 1);
      Limits(n - 1);
      AppendBit(Bits(x / 2, n - 1), Limit(n - 1), if x % 2 == 1 then 1 else 0);
    }
  }

  lemma SplitBit(p: bv32, q: bv32, a: bv32, b: bv32)
    requires (p << 1) | a == (q << 1) | b && p < 0x8000_0000 && q < 0x8000_0000 && a <= 1 && b <= 1
    ensures p == q && a == b
  {
  }

  lemma {:induction false} BitsInjective(x: nat, y: nat, n: nat)
    requires n <= 8 && x < Pow2(n) && y < Pow2(n)
    requires Bits(x, n) == Bits(y, n)
    ensures x == y
  {
    if n > 0 {
      BitsBound(x / 2, n - 1);
      BitsBound(y / 2, n - 1);
      Limits(n - 1);
      SplitBit(Bits(x / 2, n - 1), Bits(y / 2, n - 1), if x % 2 == 1 then 1 else 0, if y % 2 == 1 then 1 else 0);
      BitsInjective(x / 2, y / 2, n - 1);
    }
  }

  // ---- Linearity ----

  lemma ShiftXor(x: bv32, y: bv32)
    ensures (x ^ y) >> 1 == (x >> 1) ^ (y >> 1)
    ensures (x ^ y) & 1 == (x & 1) ^ (y & 1)
    ensures x & 1 == 0 || x & 1 == 1
  {
  }

  lemma XorPolynomial(p: bv32, q: bv32)
    ensures (p ^ POLYNOMIAL) ^ (q ^ POLYNOMIAL) == p ^ q
    ensures (p ^ POLYNOMIAL) ^ q == (p ^ q) ^ POLYNOMIAL
    ensures p ^ (q ^ POLYNOMIAL) == (p ^ q) ^ POLYNOMIAL
  {
  }

  lemma BitStepXor(x: bv32, y: bv32)
    ensures BitStep(x ^ y) == BitStep(x) ^ BitStep(y)
  {
    ShiftXor(x, y);
    ShiftXor(y, x);
    XorPolynomial(x >> 1, y >> 1);
  }

  lemma BitStepLinear()
    ensures LinearStep(BitStep, Xor)
  {
    forall x, y ensures BitStep(Xor(x, y)) == Xor(BitStep(x), BitStep(y)) {
      BitStepXor(x, y);
    }
  }

  lemma XorAssociative(x: bv32, y: bv32, z: bv32)
    ensures Xor(Xor(x, y), z) == Xor(x, Xor(y, z))
    ensures Xor(x, y) == Xor(y, x)
  {
  }

  lemma EightStepsLinear()
    ensures LinearStep(EightSteps, Xor)
  {
    BitStepLinear();
    forall x, y ensures EightSteps(Xor(x, y)) == Xor(EightSteps(x), EightSteps(y)) {
      IterateLinear(BitStep, Xor, x, y, 8);
    }
  }

  lemma MachineLinear()
    ensures Linear(Machine())
  {
    EightStepsLinear();
    forall x, y, z ensures Xor(Xor(x, y), z) == Xor(x, Xor(y, z)) && Xor(x, y) == Xor(y, x) {
      XorAssociative(x, y, z);
    }
  }

  // ---- Injectivity ----

  /** The step run backwards: the top bit tells whether the polynomial was mixed in. */
  function BitStepBack(x: bv32): bv32 {
    if x & 0x8000_0000 != 0 then ((x ^ POLYNOMIAL) << 1) | 1 else x << 1
  }

  lemma BitStepInverse(x: bv32)
    ensures BitStepBack(BitStep(x)) == x
  {
  }

  lemma {:induction false} StepsInjective(x: bv32, y: bv32, n: nat)
    requires Iterate(BitStep, x, n) == Iterate(BitStep, y, n)
    ensures x == y
    decreases n
  {
    if n > 0 {
      StepsInjective(BitStep(x), BitStep(y), n - 1);
      BitStepInverse(x);
      BitStepInverse(y);
    }
  }

  lemma {:induction false} StepsOfZero(n: nat)
    ensures Iterate(BitStep, 0, n) == 0
  {
    if n > 0 {
      assert BitStep(0) == 0;
      StepsOfZero(n - 1);
    }
  }

  lemma StepsKernel(x: bv32, n: nat)
    ensures Iterate(BitStep, x, n) == 0 <==> x == 0
  {
    StepsOfZero(n);
    if Iterate(BitStep, x, n) == 0 {
      StepsInjective(x, 0, n);
    }
  }

  lemma XorSelf(x: bv32)
    ensures Xor(x, x) == 0 && Xor(x, 0) == x
  {
  }

  /** A run over zero words keeps a nonzero register nonzero, and zero zero. */
  lemma {:induction false} RunZeros(x: bv32, zeros: seq<bv32>)
    requires forall i :: 0 <= i < |zeros| ==> zeros[i] == 0
    ensures Run(Machine(), x, zeros) == 0 <==> x == 0
    decreases zeros
  {
    if zeros != [] {
      XorSelf(x);
      StepsKernel(x, 8);
      RunZeros(EightSteps(x), zeros[1..]);
    }
  }

  // ---- Bursts ----

  lemma ShiftedStep(v: bv32)
    requires v < 0x4000_0000
    ensures BitStep(v << 2) == v << 1
    ensures BitStep(v << 1) == v
  {
  }

  lemma TwoSteps(v: bv32)
    requires v < 0x4000_0000
    ensures Iterate(BitStep, v << 2, 2) == v
  {
    ShiftedStep(v);
    calc {
      Iterate(BitStep, v << 2, 2);
      Iterate(BitStep, v << 1, 1);
      Iterate(BitStep, v, 0);
    }
  }

  lemma FourSteps(v: bv32)
    requires v < 0x1000_0000
    ensures Iterate(BitStep, v << 4, 4) == v
  {
    assert v << 4 == (v << 2) << 2 && v << 2 < 0x4000_0000;
    TwoSteps(v << 2);
    TwoSteps(v);
    IterateSplit(BitStep, v << 4, 2, 2);
  }

  lemma EightStepsDown(v: bv32)
    requires v < 0x100_0000
    ensures EightSteps(v << 8) == v
  {
    assert v << 8 == (v << 4) << 4 && v << 4 < 0x1000_0000;
    FourSteps(v << 4);
    FourSteps(v);
    IterateSplit(BitStep, v << 8, 4, 4);
  }

  /** Below 2^24, the only register that eight steps bring to `v` is `v` shifted up. */
  lemma BackEight(x: bv32, v: bv32)
    requires EightSteps(x) == v && v < 0x100_0000
    ensures x == v << 8
  {
    EightStepsDown(v);
    StepsInjective(x, v << 8, 8);
  }

  lemma LowByte(d: bv32, w: bv32, e: bv32)
    requires Xor(d, w) == e << 8 && w < 0x100 && e < 0x100_0000
    ensures e < 0x100 ==> d < 0x1_0000
    ensures e < 0x1_0000 ==> d < 0x100_0000
    ensures d == 0 ==> w == 0 && e == 0
    ensures e == 0 ==> d == w
  {
  }

  /** Four bytes take the zero register back to zero only if all four are zero. */
  lemma FourByteKernel(w0: bv32, w1: bv32, w2: bv32, w3: bv32)
    requires w0 < 0x100 && w1 < 0x100 && w2 < 0x100 && w3 < 0x100
    requires Run(Machine(), 0, [w0, w1, w2, w3]) == 0
    ensures w0 == w1 == w2 == w3 == 0
  {
    var d1 := EightSteps(Xor(0, w0));
    var d2 := EightSteps(Xor(d1, w1));
    var d3 := EightSteps(Xor(d2, w2));
    var d4 := EightSteps(Xor(d3, w3));
    assert d4 == 0 by {
      RunFour(Machine(), 0, w0, w1, w2, w3);
    }
    BackEight(Xor(d3, w3), d4);
    LowByte(d3, w3, d4);
    BackEight(Xor(d2, w2), d3);
    LowByte(d2, w2, d3);
    BackEight(Xor(d1, w1), d2);
    LowByte(d1, w1, d2);
    BackEight(Xor(0, w0), d1);
    LowByte(0, w0, d1);
  }

  lemma BurstReachesEnd(front: seq<bv32>, w0: bv32, w1: bv32, w2: bv32, w3: bv32, back: seq<bv32>)
    requires forall i :: 0 <= i < |front| ==> front[i] == 0
    requires forall i :: 0 <= i < |back| ==> back[i] == 0
    requires w0 < 0x100 && w1 < 0x100 && w2 < 0x100 && w3 < 0x100
    requires !(w0 == w1 == w2 == w3 == 0)
    ensures Run(Machine(), 0, front + ([w0, w1, w2, w3] + back)) != 0
  {
    var m := Machine();
    var window := [w0, w1, w2, w3];
    RunConcat(m, 0, front, window + back);
    RunZeros(0, front);
    RunConcat(m, 0, window, back);
    if Run(m, 0, window) == 0 {
      FourByteKernel(w0, w1, w2, w3);
    }
    RunZeros(Run(m, 0, window), back);
  }

  lemma ByteDifference(p: bv32, q: bv32)
    requires p < 0x100 && q < 0x100
    ensures Xor(p, q) < 0x100
    ensures Xor(p, q) == 0 <==> p == q
  {
  }

  lemma WordDifference(a: byte, b: byte)
    ensures Xor(Bits(a, 8), Bits(b, 8)) < 0x100
    ensures Xor(Bits(a, 8), Bits(b, 8)) == 0 <==> a == b
  {
    BitsBound(a, 8);
    BitsBound(b, 8);
    Limits(8);
    ByteDifference(Bits(a, 8), Bits(b, 8));
    if Bits(a, 8) == Bits(b, 8) {
      assert Pow2(8) == 256;
      BitsInjective(a, b, 8);
    }
  }

  /** Two messages that differ only inside a window of four bytes differ at one of the four. */
  lemma WindowDiffers(xs: seq<byte>, ys: seq<byte>, k: nat)
    requires |xs| == |ys| && k + 4 <= |xs|
    requires xs[..k] == ys[..k] && xs[k + 4..] == ys[k + 4..]
    requires xs != ys
    ensures forall i :: 0 <= i < k || k + 4 <= i < |xs| ==> xs[i] == ys[i]
    ensures !(xs[k] == ys[k] && xs[k + 1] == ys[k + 1] && xs[k + 2] == ys[k + 2] && xs[k + 3] == ys[k + 3])
  {
    forall i | 0 <= i < k || k + 4 <= i < |xs| ensures xs[i] == ys[i] {
      assert i < k ==> xs[..k][i] == ys[..k][i];
      assert k + 4 <= i ==> xs[k + 4..][i - k - 4] == ys[k + 4..][i - k - 4];
    }
    var j :| 0 <= j < |xs| && xs[j] != ys[j];
    assert k <= j < k + 4;
  }

  /** Where two messages agree, their difference is zero; inside the window some byte is not. */
  lemma DifferenceWindow(xs: seq<byte>, ys: seq<byte>, k: nat) returns (zs: seq<bv32>)
    requires |xs| == |ys| && k + 4 <= |xs|
    requires xs[..k] == ys[..k] && xs[k + 4..] == ys[k + 4..]
    requires xs != ys
    ensures zs == Difference(Machine(), Words(xs), Words(ys))
    ensures forall i :: 0 <= i < |xs| ==> zs[i] < 0x100
    ensures forall i :: 0 <= i < k || k + 4 <= i < |xs| ==> zs[i] == 0
    ensures !(zs[k] == zs[k + 1] == zs[k + 2] == zs[k + 3] == 0)
  {
    zs := Difference(Machine(), Words(xs), Words(ys));
    forall i | 0 <= i < |xs| ensures zs[i] < 0x100 && (zs[i] == 0 <==> xs[i] == ys[i]) {
      WordDifference(xs[i], ys[i]);
    }
    WindowDiffers(xs, ys, k);
  }

  lemma RegistersDiffer(xs: seq<bv32>, ys: seq<bv32>, init: bv32)
    requires |xs| == |ys|
    requires Run(Machine(), 0, Difference(Machine(), xs, ys)) != 0
    ensures Run(Machine(), init, xs) != Run(Machine(), init, ys)
  {
    MachineLinear();
    RunLinear(Machine(), init, init, xs, ys);
    XorSelf(init);
    XorSelf(Run(Machine(), init, xs));
  }

  lemma IntAndBack(p: bv32)
    ensures 0 <= p as int < 0x1_0000_0000
    ensures (p as int) as bv32 == p
  {
  }

  lemma SameInt(p: bv32, q: bv32)
    requires p as int == q as int
    ensures p == q
  {
    IntAndBack(p);
    IntAndBack(q);
  }

  lemma Unmask(x: bv32, y: bv32, p: bv32, q: bv32)
    requires p == x ^ 0xFFFF_FFFF && q == y ^ 0xFFFF_FFFF && p as int == q as int
    ensures x == y
  {
    SameInt(p, q);
  }

  lemma ChecksumInjective(xs: seq<byte>, ys: seq<byte>)
    requires Checksum(xs) == Checksum(ys)
    ensures Register32(xs) == Register32(ys)
  {
    Unmask(Register32(xs), Register32(ys), Register32(xs) ^ 0xFFFF_FFFF, Register32(ys) ^ 0xFFFF_FFFF);
  }

  lemma WindowReachesEnd(zs: seq<bv32>, k: nat)
    requires k + 4 <= |zs|
    requires forall i :: 0 <= i < |zs| ==> zs[i] < 0x100
    requires forall i :: 0 <= i < k || k + 4 <= i < |zs| ==> zs[i] == 0
    requires !(zs[k] == zs[k + 1] == zs[k + 2] == zs[k + 3] == 0)
    ensures Run(Machine(), 0, zs) != 0
  {
    BurstReachesEnd(zs[..k], zs[k], zs[k + 1], zs[k + 2], zs[k + 3], zs[k + 4..]);
    assert zs == zs[..k] + ([zs[k], zs[k + 1], zs[k + 2], zs[k + 3]] + zs[k + 4..]);
  }

  /**
   * A burst no longer than the register is always detected: two messages that differ,
   * and differ only within four consecutive bytes, have different checksums.
   */
  lemma BurstDetected(xs: seq<byte>, ys: seq<byte>, k: nat)
    requires |xs| == |ys| && k + 4 <= |xs|
    requires xs[..k] == ys[..k] && xs[k + 4..] == ys[k + 4..]
    requires xs != ys
    ensures Checksum(xs) != Checksum(ys)
  {
    var zs := DifferenceWindow(xs, ys, k);
    WindowReachesEnd(zs, k);
    RegistersDiffer(Words(xs), Words(ys), 0xFFFF_FFFF);
    if Checksum(xs) == Checksum(ys) {
      ChecksumInjective(xs, ys);
    }
  }
}
