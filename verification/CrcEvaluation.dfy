/** Evaluating the checksum of a concrete message, a few bytes at a time. */
module CrcEvaluation {
  import opened Bytes
  import opened LinearRegister
  import opened Crc32

  // ---- Registers ----

  /** Absorbing `ws` takes the register from `x` to `y`. */
  predicate After(x: bv32, ws: seq<bv32>, y: bv32) {
    Run(Machine(), x, ws) == y
  }

  lemma Chain(x: bv32, ws: seq<bv32>, y: bv32, vs: seq<bv32>, z: bv32)
    requires After(x, ws, y) && After(y, vs, z)
    ensures After(x, ws + vs, z)
  {
    RunConcat(Machine(), x, ws, vs);
  }

  function Two(x: bv32): bv32 {
    BitStep(BitStep(x))
  }

  /** Eight steps, without recursion. */
  function Eight(x: bv32): bv32 {
    Two(Two(Two(Two(x))))
  }

  lemma TwoIs(x: bv32, n: nat)
    ensures Iterate(BitStep, x, n + 2) == Iterate(BitStep, Two(x), n)
  {
    assert Iterate(BitStep, x, n + 2) == Iterate(BitStep, BitStep(x), n + 1);
  }

  lemma EightIs(x: bv32)
    ensures EightSteps(x) == Eight(x)
  {
    TwoIs(x, 6);
    TwoIs(Two(x), 4);
    TwoIs(Two(Two(x)), 2);
    TwoIs(Two(Two(Two(x))), 0);
  }

  lemma AbsorbIs(x: bv32, w: bv32, y: bv32)
    requires Eight(x ^ w) == y
    ensures Absorb(Machine(), x, w) == y
  {
    EightIs(x ^ w);
  }

  lemma OneWord(x: bv32, w: bv32, y: bv32)
    requires Eight(x ^ w) == y
    ensures After(x, [w], y)
  {
    AbsorbIs(x, w, y);
    RunTwo(Machine(), x, w, w);
  }

  lemma TwoWords(x0: bv32, w0: bv32, x1: bv32, w1: bv32, x2: bv32)
    requires Eight(x0 ^ w0) == x1 && Eight(x1 ^ w1) == x2
    ensures After(x0, [w0, w1], x2)
  {
    AbsorbIs(x0, w0, x1);
    AbsorbIs(x1, w1, x2);
    RunTwo(Machine(), x0, w0, w1);
  }

  lemma FourWords(x0: bv32, w0: bv32, x1: bv32, w1: bv32, x2: bv32, w2: bv32, x3: bv32, w3: bv32, x4: bv32)
    requires Eight(x0 ^ w0) == x1 && Eight(x1 ^ w1) == x2 && Eight(x2 ^ w2) == x3 && Eight(x3 ^ w3) == x4
    ensures After(x0, [w0, w1, w2, w3], x4)
  {
    AbsorbIs(x0, w0, x1);
    AbsorbIs(x1, w1, x2);
    AbsorbIs(x2, w2, x3);
    AbsorbIs(x3, w3, x4);
    RunFour(Machine(), x0, w0, w1, w2, w3);
  }

  // ---- Bytes as words ----

  function Bit(x: nat): bv32 {
    if x % 2 == 1 then 1 else 0
  }

  /** A byte as a word, without recursion. */
  function Word(b: byte): bv32 {
    (((((((((((((Bit(b / 128) << 1) | Bit(b / 64)) << 1) | Bit(b / 32)) << 1) | Bit(b / 16)) << 1)
    | Bit(b / 8)) << 1) | Bit(b / 4)) << 1) | Bit(b / 2)) << 1) | Bit(b)
  }

  lemma BitsSnoc(x: nat, n: nat)
    ensures Bits(x, n + 1) == (Bits(x / 2, n) << 1) | Bit(x)
  {
  }

  lemma BitsSnocAt(b: byte, d: nat, n: nat)
    requires d in {1, 2, 4, 8, 16, 32, 64}
    ensures Bits(b / d, n + 1) == (Bits(b / (2 * d), n) << 1) | Bit(b / d)
  {
    assert b / d / 2 == b / (2 * d);
    BitsSnoc(b / d, n);
  }

  lemma WordIs(b: byte)
    ensures Bits(b, 8) == Word(b)
  {
    BitsSnoc(b / 128, 0);
    assert Bits(b / 128, 1) == Bit(b / 128);
    BitsSnocAt(b, 64, 1);
    BitsSnocAt(b, 32, 2);
    BitsSnocAt(b, 16, 3);
    BitsSnocAt(b, 8, 4);
    BitsSnocAt(b, 4, 5);
    BitsSnocAt(b, 2, 6);
    BitsSnocAt(b, 1, 7);
  }

  lemma WordsConcat(bs: seq<byte>, cs: seq<byte>)
    ensures Words(bs + cs) == Words(bs) + Words(cs)
  {
  }

  lemma OneByte(b: byte, w: bv32)
    requires Word(b) == w
    ensures Words([b]) == [w]
  {
    WordIs(b);
  }

  lemma TwoBytes(b0: byte, w0: bv32, b1: byte, w1: bv32)
    requires Word(b0) == w0 && Word(b1) == w1
    ensures Words([b0, b1]) == [w0, w1]
  {
    OneByte(b0, w0);
    OneByte(b1, w1);
    WordsConcat([b0], [b1]);
    assert [b0] + [b1] == [b0, b1];
  }

  lemma FourBytes(b0: byte, w0: bv32, b1: byte, w1: bv32, b2: byte, w2: bv32, b3: byte, w3: bv32)
    requires Word(b0) == w0 && Word(b1) == w1 && Word(b2) == w2 && Word(b3) == w3
    ensures Words([b0, b1, b2, b3]) == [w0, w1, w2, w3]
  {
    TwoBytes(b0, w0, b1, w1);
    TwoBytes(b2, w2, b3, w3);
    WordsConcat([b0, b1], [b2, b3]);
    assert [b0, b1] + [b2, b3] == [b0, b1, b2, b3];
  }

  // ---- Both ----

  /** Absorbing the bytes `bs` takes the register from `x` to `y`. */
  predicate Feeds(x: bv32, bs: seq<byte>, y: bv32) {
    After(x, Words(bs), y)
  }

  lemma FeedOne(x0: bv32, b: byte, w: bv32, x1: bv32)
    requires Word(b) == w && Eight(x0 ^ w) == x1
    ensures Feeds(x0, [b], x1)
  {
    OneByte(b, w);
    OneWord(x0, w, x1);
  }

  lemma FeedTwo(x0: bv32, b0: byte, w0: bv32, x1: bv32, b1: byte, w1: bv32, x2: bv32)
    requires Word(b0) == w0 && Eight(x0 ^ w0) == x1 && Word(b1) == w1 && Eight(x1 ^ w1) == x2
    ensures Feeds(x0, [b0, b1], x2)
  {
    TwoBytes(b0, w0, b1, w1);
    TwoWords(x0, w0, x1, w1, x2);
  }

  lemma FeedFour(
    x0: bv32, b0: byte, w0: bv32, x1: bv32, b1: byte, w1: bv32, x2: bv32,
    b2: byte, w2: bv32, x3: bv32, b3: byte, w3: bv32, x4: bv32)
    requires Word(b0) == w0 && Eight(x0 ^ w0) == x1 && Word(b1) == w1 && Eight(x1 ^ w1) == x2
    requires Word(b2) == w2 && Eight(x2 ^ w2) == x3 && Word(b3) == w3 && Eight(x3 ^ w3) == x4
    ensures Feeds(x0, [b0, b1, b2, b3], x4)
  {
    FourBytes(b0, w0, b1, w1, b2, w2, b3, w3);
    FourWords(x0, w0, x1, w1, x2, w2, x3, w3, x4);
  }

  lemma FeedsChain(x: bv32, bs: seq<byte>, y: bv32, cs: seq<byte>, z: bv32)
    requires Feeds(x, bs, y) && Feeds(y, cs, z)
    ensures Feeds(x, bs + cs, z)
  {
    Chain(x, Words(bs), y, Words(cs), z);
    WordsConcat(bs, cs);
  }

  lemma ChecksumOf(bs: seq<byte>, y: bv32, crc: u32)
    requires Feeds(0xFFFF_FFFF, bs, y) && (y ^ 0xFFFF_FFFF) as int == crc
    ensures Checksum(bs) == crc
  {
  }
}
