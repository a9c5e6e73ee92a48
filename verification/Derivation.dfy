/** C1 and C2 from a seed and a counter, over an arbitrary 32-byte keyed digest. */
module Derivation {
  import opened Bytes
  import opened Types
  import opened Encoder

  /** HMAC-SHA-256, of which nothing is known but that it is a function into 32 bytes. */
  type Mac = f: (seq<byte>, seq<byte>) -> seq<byte> | forall key, message :: |f(key, message)| == 32
    witness (key: seq<byte>, message: seq<byte>) => Repeat(0, 32)

  /** "mcpix/v1/c1" and "mcpix/v1/c2". */
  const DOMAIN_C1: seq<byte> := [0x6D, 0x63, 0x70, 0x69, 0x78, 0x2F, 0x76, 0x31, 0x2F, 0x63, 0x31]
  const DOMAIN_C2: seq<byte> := [0x6D, 0x63, 0x70, 0x69, 0x78, 0x2F, 0x76, 0x31, 0x2F, 0x63, 0x32]

  function DeriveC1(mac: Mac, seed: Seed, counter: u64): Code {
    Encoded(mac(seed, DOMAIN_C1 + ToBE(counter, 8)), CODE_LEN)
  }

  function DeriveC2FromC1(mac: Mac, seed: Seed, counter: u64, c1: Code): Code {
    Encoded(mac(seed, DOMAIN_C2 + ToBE(counter, 8) + c1), CODE_LEN)
  }

  function DerivePair(mac: Mac, seed: Seed, counter: u64): (Code, Code) {
    var c1 := DeriveC1(mac, seed, counter);
    (c1, DeriveC2FromC1(mac, seed, counter, c1))
  }

  lemma DerivedIsAlphanumeric(mac: Mac, seed: Seed, counter: u64, c1: Code)
    ensures AllAlphanumeric(DeriveC1(mac, seed, counter))
    ensures AllAlphanumeric(DeriveC2FromC1(mac, seed, counter, c1))
  {
    EncodedIsAlphanumeric(mac(seed, DOMAIN_C1 + ToBE(counter, 8)), CODE_LEN);
    EncodedIsAlphanumeric(mac(seed, DOMAIN_C2 + ToBE(counter, 8) + c1), CODE_LEN);
  }

  lemma Labels()
    ensures DOMAIN_C1 == Ascii("mcpix/v1/c1") && DOMAIN_C2 == Ascii("mcpix/v1/c2")
  {
  }

  lemma SameCounter(s: u64, t: u64)
    requires ToBE(s, 8) == ToBE(t, 8)
    ensures s == t
  {
    Widths();
    DecodeEncode(s, 8);
    DecodeEncode(t, 8);
  }

  /** No two purposes, counters or public codes of one seed ever give the digest the same message. */
  lemma MessagesApart(s: u64, t: u64, c: Code, d: Code)
    ensures DOMAIN_C1 + ToBE(s, 8) != DOMAIN_C2 + ToBE(t, 8) + d
    ensures DOMAIN_C1 + ToBE(s, 8) == DOMAIN_C1 + ToBE(t, 8) ==> s == t
    ensures DOMAIN_C2 + ToBE(s, 8) + c == DOMAIN_C2 + ToBE(t, 8) + d ==> s == t && c == d
  {
    var x, y := DOMAIN_C1 + ToBE(s, 8), DOMAIN_C1 + ToBE(t, 8);
    assert x[11..] == ToBE(s, 8) && y[11..] == ToBE(t, 8);
    var p, q := DOMAIN_C2 + ToBE(s, 8) + c, DOMAIN_C2 + ToBE(t, 8) + d;
    assert p[11..19] == ToBE(s, 8) && q[11..19] == ToBE(t, 8) && p[19..] == c && q[19..] == d;
    if ToBE(s, 8) == ToBE(t, 8) {
      SameCounter(s, t);
    }
  }

  /** Two charges of one seed share C2 exactly when the digests of counter and C1 share the first 55 bits. */
  lemma SameC2Iff(mac: Mac, seed: Seed, s: u64, c: Code, t: u64, d: Code)
    ensures DeriveC2FromC1(mac, seed, s, c) == DeriveC2FromC1(mac, seed, t, d) <==>
            Stream(mac(seed, Ascii("mcpix/v1/c2") + ToBE(s, 8) + c))[..55] ==
            Stream(mac(seed, Ascii("mcpix/v1/c2") + ToBE(t, 8) + d))[..55]
  {
    Labels();
    SameEncodingIff(mac(seed, DOMAIN_C2 + ToBE(s, 8) + c), mac(seed, DOMAIN_C2 + ToBE(t, 8) + d), CODE_LEN);
  }

  /** Two counters of one seed share C1 exactly when their digests share the first 55 bits. */
  lemma SameC1Iff(mac: Mac, seed: Seed, s: u64, t: u64)
    ensures DeriveC1(mac, seed, s) == DeriveC1(mac, seed, t) <==>
            Stream(mac(seed, Ascii("mcpix/v1/c1") + ToBE(s, 8)))[..55] ==
            Stream(mac(seed, Ascii("mcpix/v1/c1") + ToBE(t, 8)))[..55]
  {
    Labels();
    SameEncodingIff(mac(seed, DOMAIN_C1 + ToBE(s, 8)), mac(seed, DOMAIN_C1 + ToBE(t, 8)), CODE_LEN);
  }
}
