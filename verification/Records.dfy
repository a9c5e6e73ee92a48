/** The two record kinds of the flash store: their bytes, their readers, and what a torn write reads as. */
module Records {
  import opened Bytes
  import opened Types
  import Crc32

  const SLOT_SIZE: nat := 64
  const ERASED: byte := 0xFF
  const MAGIC_RETAINED: seq<byte> := [0x4D, 0x52, 0x30, 0x31]
  const MAGIC_COUNTER: seq<byte> := [0x4D, 0x43, 0x30, 0x31]
  const VERSION: nat := 1
  const RETAINED_BODY: nat := 55
  const COUNTER_BODY: nat := 35

  datatype PersistedReceipt = PersistedReceipt(
    seedId: SeedId,
    counter: u64,
    amountCents: u64,
    expectedC2: Code,
    consumed: bool
  )

  datatype PersistedCounter = PersistedCounter(seedId: SeedId, lastT: u64)

  /** What a valid slot holds: the save sequence and the record. */
  datatype Stamped<+V> = Stamped(saveSeq: u32, value: V)

  // ---- Images ----

  function SeedIdSlot(sid: SeedId): (bs: seq<byte>)
    ensures |bs| == SEED_ID_MAX_LEN
  {
    sid + Repeat(0, SEED_ID_MAX_LEN - |sid|)
  }

  /** The 27 bytes that both record kinds start with. */
  function Head(magic: seq<byte>, saveSeq: u32, sid: SeedId): (bs: seq<byte>)
    requires |magic| == 4
    ensures |bs| == 27
  {
    magic + ToBE(VERSION, 2) + ToBE(saveSeq, 4) + [|sid|] + SeedIdSlot(sid)
  }

  function RetainedBody(saveSeq: u32, r: PersistedReceipt): (bs: seq<byte>)
    ensures |bs| == RETAINED_BODY
  {
    Head(MAGIC_RETAINED, saveSeq, r.seedId) + ToBE(r.counter, 8) + ToBE(r.amountCents, 8)
    + r.expectedC2 + [if r.consumed then 1 else 0]
  }

  function CounterBody(saveSeq: u32, c: PersistedCounter): (bs: seq<byte>)
    ensures |bs| == COUNTER_BODY
  {
    Head(MAGIC_COUNTER, saveSeq, c.seedId) + ToBE(c.lastT, 8)
  }

  /** A body followed by its checksum and by erased bytes to the end of the slot. */
  function Sealed(body: seq<byte>): (bs: seq<byte>)
    requires |body| <= SLOT_SIZE - 4
    ensures |bs| == SLOT_SIZE
  {
    body + ToBE(Crc32.Checksum(body), 4) + Repeat(ERASED, SLOT_SIZE - 4 - |body|)
  }

  function RetainedImage(saveSeq: u32, r: PersistedReceipt): (bs: seq<byte>)
    ensures |bs| == SLOT_SIZE
  {
    Sealed(RetainedBody(saveSeq, r))
  }

  function CounterImage(saveSeq: u32, c: PersistedCounter): (bs: seq<byte>)
    ensures |bs| == SLOT_SIZE
  {
    Sealed(CounterBody(saveSeq, c))
  }

  // ---- Readers ----

  /** The checks both readers make, in their order: magic, version, checksum, identifier. */
  function ReadHead(magic: seq<byte>, bodyLen: nat, buf: seq<byte>): Option<Stamped<SeedId>>
    requires |magic| == 4 && 27 <= bodyLen <= SLOT_SIZE - 4 && |buf| == SLOT_SIZE
  {
    if buf[0..4] != magic then
      None
    else if FromBE(buf[4..6]) != VERSION then
      None
    else if Crc32.Checksum(buf[..bodyLen]) != FromBE32(buf[bodyLen..bodyLen + 4]) then
      None
    else if buf[10] == 0 || buf[10] > SEED_ID_MAX_LEN then
      None
    else if !ValidSeedId(buf[11..11 + buf[10]]) then
      None
    else
      Some(Stamped(FromBE32(buf[6..10]), buf[11..11 + buf[10]]))
  }

  function DecodeReceipt(sid: SeedId, buf: seq<byte>): PersistedReceipt
    requires |buf| >= RETAINED_BODY
  {
    PersistedReceipt(sid, FromBE64(buf[27..35]), FromBE64(buf[35..43]), buf[43..54], buf[54] != 0)
  }

  function DecodeCounter(sid: SeedId, buf: seq<byte>): PersistedCounter
    requires |buf| >= COUNTER_BODY
  {
    PersistedCounter(sid, FromBE64(buf[27..35]))
  }

  function ReadRetained(buf: seq<byte>): Option<Stamped<PersistedReceipt>>
    requires |buf| == SLOT_SIZE
  {
    match ReadHead(MAGIC_RETAINED, RETAINED_BODY, buf)
    case None => None
    case Some(Stamped(saveSeq, sid)) => Some(Stamped(saveSeq, DecodeReceipt(sid, buf)))
  }

  function ReadCounter(buf: seq<byte>): Option<Stamped<PersistedCounter>>
    requires |buf| == SLOT_SIZE
  {
    match ReadHead(MAGIC_COUNTER, COUNTER_BODY, buf)
    case None => None
    case Some(Stamped(saveSeq, sid)) => Some(Stamped(saveSeq, DecodeCounter(sid, buf)))
  }

  // ---- Layout ----

  lemma HeadLayout(magic: seq<byte>, saveSeq: u32, sid: SeedId)
    requires |magic| == 4
    ensures var h := Head(magic, saveSeq, sid);
            h[0..4] == magic && FromBE(h[4..6]) == VERSION && FromBE32(h[6..10]) == saveSeq
            && h[10] == |sid| && h[11..11 + |sid|] == sid
  {
    var h := Head(magic, saveSeq, sid);
    assert h[4..6] == ToBE(VERSION, 2) && h[6..10] == ToBE(saveSeq, 4);
    Widths();
    DecodeEncode(VERSION, 2);
    DecodeEncode(saveSeq, 4);
  }

  lemma SliceOfPrefix<T>(xs: seq<T>, n: nat, i: nat, j: nat)
    requires i <= j <= n <= |xs|
    ensures xs[..n][i..j] == xs[i..j]
  {
  }

  lemma SamePrefix<T>(xs: seq<T>, ys: seq<T>, n: nat, i: nat, j: nat)
    requires i <= j <= n <= |xs| && n <= |ys| && xs[..n] == ys[..n]
    ensures xs[i..j] == ys[i..j]
  {
    SliceOfPrefix(xs, n, i, j);
    SliceOfPrefix(ys, n, i, j);
  }

  /** A buffer that starts with a head: what is left of the reader is the checksum test. */
  lemma ReadAfterHead(magic: seq<byte>, saveSeq: u32, sid: SeedId, bodyLen: nat, buf: seq<byte>)
    requires |magic| == 4 && 27 <= bodyLen <= SLOT_SIZE - 4 && |buf| == SLOT_SIZE
    requires buf[..11 + |sid|] == Head(magic, saveSeq, sid)[..11 + |sid|]
    ensures ReadHead(magic, bodyLen, buf) ==
            if Crc32.Checksum(buf[..bodyLen]) == FromBE32(buf[bodyLen..bodyLen + 4])
            then Some(Stamped(saveSeq, sid)) else None
  {
    HeadLayout(magic, saveSeq, sid);
    var h, n := Head(magic, saveSeq, sid), 11 + |sid|;
    SamePrefix(buf, h, n, 0, 4);
    SamePrefix(buf, h, n, 4, 6);
    SamePrefix(buf, h, n, 6, 10);
    SamePrefix(buf, h, n, 11, n);
    assert buf[10] == buf[..n][10] == h[..n][10] == h[10];
  }

  lemma SealedReads(magic: seq<byte>, saveSeq: u32, sid: SeedId, body: seq<byte>, buf: seq<byte>)
    requires |magic| == 4 && 27 <= |body| <= SLOT_SIZE - 4
    requires body[..27] == Head(magic, saveSeq, sid)
    requires |buf| == SLOT_SIZE && buf[..|body| + 4] == Sealed(body)[..|body| + 4]
    ensures ReadHead(magic, |body|, buf) == Some(Stamped(saveSeq, sid))
  {
    var n := |body|;
    assert buf[..n] == buf[..n + 4][..n] == Sealed(body)[..n + 4][..n] == body;
    assert buf[n..n + 4] == buf[..n + 4][n..] == Sealed(body)[..n + 4][n..] == ToBE(Crc32.Checksum(body), 4);
    Widths();
    DecodeEncode(Crc32.Checksum(body), 4);
    assert buf[..11 + |sid|] == buf[..n][..27][..11 + |sid|];
    ReadAfterHead(magic, saveSeq, sid, n, buf);
  }

  lemma RetainedLayout(saveSeq: u32, r: PersistedReceipt, buf: seq<byte>)
    requires |buf| >= RETAINED_BODY && buf[..RETAINED_BODY] == RetainedBody(saveSeq, r)
    ensures RetainedBody(saveSeq, r)[..27] == Head(MAGIC_RETAINED, saveSeq, r.seedId)
    ensures DecodeReceipt(r.seedId, buf) == r
  {
    var body := RetainedBody(saveSeq, r);
    assert buf[27..35] == body[27..35] == ToBE(r.counter, 8);
    assert buf[35..43] == body[35..43] == ToBE(r.amountCents, 8);
    assert buf[43..54] == body[43..54] == r.expectedC2;
    assert buf[54] == body[54];
    Widths();
    DecodeEncode(r.counter, 8);
    DecodeEncode(r.amountCents, 8);
  }

  lemma CounterLayout(saveSeq: u32, c: PersistedCounter, buf: seq<byte>)
    requires |buf| >= COUNTER_BODY && buf[..COUNTER_BODY] == CounterBody(saveSeq, c)
    ensures CounterBody(saveSeq, c)[..27] == Head(MAGIC_COUNTER, saveSeq, c.seedId)
    ensures DecodeCounter(c.seedId, buf) == c
  {
    assert buf[27..35] == CounterBody(saveSeq, c)[27..35] == ToBE(c.lastT, 8);
    Widths();
    DecodeEncode(c.lastT, 8);
  }

  /** Reading inverts writing, and the bytes after the checksum do not matter. */
  lemma RetainedRoundTrip(saveSeq: u32, r: PersistedReceipt, buf: seq<byte>)
    requires |buf| == SLOT_SIZE
    requires buf[..RETAINED_BODY + 4] == RetainedImage(saveSeq, r)[..RETAINED_BODY + 4]
    ensures ReadRetained(buf) == Some(Stamped(saveSeq, r))
  {
    var body, n := RetainedBody(saveSeq, r), RETAINED_BODY;
    assert buf[..n] == buf[..n + 4][..n] == Sealed(body)[..n + 4][..n] == body;
    RetainedLayout(saveSeq, r, buf);
    SealedReads(MAGIC_RETAINED, saveSeq, r.seedId, body, buf);
  }

  lemma CounterRoundTrip(saveSeq: u32, c: PersistedCounter, buf: seq<byte>)
    requires |buf| == SLOT_SIZE
    requires buf[..COUNTER_BODY + 4] == CounterImage(saveSeq, c)[..COUNTER_BODY + 4]
    ensures ReadCounter(buf) == Some(Stamped(saveSeq, c))
  {
    var body, n := CounterBody(saveSeq, c), COUNTER_BODY;
    assert buf[..n] == buf[..n + 4][..n] == Sealed(body)[..n + 4][..n] == body;
    CounterLayout(saveSeq, c, buf);
    SealedReads(MAGIC_COUNTER, saveSeq, c.seedId, body, buf);
  }
}
