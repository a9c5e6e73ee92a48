/** A save cut by a power failure, slot by slot: the bytes it leaves and what they read as. */
module TornWrites {
  import opened Bytes
  import opened Types
  import opened Records
  import Crc32

  /** The first `k` bytes of an image over erased bytes. */
  function Torn(image: seq<byte>, k: nat): (bs: seq<byte>)
    requires k <= |image|
    ensures |bs| == |image|
  {
    image[..k] + Repeat(ERASED, |image| - k)
  }

  /** A slot after the first `n` byte steps of a save: 64 erase steps, then 64 write steps. */
  function CutSlot(was: seq<byte>, image: seq<byte>, n: nat): (bs: seq<byte>)
    requires |was| == |image| == SLOT_SIZE
    ensures |bs| == SLOT_SIZE
  {
    if n <= SLOT_SIZE then Repeat(ERASED, n) + was[n..]
    else if n <= 2 * SLOT_SIZE then Torn(image, n - SLOT_SIZE)
    else image
  }

  /** What a cut save leaves for the reader. */
  datatype Outcome = Untouched | Unreadable | ReadsTorn | ReadsNew

  predicate TornBodyAccepted(body: seq<byte>, k: nat)
    requires k <= |body|
  {
    Crc32.Checksum(Torn(body, k)) == U32_MAX
  }

  /** The part of the checksum that was not written happens to be all ones. */
  predicate ChecksumTailErased(body: seq<byte>, j: nat)
    requires j <= 4
  {
    forall i :: j <= i < 4 ==> ToBE(Crc32.Checksum(body), 4)[i] == ERASED
  }

  function CutOutcome(body: seq<byte>, sidLen: nat, n: nat): Outcome
    requires 11 + sidLen <= |body|
  {
    var k := n - SLOT_SIZE;
    if n == 0 then Untouched
    else if k < 11 + sidLen then Unreadable
    else if k < |body| then (if TornBodyAccepted(body, k) then ReadsTorn else Unreadable)
    else if k < |body| + 4 then (if ChecksumTailErased(body, k - |body|) then ReadsNew else Unreadable)
    else ReadsNew
  }

  predicate IsRecordBody(magic: seq<byte>, saveSeq: u32, sid: SeedId, body: seq<byte>) {
    |magic| == 4 && 27 <= |body| <= SLOT_SIZE - 4 && body[..27] == Head(magic, saveSeq, sid)
  }

  lemma ErasedVersion(magic: seq<byte>, bodyLen: nat, buf: seq<byte>)
    requires |magic| == 4 && 27 <= bodyLen <= SLOT_SIZE - 4 && |buf| == SLOT_SIZE
    requires buf[5] == ERASED
    ensures ReadHead(magic, bodyLen, buf) == None
  {
    assert buf[4..6] == buf[4..6][..1] + [ERASED];
    assert FromBE(buf[4..6]) % 256 == ERASED;
  }

  lemma ErasedMagic(magic: seq<byte>, bodyLen: nat, buf: seq<byte>)
    requires |magic| == 4 && 27 <= bodyLen <= SLOT_SIZE - 4 && |buf| == SLOT_SIZE
    requires buf[0] == ERASED != magic[0]
    ensures ReadHead(magic, bodyLen, buf) == None
  {
    assert buf[0] == buf[0..4][0];
  }

  lemma ErasedLength(magic: seq<byte>, bodyLen: nat, buf: seq<byte>)
    requires |magic| == 4 && 27 <= bodyLen <= SLOT_SIZE - 4 && |buf| == SLOT_SIZE
    requires buf[10] == ERASED
    ensures ReadHead(magic, bodyLen, buf) == None
  {
  }

  lemma ErasedInId(magic: seq<byte>, bodyLen: nat, buf: seq<byte>, k: nat)
    requires |magic| == 4 && 27 <= bodyLen <= SLOT_SIZE - 4 && |buf| == SLOT_SIZE
    requires 0 < buf[10] <= SEED_ID_MAX_LEN && 11 <= k < 11 + buf[10] && buf[k] == ERASED
    ensures ReadHead(magic, bodyLen, buf) == None
  {
    assert buf[11..11 + buf[10]][k - 11] == ERASED;
  }

  lemma TornHead(magic: seq<byte>, saveSeq: u32, sid: SeedId, body: seq<byte>, k: nat)
    requires IsRecordBody(magic, saveSeq, sid, body) && k < 11 + |sid|
    ensures ReadHead(magic, |body|, Torn(Sealed(body), k)) == None
  {
    var image, buf := Sealed(body), Torn(Sealed(body), k);
    if k <= 5 {
      ErasedVersion(magic, |body|, buf);
    } else if k <= 10 {
      ErasedLength(magic, |body|, buf);
    } else {
      HeadLayout(magic, saveSeq, sid);
      assert buf[10] == image[10] == body[10] == body[..27][10] == |sid|;
      ErasedInId(magic, |body|, buf, k);
    }
  }

  lemma TornStart(magic: seq<byte>, saveSeq: u32, sid: SeedId, body: seq<byte>, k: nat)
    requires IsRecordBody(magic, saveSeq, sid, body) && 11 + |sid| <= k <= SLOT_SIZE
    ensures Torn(Sealed(body), k)[..11 + |sid|] == Head(magic, saveSeq, sid)[..11 + |sid|]
  {
    var n := 11 + |sid|;
    var image := Sealed(body);
    assert Torn(image, k)[..n] == image[..n] == body[..n] == body[..27][..n];
  }

  lemma ErasedChecksum(bs: seq<byte>)
    requires bs == Repeat(ERASED, 4)
    ensures FromBE(bs) == U32_MAX
  {
    assert bs[..3][..2][..1][..0] == [];
    assert FromBE(bs[..3][..2][..1]) == 0xFF;
    assert FromBE(bs[..3][..2]) == 0xFFFF;
    assert FromBE(bs[..3]) == 0xFF_FFFF;
  }

  lemma TornBody(magic: seq<byte>, saveSeq: u32, sid: SeedId, body: seq<byte>, k: nat)
    requires IsRecordBody(magic, saveSeq, sid, body) && 11 + |sid| <= k < |body|
    ensures ReadHead(magic, |body|, Torn(Sealed(body), k)) ==
            if TornBodyAccepted(body, k) then Some(Stamped(saveSeq, sid)) else None
    ensures Torn(Sealed(body), k)[..|body|] == Torn(body, k)
  {
    var buf, n := Torn(Sealed(body), k), |body|;
    TornStart(magic, saveSeq, sid, body, k);
    ReadAfterHead(magic, saveSeq, sid, n, buf);
    assert buf[..n] == Torn(body, k);
    assert buf[n..n + 4] == Repeat(ERASED, 4);
    ErasedChecksum(buf[n..n + 4]);
  }

  lemma FieldReads(v: u32, field: seq<byte>)
    requires |field| == 4
    ensures FromBE32(field) == v <==> field == ToBE(v, 4)
  {
    Widths();
    DecodeEncode(v, 4);
    EncodeDecode(field);
  }

  lemma TailIff(field: seq<byte>, crc: seq<byte>, j: nat)
    requires |crc| == 4 && j <= 4 && field == crc[..j] + Repeat(ERASED, 4 - j)
    ensures field == crc <==> forall i :: j <= i < 4 ==> crc[i] == ERASED
  {
    if field == crc {
      assert forall i :: j <= i < 4 ==> field[i] == ERASED;
    }
  }

  lemma TornField(image: seq<byte>, body: seq<byte>, field: seq<byte>, tail: seq<byte>, k: nat)
    requires image == body + field + tail && |field| == 4 && |body| <= k <= |body| + 4
    ensures Torn(image, k)[..|body|] == body
    ensures Torn(image, k)[|body|..|body| + 4] == field[..k - |body|] + Repeat(ERASED, |body| + 4 - k)
  {
    var n, buf := |body|, Torn(image, k);
    assert image[..k] == body + field[..k - n];
    forall i | 0 <= i < 4 ensures buf[n + i] == if i < k - n then field[i] else ERASED {
      assert i < k - n ==> buf[n + i] == image[..k][n + i];
    }
  }

  /** The bytes of a slot torn in the checksum field: the whole body, and a field with an erased tail. */
  lemma TornFieldBytes(body: seq<byte>, k: nat)
    requires |body| <= SLOT_SIZE - 4 && |body| <= k <= |body| + 4
    ensures var buf, n, crc := Torn(Sealed(body), k), |body|, ToBE(Crc32.Checksum(body), 4);
            buf[..n] == body && buf[n..n + 4] == crc[..k - n] + Repeat(ERASED, n + 4 - k)
  {
    var crc, tail := ToBE(Crc32.Checksum(body), 4), Repeat(ERASED, SLOT_SIZE - 4 - |body|);
    TornField(Sealed(body), body, crc, tail, k);
  }

  lemma TornChecksum(magic: seq<byte>, saveSeq: u32, sid: SeedId, body: seq<byte>, k: nat)
    requires IsRecordBody(magic, saveSeq, sid, body) && |body| <= k <= |body| + 4
    ensures ReadHead(magic, |body|, Torn(Sealed(body), k)) ==
            if ChecksumTailErased(body, k - |body|) then Some(Stamped(saveSeq, sid)) else None
    ensures Torn(Sealed(body), k)[..|body|] == body
  {
    var buf, n, sum := Torn(Sealed(body), k), |body|, Crc32.Checksum(body);
    TornFieldBytes(body, k);
    TornStart(magic, saveSeq, sid, body, k);
    ReadAfterHead(magic, saveSeq, sid, n, buf);
    FieldReads(sum, buf[n..n + 4]);
    TailIff(buf[n..n + 4], ToBE(sum, 4), k - n);
  }

  /** The head of a slot that a save was cut in, for every number of steps done. */
  lemma CutHead(magic: seq<byte>, saveSeq: u32, sid: SeedId, body: seq<byte>, was: seq<byte>, n: nat)
    requires IsRecordBody(magic, saveSeq, sid, body) && magic[0] != ERASED && |was| == SLOT_SIZE
    ensures ReadHead(magic, |body|, CutSlot(was, Sealed(body), n)) ==
            match CutOutcome(body, |sid|, n)
            case Untouched => ReadHead(magic, |body|, was)
            case Unreadable => None
            case ReadsTorn => Some(Stamped(saveSeq, sid))
            case ReadsNew => Some(Stamped(saveSeq, sid))
  {
    var image := Sealed(body);
    if n == 0 {
      assert CutSlot(was, image, n) == was;
    } else if n <= SLOT_SIZE {
      ErasedMagic(magic, |body|, CutSlot(was, image, n));
    } else {
      var k := Min(n - SLOT_SIZE, SLOT_SIZE);
      assert CutSlot(was, image, n) == Torn(image, k);
      if k < 11 + |sid| {
        TornHead(magic, saveSeq, sid, body, k);
      } else if k < |body| {
        TornBody(magic, saveSeq, sid, body, k);
      } else if k < |body| + 4 {
        TornChecksum(magic, saveSeq, sid, body, k);
      } else {
        assert Torn(image, k)[..|body| + 4] == image[..|body| + 4];
        SealedReads(magic, saveSeq, sid, body, Torn(image, k));
      }
    }
  }

  // ---- The two record kinds ----

  /** What happens to the target slot of a save. */
  datatype Fate<+V> = Kept | Lost | Wrote(value: V)

  function TornReceipt(saveSeq: u32, r: PersistedReceipt, k: nat): PersistedReceipt
    requires k <= RETAINED_BODY
  {
    DecodeReceipt(r.seedId, Torn(RetainedBody(saveSeq, r), k))
  }

  /** The save stops where it leaves a torn body that the checksum does not reject. */
  predicate ReceiptTears(saveSeq: u32, r: PersistedReceipt, n: nat) {
    var k := n - SLOT_SIZE;
    11 + |r.seedId| <= k < RETAINED_BODY && TornBodyAccepted(RetainedBody(saveSeq, r), k)
  }

  predicate CounterTears(saveSeq: u32, c: PersistedCounter, n: nat) {
    var k := n - SLOT_SIZE;
    11 + |c.seedId| <= k < COUNTER_BODY && TornBodyAccepted(CounterBody(saveSeq, c), k)
  }

  function RetainedFate(saveSeq: u32, r: PersistedReceipt, n: nat): Fate<PersistedReceipt> {
    match CutOutcome(RetainedBody(saveSeq, r), |r.seedId|, n)
    case Untouched => Kept
    case Unreadable => Lost
    case ReadsTorn => Wrote(TornReceipt(saveSeq, r, n - SLOT_SIZE))
    case ReadsNew => Wrote(r)
  }

  function TornCounter(saveSeq: u32, c: PersistedCounter, k: nat): PersistedCounter
    requires k <= COUNTER_BODY
  {
    DecodeCounter(c.seedId, Torn(CounterBody(saveSeq, c), k))
  }

  function CounterFate(saveSeq: u32, c: PersistedCounter, n: nat): Fate<PersistedCounter> {
    match CutOutcome(CounterBody(saveSeq, c), |c.seedId|, n)
    case Untouched => Kept
    case Unreadable => Lost
    case ReadsTorn => Wrote(TornCounter(saveSeq, c, n - SLOT_SIZE))
    case ReadsNew => Wrote(c)
  }

  function AfterFate<V>(was: Option<Stamped<V>>, saveSeq: u32, fate: Fate<V>): Option<Stamped<V>> {
    match fate
    case Kept => was
    case Lost => None
    case Wrote(v) => Some(Stamped(saveSeq, v))
  }

  /** What the body of a cut receipt decodes to, where the head reads. */
  lemma TornReceiptDecodes(was: seq<byte>, saveSeq: u32, r: PersistedReceipt, n: nat)
    requires |was| == SLOT_SIZE && CutOutcome(RetainedBody(saveSeq, r), |r.seedId|, n) == ReadsTorn
    ensures DecodeReceipt(r.seedId, CutSlot(was, RetainedImage(saveSeq, r), n)) ==
            TornReceipt(saveSeq, r, n - SLOT_SIZE)
  {
    var body, k := RetainedBody(saveSeq, r), n - SLOT_SIZE;
    RetainedLayout(saveSeq, r, body);
    TornBody(MAGIC_RETAINED, saveSeq, r.seedId, body, k);
    DecodeReceiptPrefix(r.seedId, CutSlot(was, RetainedImage(saveSeq, r), n), Torn(body, k));
  }

  lemma NewReceiptDecodes(was: seq<byte>, saveSeq: u32, r: PersistedReceipt, n: nat)
    requires |was| == SLOT_SIZE && n >= SLOT_SIZE + RETAINED_BODY
    ensures DecodeReceipt(r.seedId, CutSlot(was, RetainedImage(saveSeq, r), n)) == r
  {
    var buf := CutSlot(was, RetainedImage(saveSeq, r), n);
    assert buf[..RETAINED_BODY] == RetainedBody(saveSeq, r);
    RetainedLayout(saveSeq, r, buf);
  }

  /** The exact classification of a cut save of a receipt. */
  lemma RetainedCut(was: seq<byte>, saveSeq: u32, r: PersistedReceipt, n: nat)
    requires |was| == SLOT_SIZE
    ensures ReadRetained(CutSlot(was, RetainedImage(saveSeq, r), n)) ==
            AfterFate(ReadRetained(was), saveSeq, RetainedFate(saveSeq, r, n))
  {
    var body := RetainedBody(saveSeq, r);
    RetainedLayout(saveSeq, r, body);
    CutHead(MAGIC_RETAINED, saveSeq, r.seedId, body, was, n);
    match CutOutcome(body, |r.seedId|, n)
    case Untouched =>
      assert CutSlot(was, RetainedImage(saveSeq, r), n) == was;
    case Unreadable =>
    case ReadsTorn =>
      TornReceiptDecodes(was, saveSeq, r, n);
    case ReadsNew =>
      NewReceiptDecodes(was, saveSeq, r, n);
  }

  lemma DecodeReceiptPrefix(sid: SeedId, buf: seq<byte>, body: seq<byte>)
    requires |buf| >= RETAINED_BODY && buf[..RETAINED_BODY] == body
    ensures DecodeReceipt(sid, buf) == DecodeReceipt(sid, body)
  {
    assert buf[27..35] == body[27..35] && buf[35..43] == body[35..43] && buf[43..54] == body[43..54];
    assert buf[54] == body[54];
  }

  /** The exact classification of a cut save of a counter. */
  lemma CounterCut(was: seq<byte>, saveSeq: u32, c: PersistedCounter, n: nat)
    requires |was| == SLOT_SIZE
    ensures ReadCounter(CutSlot(was, CounterImage(saveSeq, c), n)) ==
            AfterFate(ReadCounter(was), saveSeq, CounterFate(saveSeq, c, n))
  {
    var body, image := CounterBody(saveSeq, c), CounterImage(saveSeq, c);
    CounterLayout(saveSeq, c, body);
    CutHead(MAGIC_COUNTER, saveSeq, c.seedId, body, was, n);
    var buf, k := CutSlot(was, image, n), n - SLOT_SIZE;
    match CutOutcome(body, |c.seedId|, n)
    case Untouched =>
      assert buf == was;
    case Unreadable =>
    case ReadsTorn =>
      TornBody(MAGIC_COUNTER, saveSeq, c.seedId, body, k);
      assert buf[27..35] == Torn(body, k)[27..35];
    case ReadsNew =>
      assert buf[..COUNTER_BODY] == body;
      CounterLayout(saveSeq, c, buf);
  }

  /** What the first `k` bytes of a stored receipt over erased bytes read as, for every `k`. */
  lemma TornReceiptReads(saveSeq: u32, r: PersistedReceipt, k: nat)
    requires k <= SLOT_SIZE
    ensures var read, body := ReadRetained(Torn(RetainedImage(saveSeq, r), k)), RetainedBody(saveSeq, r);
            && (k < 11 + |r.seedId| ==> read == None)
            && (11 + |r.seedId| <= k < RETAINED_BODY ==>
                  read == if Crc32.Checksum(Torn(body, k)) == U32_MAX
                          then Some(Stamped(saveSeq, TornReceipt(saveSeq, r, k))) else None)
            && (RETAINED_BODY <= k < RETAINED_BODY + 4 ==>
                  read == if ChecksumTailErased(body, k - RETAINED_BODY) then Some(Stamped(saveSeq, r)) else None)
            && (k >= RETAINED_BODY + 4 ==> read == Some(Stamped(saveSeq, r)))
  {
    TornSlot(RetainedImage(saveSeq, r), k);
    RetainedCut(Repeat(ERASED, SLOT_SIZE), saveSeq, r, SLOT_SIZE + k);
    RetainedFates(saveSeq, r, k);
  }

  lemma TornSlot(image: seq<byte>, k: nat)
    requires |image| == SLOT_SIZE && k <= SLOT_SIZE
    ensures CutSlot(Repeat(ERASED, SLOT_SIZE), image, SLOT_SIZE + k) == Torn(image, k)
  {
  }

  lemma RetainedFates(saveSeq: u32, r: PersistedReceipt, k: nat)
    ensures var fate, body := RetainedFate(saveSeq, r, SLOT_SIZE + k), RetainedBody(saveSeq, r);
            && (k < 11 + |r.seedId| ==> fate == Lost)
            && (11 + |r.seedId| <= k < RETAINED_BODY ==>
                  fate == if Crc32.Checksum(Torn(body, k)) == U32_MAX then Wrote(TornReceipt(saveSeq, r, k)) else Lost)
            && (RETAINED_BODY <= k < RETAINED_BODY + 4 ==>
                  fate == if ChecksumTailErased(body, k - RETAINED_BODY) then Wrote(r) else Lost)
            && (k >= RETAINED_BODY + 4 ==> fate == Wrote(r))
  {
  }

  lemma CounterFates(saveSeq: u32, c: PersistedCounter, k: nat)
    ensures var fate, body := CounterFate(saveSeq, c, SLOT_SIZE + k), CounterBody(saveSeq, c);
            && (k < 11 + |c.seedId| ==> fate == Lost)
            && (11 + |c.seedId| <= k < COUNTER_BODY ==>
                  fate == if Crc32.Checksum(Torn(body, k)) == U32_MAX then Wrote(TornCounter(saveSeq, c, k)) else Lost)
            && (COUNTER_BODY <= k < COUNTER_BODY + 4 ==>
                  fate == if ChecksumTailErased(body, k - COUNTER_BODY) then Wrote(c) else Lost)
            && (k >= COUNTER_BODY + 4 ==> fate == Wrote(c))
  {
  }

  lemma TornCounterReads(saveSeq: u32, c: PersistedCounter, k: nat)
    requires k <= SLOT_SIZE
    ensures var read, body := ReadCounter(Torn(CounterImage(saveSeq, c), k)), CounterBody(saveSeq, c);
            && (k < 11 + |c.seedId| ==> read == None)
            && (11 + |c.seedId| <= k < COUNTER_BODY ==>
                  read == if Crc32.Checksum(Torn(body, k)) == U32_MAX
                          then Some(Stamped(saveSeq, TornCounter(saveSeq, c, k))) else None)
            && (COUNTER_BODY <= k < COUNTER_BODY + 4 ==>
                  read == if ChecksumTailErased(body, k - COUNTER_BODY) then Some(Stamped(saveSeq, c)) else None)
            && (k >= COUNTER_BODY + 4 ==> read == Some(Stamped(saveSeq, c)))
  {
    TornSlot(CounterImage(saveSeq, c), k);
    CounterCut(Repeat(ERASED, SLOT_SIZE), saveSeq, c, SLOT_SIZE + k);
    CounterFates(saveSeq, c, k);
  }

  /** A torn receipt never reads as unconsumed, and its numbers only grow. */
  lemma TornReceiptBounds(saveSeq: u32, r: PersistedReceipt, k: nat)
    requires k < RETAINED_BODY
    ensures var t := TornReceipt(saveSeq, r, k);
            t.consumed && t.seedId == r.seedId && t.counter >= r.counter && t.amountCents >= r.amountCents
  {
    var body := RetainedBody(saveSeq, r);
    var t := Torn(body, k);
    RetainedLayout(saveSeq, r, body);
    assert t[54] == ERASED;
    FromBEMonotone(body[27..35], t[27..35]);
    FromBEMonotone(body[35..43], t[35..43]);
  }

  /** A torn counter is never smaller than the counter that was being saved. */
  lemma TornCounterBounds(saveSeq: u32, c: PersistedCounter, k: nat)
    requires k < COUNTER_BODY
    ensures TornCounter(saveSeq, c, k).lastT >= c.lastT
  {
    var body := CounterBody(saveSeq, c);
    CounterLayout(saveSeq, c, body);
    FromBEMonotone(body[27..35], Torn(body, k)[27..35]);
  }

  /** A torn consumption mark is the mark itself exactly when only its flag byte is missing. */
  lemma TornMark(saveSeq: u32, r: PersistedReceipt, k: nat)
    requires k < RETAINED_BODY && r.consumed && AllAlphanumeric(r.expectedC2)
    ensures TornReceipt(saveSeq, r, k) == r <==> k == RETAINED_BODY - 1
  {
    var body, torn := RetainedBody(saveSeq, r), Torn(RetainedBody(saveSeq, r), k);
    RetainedLayout(saveSeq, r, body);
    if k < RETAINED_BODY - 1 {
      assert TornReceipt(saveSeq, r, k).expectedC2[10] == torn[43..54][10] == ERASED;
    } else {
      LastByteTorn(saveSeq, r);
    }
  }

  /** A receipt torn in its last body byte differs from the one saved in its consumed flag alone. */
  lemma LastByteTorn(saveSeq: u32, r: PersistedReceipt)
    ensures TornReceipt(saveSeq, r, RETAINED_BODY - 1) == r.(consumed := true)
  {
    var body, torn := RetainedBody(saveSeq, r), Torn(RetainedBody(saveSeq, r), RETAINED_BODY - 1);
    RetainedLayout(saveSeq, r, body);
    assert torn[27..35] == body[27..35] && torn[35..43] == body[35..43] && torn[43..54] == body[43..54];
    assert torn[54] == ERASED;
  }

  /** The bytes of the counter from `k` on are all 0xFF. */
  predicate OnesFrom(body: seq<byte>, k: nat)
    requires |body| == COUNTER_BODY
  {
    forall i :: Max(k, 27) <= i < COUNTER_BODY ==> body[i] == ERASED
  }

  /** A torn counter is the one being saved exactly when the bytes it lost were 0xFF. */
  lemma TornCounterSame(saveSeq: u32, c: PersistedCounter, k: nat)
    requires k < COUNTER_BODY
    ensures TornCounter(saveSeq, c, k) == c <==> OnesFrom(CounterBody(saveSeq, c), k)
  {
    var body, torn := CounterBody(saveSeq, c), Torn(CounterBody(saveSeq, c), k);
    CounterLayout(saveSeq, c, body);
    EncodeDecode(body[27..35]);
    EncodeDecode(torn[27..35]);
    assert TornCounter(saveSeq, c, k) == c <==> torn[27..35] == body[27..35];
    SameTail(body, torn, k);
  }

  lemma SameTail(body: seq<byte>, torn: seq<byte>, k: nat)
    requires |body| == COUNTER_BODY && k < COUNTER_BODY && torn == Torn(body, k)
    ensures torn[27..35] == body[27..35] <==> OnesFrom(body, k)
  {
    if torn[27..35] == body[27..35] {
      forall i | Max(k, 27) <= i < COUNTER_BODY ensures body[i] == ERASED {
        assert body[i] == body[27..35][i - 27] == torn[27..35][i - 27] == torn[i];
      }
    }
  }
}
