/** What the checksum of a stored record detects. */
module Corruption {
  import opened Bytes
  import opened Records
  import Crc32

  /** Two slots that agree outside `from..to`. */
  predicate AgreeOutside(xs: seq<byte>, ys: seq<byte>, from: nat, to: nat)
    requires from <= to <= |xs|
  {
    |xs| == |ys| && xs[..from] == ys[..from] && xs[to..] == ys[to..]
  }

  /** A sealed slot damaged inside its body: the body differs in the same window, the checksum field is intact. */
  lemma DamagedBody(body: seq<byte>, buf: seq<byte>, k: nat)
    requires |body| <= SLOT_SIZE - 4 && |buf| == SLOT_SIZE
    requires k + 4 <= |body| && AgreeOutside(Sealed(body), buf, k, k + 4) && buf != Sealed(body)
    ensures buf[|body|..|body| + 4] == ToBE(Crc32.Checksum(body), 4)
    ensures body[..k] == buf[..|body|][..k] && body[k + 4..] == buf[..|body|][k + 4..] && body != buf[..|body|]
  {
    var n, image := |body|, Sealed(body);
    forall i | 0 <= i < SLOT_SIZE && !(k <= i < k + 4) ensures buf[i] == image[i] {
      assert i < k ==> buf[i] == buf[..k][i] && image[i] == image[..k][i];
      assert i >= k + 4 ==> buf[i] == buf[k + 4..][i - k - 4] && image[i] == image[k + 4..][i - k - 4];
    }
    var j :| 0 <= j < SLOT_SIZE && buf[j] != image[j];
    assert buf[..n][j] != body[j];
  }

  lemma SealedBurst(magic: seq<byte>, body: seq<byte>, buf: seq<byte>, k: nat)
    requires |magic| == 4 && 27 <= |body| <= SLOT_SIZE - 4 && |buf| == SLOT_SIZE
    requires k + 4 <= |body| && AgreeOutside(Sealed(body), buf, k, k + 4) && buf != Sealed(body)
    ensures ReadHead(magic, |body|, buf) == None
  {
    DamagedBody(body, buf, k);
    Widths();
    DecodeEncode(Crc32.Checksum(body), 4);
    Crc32.BurstDetected(body, buf[..|body|], k);
  }

  lemma SealedChecksumField(magic: seq<byte>, body: seq<byte>, buf: seq<byte>)
    requires |magic| == 4 && 27 <= |body| <= SLOT_SIZE - 4 && |buf| == SLOT_SIZE
    requires buf[..|body|] == body && buf[|body|..|body| + 4] != Sealed(body)[|body|..|body| + 4]
    ensures ReadHead(magic, |body|, buf) == None
  {
    var n := |body|;
    assert Sealed(body)[n..n + 4] == ToBE(Crc32.Checksum(body), 4);
    EncodeDecode(buf[n..n + 4]);
  }

  /** Damage confined to four consecutive bytes of a stored receipt's body is always detected. */
  lemma ReceiptBurst(saveSeq: u32, r: PersistedReceipt, buf: seq<byte>, k: nat)
    requires |buf| == SLOT_SIZE && k + 4 <= RETAINED_BODY
    requires AgreeOutside(RetainedImage(saveSeq, r), buf, k, k + 4)
    ensures ReadRetained(buf) == if buf == RetainedImage(saveSeq, r) then Some(Stamped(saveSeq, r)) else None
  {
    if buf == RetainedImage(saveSeq, r) {
      RetainedRoundTrip(saveSeq, r, buf);
    } else {
      SealedBurst(MAGIC_RETAINED, RetainedBody(saveSeq, r), buf, k);
    }
  }

  lemma CounterBurst(saveSeq: u32, c: PersistedCounter, buf: seq<byte>, k: nat)
    requires |buf| == SLOT_SIZE && k + 4 <= COUNTER_BODY
    requires AgreeOutside(CounterImage(saveSeq, c), buf, k, k + 4)
    ensures ReadCounter(buf) == if buf == CounterImage(saveSeq, c) then Some(Stamped(saveSeq, c)) else None
  {
    if buf == CounterImage(saveSeq, c) {
      CounterRoundTrip(saveSeq, c, buf);
    } else {
      SealedBurst(MAGIC_COUNTER, CounterBody(saveSeq, c), buf, k);
    }
  }

  /** With the body intact, a receipt reads back exactly when its checksum field is intact. */
  lemma ReceiptChecksumField(saveSeq: u32, r: PersistedReceipt, buf: seq<byte>)
    requires |buf| == SLOT_SIZE && buf[..RETAINED_BODY] == RetainedBody(saveSeq, r)
    ensures ReadRetained(buf) ==
            if buf[RETAINED_BODY..RETAINED_BODY + 4] == RetainedImage(saveSeq, r)[RETAINED_BODY..RETAINED_BODY + 4]
            then Some(Stamped(saveSeq, r)) else None
  {
    var n, image := RETAINED_BODY, RetainedImage(saveSeq, r);
    if buf[n..n + 4] == image[n..n + 4] {
      assert buf[..n + 4] == buf[..n] + buf[n..n + 4] == image[..n] + image[n..n + 4] == image[..n + 4];
      RetainedRoundTrip(saveSeq, r, buf);
    } else {
      SealedChecksumField(MAGIC_RETAINED, RetainedBody(saveSeq, r), buf);
    }
  }

  lemma CounterChecksumField(saveSeq: u32, c: PersistedCounter, buf: seq<byte>)
    requires |buf| == SLOT_SIZE && buf[..COUNTER_BODY] == CounterBody(saveSeq, c)
    ensures ReadCounter(buf) ==
            if buf[COUNTER_BODY..COUNTER_BODY + 4] == CounterImage(saveSeq, c)[COUNTER_BODY..COUNTER_BODY + 4]
            then Some(Stamped(saveSeq, c)) else None
  {
    var n, image := COUNTER_BODY, CounterImage(saveSeq, c);
    if buf[n..n + 4] == image[n..n + 4] {
      assert buf[..n + 4] == buf[..n] + buf[n..n + 4] == image[..n] + image[n..n + 4] == image[..n + 4];
      CounterRoundTrip(saveSeq, c, buf);
    } else {
      SealedChecksumField(MAGIC_COUNTER, CounterBody(saveSeq, c), buf);
    }
  }

  /** Each reader rejects the other kind's records. */
  lemma KindsAreDistinct(saveSeq: u32, r: PersistedReceipt, c: PersistedCounter)
    ensures ReadCounter(RetainedImage(saveSeq, r)) == None
    ensures ReadRetained(CounterImage(saveSeq, c)) == None
  {
    assert RetainedImage(saveSeq, r)[0..4] == MAGIC_RETAINED && CounterImage(saveSeq, c)[0..4] == MAGIC_COUNTER;
    assert MAGIC_RETAINED[1] != MAGIC_COUNTER[1];
  }
}
