/** The sealed backup's bytes: one pair of writers, and the two readers, the host's and the embedded one. */
module BackupFormat {
  import opened Bytes
  import opened Buffers
  import opened Types

  /** "MBKP". */
  const MAGIC: seq<byte> := [0x4D, 0x42, 0x4B, 0x50]
  const VERSION: nat := 1
  const KDF_ARGON2ID: byte := 1
  const PAYLOAD_VERSION: byte := 1
  const HEADER_LEN: nat := 47
  const PAYLOAD_LEN: nat := 59
  const TAG_LEN: nat := 16
  const TOTAL_LEN: nat := HEADER_LEN + PAYLOAD_LEN + TAG_LEN

  type Salt = s: seq<byte> | |s| == 16 witness Repeat(0, 16)

  type Nonce = s: seq<byte> | |s| == 12 witness Repeat(0, 12)

  datatype KdfParams = KdfParams(mCostKib: u32, tCost: u32, pCost: byte)

  datatype CounterMode = Sequential | Quantized

  /** The state that is backed up, and the state that is restored. */
  datatype ReceiverState = ReceiverState(seed: Seed, seedId: SeedId, counterMode: CounterMode, counterT: u64)

  /** The error kinds, the same five for both readers. */
  datatype BackupError = Malformed | UnsupportedVersion | DecryptFailed | KdfFailed | InvalidSeedId

  function ModeByte(m: CounterMode): byte {
    match m case Sequential => 0 case Quantized => 1
  }

  function ModeOf(b: byte): Result<CounterMode, BackupError> {
    if b == 0 then Ok(Sequential) else if b == 1 then Ok(Quantized) else Err(Malformed)
  }

  // ---- Writers ----

  function HeaderBytes(p: KdfParams, salt: Salt, nonce: Nonce): (bs: seq<byte>)
    ensures |bs| == HEADER_LEN
  {
    MAGIC + ToBE(VERSION, 2) + [KDF_ARGON2ID] + ToBE(p.mCostKib, 4) + ToBE(p.tCost, 4) + [p.pCost]
    + Repeat(0, 3) + salt + nonce
  }

  function PayloadBytes(s: ReceiverState): (bs: seq<byte>)
    ensures |bs| == PAYLOAD_LEN
  {
    [PAYLOAD_VERSION] + s.seed + [|s.seedId|] + s.seedId + Repeat(0, SEED_ID_MAX_LEN - |s.seedId|)
    + [ModeByte(s.counterMode)] + ToBE(s.counterT, 8)
  }

  method WriteHeader(buf: array<byte>, p: KdfParams, salt: Salt, nonce: Nonce)
    requires buf.Length == HEADER_LEN
    modifies buf
    ensures buf[..] == HeaderBytes(p, salt, nonce)
  {
    WriteHeaderFields(buf, ToBE(VERSION, 2), ToBE(p.mCostKib, 4), ToBE(p.tCost, 4), [p.pCost], salt, nonce);
  }

  method WriteHeaderFields(
    buf: array<byte>, version: seq<byte>, m: seq<byte>, t: seq<byte>, parallelism: seq<byte>, salt: Salt, nonce: Nonce)
    requires buf.Length == HEADER_LEN && |version| == 2 && |m| == |t| == 4 && |parallelism| == 1
    modifies buf
    ensures buf[..] == MAGIC + version + [KDF_ARGON2ID] + m + t + parallelism + Repeat(0, 3) + salt + nonce
  {
    ghost var w := MAGIC;
    Extend(buf, 0, MAGIC, []);
    assert buf[..4] == w;
    Extend(buf, 4, version, w);
    w := w + version;
    Extend(buf, 6, [KDF_ARGON2ID], w);
    w := w + [KDF_ARGON2ID];
    Extend(buf, 7, m, w);
    w := w + m;
    Extend(buf, 11, t, w);
    w := w + t;
    Extend(buf, 15, parallelism, w);
    w := w + parallelism;
    Extend(buf, 16, Repeat(0, 3), w);
    w := w + Repeat(0, 3);
    Extend(buf, 19, salt, w);
    w := w + salt;
    Extend(buf, 35, nonce, w);
    assert buf[..] == buf[..47];
  }

  method WritePayload(buf: array<byte>, s: ReceiverState)
    requires buf.Length == PAYLOAD_LEN
    modifies buf
    ensures buf[..] == PayloadBytes(s)
  {
    WritePayloadFields(buf, s.seed, s.seedId, [ModeByte(s.counterMode)], ToBE(s.counterT, 8));
  }

  method WritePayloadFields(buf: array<byte>, seed: Seed, sid: SeedId, mode: seq<byte>, t: seq<byte>)
    requires buf.Length == PAYLOAD_LEN && |mode| == 1 && |t| == 8
    modifies buf
    ensures buf[..] == [PAYLOAD_VERSION] + seed + [|sid|] + sid + Repeat(0, SEED_ID_MAX_LEN - |sid|) + mode + t
  {
    ghost var w: seq<byte> := [PAYLOAD_VERSION];
    Extend(buf, 0, [PAYLOAD_VERSION], []);
    assert buf[..1] == w;
    Extend(buf, 1, seed, w);
    w := w + seed;
    Extend(buf, 33, [|sid|], w);
    w := w + [|sid|];
    Extend(buf, 34, sid, w);
    w := w + sid;
    ZeroFill(buf, 34 + |sid|, 50, w);
    w := w + Repeat(0, SEED_ID_MAX_LEN - |sid|);
    Extend(buf, 50, mode, w);
    w := w + mode;
    Extend(buf, 51, t, w);
    assert buf[..] == buf[..59];
  }

  /** The padding loop of the identifier's slot. */
  method ZeroFill(buf: array<byte>, from: nat, to: nat, ghost written: seq<byte>)
    requires from <= to <= buf.Length && buf[..from] == written
    modifies buf
    ensures buf[..to] == written + Repeat(0, to - from)
  {
    var i := from;
    while i < to
      invariant from <= i <= to && buf[..i] == written + Repeat(0, i - from)
    {
      buf[i] := 0;
      i := i + 1;
    }
  }

  // ---- The host's readers ----

  function ReadHeader(buf: seq<byte>): Result<(KdfParams, Salt, Nonce), BackupError>
    requires |buf| == HEADER_LEN
  {
    if buf[0..4] != MAGIC then Err(Malformed)
    else if FromBE(buf[4..6]) != VERSION then Err(UnsupportedVersion)
    else if buf[6] != KDF_ARGON2ID then Err(UnsupportedVersion)
    else Ok((KdfParams(FromBE32(buf[7..11]), FromBE32(buf[11..15]), buf[15]), buf[19..35], buf[35..47]))
  }

  /** `PayloadView::parse`. */
  function CheckPayload(buf: seq<byte>): Result<seq<byte>, BackupError>
    requires |buf| == PAYLOAD_LEN
    ensures CheckPayload(buf).Ok? ==> CheckPayload(buf).value == buf
  {
    if buf[0] != 1 then Err(UnsupportedVersion) else Ok(buf)
  }

  /** `PayloadView::into_state`. */
  function IntoState(buf: seq<byte>): Result<ReceiverState, BackupError>
    requires |buf| == PAYLOAD_LEN
  {
    var len := buf[33];
    if len == 0 || len > SEED_ID_MAX_LEN then Err(InvalidSeedId)
    else
      match NewSeedId(buf[34..34 + len])
      case Err(_) => Err(InvalidSeedId)
      case Ok(sid) =>
        match ModeOf(buf[50])
        case Err(e) => Err(e)
        case Ok(mode) => Ok(ReceiverState(buf[1..33], sid, mode, FromBE64(buf[51..59])))
  }

  function ReadPayload(buf: seq<byte>): Result<ReceiverState, BackupError>
    requires |buf| == PAYLOAD_LEN
  {
    match CheckPayload(buf)
    case Err(e) => Err(e)
    case Ok(view) => IntoState(view)
  }

  // ---- The embedded readers ----

  datatype HeaderFields = HeaderFields(mCostKib: u32, tCost: u32, pCost: byte, salt: Salt, nonceBytes: Nonce)

  /** Same value or same error kind as the host's reader, on every header. */
  function ParseHeader(buf: seq<byte>): (r: Result<HeaderFields, BackupError>)
    requires |buf| == HEADER_LEN
    ensures match ReadHeader(buf)
            case Err(e) => r == Err(e)
            case Ok((p, salt, nonce)) => r == Ok(HeaderFields(p.mCostKib, p.tCost, p.pCost, salt, nonce))
  {
    if buf[0..4] != MAGIC then Err(Malformed)
    else
      var version := FromBE(buf[4..6]);
      if version != VERSION then Err(UnsupportedVersion)
      else if buf[6] != KDF_ARGON2ID then Err(UnsupportedVersion)
      else Ok(HeaderFields(FromBE32(buf[7..11]), FromBE32(buf[11..15]), buf[15], buf[19..35], buf[35..47]))
  }

  /** Same value or same error kind as the host's reader, on every payload. */
  function ParsePayload(buf: seq<byte>): (r: Result<ReceiverState, BackupError>)
    requires |buf| == PAYLOAD_LEN
    ensures r == ReadPayload(buf)
  {
    if buf[0] != PAYLOAD_VERSION then Err(UnsupportedVersion)
    else
      var seed, len := buf[1..33], buf[33];
      if len == 0 || len > SEED_ID_MAX_LEN then Err(InvalidSeedId)
      else
        var sid := NewSeedId(buf[34..34 + len]);
        if sid.Err? then Err(InvalidSeedId)
        else
          var mode := ModeOf(buf[50]);
          if mode.Err? then Err(mode.error)
          else Ok(ReceiverState(seed, sid.value, mode.value, FromBE64(buf[51..59])))
  }

  // ---- Reading inverts writing ----

  lemma HeaderRoundTrip(p: KdfParams, salt: Salt, nonce: Nonce)
    ensures ReadHeader(HeaderBytes(p, salt, nonce)) == Ok((p, salt, nonce))
  {
    var h := HeaderBytes(p, salt, nonce);
    assert h[4..6] == ToBE(VERSION, 2) && h[7..11] == ToBE(p.mCostKib, 4) && h[11..15] == ToBE(p.tCost, 4);
    assert h[19..35] == salt && h[35..47] == nonce;
    Widths();
    DecodeEncode(VERSION, 2);
    DecodeEncode(p.mCostKib, 4);
    DecodeEncode(p.tCost, 4);
  }

  lemma PayloadRoundTrip(s: ReceiverState)
    ensures ReadPayload(PayloadBytes(s)) == Ok(s)
  {
    var b := PayloadBytes(s);
    assert b[1..33] == s.seed && b[33] == |s.seedId| && b[34..34 + |s.seedId|] == s.seedId;
    assert b[51..59] == ToBE(s.counterT, 8);
    Widths();
    DecodeEncode(s.counterT, 8);
  }

  // ---- What the readers refuse ----

  lemma VersionField(bs: seq<byte>)
    requires |bs| == 2
    ensures FromBE(bs) == 1 <==> bs == [0, 1]
  {
    EncodeDecode(bs);
    assert ToBE(1, 2) == [0, 1];
    assert FromBE([0, 1]) == 1 by {
      DecodeEncode(1, 2);
      Widths();
    }
  }

  /** A header is refused for its magic first, and then for any version or key derivation but 1. */
  lemma HeaderVerdict(buf: seq<byte>)
    requires |buf| == 47
    ensures buf[..4] != Ascii("MBKP") ==> ReadHeader(buf) == Err(Malformed)
    ensures buf[..4] == Ascii("MBKP") && buf[4..7] != [0, 1, 1] ==> ReadHeader(buf) == Err(UnsupportedVersion)
    ensures buf[..7] == Ascii("MBKP") + [0, 1, 1] ==> ReadHeader(buf).Ok?
  {
    VersionField(buf[4..6]);
    assert MAGIC == Ascii("MBKP");
    assert buf[4..7] == buf[4..6] + [buf[6]] && buf[..7] == buf[..4] + buf[4..7] && buf[..4] == buf[0..4];
  }

  /** A payload is refused for its version first, then for its identifier, then for its counter mode. */
  lemma PayloadVerdict(buf: seq<byte>)
    requires |buf| == 59
    ensures var good := 1 <= buf[33] <= 16 && ValidSeedId(buf[34..34 + buf[33]]);
            && (buf[0] != 1 ==> ReadPayload(buf) == Err(UnsupportedVersion))
            && (buf[0] == 1 && !good ==> ReadPayload(buf) == Err(InvalidSeedId))
            && (buf[0] == 1 && good && buf[50] > 1 ==> ReadPayload(buf) == Err(Malformed))
            && (buf[0] == 1 && good && buf[50] <= 1 ==>
                  ReadPayload(buf) == Ok(ReceiverState(
                    buf[1..33], buf[34..34 + buf[33]], if buf[50] == 0 then Sequential else Quantized,
                    FromBE64(buf[51..59]))))
  {
  }

  // ---- Writing inverts reading, up to the bytes that no reader looks at ----

  predicate EqualBut(xs: seq<byte>, ys: seq<byte>, from: nat, to: nat) {
    |xs| == |ys| && forall i :: 0 <= i < |xs| && !(from <= i < to) ==> xs[i] == ys[i]
  }

  lemma ReadOnly(bs: seq<byte>, x: nat)
    requires FromBE(bs) == x
    ensures bs == ToBE(x, |bs|)
  {
    EncodeDecode(bs);
  }

  /** An accepted header is the written one, but for its three reserved bytes. */
  lemma HeaderOfRead(buf: seq<byte>)
    requires |buf| == HEADER_LEN && ReadHeader(buf).Ok?
    ensures var (p, salt, nonce) := ReadHeader(buf).value;
            EqualBut(buf, HeaderBytes(p, salt, nonce), 16, 19)
  {
    var (p, salt, nonce) := ReadHeader(buf).value;
    ReadOnly(buf[4..6], VERSION);
    ReadOnly(buf[7..11], p.mCostKib);
    ReadOnly(buf[11..15], p.tCost);
    assert buf == buf[0..4] + buf[4..6] + [buf[6]] + buf[7..11] + buf[11..15] + [buf[15]]
                  + buf[16..19] + buf[19..35] + buf[35..47];
  }

  /** An accepted payload is the written one, but for the padding behind its identifier. */
  lemma PayloadOfRead(buf: seq<byte>)
    requires |buf| == PAYLOAD_LEN && ReadPayload(buf).Ok?
    ensures var s := ReadPayload(buf).value;
            EqualBut(buf, PayloadBytes(s), 34 + |s.seedId|, 50)
  {
    var s := ReadPayload(buf).value;
    var n := 34 + |s.seedId|;
    ReadOnly(buf[51..59], s.counterT);
    assert buf == [buf[0]] + buf[1..33] + [buf[33]] + buf[34..n] + buf[n..50] + [buf[50]] + buf[51..59];
  }
}
