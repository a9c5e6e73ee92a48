/** The public 35-character field: two printers, two parsers, one bijection. */
module TransportField {
  import opened Bytes
  import opened Buffers
  import opened Types

  const PREFIX_LEN: nat := 8
  const FIELD_LEN: nat := 35
  const SLOT_END: nat := 24

  /** "PIXOFFv", the family of all versions, and "PIXOFFv1", the only version there is. */
  const FAMILY: seq<byte> := [0x50, 0x49, 0x58, 0x4F, 0x46, 0x46, 0x76]
  const PREFIX: seq<byte> := FAMILY + [0x31]

  datatype ParsedField = ParsedField(seedId: SeedId, c1: Code)

  function Field(sid: SeedId, c1: Code): (f: seq<byte>)
    ensures |f| == FIELD_LEN
  {
    PREFIX + sid + Repeat(PAD, SEED_ID_MAX_LEN - |sid|) + c1
  }

  // ---- Printers ----

  /** The host appends to a string. */
  method Encode(sid: SeedId, c1: Code) returns (out: seq<byte>)
    ensures out == Field(sid, c1)
  {
    out := PREFIX;
    out := out + sid;
    var i := |sid|;
    while i < SEED_ID_MAX_LEN
      invariant |sid| <= i <= SEED_ID_MAX_LEN
      invariant out == PREFIX + sid + Repeat(PAD, i - |sid|)
    {
      out := out + [PAD];
      i := i + 1;
    }
    out := out + c1;
  }

  /** The embedded printer fills the caller's buffer. */
  method EncodeInto(sid: SeedId, c1: Code, out: array<byte>)
    requires out.Length == FIELD_LEN
    modifies out
    ensures out[..] == Field(sid, c1)
  {
    CopyInto(out, 0, PREFIX);
    CopyInto(out, PREFIX_LEN, sid);
    Fill(out, PREFIX_LEN + |sid|, SLOT_END, PAD);
    CopyInto(out, SLOT_END, c1);
  }

  // ---- The host parser ----

  /** The position of the first byte that is not alphanumeric. */
  function FirstBad(f: seq<byte>, from: nat): (r: Option<nat>)
    requires from <= |f|
    ensures r.None? <==> AllAlphanumeric(f[from..])
    ensures r.Some? ==> from <= r.value < |f| && !IsAlphanumeric(f[r.value]) && AllAlphanumeric(f[from..r.value])
    decreases |f| - from
  {
    if from == |f| then None
    else if !IsAlphanumeric(f[from]) then (assert f[from..][0] == f[from]; Some(from))
    else
      assert f[from..] == [f[from]] + f[from + 1..];
      var r := FirstBad(f, from + 1);
      assert r.Some? ==> f[from..r.value] == [f[from]] + f[from + 1..r.value];
      r
  }

  function TrimEnd(s: seq<byte>, pad: byte): (t: seq<byte>)
    ensures t <= s && (t != [] ==> t[|t| - 1] != pad)
    ensures s == t + Repeat(pad, |s| - |t|)
  {
    if s != [] && s[|s| - 1] == pad then
      var t := TrimEnd(s[..|s| - 1], pad);
      assert s == s[..|s| - 1] + [pad];
      t
    else s
  }

  function Detect(f: seq<byte>): Result<(), McpixError> {
    if |f| < PREFIX_LEN then Err(TransportFieldLength(|f|))
    else if f[..PREFIX_LEN] == PREFIX then Ok(())
    else if FAMILY <= f[..PREFIX_LEN] then Err(UnsupportedProtocolVersion(f[..PREFIX_LEN]))
    else Err(TransportFieldPrefix)
  }

  function ParseV1(f: seq<byte>): Result<ParsedField, McpixError> {
    if |f| != FIELD_LEN then Err(TransportFieldLength(|f|))
    else
      match NewSeedId(TrimEnd(f[PREFIX_LEN..SLOT_END], PAD))
      case Err(e) => Err(e)
      case Ok(sid) => Ok(ParsedField(sid, f[SLOT_END..]))
  }

  function Parse(f: seq<byte>): Result<ParsedField, McpixError> {
    if !(26 <= |f| <= 35) then Err(TransportFieldLength(|f|))
    else
      match FirstBad(f, 0)
      case Some(i) => Err(TransportFieldCharset(i))
      case None =>
        match Detect(f)
        case Err(e) => Err(e)
        case Ok(_) => ParseV1(f)
  }

  predicate IsProtocolField(f: seq<byte>) {
    |f| == FIELD_LEN && PREFIX <= f
  }

  // ---- The embedded parser ----

  datatype EmbedError =
    | BadSeedId(error: McpixError)
    | BufferLen(expected: nat, got: nat)
    | TransportFieldLayout

  function ParseEmbedded(f: seq<byte>): Result<ParsedField, EmbedError> {
    if |f| != FIELD_LEN then Err(BufferLen(FIELD_LEN, |f|))
    else if !AllAlphanumeric(f) then Err(TransportFieldLayout)
    else if f[..PREFIX_LEN] != PREFIX then Err(TransportFieldLayout)
    else
      match NewSeedId(TrimEnd(f[PREFIX_LEN..SLOT_END], PAD))
      case Err(e) => Err(BadSeedId(e))
      case Ok(sid) => Ok(ParsedField(sid, f[SLOT_END..]))
  }

  lemma {:induction false} TrimEndOf(s: seq<byte>, pad: byte, n: nat)
    requires n <= |s| && (n > 0 ==> s[n - 1] != pad)
    requires forall i :: n <= i < |s| ==> s[i] == pad
    ensures TrimEnd(s, pad) == s[..n]
  {
    if |s| > n {
      TrimEndOf(s[..|s| - 1], pad, n);
      assert s[..|s| - 1][..n] == s[..n];
    } else {
      assert s[..n] == s;
    }
  }

  method ParseInto(f: seq<byte>) returns (r: Result<ParsedField, EmbedError>)
    ensures r == ParseEmbedded(f)
  {
    if |f| != FIELD_LEN {
      return Err(BufferLen(FIELD_LEN, |f|));
    }
    if !AllAlphanumeric(f) {
      return Err(TransportFieldLayout);
    }
    if f[..PREFIX_LEN] != PREFIX {
      return Err(TransportFieldLayout);
    }
    var slot := f[PREFIX_LEN..SLOT_END];
    var sidEnd := |slot|;
    while sidEnd > 0 && slot[sidEnd - 1] == PAD
      invariant 0 <= sidEnd <= |slot|
      invariant forall i :: sidEnd <= i < |slot| ==> slot[i] == PAD
    {
      sidEnd := sidEnd - 1;
    }
    TrimEndOf(slot, PAD, sidEnd);
    match NewSeedId(slot[..sidEnd]) {
      case Err(e) => return Err(BadSeedId(e));
      case Ok(sid) => return Ok(ParsedField(sid, f[SLOT_END..]));
    }
  }

  // ---- The bijection ----

  lemma FieldLayout(sid: SeedId, c1: Code)
    ensures var f := Field(sid, c1);
            f[..PREFIX_LEN] == PREFIX && f[SLOT_END..] == c1 && TrimEnd(f[PREFIX_LEN..SLOT_END], PAD) == sid
  {
    var f := Field(sid, c1);
    var slot := f[PREFIX_LEN..SLOT_END];
    assert slot == sid + Repeat(PAD, SEED_ID_MAX_LEN - |sid|);
    TrimEndOf(slot, PAD, |sid|);
    assert slot[..|sid|] == sid;
  }

  /** The layout, position by position. */
  lemma FieldBytes(sid: SeedId, c1: Code)
    ensures var f, n := Field(sid, c1), 8 + |sid|;
            && |f| == 35 && f[..8] == Ascii("PIXOFFv1") && f[8..n] == sid && f[24..] == c1
            && forall i :: n <= i < 24 ==> f[i] == 0x30
  {
    assert PREFIX == Ascii("PIXOFFv1");
    FieldLayout(sid, c1);
  }

  lemma FieldIsAlphanumeric(sid: SeedId, c1: Code)
    requires AllAlphanumeric(c1)
    ensures AllAlphanumeric(Field(sid, c1))
  {
    assert AllAlphanumeric(PREFIX) && IsAlphanumeric(PAD);
  }

  /** Parsing inverts printing. */
  lemma ParseOfField(sid: SeedId, c1: Code)
    requires AllAlphanumeric(c1)
    ensures Parse(Field(sid, c1)) == Ok(ParsedField(sid, c1))
    ensures IsProtocolField(Field(sid, c1))
  {
    var f := Field(sid, c1);
    FieldLayout(sid, c1);
    FieldIsAlphanumeric(sid, c1);
    assert f[0..] == f;
  }

  /** Printing inverts parsing: every accepted string is the one canonical form. */
  lemma FieldOfParse(f: seq<byte>)
    requires Parse(f).Ok?
    ensures var p := Parse(f).value;
            f == Field(p.seedId, p.c1) && AllAlphanumeric(p.c1)
  {
    assert f[0..] == f;
    var slot := f[PREFIX_LEN..SLOT_END];
    var sid := TrimEnd(slot, PAD);
    assert slot == sid + Repeat(PAD, SEED_ID_MAX_LEN - |sid|);
    assert f == f[..PREFIX_LEN] + slot + f[SLOT_END..];
  }

  /** The two parsers accept the same strings, with the same result. */
  lemma ParsersAgree(f: seq<byte>)
    ensures Parse(f).Ok? <==> ParseEmbedded(f).Ok?
    ensures Parse(f).Ok? ==> Parse(f).value == ParseEmbedded(f).value
    ensures Parse(f).Ok? ==> IsProtocolField(f)
  {
    assert f[0..] == f;
  }

  lemma FirstBadIs(f: seq<byte>, bad: nat)
    requires bad < |f| && !IsAlphanumeric(f[bad]) && AllAlphanumeric(f[..bad])
    ensures FirstBad(f, 0) == Some(bad)
  {
    assert f[0..] == f;
  }

  /**
   * Why the host's parser refuses a string: its length first, then the position of its first
   * byte that is not alphanumeric, then its scheme, then its version.
   */
  lemma ParseRefuses(f: seq<byte>, bad: nat)
    ensures |f| < 26 || |f| > 35 ==> Parse(f) == Err(TransportFieldLength(|f|))
    ensures 26 <= |f| <= 35 && bad < |f| && !IsAlphanumeric(f[bad]) && AllAlphanumeric(f[..bad]) ==>
              Parse(f) == Err(TransportFieldCharset(bad))
    ensures 26 <= |f| <= 35 && AllAlphanumeric(f) ==>
              && (f[..7] != Ascii("PIXOFFv") ==> Parse(f) == Err(TransportFieldPrefix))
              && (f[..7] == Ascii("PIXOFFv") && f[7] != '1' as int ==>
                    Parse(f) == Err(UnsupportedProtocolVersion(f[..8])))
  {
    if 26 <= |f| <= 35 {
      assert f[0..] == f;
      if bad < |f| && !IsAlphanumeric(f[bad]) && AllAlphanumeric(f[..bad]) {
        FirstBadIs(f, bad);
      }
      assert FAMILY == Ascii("PIXOFFv") && f[..8][..7] == f[..7] && f[..8][7] == f[7];
    }
  }

  /** Then, for version 1, its length again and its identifier: none at all, or one with a padding character inside. */
  lemma ParseRefusesIdentifier(f: seq<byte>)
    requires 26 <= |f| <= 35 && AllAlphanumeric(f) && f[..8] == Ascii("PIXOFFv1")
    ensures |f| != 35 ==> Parse(f) == Err(TransportFieldLength(|f|))
    ensures |f| == 35 ==> (f[8..24] == Repeat(0x30, 16) <==> Parse(f) == Err(SeedIdLength(0)))
    ensures |f| == 35 && Parse(f).Err? ==> Parse(f) == Err(SeedIdLength(0)) || Parse(f) == Err(SeedIdCharset)
  {
    assert f[0..] == f;
    assert PREFIX == Ascii("PIXOFFv1");
    if |f| == 35 && f[8..24] == Repeat(0x30, 16) {
      TrimEndOf(f[8..24], PAD, 0);
    }
  }

  /** The two parsers also refuse alike: the embedded one's error is the host's, or a coarser one. */
  lemma RefusalsAgree(f: seq<byte>)
    ensures |f| != 35 <==> ParseEmbedded(f) == Err(BufferLen(35, |f|))
    ensures forall e :: ParseEmbedded(f) == Err(BadSeedId(e)) ==> Parse(f) == Err(e)
    ensures |f| == 35 ==>
              (ParseEmbedded(f) == Err(TransportFieldLayout) <==>
                 Parse(f).Err?
                 && (Parse(f).error.TransportFieldCharset? || Parse(f).error.TransportFieldPrefix?
                     || Parse(f).error.UnsupportedProtocolVersion?))
  {
    assert f[0..] == f;
  }

  /** Distinct pairs never share a field, padding notwithstanding. */
  lemma FieldInjective(s: SeedId, c: Code, t: SeedId, d: Code)
    requires Field(s, c) == Field(t, d)
    ensures s == t && c == d
  {
    FieldLayout(s, c);
    FieldLayout(t, d);
  }
}
