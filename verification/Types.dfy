/** The values that every part of the protocol passes around. */
module Types {
  import opened Bytes

  const SEED_LEN: nat := 32
  const SEED_ID_MAX_LEN: nat := 16
  const CODE_LEN: nat := 11
  const PAD: byte := 0x30

  /** An identifier is short, alphanumeric, and free of the transport field's padding character. */
  predicate ValidSeedId(s: seq<byte>) {
    1 <= |s| <= SEED_ID_MAX_LEN && forall i :: 0 <= i < |s| ==> IsAlphanumeric(s[i]) && s[i] != PAD
  }

  type SeedId = s: seq<byte> | ValidSeedId(s) witness [0x41]

  type Seed = s: seq<byte> | |s| == SEED_LEN witness Repeat(0, SEED_LEN)

  /** C1 or C2: eleven bytes. */
  type Code = s: seq<byte> | |s| == CODE_LEN witness Repeat(0x41, CODE_LEN)

  /** The host's errors, those that the modelled operations return. */
  datatype McpixError =
    | TransportFieldLength(len: nat)
    | TransportFieldCharset(position: nat)
    | TransportFieldPrefix
    | UnsupportedProtocolVersion(prefix: seq<byte>)
    | SeedIdLength(got: nat)
    | SeedIdCharset
    | CounterOverflow
    | CounterCollision(windowSeconds: u64)
    | CounterRollback(last: u64, now: u64)
    | UnknownSeed
    | NoRetainedReceipt

  /** `SeedId::new`. */
  function NewSeedId(bs: seq<byte>): (r: Result<SeedId, McpixError>)
    ensures r.Ok? <==> ValidSeedId(bs)
    ensures r.Ok? ==> r.value == bs
  {
    if |bs| == 0 || |bs| > SEED_ID_MAX_LEN then Err(SeedIdLength(|bs|))
    else if exists i :: 0 <= i < |bs| && !(IsAlphanumeric(bs[i]) && bs[i] != PAD) then Err(SeedIdCharset)
    else Ok(bs)
  }

  /** `C2::parse`. */
  function ParseC2(bs: seq<byte>): (r: Result<Code, McpixError>)
    ensures r.Ok? <==> |bs| == CODE_LEN && AllAlphanumeric(bs)
    ensures r.Ok? ==> r.value == bs
  {
    if |bs| != CODE_LEN then Err(TransportFieldLength(|bs|))
    else if !AllAlphanumeric(bs) then Err(TransportFieldCharset(0))
    else Ok(bs)
  }
}
