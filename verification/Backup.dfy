/** Sealed backups: export and import over abstract cryptography, and the receiver that a backup restores. */
module Backup {
  import opened Bytes
  import opened BackupFormat

  /** The external primitives: key derivation, authenticated encryption, and the text encoding. */
  datatype Crypto = Crypto(
    deriveKey: (seq<byte>, Salt, KdfParams) -> Option<seq<byte>>,
    seal: (seq<byte>, Nonce, seq<byte>, seq<byte>) -> Option<seq<byte>>,
    open: (seq<byte>, Nonce, seq<byte>, seq<byte>) -> Option<seq<byte>>,
    encodeText: seq<byte> -> seq<byte>,
    decodeText: seq<byte> -> Option<seq<byte>>
  )

  /** Decryption and decoding invert their encoders; a ciphertext is its message and a tag. Nothing else is known. */
  ghost predicate Inverts(c: Crypto) {
    && (forall bs :: c.decodeText(c.encodeText(bs)) == Some(bs))
    && forall key, nonce, msg, aad :: c.seal(key, nonce, msg, aad).Some? ==>
         && |c.seal(key, nonce, msg, aad).value| == |msg| + TAG_LEN
         && c.open(key, nonce, c.seal(key, nonce, msg, aad).value, aad) == Some(msg)
  }

  // ---- Export ----

  function Blob(c: Crypto, s: ReceiverState, passphrase: seq<byte>, p: KdfParams, salt: Salt, nonce: Nonce)
    : Result<seq<byte>, BackupError>
  {
    match c.deriveKey(passphrase, salt, p)
    case None => Err(KdfFailed)
    case Some(key) =>
      match c.seal(key, nonce, PayloadBytes(s), HeaderBytes(p, salt, nonce))
      case None => Err(KdfFailed)
      case Some(sealed) => Ok(HeaderBytes(p, salt, nonce) + sealed)
  }

  /** `entropy` is what the random source delivers, if it delivers. */
  method Export(c: Crypto, s: ReceiverState, passphrase: seq<byte>, p: KdfParams, entropy: Option<(Salt, Nonce)>)
    returns (r: Result<seq<byte>, BackupError>)
    ensures entropy.None? ==> r == Err(KdfFailed)
    ensures entropy.Some? ==>
              r == match Blob(c, s, passphrase, p, entropy.value.0, entropy.value.1)
                   case Err(e) => Err(e)
                   case Ok(blob) => Ok(c.encodeText(blob))
  {
    if entropy.None? {
      return Err(KdfFailed);
    }
    var (salt, nonce) := entropy.value;
    var header := new byte[HEADER_LEN];
    WriteHeader(header, p, salt, nonce);
    var key := c.deriveKey(passphrase, salt, p);
    if key.None? {
      return Err(KdfFailed);
    }
    var payload := new byte[PAYLOAD_LEN];
    WritePayload(payload, s);
    var sealed := c.seal(key.value, nonce, payload[..], header[..]);
    if sealed.None? {
      return Err(KdfFailed);
    }
    var blob := header[..];
    blob := blob + sealed.value;
    return Ok(c.encodeText(blob));
  }

  // ---- Import ----

  /** What both importers do, given their readers' verdicts. */
  function Imported(c: Crypto, text: seq<byte>, passphrase: seq<byte>): Result<ReceiverState, BackupError> {
    var decoded := c.decodeText(text);
    if decoded.None? || |decoded.value| != TOTAL_LEN then Err(Malformed)
    else
      var header, sealed := decoded.value[..HEADER_LEN], decoded.value[HEADER_LEN..];
      match ReadHeader(header)
      case Err(e) => Err(e)
      case Ok((p, salt, nonce)) =>
        match c.deriveKey(passphrase, salt, p)
        case None => Err(KdfFailed)
        case Some(key) =>
          match c.open(key, nonce, sealed, header)
          case None => Err(DecryptFailed)
          case Some(payload) => if |payload| != PAYLOAD_LEN then Err(Malformed) else ReadPayload(payload)
  }

  method Import(c: Crypto, text: seq<byte>, passphrase: seq<byte>) returns (r: Result<ReceiverState, BackupError>)
    ensures r == Imported(c, text, passphrase)
  {
    var blob := c.decodeText(text);
    if blob.None? {
      return Err(Malformed);
    }
    if |blob.value| != TOTAL_LEN {
      return Err(Malformed);
    }
    var header := blob.value[..HEADER_LEN];
    var fields := ReadHeader(header);
    if fields.Err? {
      return Err(fields.error);
    }
    var (p, salt, nonce) := fields.value;
    var key := c.deriveKey(passphrase, salt, p);
    if key.None? {
      return Err(KdfFailed);
    }
    var plain := c.open(key.value, nonce, blob.value[HEADER_LEN..], header);
    if plain.None? {
      return Err(DecryptFailed);
    }
    if |plain.value| != PAYLOAD_LEN {
      return Err(Malformed);
    }
    var view := CheckPayload(plain.value);
    if view.Err? {
      return Err(view.error);
    }
    return IntoState(view.value);
  }

  /** The embedded importer, with its own readers: the same answer on every text and passphrase. */
  method ImportEmbedded(c: Crypto, text: seq<byte>, passphrase: seq<byte>)
    returns (r: Result<ReceiverState, BackupError>)
    ensures r == Imported(c, text, passphrase)
  {
    var blob := c.decodeText(text);
    if blob.None? {
      return Err(Malformed);
    }
    if |blob.value| != TOTAL_LEN {
      return Err(Malformed);
    }
    var header := blob.value[..HEADER_LEN];
    var fields := ParseHeader(header);
    if fields.Err? {
      return Err(fields.error);
    }
    var h := fields.value;
    var key := c.deriveKey(passphrase, h.salt, KdfParams(h.mCostKib, h.tCost, h.pCost));
    if key.None? {
      return Err(KdfFailed);
    }
    var plain := c.open(key.value, h.nonceBytes, blob.value[HEADER_LEN..], header);
    if plain.None? {
      return Err(DecryptFailed);
    }
    if |plain.value| != PAYLOAD_LEN {
      return Err(Malformed);
    }
    return ParsePayload(plain.value);
  }

  /** Import after export is the identity. */
  lemma ImportOfExport(c: Crypto, s: ReceiverState, passphrase: seq<byte>, p: KdfParams, salt: Salt, nonce: Nonce)
    requires Inverts(c) && Blob(c, s, passphrase, p, salt, nonce).Ok?
    ensures Imported(c, c.encodeText(Blob(c, s, passphrase, p, salt, nonce).value), passphrase) == Ok(s)
  {
    var header := HeaderBytes(p, salt, nonce);
    var key := c.deriveKey(passphrase, salt, p).value;
    var sealed := c.seal(key, nonce, PayloadBytes(s), header).value;
    var blob := header + sealed;
    assert c.decodeText(c.encodeText(blob)) == Some(blob);
    assert blob[..HEADER_LEN] == header && blob[HEADER_LEN..] == sealed;
    HeaderRoundTrip(p, salt, nonce);
    PayloadRoundTrip(s);
  }

  /** What the cipher opens under a key, nonce and header is what it seals under them. */
  ghost predicate Authentic(c: Crypto) {
    forall key, nonce, sealed, aad :: c.open(key, nonce, sealed, aad).Some? ==>
      c.seal(key, nonce, c.open(key, nonce, sealed, aad).value, aad) == Some(sealed)
  }

  /** A text that decodes to a header and the seal of a payload under the header's own parameters and bytes. */
  predicate IsSealed(c: Crypto, blob: seq<byte>, passphrase: seq<byte>, header: seq<byte>, payload: seq<byte>)
    requires |header| == HEADER_LEN && ReadHeader(header).Ok?
  {
    var (p, salt, nonce) := ReadHeader(header).value;
    var key := c.deriveKey(passphrase, salt, p);
    key.Some? && c.seal(key.value, nonce, payload, header).Some?
    && blob == header + c.seal(key.value, nonce, payload, header).value
  }

  /**
   * Export after import: with an authentic cipher, every accepted text is an export of the
   * imported state, but for three reserved header bytes and the padding of the identifier. The
   * seal covers the header as it stands.
   */
  lemma ExportOfImport(c: Crypto, text: seq<byte>, passphrase: seq<byte>)
    requires Authentic(c) && Imported(c, text, passphrase).Ok?
    ensures c.decodeText(text).Some? && |c.decodeText(text).value| == TOTAL_LEN
    ensures var blob, s := c.decodeText(text).value, Imported(c, text, passphrase).value;
            var header := blob[..HEADER_LEN];
            && ReadHeader(header).Ok?
            && (var (p, salt, nonce) := ReadHeader(header).value;
                EqualBut(header, HeaderBytes(p, salt, nonce), 16, 19))
            && exists payload ::
                 && EqualBut(payload, PayloadBytes(s), 34 + |s.seedId|, 50)
                 && IsSealed(c, blob, passphrase, header, payload)
  {
    var blob := c.decodeText(text).value;
    var header, sealed := blob[..HEADER_LEN], blob[HEADER_LEN..];
    var (p, salt, nonce) := ReadHeader(header).value;
    var key := c.deriveKey(passphrase, salt, p).value;
    var payload := c.open(key, nonce, sealed, header).value;
    HeaderOfRead(header);
    PayloadOfRead(payload);
    assert c.seal(key, nonce, payload, header) == Some(sealed);
    assert IsSealed(c, blob, passphrase, header, payload);
  }

  /** What does not decode, or has another length, scheme or version, is refused before any key is derived. */
  lemma RefusedUnopened(c: Crypto, text: seq<byte>, passphrase: seq<byte>)
    ensures c.decodeText(text).None? || |c.decodeText(text).value| != 122 ==>
              Imported(c, text, passphrase) == Err(Malformed)
    ensures c.decodeText(text).Some? && |c.decodeText(text).value| == 122 ==>
              var blob := c.decodeText(text).value;
              && (blob[..4] != Ascii("MBKP") ==> Imported(c, text, passphrase) == Err(Malformed))
              && (blob[..4] == Ascii("MBKP") && blob[4..7] != [0, 1, 1] ==>
                    Imported(c, text, passphrase) == Err(UnsupportedVersion))
  {
    if c.decodeText(text).Some? && |c.decodeText(text).value| == 122 {
      var blob := c.decodeText(text).value;
      HeaderVerdict(blob[..47]);
      assert blob[..47][..4] == blob[..4] && blob[..47][4..7] == blob[4..7];
    }
  }

  /**
   * Importing an export with any passphrase: without a key it reports the derivation, and with
   * a key that does not open the seal, as of a wrong passphrase, it reports the decryption.
   */
  lemma WrongPassphrase(
    c: Crypto, s: ReceiverState, passphrase: seq<byte>, other: seq<byte>, p: KdfParams, salt: Salt, nonce: Nonce)
    requires Inverts(c) && Blob(c, s, passphrase, p, salt, nonce).Ok?
    ensures var blob, key := Blob(c, s, passphrase, p, salt, nonce).value, c.deriveKey(other, salt, p);
            var answer := Imported(c, c.encodeText(blob), other);
            && (answer == Err(KdfFailed) <==> key.None?)
            && (answer == Err(DecryptFailed) <==>
                  key.Some? && c.open(key.value, nonce, blob[47..], blob[..47]).None?)
  {
    var header := HeaderBytes(p, salt, nonce);
    var sealed := c.seal(c.deriveKey(passphrase, salt, p).value, nonce, PayloadBytes(s), header).value;
    var blob := header + sealed;
    assert c.decodeText(c.encodeText(blob)) == Some(blob);
    assert blob[..HEADER_LEN] == header && blob[HEADER_LEN..] == sealed;
    HeaderRoundTrip(p, salt, nonce);
  }
}
