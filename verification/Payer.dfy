/** The payer's bank: it recomputes C2 from the public field and the seed it looks up. */
module Payer {
  import opened Bytes
  import opened Types
  import opened Derivation
  import opened TransportField
  import opened Protocol
  import opened Quotients

  /** The receiving bank's register of seeds. */
  type Bank = map<SeedId, Seed>

  datatype PaymentReceipt = PaymentReceipt(
    receiverSeedId: SeedId,
    counterUsed: u64,
    amountCents: u64,
    identifier: Code
  )

  datatype Candidate = Candidate(counter: u64, identifier: Code)

  datatype WindowedReceipt = WindowedReceipt(
    receiverSeedId: SeedId,
    amountCents: u64,
    candidates: seq<Candidate>
  )

  /** What both payment paths do first: triage, parse, look the seed up. */
  function Resolve(bank: Bank, instrument: seq<byte>): Result<(ParsedField, Seed), McpixError> {
    if !IsProtocolField(instrument) then Err(TransportFieldPrefix)
    else
      match Parse(instrument)
      case Err(e) => Err(e)
      case Ok(parsed) =>
        if parsed.seedId in bank then Ok((parsed, bank[parsed.seedId])) else Err(UnknownSeed)
  }

  function ProcessPayment(mac: Mac, bank: Bank, instrument: seq<byte>, amountCents: u64, counter: u64)
    : Result<PaymentReceipt, McpixError>
  {
    match Resolve(bank, instrument)
    case Err(e) => Err(e)
    case Ok((parsed, seed)) =>
      Ok(PaymentReceipt(parsed.seedId, counter, amountCents, RecoverC2(mac, seed, counter, parsed.c1)))
  }

  function SaturatingSub(x: u64, y: u64): u64 {
    if x >= y then x - y else 0
  }

  function SaturatingAdd(x: u64, y: u64): u64 {
    if x + y <= U64_MAX then x + y else U64_MAX
  }

  /** One candidate for every counter of an interval, in ascending order. */
  function Candidates(mac: Mac, seed: Seed, c1: Code, lo: u64, n: nat): (cs: seq<Candidate>)
    requires lo + n <= U64_MAX + 1
    ensures |cs| == n
    ensures forall i :: 0 <= i < n ==> cs[i] == Candidate(lo + i, RecoverC2(mac, seed, lo + i, c1))
  {
    seq(n, i requires 0 <= i < n => Candidate(lo + i, RecoverC2(mac, seed, lo + i, c1)))
  }

  /** What a windowed payment answers: the quanta within the tolerance, clipped to 64 bits, ascending. */
  function Windowed(mac: Mac, bank: Bank, instrument: seq<byte>, amountCents: u64, quantum: u64, tolerance: u32)
    : Result<WindowedReceipt, McpixError>
  {
    match Resolve(bank, instrument)
    case Err(e) => Err(e)
    case Ok((parsed, seed)) =>
      var lo, hi := Max(0, quantum - tolerance), Min(U64_MAX, quantum + tolerance);
      Ok(WindowedReceipt(parsed.seedId, amountCents, Candidates(mac, seed, parsed.c1, lo, hi - lo + 1)))
  }

  /** The loop over saturated bounds computes it, and the size of the list does not overflow. */
  method ProcessPaymentWindowed(
    mac: Mac, bank: Bank, instrument: seq<byte>, amountCents: u64, quantum: u64, tolerance: u32)
    returns (r: Result<WindowedReceipt, McpixError>)
    ensures r == Windowed(mac, bank, instrument, amountCents, quantum, tolerance)
  {
    var resolved := Resolve(bank, instrument);
    if resolved.Err? {
      return Err(resolved.error);
    }
    var (parsed, seed) := resolved.value;
    var lo := SaturatingSub(quantum, tolerance);
    var hi := SaturatingAdd(quantum, tolerance);
    var capacity: u64 := hi - lo + 1;
    var candidates: seq<Candidate> := [];
    var t: nat := lo;
    while t <= hi
      invariant lo <= t <= hi + 1
      invariant candidates == Candidates(mac, seed, parsed.c1, lo, t - lo)
    {
      candidates := candidates + [Candidate(t, RecoverC2(mac, seed, t, parsed.c1))];
      t := t + 1;
    }
    return Ok(WindowedReceipt(parsed.seedId, amountCents, candidates));
  }

  lemma ResolveOwnCharge(mac: Mac, bank: Bank, seed: Seed, sid: SeedId, counter: u64, amountCents: u64)
    requires sid in bank && bank[sid] == seed
    ensures Resolve(bank, ChargeFor(mac, seed, sid, counter, amountCents).transportField) ==
            Ok((ParsedField(sid, DeriveC1(mac, seed, counter)), seed))
  {
    var c1 := DeriveC1(mac, seed, counter);
    DerivedIsAlphanumeric(mac, seed, counter, c1);
    ParseOfField(sid, c1);
  }

  /**
   * Institutional substitution: a bank that holds the same seed accepts the emitted field and
   * returns an identifier that parses as C2 and is Valid against the retained receipt.
   */
  lemma Substitution(mac: Mac, bank: Bank, seed: Seed, sid: SeedId, counter: u64, amount: u64, paid: u64)
    requires sid in bank && bank[sid] == seed
    ensures var field := ChargeFor(mac, seed, sid, counter, amount).transportField;
            var r := ProcessPayment(mac, bank, field, paid, counter);
            && r.Ok? && r.value.receiverSeedId == sid && r.value.counterUsed == counter && r.value.amountCents == paid
            && ParseC2(r.value.identifier).Ok?
            && Validate(ReceiptFor(mac, seed, sid, counter, amount), ParseC2(r.value.identifier).value) == Valid
  {
    ResolveOwnCharge(mac, bank, seed, sid, counter, amount);
    DerivedIsAlphanumeric(mac, seed, counter, DeriveC1(mac, seed, counter));
  }

  /**
   * Which instruments a bank pays: exactly the printed fields of a public code under an
   * identifier it knows. It answers with the C2 of its seed, the counter and that public code.
   */
  lemma PaidIff(mac: Mac, bank: Bank, instrument: seq<byte>, amountCents: u64, counter: u64)
    ensures ProcessPayment(mac, bank, instrument, amountCents, counter).Ok? <==>
            exists sid: SeedId, c1: Code :: instrument == Field(sid, c1) && AllAlphanumeric(c1) && sid in bank
    ensures forall sid: SeedId, c1: Code :: instrument == Field(sid, c1) && AllAlphanumeric(c1) && sid in bank ==>
              ProcessPayment(mac, bank, instrument, amountCents, counter) ==
              Ok(PaymentReceipt(sid, counter, amountCents, DeriveC2FromC1(mac, bank[sid], counter, c1)))
  {
    if ProcessPayment(mac, bank, instrument, amountCents, counter).Ok? {
      FieldOfParse(instrument);
    }
    forall sid: SeedId, c1: Code | instrument == Field(sid, c1) && AllAlphanumeric(c1) {
      ParseOfField(sid, c1);
    }
  }

  /** What is not a field of version 1 is refused as such, whatever else is wrong with it. */
  lemma ForeignInstrument(mac: Mac, bank: Bank, instrument: seq<byte>, amountCents: u64, counter: u64)
    requires |instrument| != 35 || instrument[..8] != Ascii("PIXOFFv1")
    ensures ProcessPayment(mac, bank, instrument, amountCents, counter) == Err(TransportFieldPrefix)
  {
    assert PREFIX == Ascii("PIXOFFv1");
  }

  lemma CandidateIn(cs: seq<Candidate>, c: Candidate, lo: nat)
    requires forall i :: 0 <= i < |cs| ==> cs[i].counter == lo + i
    ensures c in cs <==> lo <= c.counter < lo + |cs| && cs[c.counter - lo] == c
  {
    if c in cs {
      var i :| 0 <= i < |cs| && cs[i] == c;
      assert i == c.counter - lo;
    }
  }

  /** In consecutive candidates, the one under a counter is in its place or nowhere. */
  lemma CandidatesExact(mac: Mac, seed: Seed, c1: Code, lo: u64, hi: u64, c: Candidate)
    requires lo <= hi
    ensures c in Candidates(mac, seed, c1, lo, hi - lo + 1) <==>
            lo <= c.counter <= hi && c.identifier == RecoverC2(mac, seed, c.counter, c1)
  {
    var cs := Candidates(mac, seed, c1, lo, hi - lo + 1);
    CandidateIn(cs, c, lo);
    if lo <= c.counter <= hi {
      var i := c.counter - lo;
      assert cs[i] == Candidate(lo + i, RecoverC2(mac, seed, lo + i, c1)) && lo + i == c.counter;
    }
  }

  lemma Clipped(quantum: u64, tolerance: u32, t: u64)
    ensures Max(0, quantum - tolerance) <= t <= Min(U64_MAX, quantum + tolerance) <==>
            quantum - tolerance <= t <= quantum + tolerance
  {
  }

  /**
   * A windowed payment is the plain payments of its window: refused exactly when each of them
   * is, with the same error, and otherwise the candidates are the counters within the tolerance
   * of the quantum, each with the identifier that the plain payment answers for it.
   */
  lemma WindowIsPayments(
    mac: Mac, bank: Bank, instrument: seq<byte>, amountCents: u64, quantum: u64, tolerance: u32, c: Candidate)
    ensures var window := Windowed(mac, bank, instrument, amountCents, quantum, tolerance);
            match ProcessPayment(mac, bank, instrument, amountCents, c.counter)
            case Err(e) => window == Err(e)
            case Ok(paid) =>
              && window.Ok? && window.value.receiverSeedId == paid.receiverSeedId
              && window.value.amountCents == amountCents
              && (c in window.value.candidates <==>
                    quantum - tolerance <= c.counter <= quantum + tolerance && c.identifier == paid.identifier)
  {
    var resolved := Resolve(bank, instrument);
    if resolved.Ok? {
      var (parsed, seed) := resolved.value;
      var lo: u64, hi: u64 := Max(0, quantum - tolerance), Min(U64_MAX, quantum + tolerance);
      CandidatesExact(mac, seed, parsed.c1, lo, hi, c);
      Clipped(quantum, tolerance, c.counter);
    }
  }

  lemma WindowedOwnCharge(
    mac: Mac, bank: Bank, seed: Seed, sid: SeedId, counter: u64, amount: u64, quantum: u64, tolerance: u32,
    lo: u64, hi: u64)
    requires sid in bank && bank[sid] == seed
    requires lo == Max(0, quantum - tolerance) && hi == Min(U64_MAX, quantum + tolerance)
    ensures var field := ChargeFor(mac, seed, sid, counter, amount).transportField;
            Windowed(mac, bank, field, amount, quantum, tolerance) ==
            Ok(WindowedReceipt(sid, amount, Candidates(mac, seed, DeriveC1(mac, seed, counter), lo, hi - lo + 1)))
  {
    ResolveOwnCharge(mac, bank, seed, sid, counter, amount);
  }

  /** Without the receiver's seed at the bank, no identifier comes back. */
  lemma UnknownReceiver(mac: Mac, bank: Bank, seed: Seed, sid: SeedId, counter: u64, amount: u64, paid: u64)
    requires sid !in bank
    ensures ProcessPayment(mac, bank, ChargeFor(mac, seed, sid, counter, amount).transportField, paid, counter) ==
            Err(UnknownSeed)
  {
    var c1 := DeriveC1(mac, seed, counter);
    DerivedIsAlphanumeric(mac, seed, counter, c1);
    ParseOfField(sid, c1);
  }

  // ---- Drift ----

  lemma QuantaClose(receiver: nat, bank: nat, w: nat, k: nat, p: nat, q: nat)
    requires w > 0 && receiver <= bank + k * w && bank <= receiver + k * w && p == receiver / w && q == bank / w
    ensures q <= p + k && p <= q + k && p <= receiver
  {
    Division(receiver, w);
    if receiver <= bank {
      QuotientsClose(receiver, bank, w, k);
    } else {
      QuotientsClose(bank, receiver, w, k);
    }
  }

  /** Clocks at most `k` windows apart: the receiver's quantum is among the bank's candidates. */
  lemma DriftCovered(receiver: u64, bank: u64, w: u64, k: u32)
    requires w > 0 && receiver <= bank + k * w && bank <= receiver + k * w
    ensures Max(0, bank / w - k) <= receiver / w <= Min(U64_MAX, bank / w + k)
  {
    QuantaClose(receiver, bank, w, k, receiver / w, bank / w);
  }
}
