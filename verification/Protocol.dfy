/** The pure core: a charge and its retained receipt, and the verdict on a presented C2. */
module Protocol {
  import opened Bytes
  import opened Types
  import opened Derivation
  import opened TransportField

  datatype Charge = Charge(seedId: SeedId, counter: u64, amountCents: u64, transportField: seq<byte>)

  datatype RetainedReceipt = RetainedReceipt(
    seedId: SeedId,
    counter: u64,
    amountCents: u64,
    expectedC2: Code,
    consumed: bool
  )

  datatype Outcome = Valid | Mismatch | Replay

  function ChargeFor(mac: Mac, seed: Seed, sid: SeedId, counter: u64, amountCents: u64): Charge {
    Charge(sid, counter, amountCents, Field(sid, DerivePair(mac, seed, counter).0))
  }

  function ReceiptFor(mac: Mac, seed: Seed, sid: SeedId, counter: u64, amountCents: u64): RetainedReceipt {
    RetainedReceipt(sid, counter, amountCents, DerivePair(mac, seed, counter).1, false)
  }

  function Validate(retained: RetainedReceipt, presented: Code): Outcome {
    if retained.consumed then Replay
    else if retained.expectedC2 == presented then Valid
    else Mismatch
  }

  function RecoverC2(mac: Mac, seed: Seed, counter: u64, c1: Code): Code {
    DeriveC2FromC1(mac, seed, counter, c1)
  }
}
