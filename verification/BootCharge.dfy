/** The charge that a boot shows and the receipt it keeps, as the payer's bank meets them, down to the bytes. */
module BootCharge {
  import opened Bytes
  import opened Types
  import opened Records
  import opened TornWrites
  import opened PingPong
  import opened Flash
  import opened Stores
  import opened CrashRuns
  import opened Derivation
  import opened BootProtocol
  import opened Boot
  import Protocol
  import Payer

  /** The field a boot shows is that of the charge with its identifier and counter. */
  lemma FieldIsOfCharge(mac: Mac, seed: Seed, t: u64, amount: u64)
    ensures FieldOf(mac, seed, t) == Protocol.ChargeFor(mac, seed, SEED_ID, t, amount).transportField
  {
  }

  /** A bank that holds the device's seed answers the field with the code that the new receipt expects. */
  lemma BankAnswers(mac: Mac, bank: Payer.Bank, seed: Seed, t: u64, paid: u64)
    requires [0x52, 0x31] in bank && bank[[0x52, 0x31]] == seed
    ensures Payer.ProcessPayment(mac, bank, FieldOf(mac, seed, t), paid, t) ==
            Ok(Payer.PaymentReceipt([0x52, 0x31], t, paid, NewReceipt(mac, seed, t).expectedC2))
  {
    FieldIsOfCharge(mac, seed, t, 0);
    Payer.ResolveOwnCharge(mac, bank, seed, SEED_ID, t, 0);
  }

  /** What an uncut boot with a number left in both stores leaves: the new receipt. */
  lemma UncutReceipt(
    mac: Mac, seed: Seed, qr: QrEncoder, img: seq<byte>, power: nat, receipts: nat, counters: nat, t: u64)
    requires Fits(LAYOUT, img) && power >= 3 * FULL && t == NextT(MemoryOf(img)) && qr(FieldOf(mac, seed, t))
    requires Reached(Receipts(LAYOUT, img), receipts) && receipts < U32_MAX
    requires Reached(Counters(LAYOUT, img), counters) && counters < U32_MAX
    ensures var r := BootImage(mac, seed, qr, img, power);
            && r.ending == CONSUMED && r.emitted == Some(t) && LastT(MemoryOf(r.image)) == t
            && Load(Receipts(LAYOUT, r.image)) ==
               Some(NewReceipt(mac, seed, t).(consumed := receipts + 1 < U32_MAX))
  {
    UncutBoot(mac, seed, qr, img, power, receipts, counters);
  }

  /**
   * The flash loads a receipt of R1 for `t` and for 99.00, whose code is the bank's answer to
   * the field.
   */
  predicate Retains(mac: Mac, bank: Payer.Bank, field: seq<byte>, paid: u64, t: u64, consumed: bool, img: seq<byte>)
    requires Fits(LAYOUT, img)
  {
    var kept := Load(Receipts(LAYOUT, img));
    && kept.Some? && kept.value.seedId == [0x52, 0x31] && kept.value.counter == t
    && kept.value.amountCents == 9900 && kept.value.consumed == consumed
    && Payer.ProcessPayment(mac, bank, field, paid, t) ==
       Ok(Payer.PaymentReceipt([0x52, 0x31], t, paid, kept.value.expectedC2))
  }

  lemma NewReceiptRetains(
    mac: Mac, bank: Payer.Bank, seed: Seed, paid: u64, t: u64, consumed: bool, img: seq<byte>)
    requires Fits(LAYOUT, img) && Load(Receipts(LAYOUT, img)) == Some(NewReceipt(mac, seed, t).(consumed := consumed))
    requires [0x52, 0x31] in bank && bank[[0x52, 0x31]] == seed
    ensures Retains(mac, bank, FieldOf(mac, seed, t), paid, t, consumed, img)
  {
    BankAnswers(mac, bank, seed, t, paid);
  }

  /**
   * An uncut boot with a number left in both stores: the flash then retains the charge of the
   * next counter. The code it expects is what any bank that holds the seed answers to the field
   * that the boot handed to the QR encoder.
   */
  lemma RetainedCharge(
    mac: Mac, seed: Seed, qr: QrEncoder, img: seq<byte>, power: nat, receipts: nat, counters: nat,
    t: u64, bank: Payer.Bank, paid: u64)
    requires Fits(LAYOUT, img) && power >= 3 * FULL && t == NextT(MemoryOf(img)) && qr(FieldOf(mac, seed, t))
    requires Reached(Receipts(LAYOUT, img), receipts) && receipts < U32_MAX
    requires Reached(Counters(LAYOUT, img), counters) && counters < U32_MAX
    requires [0x52, 0x31] in bank && bank[[0x52, 0x31]] == seed
    ensures var r := BootImage(mac, seed, qr, img, power);
            && r.ending == Status(6) && r.emitted == Some(t) && LastT(MemoryOf(r.image)) == t
            && Retains(mac, bank, FieldOf(mac, seed, t), paid, t, receipts + 1 < U32_MAX, r.image)
  {
    var r := BootImage(mac, seed, qr, img, power);
    UncutReceipt(mac, seed, qr, img, power, receipts, counters, t);
    NewReceiptRetains(mac, bank, seed, paid, t, receipts + 1 < U32_MAX, r.image);
  }

  /** A field that the QR encoder refuses halts the boot with 0xFF: the counter is spent, and no receipt is kept. */
  lemma RefusedField(mac: Mac, seed: Seed, qr: QrEncoder, img: seq<byte>, power: nat, counters: nat)
    requires Fits(LAYOUT, img) && power >= FULL && !qr(FieldOf(mac, seed, NextT(MemoryOf(img))))
    requires Reached(Counters(LAYOUT, img), counters) && counters < U32_MAX
    ensures var r, t := BootImage(mac, seed, qr, img, power), NextT(MemoryOf(img));
            && r.ending == Status(0xFF) && r.emitted == Some(t) && LastT(MemoryOf(r.image)) == t
            && Receipts(LAYOUT, r.image) == Receipts(LAYOUT, img)
  {
    FatesFaithful();
    BootRefines(mac, seed, qr, img, power);
    RefusedBoot(FATES, DeviceOf(mac, seed, qr), MemoryOf(img), power, counters);
  }

  // ---- The bytes of the first boot ----

  lemma CompleteSlot(was: seq<byte>, image: seq<byte>, n: nat)
    requires |was| == |image| == SLOT_SIZE && n >= FULL
    ensures CutSlot(was, image, n) == image
  {
  }

  /** Four slots, one behind the other. */
  function Slotted(a: seq<byte>, b: seq<byte>, c: seq<byte>, d: seq<byte>): (img: seq<byte>)
    requires |a| == |b| == |c| == |d| == SLOT_SIZE
    ensures Fits(LAYOUT, img)
  {
    a + b + c + d
  }

  lemma PatchSlots(a: seq<byte>, b: seq<byte>, c: seq<byte>, d: seq<byte>, slot: seq<byte>)
    requires |a| == |b| == |c| == |d| == |slot| == SLOT_SIZE
    ensures Patch(Slotted(a, b, c, d), 0, slot) == Slotted(slot, b, c, d)
    ensures Patch(Slotted(a, b, c, d), SLOT_SIZE, slot) == Slotted(a, slot, c, d)
    ensures Patch(Slotted(a, b, c, d), 2 * SLOT_SIZE, slot) == Slotted(a, b, slot, d)
  {
  }

  /** An erased slot. */
  function Empty(): (bs: seq<byte>)
    ensures |bs| == SLOT_SIZE
  {
    Repeat(0xFF, 64)
  }

  /** The first save of a counter goes to its slot A. */
  lemma FirstCounter(img: seq<byte>, c: PersistedCounter, power: nat)
    requires img == Slotted(Empty(), Empty(), Empty(), Empty()) && power >= FULL
    requires Counters(LAYOUT, img) == Slots(None, None)
    ensures StepImage(LAYOUT, img, SaveCounter(c, power)) == Slotted(Empty(), Empty(), CounterImage(1, c), Empty())
  {
    CompleteSlot(SlotAt(img, 2 * SLOT_SIZE), CounterImage(1, c), power);
    PatchSlots(Empty(), Empty(), Empty(), Empty(), CounterImage(1, c));
  }

  /** The first save of a receipt goes to its slot A, and its consumption to slot B. */
  lemma FirstReceipt(img: seq<byte>, counter: seq<byte>, r: PersistedReceipt, power: nat)
    requires |counter| == SLOT_SIZE && img == Slotted(Empty(), Empty(), counter, Empty()) && power >= FULL
    requires Receipts(LAYOUT, img) == Slots(None, None)
    ensures StepImage(LAYOUT, img, SaveReceipt(r, power)) == Slotted(RetainedImage(1, r), Empty(), counter, Empty())
  {
    CompleteSlot(SlotAt(img, 0), RetainedImage(1, r), power);
    PatchSlots(Empty(), Empty(), counter, Empty(), RetainedImage(1, r));
  }

  /** A complete save puts the whole image into the slot it targets. */
  lemma CompleteReceipt(img: seq<byte>, a: nat, b: nat, s: Slots<PersistedReceipt>, r: PersistedReceipt, power: nat)
    requires Layout(img, a, b) && ReceiptSlots(img, a, b) == s && power >= FULL
    ensures SaveReceiptCut(img, a, b, r, power) == Patch(img, Target(s, a, b), RetainedImage(NextSeq(s), r))
  {
    CompleteSlot(SlotAt(img, Target(s, a, b)), RetainedImage(NextSeq(s), r), power);
  }

  lemma SecondSlot<V>(v: V, a: nat, b: nat)
    ensures var s := Slots(Some(Stamped(1, v)), None); Target(s, a, b) == b && NextSeq(s) == 2
  {
  }

  lemma FirstMark(img: seq<byte>, first: seq<byte>, counter: seq<byte>, r: PersistedReceipt, power: nat)
    requires |first| == |counter| == SLOT_SIZE && img == Slotted(first, Empty(), counter, Empty()) && power >= FULL
    requires Receipts(LAYOUT, img) == Slots(Some(Stamped(1, r)), None) && !r.consumed
    ensures StepImage(LAYOUT, img, MarkConsumed(power)) ==
            Slotted(first, RetainedImage(2, r.(consumed := true)), counter, Empty())
  {
    MarkIsSave(LAYOUT, img, r, power);
    var s, marked := Slots(Some(Stamped(1, r)), None), r.(consumed := true);
    CompleteReceipt(img, LAYOUT.receiptA, LAYOUT.receiptB, s, marked, power);
    SecondSlot(r, LAYOUT.receiptA, LAYOUT.receiptB);
    PatchSlots(first, Empty(), counter, Empty(), RetainedImage(2, marked));
  }

  lemma BlankSlots()
    ensures Boot.Blank() == Slotted(Empty(), Empty(), Empty(), Empty())
    ensures MemoryOf(Boot.Blank()) == Memory(Slots(None, None), Slots(None, None))
  {
    ErasedIsBlank(LAYOUT, FLASH_LEN);
  }

  /** Keeping a receipt in a flash that holds its counter and nothing else. */
  lemma FirstKeep(img: seq<byte>, counter: seq<byte>, r: PersistedReceipt, power: nat)
    requires |counter| == SLOT_SIZE && img == Slotted(Empty(), Empty(), counter, Empty()) && power >= 2 * FULL
    requires Receipts(LAYOUT, img) == Slots(None, None) && !r.consumed
    requires Load(Counters(LAYOUT, img)).Some? && LastT(MemoryOf(img)) == r.counter
    ensures KeepImage(r, r.counter, img, power) ==
            (Slotted(RetainedImage(1, r), RetainedImage(2, r.(consumed := true)), counter, Empty()), CONSUMED)
  {
    var retained := StepImage(LAYOUT, img, SaveReceipt(r, power));
    FatesComplete();
    FirstReceipt(img, counter, r, power);
    StepSlots(LAYOUT, img, SaveReceipt(r, power));
    FirstMark(retained, RetainedImage(1, r), counter, r, Rest(power));
  }

  /** A boot whose receipt is kept. */
  lemma KeptBoot(
    mac: Mac, seed: Seed, qr: QrEncoder, img: seq<byte>, power: nat, t: u64, saved: seq<byte>, after: seq<byte>)
    requires Fits(LAYOUT, img) && power >= FULL && t == NextT(MemoryOf(img)) && qr(FieldOf(mac, seed, t))
    requires saved == CounterImageAfter(img, power)
    requires KeepImage(NewReceipt(mac, seed, t), t, saved, Rest(power)) == (after, CONSUMED)
    ensures BootImage(mac, seed, qr, img, power) == BootResult(after, Some(t), CONSUMED)
  {
  }

  lemma FirstNumber(m: Memory)
    requires m == Memory(Slots(None, None), Slots(None, None))
    ensures NextT(m) == 1
  {
  }

  lemma FirstSlots(img: seq<byte>, c: PersistedCounter, power: nat)
    requires Fits(LAYOUT, img) && Counters(LAYOUT, img) == Slots(None, None) && power >= FULL
    ensures var saved := StepImage(LAYOUT, img, SaveCounter(c, power));
            && Receipts(LAYOUT, saved) == Receipts(LAYOUT, img)
            && Counters(LAYOUT, saved) == Slots(Some(Stamped(1, c)), None)
  {
    FatesComplete();
    StepSlots(LAYOUT, img, SaveCounter(c, power));
  }

  /** After the first counter save, the flash holds that counter and no receipt. */
  lemma FirstSave(power: nat)
    requires power >= FULL
    ensures var c, saved := PersistedCounter(SEED_ID, 1), CounterImageAfter(Boot.Blank(), power);
            && NextT(MemoryOf(Boot.Blank())) == 1
            && saved == Slotted(Empty(), Empty(), CounterImage(1, c), Empty())
            && Receipts(LAYOUT, saved) == Slots(None, None)
            && Counters(LAYOUT, saved) == Slots(Some(Stamped(1, c)), None)
  {
    var img, c := Boot.Blank(), PersistedCounter(SEED_ID, 1);
    BlankSlots();
    FirstNumber(MemoryOf(img));
    FirstCounter(img, c, power);
    FirstSlots(img, c, power);
  }

  /**
   * The first uncut boot of a new device, byte for byte: its receipt unconsumed in slot A and
   * consumed in slot B, counter 1 in its slot A, and the fourth slot still erased.
   */
  lemma FirstBootBytes(mac: Mac, seed: Seed, qr: QrEncoder, power: nat)
    requires power >= 3 * FULL && qr(FieldOf(mac, seed, 1))
    ensures var c2 := DeriveC2FromC1(mac, seed, 1, DeriveC1(mac, seed, 1));
            BootImage(mac, seed, qr, Boot.Blank(), power) ==
            BootResult(
              RetainedImage(1, PersistedReceipt([0x52, 0x31], 1, 9900, c2, false))
              + RetainedImage(2, PersistedReceipt([0x52, 0x31], 1, 9900, c2, true))
              + CounterImage(1, PersistedCounter([0x52, 0x31], 1))
              + Repeat(0xFF, 64),
              Some(1), Status(6))
  {
    var r, saved := NewReceipt(mac, seed, 1), CounterImageAfter(Boot.Blank(), power);
    var counter := CounterImage(1, PersistedCounter(SEED_ID, 1));
    var after := Slotted(RetainedImage(1, r), RetainedImage(2, r.(consumed := true)), counter, Empty());
    FirstSave(power);
    FirstKeep(saved, counter, r, Rest(power));
    KeptBoot(mac, seed, qr, Boot.Blank(), power, 1, saved, after);
  }
}
