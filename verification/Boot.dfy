/**
 * The bare-metal program: one boot changes the flash in place, and is one boot of the protocol
 * on what the two stores read from that flash.
 */
module Boot {
  import opened Bytes
  import opened Types
  import opened Records
  import opened TornWrites
  import opened PingPong
  import opened Flash
  import opened Stores
  import opened CrashRuns
  import opened Derivation
  import opened BootProtocol
  import TransportField

  const FLASH_LEN: nat := 256
  const LAYOUT: Map := Map(0, SLOT_SIZE, 2 * SLOT_SIZE, 3 * SLOT_SIZE)
  const AMOUNT: u64 := 9900

  /** "R1". */
  const SEED_ID: SeedId := [0x52, 0x31]

  /** Whether the QR encoder accepts a field. */
  type QrEncoder = seq<byte> -> bool

  // ---- One boot, as a function of the flash ----

  /** What the two stores hold. */
  function MemoryOf(img: seq<byte>): Memory
    requires Fits(LAYOUT, img)
  {
    Memory(Receipts(LAYOUT, img), Counters(LAYOUT, img))
  }

  function NewReceipt(mac: Mac, seed: Seed, t: u64): PersistedReceipt {
    PersistedReceipt(SEED_ID, t, AMOUNT, DerivePair(mac, seed, t).1, false)
  }

  function FieldOf(mac: Mac, seed: Seed, t: u64): seq<byte> {
    TransportField.Field(SEED_ID, DerivePair(mac, seed, t).0)
  }

  function CounterImageAfter(img: seq<byte>, power: nat): (after: seq<byte>)
    requires Fits(LAYOUT, img)
    ensures Fits(LAYOUT, after)
  {
    StepImage(LAYOUT, img, SaveCounter(PersistedCounter(SEED_ID, NextT(MemoryOf(img))), power))
  }

  predicate Reloads(img: seq<byte>, receipt: PersistedReceipt, t: u64)
    requires Fits(LAYOUT, img)
  {
    && Load(Receipts(LAYOUT, img)) == Some(receipt)
    && Load(Counters(LAYOUT, img)).Some? && LastT(MemoryOf(img)) == t
  }

  /** Retain the receipt, read everything back, and mark it consumed. */
  function KeepImage(receipt: PersistedReceipt, t: u64, img: seq<byte>, power: nat): (r: (seq<byte>, Ending))
    requires Fits(LAYOUT, img)
    ensures Fits(LAYOUT, r.0)
  {
    var retained := StepImage(LAYOUT, img, SaveReceipt(receipt, power));
    if power < FULL then (retained, Dark)
    else if !Reloads(retained, receipt, t) then (retained, FAILED)
    else (StepImage(LAYOUT, retained, MarkConsumed(Rest(power))), if Rest(power) < FULL then Dark else CONSUMED)
  }

  /** After `t` is durable: derive, encode, and keep the receipt. */
  function EmitImage(mac: Mac, seed: Seed, qr: QrEncoder, t: u64, img: seq<byte>, power: nat): (r: (seq<byte>, Ending))
    requires Fits(LAYOUT, img)
    ensures Fits(LAYOUT, r.0)
  {
    if !qr(FieldOf(mac, seed, t)) then (img, FAILED) else KeepImage(NewReceipt(mac, seed, t), t, img, power)
  }

  datatype BootResult = BootResult(image: seq<byte>, emitted: Option<u64>, ending: Ending)

  function BootImage(mac: Mac, seed: Seed, qr: QrEncoder, img: seq<byte>, power: nat): (r: BootResult)
    requires Fits(LAYOUT, img)
    ensures Fits(LAYOUT, r.image)
  {
    var saved, t := CounterImageAfter(img, power), NextT(MemoryOf(img));
    if power < FULL then BootResult(saved, None, Dark)
    else
      var (after, ending) := EmitImage(mac, seed, qr, t, saved, Rest(power));
      BootResult(after, Some(t), ending)
  }

  // ---- The program ----

  /** A store that loses power never returns to its caller; any other error halts with 0xFF. */
  function Halt(r: Result<(), StorageError>): Option<Ending> {
    match r
    case Ok(_) => None
    case Err(e) => Some(if e.PowerLost? then Dark else FAILED)
  }

  function Interrupted(power: nat): Option<Ending> {
    if power < FULL then Some(Dark) else None
  }

  method LoadLastT(flash: RamFlash) returns (t: u64)
    requires Fits(LAYOUT, flash.bytes[..])
    ensures t == LastT(MemoryOf(flash.bytes[..]))
  {
    var store := new CounterStore(flash, LAYOUT.counterA, LAYOUT.counterB);
    var r := store.Load();
    t := if r.Ok? then r.value.lastT else 0;
  }

  method PersistCounter(flash: RamFlash, t: u64) returns (halt: Option<Ending>)
    requires Fits(LAYOUT, flash.bytes[..])
    modifies flash.bytes, flash`power
    ensures flash.bytes[..] ==
            StepImage(LAYOUT, old(flash.bytes[..]), SaveCounter(PersistedCounter(SEED_ID, t), old(flash.power)))
    ensures halt == Interrupted(old(flash.power)) && flash.power == Rest(old(flash.power))
  {
    var store := new CounterStore(flash, LAYOUT.counterA, LAYOUT.counterB);
    var r := store.Save(PersistedCounter(SEED_ID, t));
    return Halt(if r.Ok? then Ok(()) else Err(r.error));
  }

  method RetainReceipt(flash: RamFlash, receipt: PersistedReceipt) returns (halt: Option<Ending>)
    requires Fits(LAYOUT, flash.bytes[..])
    modifies flash.bytes, flash`power
    ensures flash.bytes[..] == StepImage(LAYOUT, old(flash.bytes[..]), SaveReceipt(receipt, old(flash.power)))
    ensures halt == Interrupted(old(flash.power)) && flash.power == Rest(old(flash.power))
  {
    var store := new ReceiptStore(flash, LAYOUT.receiptA, LAYOUT.receiptB);
    var r := store.Save(receipt);
    return Halt(if r.Ok? then Ok(()) else Err(r.error));
  }

  /** The stores are opened again, and what they hold must be what was saved. */
  method ReloadMatches(flash: RamFlash, receipt: PersistedReceipt, t: u64) returns (same: bool)
    requires Fits(LAYOUT, flash.bytes[..])
    ensures same == Reloads(flash.bytes[..], receipt, t)
  {
    var receipts := new ReceiptStore(flash, LAYOUT.receiptA, LAYOUT.receiptB);
    var r := receipts.Load();
    if r.Err? {
      return false;
    }
    var counters := new CounterStore(flash, LAYOUT.counterA, LAYOUT.counterB);
    var c := counters.Load();
    if c.Err? {
      return false;
    }
    return r.value == receipt && c.value.lastT == t;
  }

  method MarkRetained(flash: RamFlash) returns (halt: Option<Ending>)
    requires Fits(LAYOUT, flash.bytes[..])
    requires Load(Receipts(LAYOUT, flash.bytes[..])).Some? && !Load(Receipts(LAYOUT, flash.bytes[..])).value.consumed
    modifies flash.bytes, flash`power
    ensures flash.bytes[..] == StepImage(LAYOUT, old(flash.bytes[..]), MarkConsumed(old(flash.power)))
    ensures halt == Interrupted(old(flash.power))
  {
    var store := new ReceiptStore(flash, LAYOUT.receiptA, LAYOUT.receiptB);
    var r := store.MarkConsumed();
    return Halt(r);
  }

  lemma LayoutFits(img: seq<byte>)
    requires |img| == FLASH_LEN
    ensures Fits(LAYOUT, img)
  {
  }

  method PowerOn(mac: Mac, seed: Seed, qr: QrEncoder, flash: RamFlash) returns (emitted: Option<u64>, ending: Ending)
    requires flash.bytes.Length == FLASH_LEN
    modifies flash.bytes, flash`power
    ensures Fits(LAYOUT, old(flash.bytes[..]))
    ensures var r := BootImage(mac, seed, qr, old(flash.bytes[..]), old(flash.power));
            flash.bytes[..] == r.image && emitted == r.emitted && ending == r.ending
  {
    ghost var img, power := flash.bytes[..], flash.power;
    LayoutFits(img);
    var lastT := LoadLastT(flash);
    var newT := Increment64(lastT);
    var halt := PersistCounter(flash, newT);
    ghost var saved := flash.bytes[..];
    assert saved == CounterImageAfter(img, power);
    if halt.Some? {
      return None, halt.value;
    }
    ending := EmitCharge(mac, seed, qr, newT, flash);
    emitted := Some(newT);
  }

  method EmitCharge(mac: Mac, seed: Seed, qr: QrEncoder, newT: u64, flash: RamFlash) returns (ending: Ending)
    requires Fits(LAYOUT, flash.bytes[..])
    modifies flash.bytes, flash`power
    ensures var r := EmitImage(mac, seed, qr, newT, old(flash.bytes[..]), old(flash.power));
            flash.bytes[..] == r.0 && ending == r.1
  {
    var (c1, c2) := DerivePair(mac, seed, newT);
    var field := new byte[TransportField.FIELD_LEN];
    TransportField.EncodeInto(SEED_ID, c1, field);
    if !qr(field[..]) {
      return FAILED;
    }
    var receipt := PersistedReceipt(SEED_ID, newT, AMOUNT, c2, false);
    ending := KeepReceipt(receipt, newT, flash);
  }

  method KeepReceipt(receipt: PersistedReceipt, newT: u64, flash: RamFlash) returns (ending: Ending)
    requires Fits(LAYOUT, flash.bytes[..]) && !receipt.consumed
    modifies flash.bytes, flash`power
    ensures var r := KeepImage(receipt, newT, old(flash.bytes[..]), old(flash.power));
            flash.bytes[..] == r.0 && ending == r.1
  {
    var halt := RetainReceipt(flash, receipt);
    if halt.Some? {
      return halt.value;
    }
    var same := ReloadMatches(flash, receipt, newT);
    if !same {
      return FAILED;
    }
    halt := MarkRetained(flash);
    if halt.Some? {
      return halt.value;
    }
    return CONSUMED;
  }

  // ---- The protocol it refines ----

  const FATES: Fates := Fates(RetainedFate, CounterFate)

  function DeviceOf(mac: Mac, seed: Seed, qr: QrEncoder): Device {
    Device(SEED_ID, (t: u64) => NewReceipt(mac, seed, t), (t: u64) => qr(FieldOf(mac, seed, t)))
  }

  lemma CounterRefines(mac: Mac, seed: Seed, qr: QrEncoder, img: seq<byte>, power: nat)
    requires Fits(LAYOUT, img)
    ensures MemoryOf(CounterImageAfter(img, power)) ==
            CounterSaved(FATES, DeviceOf(mac, seed, qr), MemoryOf(img), power)
  {
    StepSlots(LAYOUT, img, SaveCounter(PersistedCounter(SEED_ID, NextT(MemoryOf(img))), power));
  }

  lemma ReceiptRefines(receipt: PersistedReceipt, img: seq<byte>, power: nat)
    requires Fits(LAYOUT, img)
    ensures MemoryOf(StepImage(LAYOUT, img, SaveReceipt(receipt, power))) ==
            ReceiptSaved(FATES, MemoryOf(img), receipt, power)
  {
    StepSlots(LAYOUT, img, SaveReceipt(receipt, power));
  }

  lemma MarkRefines(receipt: PersistedReceipt, img: seq<byte>, power: nat)
    requires Fits(LAYOUT, img) && Load(Receipts(LAYOUT, img)) == Some(receipt) && !receipt.consumed
    ensures MemoryOf(StepImage(LAYOUT, img, MarkConsumed(power))) ==
            ReceiptSaved(FATES, MemoryOf(img), receipt.(consumed := true), power)
  {
    StepSlots(LAYOUT, img, MarkConsumed(power));
  }

  lemma KeepRefines(receipt: PersistedReceipt, t: u64, img: seq<byte>, power: nat)
    requires Fits(LAYOUT, img) && !receipt.consumed
    ensures var (after, ending) := KeepImage(receipt, t, img, power);
            Keep(FATES, MemoryOf(img), receipt, t, power) == (MemoryOf(after), ending)
  {
    var retained := StepImage(LAYOUT, img, SaveReceipt(receipt, power));
    ReceiptRefines(receipt, img, power);
    if power >= FULL && Reloads(retained, receipt, t) {
      MarkRefines(receipt, retained, Rest(power));
    }
  }

  /** A boot of the program is a boot of the protocol on what the stores hold. */
  lemma BootRefines(mac: Mac, seed: Seed, qr: QrEncoder, img: seq<byte>, power: nat)
    requires Fits(LAYOUT, img)
    ensures var r := BootImage(mac, seed, qr, img, power);
            BootProtocol.Boot(FATES, DeviceOf(mac, seed, qr), MemoryOf(img), power) ==
            Outcome(MemoryOf(r.image), r.emitted, r.ending)
  {
    CounterRefines(mac, seed, qr, img, power);
    var t := NextT(MemoryOf(img));
    KeepRefines(NewReceipt(mac, seed, t), t, CounterImageAfter(img, power), Rest(power));
  }

  // ---- Whole runs of boots ----

  /** Boots in a row, each on the supply it is given. */
  function RunImages(mac: Mac, seed: Seed, qr: QrEncoder, img: seq<byte>, powers: seq<nat>): (after: seq<byte>)
    requires Fits(LAYOUT, img)
    ensures Fits(LAYOUT, after)
    decreases |powers|
  {
    if powers == [] then img else RunImages(mac, seed, qr, BootImage(mac, seed, qr, img, powers[0]).image, powers[1..])
  }

  /** Every counter that reaches derivation along a run, in order. */
  function EmittedTs(mac: Mac, seed: Seed, qr: QrEncoder, img: seq<byte>, powers: seq<nat>): seq<u64>
    requires Fits(LAYOUT, img)
    decreases |powers|
  {
    if powers == [] then []
    else
      var r := BootImage(mac, seed, qr, img, powers[0]);
      (if r.emitted.Some? then [r.emitted.value] else []) + EmittedTs(mac, seed, qr, r.image, powers[1..])
  }

  lemma {:induction false} RunRefines(mac: Mac, seed: Seed, qr: QrEncoder, img: seq<byte>, powers: seq<nat>)
    requires Fits(LAYOUT, img)
    ensures MemoryOf(RunImages(mac, seed, qr, img, powers)) ==
            BootProtocol.Run(FATES, DeviceOf(mac, seed, qr), MemoryOf(img), powers)
    ensures EmittedTs(mac, seed, qr, img, powers) == Emitted(FATES, DeviceOf(mac, seed, qr), MemoryOf(img), powers)
    decreases |powers|
  {
    if powers != [] {
      BootRefines(mac, seed, qr, img, powers[0]);
      RunRefines(mac, seed, qr, BootImage(mac, seed, qr, img, powers[0]).image, powers[1..]);
    }
  }

  lemma FatesFaithful()
    ensures Faithful(FATES)
  {
    FatesComplete();
    forall s, c, n | FATES.counter(s, c, n).Wrote? ensures FATES.counter(s, c, n).value.lastT >= c.lastT {
      CounterFateShape(s, c, n);
    }
  }

  /** The flash of a new device. */
  function Blank(): (img: seq<byte>)
    ensures |img| == FLASH_LEN && Fits(LAYOUT, img)
  {
    Erased(FLASH_LEN)
  }

  lemma BlankStart()
    ensures var m := MemoryOf(Blank());
            Reached(m.counters, 0) && Reached(m.receipts, 0) && LastT(m) == 0
  {
    ErasedIsBlank(LAYOUT, FLASH_LEN);
  }

  /**
   * When T is never reused: from a blank flash, over runs of boots of any length, each cut
   * anywhere, every counter that reaches derivation exceeds every counter durable or derived
   * before, exactly when no boot emits once one has started from 2^64 - 1 and none emits after
   * one that emitted with no sequence number left. This asks nothing of the checksum.
   */
  lemma NoReuseIff(mac: Mac, seed: Seed, qr: QrEncoder, powers: seq<nat>)
    ensures var d, m := DeviceOf(mac, seed, qr), MemoryOf(Blank());
            && (NeverRepeats(FATES, d, m, powers, 0) <==> SafeRun(FATES, d, m, powers))
            && (NeverRepeats(FATES, d, m, powers, 0) ==> Increasing(EmittedTs(mac, seed, qr, Blank(), powers)))
  {
    var d, m := DeviceOf(mac, seed, qr), MemoryOf(Blank());
    BlankStart();
    FatesFaithful();
    RunRefines(mac, seed, qr, Blank(), powers);
    NeverReusedIff(FATES, d, m, powers, 0, 0);
    if NeverRepeats(FATES, d, m, powers, 0) {
      NeverRepeatsIncreases(FATES, d, m, powers, 0);
    }
  }

  /** No boot of the run is cut where its counter save leaves a torn body whose checksum is the erased value. */
  predicate BootsUntorn(mac: Mac, seed: Seed, qr: QrEncoder, img: seq<byte>, powers: seq<nat>)
    requires Fits(LAYOUT, img)
    decreases |powers|
  {
    powers == [] ||
    (&& !CounterTears(NextSeq(Counters(LAYOUT, img)), PersistedCounter(SEED_ID, NextT(MemoryOf(img))), powers[0])
     && BootsUntorn(mac, seed, qr, BootImage(mac, seed, qr, img, powers[0]).image, powers[1..]))
  }

  lemma UntornFate(mac: Mac, seed: Seed, qr: QrEncoder, img: seq<byte>, power: nat)
    requires Fits(LAYOUT, img)
    requires !CounterTears(NextSeq(Counters(LAYOUT, img)), PersistedCounter(SEED_ID, NextT(MemoryOf(img))), power)
    ensures var m := MemoryOf(img);
            var fate := BootFate(FATES, DeviceOf(mac, seed, qr), m, power);
            fate.Wrote? ==> fate.value.lastT == NextT(m)
  {
    CounterFateShape(NextSeq(Counters(LAYOUT, img)), PersistedCounter(SEED_ID, NextT(MemoryOf(img))), power);
  }

  lemma {:induction false} UntornCounters(mac: Mac, seed: Seed, qr: QrEncoder, img: seq<byte>, powers: seq<nat>)
    requires Fits(LAYOUT, img) && BootsUntorn(mac, seed, qr, img, powers)
    ensures NoTornCounter(FATES, DeviceOf(mac, seed, qr), MemoryOf(img), powers)
    decreases |powers|
  {
    if powers != [] {
      UntornFate(mac, seed, qr, img, powers[0]);
      BootRefines(mac, seed, qr, img, powers[0]);
      UntornCounters(mac, seed, qr, BootImage(mac, seed, qr, img, powers[0]).image, powers[1..]);
    }
  }

  /**
   * Under the checksum hypothesis: the counter never exceeds the number of boots, the emitted
   * counters strictly increase exactly when the run is safe, and up to 2^32 boots are safe.
   */
  lemma NoReuseUntorn(mac: Mac, seed: Seed, qr: QrEncoder, powers: seq<nat>)
    requires BootsUntorn(mac, seed, qr, Blank(), powers)
    ensures LastT(MemoryOf(RunImages(mac, seed, qr, Blank(), powers))) <= |powers|
    ensures Increasing(EmittedTs(mac, seed, qr, Blank(), powers)) <==>
            SafeRun(FATES, DeviceOf(mac, seed, qr), MemoryOf(Blank()), powers)
    ensures |powers| <= U32_MAX + 1 ==> Increasing(EmittedTs(mac, seed, qr, Blank(), powers))
  {
    var d, m := DeviceOf(mac, seed, qr), MemoryOf(Blank());
    BlankStart();
    FatesFaithful();
    RunRefines(mac, seed, qr, Blank(), powers);
    UntornCounters(mac, seed, qr, Blank(), powers);
    UntornRun(FATES, d, m, powers);
    IncreasingIff(FATES, d, m, powers, 0);
    if |powers| <= U32_MAX + 1 {
      FewUntornBootsAreSafe(FATES, d, m, powers);
    }
  }

  /**
   * A boot with all the power it needs reaches status 6 exactly while both stores have a
   * sequence number left, or the receipt store, having none, already holds this very receipt.
   * The consumption it reports is durable exactly while the receipt store has two: with fewer,
   * status 6 stands over a receipt that still loads as unconsumed.
   */
  lemma UncutBoot(
    mac: Mac, seed: Seed, qr: QrEncoder, img: seq<byte>, power: nat, receipts: nat, counters: nat)
    requires Fits(LAYOUT, img) && power >= 3 * FULL && qr(FieldOf(mac, seed, NextT(MemoryOf(img))))
    requires Reached(Receipts(LAYOUT, img), receipts) && Reached(Counters(LAYOUT, img), counters)
    ensures var r, t := BootImage(mac, seed, qr, img, power), NextT(MemoryOf(img));
            var receipt := NewReceipt(mac, seed, t);
            && r.emitted == Some(t)
            && r.ending == (if && counters < U32_MAX
                               && (receipts < U32_MAX || Load(Receipts(LAYOUT, img)) == Some(receipt))
                            then CONSUMED else FAILED)
            && (r.ending == CONSUMED ==>
                  && LastT(MemoryOf(r.image)) == t
                  && Load(Receipts(LAYOUT, r.image)) == Some(receipt.(consumed := receipts + 1 < U32_MAX)))
  {
    var m, d := MemoryOf(img), DeviceOf(mac, seed, qr);
    FatesFaithful();
    BootRefines(mac, seed, qr, img, power);
    CompleteBoot(FATES, d, m, power, receipts, counters);
    assert d.receiptFor(NextT(m)) == NewReceipt(mac, seed, NextT(m));
  }
}
