/** ReceiptStore and CounterStore: record writers that fill a buffer in place, and saves that change the flash. */
module Stores {
  import opened Bytes
  import opened Buffers
  import opened Types
  import opened Records
  import opened TornWrites
  import opened PingPong
  import opened Flash
  import Crc32

  /** `PowerLost` marks an operation that the supply did not outlast; the rest are the store's own errors. */
  datatype StorageError = Backend | Empty | PowerLost

  function OfFlash(e: FlashError): StorageError {
    match e
    case OutOfBounds => Backend
    case OutOfPower => PowerLost
  }

  // ---- Record writers ----

  /** Copying right after what is written keeps the rest of the slot erased. */
  lemma OverwriteTail(written: seq<byte>, src: seq<byte>, n: nat)
    requires |src| <= n
    ensures Overwrite(written + Repeat(ERASED, n), |written|, src) == written + src + Repeat(ERASED, n - |src|)
  {
  }

  /** Copy right behind what is already written; the rest stays erased. */
  method Append(buf: array<byte>, at: nat, src: seq<byte>, ghost written: seq<byte>)
    requires |written| == at && at + |src| <= buf.Length
    requires buf[..] == written + Repeat(ERASED, buf.Length - at)
    modifies buf
    ensures buf[..] == written + src + Repeat(ERASED, buf.Length - at - |src|)
  {
    OverwriteTail(written, src, buf.Length - at);
    CopyInto(buf, at, src);
  }

  lemma HeadPieces(magic: seq<byte>, version: seq<byte>, number: seq<byte>, sid: SeedId, saveSeq: u32)
    requires |magic| == 4 && version == ToBE(VERSION, 2) && number == ToBE(saveSeq, 4)
    ensures magic + version + number + [|sid|] + sid + Repeat(0, SEED_ID_MAX_LEN - |sid|) == Head(magic, saveSeq, sid)
  {
  }

  method WriteHead(buf: array<byte>, magic: seq<byte>, saveSeq: u32, sid: SeedId)
    requires buf.Length == SLOT_SIZE && |magic| == 4
    modifies buf
    ensures buf[..] == Head(magic, saveSeq, sid) + Repeat(ERASED, SLOT_SIZE - 27)
  {
    WriteFields(buf, magic, ToBE(VERSION, 2), ToBE(saveSeq, 4), sid);
    HeadPieces(magic, ToBE(VERSION, 2), ToBE(saveSeq, 4), sid, saveSeq);
  }

  method WriteFields(buf: array<byte>, magic: seq<byte>, version: seq<byte>, number: seq<byte>, sid: SeedId)
    requires buf.Length == SLOT_SIZE && |magic| == 4 && |version| == 2 && |number| == 4
    modifies buf
    ensures buf[..] == magic + version + number + [|sid|] + sid + Repeat(0, SEED_ID_MAX_LEN - |sid|)
                       + Repeat(ERASED, SLOT_SIZE - 27)
  {
    EraseAll(buf);
    Append(buf, 0, magic, []);
    assert [] + magic == magic;
    Append(buf, 4, version, magic);
    Append(buf, 6, number, magic + version);
    Append(buf, 10, [|sid|], magic + version + number);
    WriteSeedId(buf, sid, magic + version + number + [|sid|]);
  }

  method EraseAll(buf: array<byte>)
    modifies buf
    ensures buf[..] == [] + Repeat(ERASED, buf.Length)
  {
    Fill(buf, 0, buf.Length, ERASED);
  }

  method WriteSeedId(buf: array<byte>, sid: SeedId, ghost written: seq<byte>)
    requires buf.Length == SLOT_SIZE && |written| == 11
    requires buf[..] == written + Repeat(ERASED, SLOT_SIZE - 11)
    modifies buf
    ensures buf[..] == written + sid + Repeat(0, SEED_ID_MAX_LEN - |sid|) + Repeat(ERASED, SLOT_SIZE - 27)
  {
    Append(buf, 11, sid, written);
    OverwriteTail(written + sid, Repeat(0, SEED_ID_MAX_LEN - |sid|), SLOT_SIZE - 11 - |sid|);
    Fill(buf, 11 + |sid|, 11 + SEED_ID_MAX_LEN, 0);
  }

  method WriteRetainedRecord(buf: array<byte>, saveSeq: u32, r: PersistedReceipt)
    requires buf.Length == SLOT_SIZE
    modifies buf
    ensures buf[..] == RetainedImage(saveSeq, r)
  {
    ghost var head := Head(MAGIC_RETAINED, saveSeq, r.seedId);
    var t, amount, flag: seq<byte> := ToBE(r.counter, 8), ToBE(r.amountCents, 8), [if r.consumed then 1 else 0];
    WriteHead(buf, MAGIC_RETAINED, saveSeq, r.seedId);
    Append(buf, 27, t, head);
    Append(buf, 35, amount, head + t);
    Append(buf, 43, r.expectedC2, head + t + amount);
    Append(buf, 54, flag, head + t + amount + r.expectedC2);
    SealInPlace(buf, RETAINED_BODY, RetainedBody(saveSeq, r));
  }

  /** The checksum over the body goes right behind it. */
  method SealInPlace(buf: array<byte>, n: nat, ghost body: seq<byte>)
    requires buf.Length == SLOT_SIZE && n == |body| <= SLOT_SIZE - 4
    requires buf[..] == body + Repeat(ERASED, SLOT_SIZE - n)
    modifies buf
    ensures buf[..] == Sealed(body)
  {
    assert buf[..n] == body;
    Append(buf, n, ToBE(Crc32.Checksum(buf[..n]), 4), body);
  }

  method WriteCounterRecord(buf: array<byte>, saveSeq: u32, c: PersistedCounter)
    requires buf.Length == SLOT_SIZE
    modifies buf
    ensures buf[..] == CounterImage(saveSeq, c)
  {
    WriteHead(buf, MAGIC_COUNTER, saveSeq, c.seedId);
    Append(buf, 27, ToBE(c.lastT, 8), Head(MAGIC_COUNTER, saveSeq, c.seedId));
    SealInPlace(buf, COUNTER_BODY, CounterBody(saveSeq, c));
  }

  // ---- What the stores do, as functions of the flash image ----

  /** Two slots that lie in the flash and do not overlap. */
  predicate Layout(img: seq<byte>, a: nat, b: nat) {
    InRange(img, a) && InRange(img, b) && (a + SLOT_SIZE <= b || b + SLOT_SIZE <= a)
  }

  function ReceiptSlots(img: seq<byte>, a: nat, b: nat): Slots<PersistedReceipt>
    requires InRange(img, a) && InRange(img, b)
  {
    Slots(ReadRetained(SlotAt(img, a)), ReadRetained(SlotAt(img, b)))
  }

  function CounterSlots(img: seq<byte>, a: nat, b: nat): Slots<PersistedCounter>
    requires InRange(img, a) && InRange(img, b)
  {
    Slots(ReadCounter(SlotAt(img, a)), ReadCounter(SlotAt(img, b)))
  }

  function Target<V>(s: Slots<V>, a: nat, b: nat): nat {
    if TargetsA(s) then a else b
  }

  /** The flash after the first `n` byte steps of saving a receipt. */
  function SaveReceiptCut(img: seq<byte>, a: nat, b: nat, r: PersistedReceipt, n: nat): (after: seq<byte>)
    requires InRange(img, a) && InRange(img, b)
    ensures |after| == |img|
  {
    var s := ReceiptSlots(img, a, b);
    var t := Target(s, a, b);
    Patch(img, t, CutSlot(SlotAt(img, t), RetainedImage(NextSeq(s), r), n))
  }

  function SaveCounterCut(img: seq<byte>, a: nat, b: nat, c: PersistedCounter, n: nat): (after: seq<byte>)
    requires InRange(img, a) && InRange(img, b)
    ensures |after| == |img|
  {
    var s := CounterSlots(img, a, b);
    var t := Target(s, a, b);
    Patch(img, t, CutSlot(SlotAt(img, t), CounterImage(NextSeq(s), c), n))
  }

  /** Cut or not, saving a receipt is one step of the two-slot discipline. */
  lemma SaveReceiptIsStep(img: seq<byte>, a: nat, b: nat, r: PersistedReceipt, n: nat)
    requires Layout(img, a, b)
    ensures var s := ReceiptSlots(img, a, b);
            ReceiptSlots(SaveReceiptCut(img, a, b, r, n), a, b) == After(s, RetainedFate(NextSeq(s), r, n))
  {
    var s := ReceiptSlots(img, a, b);
    var t := Target(s, a, b);
    var slot := CutSlot(SlotAt(img, t), RetainedImage(NextSeq(s), r), n);
    RetainedCut(SlotAt(img, t), NextSeq(s), r, n);
    SlotOfPatch(img, t, slot, a);
    SlotOfPatch(img, t, slot, b);
  }

  lemma SaveCounterIsStep(img: seq<byte>, a: nat, b: nat, c: PersistedCounter, n: nat)
    requires Layout(img, a, b)
    ensures var s := CounterSlots(img, a, b);
            CounterSlots(SaveCounterCut(img, a, b, c, n), a, b) == After(s, CounterFate(NextSeq(s), c, n))
  {
    var s := CounterSlots(img, a, b);
    var t := Target(s, a, b);
    var slot := CutSlot(SlotAt(img, t), CounterImage(NextSeq(s), c), n);
    CounterCut(SlotAt(img, t), NextSeq(s), c, n);
    SlotOfPatch(img, t, slot, a);
    SlotOfPatch(img, t, slot, b);
  }

  /** Erase the slot, then write it: the two calls that every save ends with. */
  method EraseAndWrite(flash: RamFlash, target: nat, image: seq<byte>) returns (r: Result<(), StorageError>)
    requires InRange(flash.bytes[..], target) && |image| == SLOT_SIZE
    modifies flash.bytes, flash`power
    ensures flash.bytes[..] ==
            Patch(old(flash.bytes[..]), target, CutSlot(SlotAt(old(flash.bytes[..]), target), image, old(flash.power)))
    ensures flash.power == old(flash.power) - Min(old(flash.power), FULL)
    ensures r == if old(flash.power) >= FULL then Ok(()) else Err(PowerLost)
  {
    SaveStepsIsCutSlot(flash.bytes[..], target, image, flash.power);
    var erased := flash.Erase(target, target + SLOT_SIZE);
    if erased.Err? {
      return Err(OfFlash(erased.error));
    }
    var written := flash.Write(target, image);
    if written.Err? {
      return Err(OfFlash(written.error));
    }
    return Ok(());
  }

  // ---- Stores ----

  class ReceiptStore {
    const flash: RamFlash
    const slotA: nat
    const slotB: nat

    constructor (flash: RamFlash, slotA: nat, slotB: nat)
      ensures this.flash == flash && this.slotA == slotA && this.slotB == slotB
    {
      this.flash, this.slotA, this.slotB := flash, slotA, slotB;
    }

    ghost predicate Fits()
      reads flash.bytes
    {
      InRange(flash.bytes[..], slotA) && InRange(flash.bytes[..], slotB)
    }

    ghost function View(): Slots<PersistedReceipt>
      reads flash.bytes
      requires Fits()
    {
      ReceiptSlots(flash.bytes[..], slotA, slotB)
    }

    method ReadSlot(offset: nat) returns (r: Result<Option<Stamped<PersistedReceipt>>, StorageError>)
      ensures r == if InRange(flash.bytes[..], offset)
                   then Ok(ReadRetained(SlotAt(flash.bytes[..], offset))) else Err(Backend)
    {
      var buf := flash.Read(offset, SLOT_SIZE);
      if buf.Err? {
        return Err(Backend);
      }
      assert buf.value == SlotAt(flash.bytes[..], offset);
      return Ok(ReadRetained(buf.value));
    }

    method Load() returns (r: Result<PersistedReceipt, StorageError>)
      ensures !Fits() ==> r == Err(Backend)
      ensures Fits() ==> r == match PingPong.Load(View()) case None => Err(Empty) case Some(v) => Ok(v)
    {
      var a := ReadSlot(slotA);
      if a.Err? {
        return Err(a.error);
      }
      var b := ReadSlot(slotB);
      if b.Err? {
        return Err(b.error);
      }
      match (a.value, b.value) {
        case (None, None) => return Err(Empty);
        case (Some(x), None) => return Ok(x.value);
        case (None, Some(y)) => return Ok(y.value);
        case (Some(x), Some(y)) =>
          if x.saveSeq >= y.saveSeq {
            return Ok(x.value);
          } else {
            return Ok(y.value);
          }
      }
    }

    method ChooseSaveTarget() returns (r: Result<(nat, u32), StorageError>)
      ensures !Fits() ==> r == Err(Backend)
      ensures Fits() ==> r == Ok((Target(View(), slotA, slotB), NextSeq(View())))
    {
      var a := ReadSlot(slotA);
      if a.Err? {
        return Err(a.error);
      }
      var b := ReadSlot(slotB);
      if b.Err? {
        return Err(b.error);
      }
      ghost var s := Slots(a.value, b.value);
      assert View() == s;
      var next: u32;
      match (a.value, b.value) {
        case (None, None) => next := 1;
        case (Some(x), None) => next := Increment32(x.saveSeq);
        case (None, Some(y)) => next := Increment32(y.saveSeq);
        case (Some(x), Some(y)) => next := Increment32(Max(x.saveSeq, y.saveSeq));
      }
      assert next == NextSeq(s);
      var target: nat;
      if a.value.None? {
        target := slotA;
      } else if b.value.None? {
        target := slotB;
      } else if a.value.value.saveSeq <= b.value.value.saveSeq {
        target := slotA;
      } else {
        target := slotB;
      }
      assert target == Target(s, slotA, slotB);
      return Ok((target, next));
    }

    method Save(receipt: PersistedReceipt) returns (r: Result<u32, StorageError>)
      modifies flash.bytes, flash`power
      ensures !old(Fits()) ==>
                r == Err(Backend) && flash.bytes[..] == old(flash.bytes[..]) && flash.power == old(flash.power)
      ensures old(Fits()) ==>
                && flash.bytes[..] == SaveReceiptCut(old(flash.bytes[..]), slotA, slotB, receipt, old(flash.power))
                && flash.power == old(flash.power) - Min(old(flash.power), FULL)
                && r == if old(flash.power) >= FULL then Ok(NextSeq(old(View()))) else Err(PowerLost)
    {
      var choice := ChooseSaveTarget();
      if choice.Err? {
        return Err(choice.error);
      }
      var target, next := choice.value.0, choice.value.1;
      var buf := new byte[SLOT_SIZE];
      WriteRetainedRecord(buf, next, receipt);
      var written := EraseAndWrite(flash, target, buf[..]);
      if written.Err? {
        return Err(written.error);
      }
      return Ok(next);
    }

    method MarkConsumed() returns (r: Result<(), StorageError>)
      modifies flash.bytes, flash`power
      ensures !old(Fits()) ==>
                r == Err(Backend) && flash.bytes[..] == old(flash.bytes[..]) && flash.power == old(flash.power)
      ensures old(Fits()) ==>
                match PingPong.Load(old(View()))
                case None =>
                  r == Err(Empty) && flash.bytes[..] == old(flash.bytes[..]) && flash.power == old(flash.power)
                case Some(v) =>
                  if v.consumed then
                    r == Ok(()) && flash.bytes[..] == old(flash.bytes[..]) && flash.power == old(flash.power)
                  else
                    && flash.bytes[..] ==
                       SaveReceiptCut(old(flash.bytes[..]), slotA, slotB, v.(consumed := true), old(flash.power))
                    && flash.power == old(flash.power) - Min(old(flash.power), FULL)
                    && r == if old(flash.power) >= FULL then Ok(()) else Err(PowerLost)
    {
      var current := Load();
      if current.Err? {
        return Err(current.error);
      }
      if current.value.consumed {
        return Ok(());
      }
      var saved := Save(current.value.(consumed := true));
      if saved.Err? {
        return Err(saved.error);
      }
      return Ok(());
    }
  }

  class CounterStore {
    const flash: RamFlash
    const slotA: nat
    const slotB: nat

    constructor (flash: RamFlash, slotA: nat, slotB: nat)
      ensures this.flash == flash && this.slotA == slotA && this.slotB == slotB
    {
      this.flash, this.slotA, this.slotB := flash, slotA, slotB;
    }

    ghost predicate Fits()
      reads flash.bytes
    {
      InRange(flash.bytes[..], slotA) && InRange(flash.bytes[..], slotB)
    }

    ghost function View(): Slots<PersistedCounter>
      reads flash.bytes
      requires Fits()
    {
      CounterSlots(flash.bytes[..], slotA, slotB)
    }

    method ReadSlot(offset: nat) returns (r: Result<Option<Stamped<PersistedCounter>>, StorageError>)
      ensures r == if InRange(flash.bytes[..], offset)
                   then Ok(ReadCounter(SlotAt(flash.bytes[..], offset))) else Err(Backend)
    {
      var buf := flash.Read(offset, SLOT_SIZE);
      if buf.Err? {
        return Err(Backend);
      }
      assert buf.value == SlotAt(flash.bytes[..], offset);
      return Ok(ReadCounter(buf.value));
    }

    method Load() returns (r: Result<PersistedCounter, StorageError>)
      ensures !Fits() ==> r == Err(Backend)
      ensures Fits() ==> r == match PingPong.Load(View()) case None => Err(Empty) case Some(v) => Ok(v)
    {
      var a := ReadSlot(slotA);
      if a.Err? {
        return Err(a.error);
      }
      var b := ReadSlot(slotB);
      if b.Err? {
        return Err(b.error);
      }
      match (a.value, b.value) {
        case (None, None) => return Err(Empty);
        case (Some(x), None) => return Ok(x.value);
        case (None, Some(y)) => return Ok(y.value);
        case (Some(x), Some(y)) =>
          if x.saveSeq >= y.saveSeq {
            return Ok(x.value);
          } else {
            return Ok(y.value);
          }
      }
    }

    method ChooseSaveTarget() returns (r: Result<(nat, u32), StorageError>)
      ensures !Fits() ==> r == Err(Backend)
      ensures Fits() ==> r == Ok((Target(View(), slotA, slotB), NextSeq(View())))
    {
      var a := ReadSlot(slotA);
      if a.Err? {
        return Err(a.error);
      }
      var b := ReadSlot(slotB);
      if b.Err? {
        return Err(b.error);
      }
      ghost var s := Slots(a.value, b.value);
      assert View() == s;
      var next: u32;
      match (a.value, b.value) {
        case (None, None) => next := 1;
        case (Some(x), None) => next := Increment32(x.saveSeq);
        case (None, Some(y)) => next := Increment32(y.saveSeq);
        case (Some(x), Some(y)) => next := Increment32(Max(x.saveSeq, y.saveSeq));
      }
      assert next == NextSeq(s);
      var target: nat;
      if a.value.None? {
        target := slotA;
      } else if b.value.None? {
        target := slotB;
      } else if a.value.value.saveSeq <= b.value.value.saveSeq {
        target := slotA;
      } else {
        target := slotB;
      }
      assert target == Target(s, slotA, slotB);
      return Ok((target, next));
    }

    method Save(counter: PersistedCounter) returns (r: Result<u32, StorageError>)
      modifies flash.bytes, flash`power
      ensures !old(Fits()) ==>
                r == Err(Backend) && flash.bytes[..] == old(flash.bytes[..]) && flash.power == old(flash.power)
      ensures old(Fits()) ==>
                && flash.bytes[..] == SaveCounterCut(old(flash.bytes[..]), slotA, slotB, counter, old(flash.power))
                && flash.power == old(flash.power) - Min(old(flash.power), FULL)
                && r == if old(flash.power) >= FULL then Ok(NextSeq(old(View()))) else Err(PowerLost)
    {
      var choice := ChooseSaveTarget();
      if choice.Err? {
        return Err(choice.error);
      }
      var target, next := choice.value.0, choice.value.1;
      var buf := new byte[SLOT_SIZE];
      WriteCounterRecord(buf, next, counter);
      var written := EraseAndWrite(flash, target, buf[..]);
      if written.Err? {
        return Err(written.error);
      }
      return Ok(next);
    }
  }
}
