/**
 * Whole runs of both stores on one flash: any interleaving of saves and consumption marks,
 * each cut after any number of byte steps. The flash refines two independent cells.
 */
module CrashRuns {
  import opened Bytes
  import opened Records
  import opened TornWrites
  import opened PingPong
  import opened Flash
  import opened Stores

  /** Where the four slots lie. */
  datatype Map = Map(receiptA: nat, receiptB: nat, counterA: nat, counterB: nat)

  predicate Apart(x: nat, y: nat) {
    x + SLOT_SIZE <= y || y + SLOT_SIZE <= x
  }

  predicate Fits(m: Map, img: seq<byte>) {
    && Layout(img, m.receiptA, m.receiptB)
    && Layout(img, m.counterA, m.counterB)
    && Apart(m.receiptA, m.counterA) && Apart(m.receiptA, m.counterB)
    && Apart(m.receiptB, m.counterA) && Apart(m.receiptB, m.counterB)
  }

  /** A store operation whose power supply lasts `steps` byte steps. */
  datatype Event =
    | SaveReceipt(receipt: PersistedReceipt, steps: nat)
    | MarkConsumed(steps: nat)
    | SaveCounter(counter: PersistedCounter, steps: nat)

  function Receipts(m: Map, img: seq<byte>): Slots<PersistedReceipt>
    requires Fits(m, img)
  {
    ReceiptSlots(img, m.receiptA, m.receiptB)
  }

  function Counters(m: Map, img: seq<byte>): Slots<PersistedCounter>
    requires Fits(m, img)
  {
    CounterSlots(img, m.counterA, m.counterB)
  }

  /** The save that an event asks of the receipt store, given what it holds. */
  function ReceiptSave(current: Option<PersistedReceipt>, e: Event): Option<Save<PersistedReceipt>> {
    match e
    case SaveReceipt(r, n) => Some(Save(r, n))
    case MarkConsumed(n) =>
      if current.Some? && !current.value.consumed then Some(Save(current.value.(consumed := true), n)) else None
    case SaveCounter(_, _) => None
  }

  function StepImage(m: Map, img: seq<byte>, e: Event): (after: seq<byte>)
    requires Fits(m, img)
    ensures Fits(m, after)
  {
    match e
    case SaveCounter(c, n) => SaveCounterCut(img, m.counterA, m.counterB, c, n)
    case _ =>
      match ReceiptSave(Load(Receipts(m, img)), e)
      case None => img
      case Some(save) => SaveReceiptCut(img, m.receiptA, m.receiptB, save.value, save.steps)
  }

  function RunImage(m: Map, img: seq<byte>, es: seq<Event>): (after: seq<byte>)
    requires Fits(m, img)
    ensures Fits(m, after)
    decreases |es|
  {
    if es == [] then img else RunImage(m, StepImage(m, img, es[0]), es[1..])
  }

  // ---- Two stores, two cells ----

  function ReceiptCell(cell: Cell<PersistedReceipt>, e: Event): Cell<PersistedReceipt> {
    match ReceiptSave(cell.value, e)
    case None => cell
    case Some(save) => CellStep(cell, RetainedFate(SeqAfter(cell), save.value, save.steps))
  }

  function CounterCell(cell: Cell<PersistedCounter>, e: Event): Cell<PersistedCounter> {
    if e.SaveCounter? then CellStep(cell, CounterFate(SeqAfter(cell), e.counter, e.steps)) else cell
  }

  function ReceiptRun(cell: Cell<PersistedReceipt>, es: seq<Event>): Cell<PersistedReceipt>
    decreases |es|
  {
    if es == [] then cell else ReceiptRun(ReceiptCell(cell, es[0]), es[1..])
  }

  function CounterRun(cell: Cell<PersistedCounter>, es: seq<Event>): Cell<PersistedCounter>
    decreases |es|
  {
    if es == [] then cell else CounterRun(CounterCell(cell, es[0]), es[1..])
  }

  predicate Holds(m: Map, img: seq<byte>, receipt: Cell<PersistedReceipt>, counter: Cell<PersistedCounter>)
    requires Fits(m, img)
  {
    Represents(Receipts(m, img), receipt) && Represents(Counters(m, img), counter)
  }

  lemma ReceiptStepFrame(m: Map, img: seq<byte>, r: PersistedReceipt, n: nat)
    requires Fits(m, img)
    ensures var after := SaveReceiptCut(img, m.receiptA, m.receiptB, r, n);
            Fits(m, after) && Counters(m, after) == Counters(m, img)
  {
    var s := Receipts(m, img);
    var t := Target(s, m.receiptA, m.receiptB);
    var slot := CutSlot(SlotAt(img, t), RetainedImage(NextSeq(s), r), n);
    SlotOfPatch(img, t, slot, m.counterA);
    SlotOfPatch(img, t, slot, m.counterB);
  }

  lemma CounterStepFrame(m: Map, img: seq<byte>, c: PersistedCounter, n: nat)
    requires Fits(m, img)
    ensures var after := SaveCounterCut(img, m.counterA, m.counterB, c, n);
            Fits(m, after) && Receipts(m, after) == Receipts(m, img)
  {
    var s := Counters(m, img);
    var t := Target(s, m.counterA, m.counterB);
    var slot := CutSlot(SlotAt(img, t), CounterImage(NextSeq(s), c), n);
    SlotOfPatch(img, t, slot, m.receiptA);
    SlotOfPatch(img, t, slot, m.receiptB);
  }

  /** One event, on any image: its own store takes one two-slot step, the other store none. */
  lemma StepSlots(m: Map, img: seq<byte>, e: Event)
    requires Fits(m, img)
    ensures Counters(m, StepImage(m, img, e)) ==
            if e.SaveCounter? then After(Counters(m, img), CounterFate(NextSeq(Counters(m, img)), e.counter, e.steps))
            else Counters(m, img)
    ensures Receipts(m, StepImage(m, img, e)) ==
            match ReceiptSave(Load(Receipts(m, img)), e)
            case None => Receipts(m, img)
            case Some(save) => After(Receipts(m, img), RetainedFate(NextSeq(Receipts(m, img)), save.value, save.steps))
  {
    if e.SaveCounter? {
      SaveCounterIsStep(img, m.counterA, m.counterB, e.counter, e.steps);
      CounterStepFrame(m, img, e.counter, e.steps);
    } else {
      match ReceiptSave(Load(Receipts(m, img)), e)
      case None =>
      case Some(save) =>
        SaveReceiptIsStep(img, m.receiptA, m.receiptB, save.value, save.steps);
        ReceiptStepFrame(m, img, save.value, save.steps);
    }
  }

  lemma ReceiptStepHolds(m: Map, img: seq<byte>, receipt: Cell<PersistedReceipt>, e: Event)
    requires Fits(m, img) && Represents(Receipts(m, img), receipt)
    ensures Represents(Receipts(m, StepImage(m, img, e)), ReceiptCell(receipt, e))
  {
    var before, after := Receipts(m, img), Receipts(m, StepImage(m, img, e));
    StepSlots(m, img, e);
    assert Load(before) == receipt.value;
    match ReceiptSave(receipt.value, e)
    case None =>
      assert after == before;
    case Some(save) =>
      var fate := RetainedFate(NextSeq(before), save.value, save.steps);
      assert after == After(before, fate);
      StepRefines(before, receipt, fate);
      assert ReceiptCell(receipt, e) == CellStep(receipt, fate);
  }

  lemma CounterStepHolds(m: Map, img: seq<byte>, counter: Cell<PersistedCounter>, e: Event)
    requires Fits(m, img) && Represents(Counters(m, img), counter)
    ensures Represents(Counters(m, StepImage(m, img, e)), CounterCell(counter, e))
  {
    var before, after := Counters(m, img), Counters(m, StepImage(m, img, e));
    StepSlots(m, img, e);
    if e.SaveCounter? {
      var fate := CounterFate(NextSeq(before), e.counter, e.steps);
      assert after == After(before, fate);
      StepRefines(before, counter, fate);
      assert CounterCell(counter, e) == CellStep(counter, fate);
    }
  }

  /** Any interleaving, cut anywhere: each store is its own cell, untouched by the other's events. */
  lemma {:induction false} RunHolds(
    m: Map, img: seq<byte>, receipt: Cell<PersistedReceipt>, counter: Cell<PersistedCounter>, es: seq<Event>)
    requires Fits(m, img) && Holds(m, img, receipt, counter)
    ensures Holds(m, RunImage(m, img, es), ReceiptRun(receipt, es), CounterRun(counter, es))
    decreases |es|
  {
    if es != [] {
      ReceiptStepHolds(m, img, receipt, es[0]);
      CounterStepHolds(m, img, counter, es[0]);
      RunHolds(m, StepImage(m, img, es[0]), ReceiptCell(receipt, es[0]), CounterCell(counter, es[0]), es[1..]);
    }
  }

  function Erased(size: nat): seq<byte> {
    Repeat(ERASED, size)
  }

  lemma ErasedIsBlank(m: Map, size: nat)
    requires Fits(m, Erased(size))
    ensures Holds(m, Erased(size), Cell(0, None), Cell(0, None))
  {
    ErasedMagic(MAGIC_RETAINED, RETAINED_BODY, SlotAt(Erased(size), m.receiptA));
    ErasedMagic(MAGIC_RETAINED, RETAINED_BODY, SlotAt(Erased(size), m.receiptB));
    ErasedMagic(MAGIC_COUNTER, COUNTER_BODY, SlotAt(Erased(size), m.counterA));
    ErasedMagic(MAGIC_COUNTER, COUNTER_BODY, SlotAt(Erased(size), m.counterB));
  }

  // ---- Crash atomicity ----

  function CounterSaves(es: seq<Event>): seq<Save<PersistedCounter>>
    decreases |es|
  {
    if es == [] then []
    else (if es[0].SaveCounter? then [Save(es[0].counter, es[0].steps)] else []) + CounterSaves(es[1..])
  }

  /** The saves the receipt store is asked for, consumption marks included. */
  function ReceiptSaves(cell: Cell<PersistedReceipt>, es: seq<Event>): seq<Save<PersistedReceipt>>
    decreases |es|
  {
    if es == [] then []
    else
      (match ReceiptSave(cell.value, es[0]) case None => [] case Some(save) => [save])
      + ReceiptSaves(ReceiptCell(cell, es[0]), es[1..])
  }

  lemma {:induction false} CounterRunIsCellRun(cell: Cell<PersistedCounter>, es: seq<Event>)
    ensures CounterRun(cell, es) == CellRun(CounterFate, cell, CounterSaves(es))
    decreases |es|
  {
    if es != [] {
      CounterRunIsCellRun(CounterCell(cell, es[0]), es[1..]);
      if es[0].SaveCounter? {
        assert CounterSaves(es)[1..] == CounterSaves(es[1..]);
      } else {
        assert CounterSaves(es) == CounterSaves(es[1..]);
      }
    }
  }

  lemma {:induction false} ReceiptRunIsCellRun(cell: Cell<PersistedReceipt>, es: seq<Event>)
    ensures ReceiptRun(cell, es) == CellRun(RetainedFate, cell, ReceiptSaves(cell, es))
    decreases |es|
  {
    if es != [] {
      var next := ReceiptCell(cell, es[0]);
      ReceiptRunIsCellRun(next, es[1..]);
      if ReceiptSave(cell.value, es[0]).Some? {
        assert ReceiptSaves(cell, es)[1..] == ReceiptSaves(next, es[1..]);
      } else {
        assert ReceiptSaves(cell, es) == ReceiptSaves(next, es[1..]);
      }
    }
  }

  lemma FatesComplete()
    ensures Completes(RetainedFate) && Completes(CounterFate)
  {
  }

  /** A cut save lands the new value, or a torn one that reads as consumed, or nothing. */
  lemma FateShape(saveSeq: u32, r: PersistedReceipt, n: nat)
    ensures var fate := RetainedFate(saveSeq, r, n);
            && (ReceiptTears(saveSeq, r, n) ==>
                  fate == Wrote(TornReceipt(saveSeq, r, n - SLOT_SIZE)) && fate.value.consumed
                  && fate.value.seedId == r.seedId && fate.value.counter >= r.counter)
            && (!ReceiptTears(saveSeq, r, n) && fate.Wrote? ==> fate.value == r)
            && (n >= FULL ==> fate == Wrote(r))
  {
    var k := n - SLOT_SIZE;
    if 0 <= k < RETAINED_BODY {
      TornReceiptBounds(saveSeq, r, k);
    }
  }

  /** A cut save lands the new counter, or a torn one that is no smaller, or nothing. */
  lemma CounterFateShape(saveSeq: u32, c: PersistedCounter, n: nat)
    ensures var fate := CounterFate(saveSeq, c, n);
            && (CounterTears(saveSeq, c, n) ==>
                  fate == Wrote(TornCounter(saveSeq, c, n - SLOT_SIZE)) && fate.value.lastT >= c.lastT)
            && (!CounterTears(saveSeq, c, n) && fate.Wrote? ==> fate.value == c)
            && (n >= FULL ==> fate == Wrote(c))
  {
    var k := n - SLOT_SIZE;
    if 0 <= k < COUNTER_BODY {
      TornCounterBounds(saveSeq, c, k);
    }
  }

  /** No save of the run is cut where it leaves a body whose checksum is the erased value. */
  predicate ReceiptsUntorn(cell: Cell<PersistedReceipt>, saves: seq<Save<PersistedReceipt>>)
    decreases |saves|
  {
    saves == [] ||
    (&& !ReceiptTears(SeqAfter(cell), saves[0].value, saves[0].steps)
     && ReceiptsUntorn(CellStep(cell, RetainedFate(SeqAfter(cell), saves[0].value, saves[0].steps)), saves[1..]))
  }

  predicate CountersUntorn(cell: Cell<PersistedCounter>, saves: seq<Save<PersistedCounter>>)
    decreases |saves|
  {
    saves == [] ||
    (&& !CounterTears(SeqAfter(cell), saves[0].value, saves[0].steps)
     && CountersUntorn(CellStep(cell, CounterFate(SeqAfter(cell), saves[0].value, saves[0].steps)), saves[1..]))
  }

  lemma {:induction false} UntornReceiptRun(cell: Cell<PersistedReceipt>, saves: seq<Save<PersistedReceipt>>)
    requires ReceiptsUntorn(cell, saves)
    ensures NoTornValue(RetainedFate, cell, saves)
    decreases |saves|
  {
    if saves != [] {
      var fate := RetainedFate(SeqAfter(cell), saves[0].value, saves[0].steps);
      FateShape(SeqAfter(cell), saves[0].value, saves[0].steps);
      UntornReceiptRun(CellStep(cell, fate), saves[1..]);
    }
  }

  lemma {:induction false} UntornCounterRun(cell: Cell<PersistedCounter>, saves: seq<Save<PersistedCounter>>)
    requires CountersUntorn(cell, saves)
    ensures NoTornValue(CounterFate, cell, saves)
    decreases |saves|
  {
    if saves != [] {
      var fate := CounterFate(SeqAfter(cell), saves[0].value, saves[0].steps);
      CounterFateShape(SeqAfter(cell), saves[0].value, saves[0].steps);
      UntornCounterRun(CellStep(cell, fate), saves[1..]);
    }
  }

  /**
   * From a blank flash, after any interleaving of saves cut anywhere, each load returns the
   * last completed value or the value of a later, cut save. Never a mixture, never an older
   * value, and Empty only if nothing ever completed.
   */
  lemma CrashAtomicity(m: Map, size: nat, es: seq<Event>)
    requires Fits(m, Erased(size))
    requires RoomForAll(RetainedFate, Cell(0, None), ReceiptSaves(Cell(0, None), es))
    requires RoomForAll(CounterFate, Cell(0, None), CounterSaves(es))
    requires ReceiptsUntorn(Cell(0, None), ReceiptSaves(Cell(0, None), es))
    requires CountersUntorn(Cell(0, None), CounterSaves(es))
    ensures InForce(Load(Receipts(m, RunImage(m, Erased(size), es))), None, ReceiptSaves(Cell(0, None), es))
    ensures InForce(Load(Counters(m, RunImage(m, Erased(size), es))), None, CounterSaves(es))
  {
    var receipt: Cell<PersistedReceipt>, counter: Cell<PersistedCounter> := Cell(0, None), Cell(0, None);
    ErasedIsBlank(m, size);
    RunHolds(m, Erased(size), receipt, counter, es);
    ReceiptRunIsCellRun(receipt, es);
    CounterRunIsCellRun(counter, es);
    FatesComplete();
    UntornReceiptRun(receipt, ReceiptSaves(receipt, es));
    UntornCounterRun(counter, CounterSaves(es));
    CellRunAtomic(RetainedFate, receipt, ReceiptSaves(receipt, es));
    CellRunAtomic(CounterFate, counter, CounterSaves(es));
  }

  /** Fewer than 2^32 events always find a sequence number left. */
  lemma FewEventsHaveRoom(es: seq<Event>)
    requires |es| <= U32_MAX
    ensures RoomForAll(RetainedFate, Cell(0, None), ReceiptSaves(Cell(0, None), es))
    ensures RoomForAll(CounterFate, Cell(0, None), CounterSaves(es))
  {
    SavesAreEvents(Cell(0, None), es);
    FewSavesHaveRoom(RetainedFate, Cell(0, None), ReceiptSaves(Cell(0, None), es));
    FewSavesHaveRoom(CounterFate, Cell(0, None), CounterSaves(es));
  }

  lemma {:induction false} SavesAreEvents(cell: Cell<PersistedReceipt>, es: seq<Event>)
    ensures |ReceiptSaves(cell, es)| <= |es| && |CounterSaves(es)| <= |es|
    decreases |es|
  {
    if es != [] {
      SavesAreEvents(ReceiptCell(cell, es[0]), es[1..]);
    }
  }

  /** The slot invariant of every reachable flash, over runs of any length; it needs nothing of the checksum. */
  lemma ReachableSlots(m: Map, size: nat, es: seq<Event>)
    requires Fits(m, Erased(size))
    ensures var img := RunImage(m, Erased(size), es);
            && Reached(Receipts(m, img), ReceiptRun(Cell(0, None), es).commits)
            && Reached(Counters(m, img), CounterRun(Cell(0, None), es).commits)
            && Load(After(Receipts(m, img), Lost)) == Load(Receipts(m, img))
            && Load(After(Counters(m, img), Lost)) == Load(Counters(m, img))
  {
    ErasedIsBlank(m, size);
    RunHolds(m, Erased(size), Cell(0, None), Cell(0, None), es);
    var img := RunImage(m, Erased(size), es);
    TargetIsSpare(Receipts(m, img), ReceiptRun(Cell(0, None), es).commits);
    TargetIsSpare(Counters(m, img), CounterRun(Cell(0, None), es).commits);
  }

  // ---- When one cut save is atomic ----

  lemma LoadAfterSave(
    img: seq<byte>, a: nat, b: nat, commits: nat, saveSeq: u32, r: PersistedReceipt, n: nat,
    fate: Fate<PersistedReceipt>)
    requires Layout(img, a, b) && Reached(ReceiptSlots(img, a, b), commits)
    requires saveSeq == (commits + 1) % 0x1_0000_0000 && fate == RetainedFate(saveSeq, r, n)
    ensures Load(ReceiptSlots(SaveReceiptCut(img, a, b, r, n), a, b)) ==
            if fate.Wrote? && commits < U32_MAX then Some(fate.value) else Load(ReceiptSlots(img, a, b))
  {
    var s := ReceiptSlots(img, a, b);
    ReachedStep(s, commits, fate);
    SaveReceiptIsStep(img, a, b, r, n);
    assert NextSeq(s) == saveSeq;
    assert ReceiptSlots(SaveReceiptCut(img, a, b, r, n), a, b) == After(s, fate);
  }

  lemma LoadAfterCounterSave(
    img: seq<byte>, a: nat, b: nat, commits: nat, saveSeq: u32, c: PersistedCounter, n: nat,
    fate: Fate<PersistedCounter>)
    requires Layout(img, a, b) && Reached(CounterSlots(img, a, b), commits)
    requires saveSeq == (commits + 1) % 0x1_0000_0000 && fate == CounterFate(saveSeq, c, n)
    ensures Load(CounterSlots(SaveCounterCut(img, a, b, c, n), a, b)) ==
            if fate.Wrote? && commits < U32_MAX then Some(fate.value) else Load(CounterSlots(img, a, b))
  {
    var s := CounterSlots(img, a, b);
    ReachedStep(s, commits, fate);
    SaveCounterIsStep(img, a, b, c, n);
    assert NextSeq(s) == saveSeq;
    assert CounterSlots(SaveCounterCut(img, a, b, c, n), a, b) == After(s, fate);
  }

  /** A load after a save is the old record or the new one. */
  predicate Atomic<V(==)>(before: Option<V>, v: V, after: Option<V>) {
    after == before || after == Some(v)
  }

  function NextNumber(commits: nat): u32 {
    (commits + 1) % 0x1_0000_0000
  }

  /**
   * When a cut save of a receipt is atomic, whatever it is saved over: exactly when there is
   * no number left (nothing lands then), or the body it leaves is rejected, or that torn body
   * happens to spell the old receipt or the new one.
   */
  lemma CutSaveAtomicIff(img: seq<byte>, a: nat, b: nat, commits: nat, r: PersistedReceipt, n: nat)
    requires Layout(img, a, b) && Reached(ReceiptSlots(img, a, b), commits)
    ensures var before := Load(ReceiptSlots(img, a, b));
            var after := Load(ReceiptSlots(SaveReceiptCut(img, a, b, r, n), a, b));
            var saveSeq := NextNumber(commits);
            Atomic(before, r, after) <==>
            !(&& commits < U32_MAX && ReceiptTears(saveSeq, r, n)
              && TornReceipt(saveSeq, r, n - SLOT_SIZE) != r
              && Some(TornReceipt(saveSeq, r, n - SLOT_SIZE)) != before)
  {
    var saveSeq := NextNumber(commits);
    LoadAfterSave(img, a, b, commits, saveSeq, r, n, RetainedFate(saveSeq, r, n));
    FateShape(saveSeq, r, n);
  }

  /**
   * The save of a fresh receipt, over none, over one that is not consumed, or over one with a
   * smaller counter: atomic exactly when no torn body is accepted.
   */
  lemma FreshSaveAtomicIff(img: seq<byte>, a: nat, b: nat, commits: nat, r: PersistedReceipt, n: nat)
    requires Layout(img, a, b) && Reached(ReceiptSlots(img, a, b), commits) && !r.consumed
    requires var before := Load(ReceiptSlots(img, a, b));
             before.Some? ==> !before.value.consumed || before.value.counter < r.counter
    ensures Atomic(Load(ReceiptSlots(img, a, b)), r, Load(ReceiptSlots(SaveReceiptCut(img, a, b, r, n), a, b)))
            <==> !(commits < U32_MAX && ReceiptTears(NextNumber(commits), r, n))
  {
    CutSaveAtomicIff(img, a, b, commits, r, n);
    FateShape(NextNumber(commits), r, n);
  }

  /** The same for counters. */
  lemma CutCounterAtomicIff(img: seq<byte>, a: nat, b: nat, commits: nat, c: PersistedCounter, n: nat)
    requires Layout(img, a, b) && Reached(CounterSlots(img, a, b), commits)
    ensures var before := Load(CounterSlots(img, a, b));
            var after := Load(CounterSlots(SaveCounterCut(img, a, b, c, n), a, b));
            var saveSeq := NextNumber(commits);
            Atomic(before, c, after) <==>
            !(&& commits < U32_MAX && CounterTears(saveSeq, c, n)
              && TornCounter(saveSeq, c, n - SLOT_SIZE) != c
              && Some(TornCounter(saveSeq, c, n - SLOT_SIZE)) != before)
  {
    var saveSeq := NextNumber(commits);
    LoadAfterCounterSave(img, a, b, commits, saveSeq, c, n, CounterFate(saveSeq, c, n));
    CounterFateShape(saveSeq, c, n);
  }

  /** A cut counter save that leaves an accepted torn body which lost more than bytes that were 0xFF. */
  predicate CounterSpoilt(saveSeq: u32, c: PersistedCounter, n: nat) {
    CounterTears(saveSeq, c, n) && !OnesFrom(CounterBody(saveSeq, c), n - SLOT_SIZE)
  }

  lemma SpoiltIff(saveSeq: u32, c: PersistedCounter, n: nat)
    ensures CounterSpoilt(saveSeq, c, n) <==>
            CounterTears(saveSeq, c, n) && TornCounter(saveSeq, c, n - SLOT_SIZE) != c
    ensures CounterTears(saveSeq, c, n) ==> TornCounter(saveSeq, c, n - SLOT_SIZE).lastT >= c.lastT
  {
    if CounterTears(saveSeq, c, n) {
      TornCounterSame(saveSeq, c, n - SLOT_SIZE);
      TornCounterBounds(saveSeq, c, n - SLOT_SIZE);
    }
  }

  /** The save of a larger counter: atomic exactly when no torn body that spoils the counter is accepted. */
  lemma NextCounterAtomicIff(img: seq<byte>, a: nat, b: nat, commits: nat, c: PersistedCounter, n: nat)
    requires Layout(img, a, b) && Reached(CounterSlots(img, a, b), commits)
    requires var before := Load(CounterSlots(img, a, b)); before.Some? ==> before.value.lastT < c.lastT
    ensures Atomic(Load(CounterSlots(img, a, b)), c, Load(CounterSlots(SaveCounterCut(img, a, b, c, n), a, b)))
            <==> !(commits < U32_MAX && CounterSpoilt(NextNumber(commits), c, n))
  {
    CutCounterAtomicIff(img, a, b, commits, c, n);
    SpoiltIff(NextNumber(commits), c, n);
  }

  // ---- Consumption ----

  predicate MarksOrCounters(es: seq<Event>) {
    forall i :: 0 <= i < |es| ==> !es[i].SaveReceipt?
  }

  /** Once a load shows a receipt consumed, no marks and no counter saves, cut or not, change what loads return. */
  lemma {:induction false} ConsumedStays(m: Map, img: seq<byte>, es: seq<Event>)
    requires Fits(m, img) && MarksOrCounters(es)
    requires Load(Receipts(m, img)).Some? && Load(Receipts(m, img)).value.consumed
    ensures Load(Receipts(m, RunImage(m, img, es))) == Load(Receipts(m, img))
    decreases |es|
  {
    if es != [] {
      StepSlots(m, img, es[0]);
      ConsumedStays(m, StepImage(m, img, es[0]), es[1..]);
    }
  }

  lemma MarkIsSave(m: Map, img: seq<byte>, r: PersistedReceipt, n: nat)
    requires Fits(m, img) && Load(Receipts(m, img)) == Some(r) && !r.consumed
    ensures StepImage(m, img, MarkConsumed(n)) ==
            SaveReceiptCut(img, m.receiptA, m.receiptB, r.(consumed := true), n)
  {
  }

  lemma LoadAfterMark(
    m: Map, img: seq<byte>, commits: nat, saveSeq: u32, r: PersistedReceipt, n: nat, fate: Fate<PersistedReceipt>)
    requires Fits(m, img) && Reached(Receipts(m, img), commits) && saveSeq == NextNumber(commits)
    requires Load(Receipts(m, img)) == Some(r) && !r.consumed
    requires fate == RetainedFate(saveSeq, r.(consumed := true), n)
    ensures Load(Receipts(m, StepImage(m, img, MarkConsumed(n)))) ==
            Some(if fate.Wrote? && commits < U32_MAX then fate.value else r)
  {
    MarkIsSave(m, img, r, n);
    LoadAfterSave(img, m.receiptA, m.receiptB, commits, saveSeq, r.(consumed := true), n, fate);
  }

  /** A consumption mark, cut anywhere: the receipt is unchanged or reads as consumed, and keeps its identifier. */
  lemma CutMark(m: Map, img: seq<byte>, commits: nat, r: PersistedReceipt, n: nat)
    requires Fits(m, img) && Reached(Receipts(m, img), commits)
    requires Load(Receipts(m, img)) == Some(r) && !r.consumed
    ensures var after := Load(Receipts(m, StepImage(m, img, MarkConsumed(n))));
            && after.Some? && after.value.seedId == r.seedId && (after == Some(r) || after.value.consumed)
            && (n >= FULL && commits < U32_MAX ==> after == Some(r.(consumed := true)))
  {
    var marked, saveSeq := r.(consumed := true), NextNumber(commits);
    LoadAfterMark(m, img, commits, saveSeq, r, n, RetainedFate(saveSeq, marked, n));
    FateShape(saveSeq, marked, n);
  }

  /**
   * When a cut mark is atomic, for a receipt with an alphanumeric code: exactly when no torn
   * body is accepted that lost more than its flag byte.
   */
  lemma CutMarkAtomicIff(m: Map, img: seq<byte>, commits: nat, r: PersistedReceipt, n: nat)
    requires Fits(m, img) && Reached(Receipts(m, img), commits)
    requires Load(Receipts(m, img)) == Some(r) && !r.consumed && AllAlphanumeric(r.expectedC2)
    ensures var marked := r.(consumed := true);
            Atomic(Some(r), marked, Load(Receipts(m, StepImage(m, img, MarkConsumed(n)))))
            <==> !(&& commits < U32_MAX && ReceiptTears(NextNumber(commits), marked, n)
                   && n - SLOT_SIZE < RETAINED_BODY - 1)
  {
    var marked, saveSeq := r.(consumed := true), NextNumber(commits);
    MarkIsSave(m, img, r, n);
    CutSaveAtomicIff(img, m.receiptA, m.receiptB, commits, marked, n);
    FateShape(saveSeq, marked, n);
    if ReceiptTears(saveSeq, marked, n) {
      TornMark(saveSeq, marked, n - SLOT_SIZE);
    }
  }
}
