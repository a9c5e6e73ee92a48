/**
 * The boot protocol on what the two stores hold: load the counter, make the next value
 * durable, and only then emit; keep the receipt, read back, mark it consumed. What the bytes
 * of a cut save do is a parameter, so nothing here depends on the record format.
 */
module BootProtocol {
  import opened Bytes
  import opened Types
  import opened Records
  import opened TornWrites
  import opened PingPong

  datatype Memory = Memory(receipts: Slots<PersistedReceipt>, counters: Slots<PersistedCounter>)

  /** What cut saves do to their slots. */
  datatype Fates = Fates(receipt: FateOf<PersistedReceipt>, counter: FateOf<PersistedCounter>)

  /** The device's identifier, the receipt it keeps for a counter, and whether the counter's field fits a QR code. */
  datatype Device = Device(seedId: SeedId, receiptFor: u64 -> PersistedReceipt, encodes: u64 -> bool)

  /** The status byte a boot halts with, or `Dark` when its supply ended in the middle of a save. */
  datatype Ending = Dark | Status(code: byte)

  const FAILED: Ending := Status(0xFF)
  const CONSUMED: Ending := Status(6)

  datatype Outcome = Outcome(memory: Memory, emitted: Option<u64>, ending: Ending)

  function Increment64(t: u64): u64 {
    (t + 1) % 0x1_0000_0000_0000_0000
  }

  function LastT(m: Memory): u64 {
    match Load(m.counters) case None => 0 case Some(c) => c.lastT
  }

  function NextT(m: Memory): u64 {
    Increment64(LastT(m))
  }

  /** The supply left after a save. */
  function Rest(power: nat): nat {
    if power < FULL then 0 else power - FULL
  }

  function CounterSaved(f: Fates, d: Device, m: Memory, power: nat): Memory {
    m.(counters := After(m.counters, f.counter(NextSeq(m.counters), PersistedCounter(d.seedId, NextT(m)), power)))
  }

  function ReceiptSaved(f: Fates, m: Memory, receipt: PersistedReceipt, power: nat): Memory {
    m.(receipts := After(m.receipts, f.receipt(NextSeq(m.receipts), receipt, power)))
  }

  function Keep(f: Fates, m: Memory, receipt: PersistedReceipt, t: u64, power: nat): (Memory, Ending) {
    var retained := ReceiptSaved(f, m, receipt, power);
    if power < FULL then (retained, Dark)
    else if Load(retained.receipts) != Some(receipt) || Load(m.counters).None? || LastT(m) != t then (retained, FAILED)
    else
      (ReceiptSaved(f, retained, receipt.(consumed := true), Rest(power)),
       if Rest(power) < FULL then Dark else CONSUMED)
  }

  function Boot(f: Fates, d: Device, m: Memory, power: nat): Outcome {
    var t := NextT(m);
    var saved := CounterSaved(f, d, m, power);
    if power < FULL then Outcome(saved, None, Dark)
    else if !d.encodes(t) then Outcome(saved, Some(t), FAILED)
    else
      var (after, ending) := Keep(f, saved, d.receiptFor(t), t, Rest(power));
      Outcome(after, Some(t), ending)
  }

  // ---- One boot ----

  /** A complete save lands its value, and a counter that lands is never smaller than the one saved. */
  ghost predicate Faithful(f: Fates) {
    && Completes(f.receipt) && Completes(f.counter)
    && forall s, c, n :: f.counter(s, c, n).Wrote? ==> f.counter(s, c, n).value.lastT >= c.lastT
  }

  /** What the counter save of a boot does to its slot. */
  function BootFate(f: Fates, d: Device, m: Memory, power: nat): Fate<PersistedCounter> {
    f.counter(NextSeq(m.counters), PersistedCounter(d.seedId, NextT(m)), power)
  }

  /** Keeping the receipt never reaches the counter. */
  lemma BootCounters(f: Fates, d: Device, m: Memory, power: nat)
    ensures Boot(f, d, m, power).memory.counters == CounterSaved(f, d, m, power).counters
  {
  }

  /** A save that does not land in the counter store, or that comes after its last number, leaves the counter. */
  function CounterAfter(f: Fates, d: Device, m: Memory, power: nat, commits: nat): u64 {
    var fate := BootFate(f, d, m, power);
    if fate.Wrote? && commits < U32_MAX then fate.value.lastT else LastT(m)
  }

  /**
   * One boot, cut anywhere, at every distance from the sequence limit. What it emits exceeds
   * the counter that was durable before exactly while that one is below 2^64 - 1, and is
   * itself durable exactly while the counter store has a sequence number left.
   */
  lemma BootAdvances(f: Fates, d: Device, m: Memory, power: nat, commits: nat)
    requires Faithful(f) && Reached(m.counters, commits)
    ensures var r := Boot(f, d, m, power);
            && (r.emitted.Some? <==> power >= FULL)
            && (r.emitted.Some? ==> r.emitted.value == NextT(m))
            && (r.emitted.Some? ==> (r.emitted.value > LastT(m) <==> LastT(m) < U64_MAX))
            && (r.emitted.Some? ==> (r.emitted.value == LastT(r.memory) <==> commits < U32_MAX))
            && LastT(r.memory) == CounterAfter(f, d, m, power, commits)
            && (LastT(r.memory) == LastT(m) || LastT(r.memory) >= NextT(m))
            && Reached(r.memory.counters, Counted(commits, BootFate(f, d, m, power)))
  {
    BootCounters(f, d, m, power);
    ReachedStep(m.counters, commits, BootFate(f, d, m, power));
  }

  // ---- Whole runs of boots ----

  function EmittedBy(o: Outcome): seq<u64> {
    if o.emitted.Some? then [o.emitted.value] else []
  }

  /** Boots in a row, each on the supply it is given. */
  function Run(f: Fates, d: Device, m: Memory, powers: seq<nat>): Memory
    decreases |powers|
  {
    if powers == [] then m else Run(f, d, Boot(f, d, m, powers[0]).memory, powers[1..])
  }

  /** Every counter that a run emits, in order. */
  function Emitted(f: Fates, d: Device, m: Memory, powers: seq<nat>): seq<u64>
    decreases |powers|
  {
    if powers == [] then []
    else
      var first := Boot(f, d, m, powers[0]);
      EmittedBy(first) + Emitted(f, d, first.memory, powers[1..])
  }

  /** No boot of the run starts from the largest counter. */
  predicate NoWrap(f: Fates, d: Device, m: Memory, powers: seq<nat>)
    decreases |powers|
  {
    powers == [] || (LastT(m) < U64_MAX && NoWrap(f, d, Boot(f, d, m, powers[0]).memory, powers[1..]))
  }

  /** No boot of the run leaves a counter that it never saved. */
  predicate NoTornCounter(f: Fates, d: Device, m: Memory, powers: seq<nat>)
    decreases |powers|
  {
    powers == [] ||
    (var fate := BootFate(f, d, m, powers[0]);
     && (fate.Wrote? ==> fate.value.lastT == NextT(m))
     && NoTornCounter(f, d, Boot(f, d, m, powers[0]).memory, powers[1..]))
  }

  predicate NoneEmits(powers: seq<nat>) {
    forall i :: 0 <= i < |powers| ==> powers[i] < FULL
  }

  /**
   * What has to be looked at before each boot: no boot emits once one has started from the
   * largest counter, and none emits after one that emitted with no sequence number left.
   */
  predicate SafeRun(f: Fates, d: Device, m: Memory, powers: seq<nat>)
    decreases |powers|
  {
    if powers == [] then true
    else if LastT(m) == U64_MAX then NoneEmits(powers)
    else if AtLimit(m.counters) && powers[0] >= FULL then NoneEmits(powers[1..])
    else SafeRun(f, d, Boot(f, d, m, powers[0]).memory, powers[1..])
  }

  /** Every counter emitted exceeds `floor`, every counter durable before it and every one emitted before it. */
  predicate NeverRepeats(f: Fates, d: Device, m: Memory, powers: seq<nat>, floor: u64)
    decreases |powers|
  {
    powers == [] ||
    (var r := Boot(f, d, m, powers[0]);
     var high: u64 := if floor < LastT(m) then LastT(m) else floor;
     if r.emitted.Some? then
       r.emitted.value > high && NeverRepeats(f, d, r.memory, powers[1..], r.emitted.value)
     else NeverRepeats(f, d, r.memory, powers[1..], high))
  }

  lemma BootEmits(f: Fates, d: Device, m: Memory, power: nat)
    ensures Boot(f, d, m, power).emitted == if power >= FULL then Some(NextT(m)) else None
  {
  }

  /** With no sequence number left, no boot changes the counter any more. */
  lemma LimitStays(f: Fates, d: Device, m: Memory, power: nat)
    requires AtLimit(m.counters)
    ensures var next := Boot(f, d, m, power).memory; AtLimit(next.counters) && LastT(next) == LastT(m)
  {
    BootCounters(f, d, m, power);
    WrappedSavesAreLost(m.counters, BootFate(f, d, m, power));
  }

  /** Under a floor that no boot can exceed any more, a run is free of repetitions only if it emits nothing. */
  lemma {:induction false} CappedRun(f: Fates, d: Device, m: Memory, powers: seq<nat>, floor: u64)
    requires floor == U64_MAX || (AtLimit(m.counters) && floor >= NextT(m) && floor >= LastT(m))
    ensures NeverRepeats(f, d, m, powers, floor) <==> NoneEmits(powers)
    decreases |powers|
  {
    if powers != [] {
      BootEmits(f, d, m, powers[0]);
      if powers[0] < FULL {
        if AtLimit(m.counters) {
          LimitStays(f, d, m, powers[0]);
        }
        CappedRun(f, d, Boot(f, d, m, powers[0]).memory, powers[1..], floor);
        NoneEmitsCons(powers);
      }
    }
  }

  lemma NoneEmitsCons(powers: seq<nat>)
    requires powers != []
    ensures NoneEmits(powers) <==> powers[0] < FULL && NoneEmits(powers[1..])
  {
    if powers[0] < FULL && NoneEmits(powers[1..]) {
      forall i | 0 <= i < |powers| ensures powers[i] < FULL {
        assert i > 0 ==> powers[i] == powers[1..][i - 1];
      }
    }
  }

  /**
   * When T is never reused, over runs of any length cut anywhere: exactly when the run is safe.
   * Nothing is asked of the checksum.
   */
  lemma {:induction false} NeverReusedIff(
    f: Fates, d: Device, m: Memory, powers: seq<nat>, floor: u64, commits: nat)
    requires Faithful(f) && Reached(m.counters, commits) && floor <= LastT(m)
    ensures NeverRepeats(f, d, m, powers, floor) <==> SafeRun(f, d, m, powers)
    decreases |powers|
  {
    if powers != [] {
      var power, next := powers[0], Boot(f, d, m, powers[0]).memory;
      BootEmits(f, d, m, power);
      BootAdvances(f, d, m, power, commits);
      LimitIsReached(m.counters, commits);
      if LastT(m) == U64_MAX {
        CappedRun(f, d, next, powers[1..], U64_MAX);
        NoneEmitsCons(powers);
      } else if AtLimit(m.counters) && power >= FULL {
        LimitStays(f, d, m, power);
        CappedRun(f, d, next, powers[1..], NextT(m));
      } else {
        NeverReusedIff(f, d, next, powers[1..], if power >= FULL then NextT(m) else LastT(m),
                       Counted(commits, BootFate(f, d, m, power)));
      }
    }
  }

  lemma IncreasingCons(x: u64, xs: seq<u64>)
    ensures Increasing([x] + xs) <==> Increasing(xs) && AllAbove(xs, x)
  {
    var ys := [x] + xs;
    if Increasing(ys) {
      forall i, j | 0 <= i < j < |xs| ensures xs[i] < xs[j] {
        assert ys[i + 1] < ys[j + 1];
      }
      forall i | 0 <= i < |xs| ensures xs[i] > x {
        assert ys[0] < ys[i + 1];
      }
    }
  }

  lemma {:induction false} NeverRepeatsIncreases(f: Fates, d: Device, m: Memory, powers: seq<nat>, floor: u64)
    requires NeverRepeats(f, d, m, powers, floor)
    ensures Increasing(Emitted(f, d, m, powers)) && AllAbove(Emitted(f, d, m, powers), floor)
    decreases |powers|
  {
    if powers != [] {
      var r := Boot(f, d, m, powers[0]);
      var high: u64 := if floor < LastT(m) then LastT(m) else floor;
      var rest := Emitted(f, d, r.memory, powers[1..]);
      if r.emitted.Some? {
        NeverRepeatsIncreases(f, d, r.memory, powers[1..], r.emitted.value);
        IncreasingCons(r.emitted.value, rest);
      } else {
        NeverRepeatsIncreases(f, d, r.memory, powers[1..], high);
        assert Emitted(f, d, m, powers) == rest;
      }
    }
  }

  /** How many boots of a run emit. */
  function Emitting(powers: seq<nat>): nat {
    if powers == [] then 0 else (if powers[0] >= FULL then 1 else 0) + Emitting(powers[1..])
  }

  lemma {:induction false} EmittingNone(powers: seq<nat>)
    ensures Emitting(powers) == 0 <==> NoneEmits(powers)
  {
    if powers != [] {
      NoneEmitsCons(powers);
      EmittingNone(powers[1..]);
    }
  }

  /** With no sequence number left, every boot that emits repeats the same T, for ever. */
  lemma {:induction false} StalledRun(f: Fates, d: Device, m: Memory, powers: seq<nat>)
    requires AtLimit(m.counters)
    ensures Emitted(f, d, m, powers) == Repeat(NextT(m), Emitting(powers))
    decreases |powers|
  {
    if powers != [] {
      BootEmits(f, d, m, powers[0]);
      LimitStays(f, d, m, powers[0]);
      StalledRun(f, d, Boot(f, d, m, powers[0]).memory, powers[1..]);
    }
  }

  /**
   * As long as no boot starts from the largest counter, the counters emitted strictly increase
   * exactly when at most the last boot that emits does so with no sequence number left.
   */
  lemma {:induction false} IncreasingIff(f: Fates, d: Device, m: Memory, powers: seq<nat>, commits: nat)
    requires Faithful(f) && Reached(m.counters, commits) && NoWrap(f, d, m, powers)
    ensures Increasing(Emitted(f, d, m, powers)) <==> SafeRun(f, d, m, powers)
    decreases |powers|
  {
    NeverReusedIff(f, d, m, powers, 0, commits);
    if SafeRun(f, d, m, powers) {
      NeverRepeatsIncreases(f, d, m, powers, 0);
    } else if Increasing(Emitted(f, d, m, powers)) {
      IncreasingTail(f, d, m, powers);
      if AtLimit(m.counters) && powers[0] >= FULL {
        StalledRun(f, d, m, powers);
        EmittingNone(powers[1..]);
        AllSame(NextT(m), Emitting(powers));
      } else {
        BootAdvances(f, d, m, powers[0], commits);
        var next := Boot(f, d, m, powers[0]).memory;
        IncreasingIff(f, d, next, powers[1..], Counted(commits, BootFate(f, d, m, powers[0])));
      }
    }
  }

  lemma AllSame(t: u64, n: nat)
    ensures Increasing(Repeat(t, n)) <==> n <= 1
  {
    var ts := Repeat(t, n);
    assert n > 1 ==> ts[0] == ts[1];
  }

  lemma IncreasingTail(f: Fates, d: Device, m: Memory, powers: seq<nat>)
    requires powers != [] && Increasing(Emitted(f, d, m, powers))
    ensures Increasing(Emitted(f, d, Boot(f, d, m, powers[0]).memory, powers[1..]))
  {
    var r := Boot(f, d, m, powers[0]);
    var rest := Emitted(f, d, r.memory, powers[1..]);
    if r.emitted.Some? {
      IncreasingCons(r.emitted.value, rest);
    } else {
      assert Emitted(f, d, m, powers) == rest;
    }
  }

  /** Where no torn counter is accepted, one boot counts its save or leaves the counter. */
  lemma UntornBoot(f: Fates, d: Device, m: Memory, power: nat)
    requires Faithful(f) && Reached(m.counters, LastT(m))
    requires BootFate(f, d, m, power).Wrote? ==> BootFate(f, d, m, power).value.lastT == NextT(m)
    ensures var next := Boot(f, d, m, power).memory;
            && LastT(m) <= LastT(next) <= LastT(m) + 1 && LastT(next) <= U32_MAX
            && Reached(next.counters, LastT(next))
  {
    BootAdvances(f, d, m, power, LastT(m));
  }

  /** Then the counter is the number of saves that counted, so no boot starts from the largest one. */
  lemma {:induction false} UntornRun(f: Fates, d: Device, m: Memory, powers: seq<nat>)
    requires Faithful(f) && Reached(m.counters, LastT(m)) && NoTornCounter(f, d, m, powers)
    ensures NoWrap(f, d, m, powers)
    ensures var end := Run(f, d, m, powers);
            LastT(m) <= LastT(end) <= LastT(m) + |powers| && Reached(end.counters, LastT(end))
    decreases |powers|
  {
    if powers != [] {
      UntornBoot(f, d, m, powers[0]);
      UntornRun(f, d, Boot(f, d, m, powers[0]).memory, powers[1..]);
    }
  }

  /** And up to 2^32 boots are safe. */
  lemma {:induction false} FewUntornBootsAreSafe(f: Fates, d: Device, m: Memory, powers: seq<nat>)
    requires Faithful(f) && Reached(m.counters, LastT(m)) && NoTornCounter(f, d, m, powers)
    requires LastT(m) + |powers| <= U32_MAX + 1
    ensures SafeRun(f, d, m, powers)
    decreases |powers|
  {
    if powers != [] {
      UntornBoot(f, d, m, powers[0]);
      LimitIsReached(m.counters, LastT(m));
      FewUntornBootsAreSafe(f, d, Boot(f, d, m, powers[0]).memory, powers[1..]);
    }
  }

  lemma RunCons(f: Fates, d: Device, m: Memory, powers: seq<nat>)
    requires powers != []
    ensures var first := Boot(f, d, m, powers[0]);
            && Run(f, d, m, powers) == Run(f, d, first.memory, powers[1..])
            && Emitted(f, d, m, powers) == EmittedBy(first) + Emitted(f, d, first.memory, powers[1..])
  {
  }

  lemma ConsConcat<T>(xs: seq<T>, ys: seq<T>)
    requires xs != []
    ensures (xs + ys)[0] == xs[0] && (xs + ys)[1..] == xs[1..] + ys && xs + ys != []
  {
  }

  lemma {:induction false} RunConcat(f: Fates, d: Device, m: Memory, xs: seq<nat>, ys: seq<nat>)
    ensures Run(f, d, m, xs + ys) == Run(f, d, Run(f, d, m, xs), ys)
    decreases |xs|
  {
    if xs == [] {
      assert xs + ys == ys;
    } else {
      var zs, next := xs + ys, Boot(f, d, m, xs[0]).memory;
      ConsConcat(xs, ys);
      RunConcat(f, d, next, xs[1..], ys);
      assert Run(f, d, m, zs) == Run(f, d, next, zs[1..]);
    }
  }

  lemma {:induction false} EmittedConcat(f: Fates, d: Device, m: Memory, xs: seq<nat>, ys: seq<nat>)
    ensures Emitted(f, d, m, xs + ys) == Emitted(f, d, m, xs) + Emitted(f, d, Run(f, d, m, xs), ys)
    decreases |xs|
  {
    if xs == [] {
      assert xs + ys == ys;
    } else {
      var zs, first := xs + ys, Boot(f, d, m, xs[0]);
      ConsConcat(xs, ys);
      EmittedConcat(f, d, first.memory, xs[1..], ys);
      assert Emitted(f, d, m, zs) == EmittedBy(first) + Emitted(f, d, first.memory, zs[1..]);
      Associative(EmittedBy(first), Emitted(f, d, first.memory, xs[1..]), Emitted(f, d, Run(f, d, m, xs), ys));
    }
  }

  lemma EmittedThen(f: Fates, d: Device, m: Memory, xs: seq<nat>, ys: seq<nat>, ts: seq<u64>, tail: seq<u64>)
    requires Emitted(f, d, m, xs) == ts && Emitted(f, d, Run(f, d, m, xs), ys) == tail
    ensures Emitted(f, d, m, xs + ys) == ts + tail
  {
    EmittedConcat(f, d, m, xs, ys);
  }

  lemma Associative<T>(xs: seq<T>, ys: seq<T>, zs: seq<T>)
    ensures (xs + ys) + zs == xs + (ys + zs)
  {
  }

  // ---- Boots with all the power they need ----

  /** A receipt that is kept and read back, and then marked, at every distance from the sequence limit. */
  lemma KeepCompletes(f: Fates, m: Memory, receipt: PersistedReceipt, t: u64, power: nat, commits: nat)
    requires Faithful(f) && Reached(m.receipts, commits) && power >= 2 * FULL && !receipt.consumed
    ensures var (after, ending) := Keep(f, m, receipt, t, power);
            && ending == (if && (commits < U32_MAX || Load(m.receipts) == Some(receipt))
                             && Load(m.counters).Some? && LastT(m) == t then CONSUMED else FAILED)
            && (ending == CONSUMED ==> Load(after.receipts) == Some(receipt.(consumed := commits + 1 < U32_MAX)))
            && (ending == CONSUMED ==> Reached(after.receipts, Lesser(commits + 2, U32_MAX)))
  {
    var marked := receipt.(consumed := true);
    ReachedStep(m.receipts, commits, Wrote(receipt));
    ReachedStep(After(m.receipts, Wrote(receipt)), Lesser(commits + 1, U32_MAX), Wrote(marked));
  }

  function Lesser(x: nat, y: nat): nat {
    if x <= y then x else y
  }

  /**
   * A boot that is not cut reaches the end exactly while both stores have a sequence number
   * left (or the receipt store already holds this very receipt). The consumption it reports is
   * durable exactly while the receipt store has two: with fewer, success stands over a receipt
   * that still loads as unconsumed.
   */
  lemma CompleteBoot(f: Fates, d: Device, m: Memory, power: nat, receipts: nat, counters: nat)
    requires Faithful(f) && power >= 3 * FULL
    requires Reached(m.receipts, receipts) && Reached(m.counters, counters)
    requires d.encodes(NextT(m)) && !d.receiptFor(NextT(m)).consumed
    ensures var r, receipt := Boot(f, d, m, power), d.receiptFor(NextT(m));
            && r.emitted == Some(NextT(m))
            && r.ending == (if counters < U32_MAX && (receipts < U32_MAX || Load(m.receipts) == Some(receipt))
                            then CONSUMED else FAILED)
            && (r.ending == CONSUMED ==>
                  && LastT(r.memory) == NextT(m) && Reached(r.memory.counters, counters + 1)
                  && Load(r.memory.receipts) == Some(receipt.(consumed := receipts + 1 < U32_MAX))
                  && Reached(r.memory.receipts, Lesser(receipts + 2, U32_MAX)))
  {
    ReachedStep(m.counters, counters, Wrote(PersistedCounter(d.seedId, NextT(m))));
    KeepCompletes(f, CounterSaved(f, d, m, power), d.receiptFor(NextT(m)), NextT(m), Rest(power), receipts);
  }

  /** A counter whose field the QR encoder refuses: the boot halts with it spent and the receipts untouched. */
  lemma RefusedBoot(f: Fates, d: Device, m: Memory, power: nat, counters: nat)
    requires Faithful(f) && power >= FULL && !d.encodes(NextT(m))
    requires Reached(m.counters, counters) && counters < U32_MAX
    ensures var r := Boot(f, d, m, power);
            && r.ending == FAILED && r.emitted == Some(NextT(m))
            && LastT(r.memory) == NextT(m) && r.memory.receipts == m.receipts
  {
    ReachedStep(m.counters, counters, Wrote(PersistedCounter(d.seedId, NextT(m))));
  }

  function Numbers(from: nat, n: nat): (ts: seq<nat>)
    ensures |ts| == n
  {
    seq(n, i requires 0 <= i < n => from + i)
  }

  /** One uncut boot with a number left on both sides. */
  lemma UncutStep(f: Fates, d: Device, m: Memory, commits: nat)
    requires Faithful(f) && Reached(m.counters, commits) && commits < U32_MAX && LastT(m) < U64_MAX
    ensures var r := Boot(f, d, m, 3 * FULL);
            EmittedBy(r) == [LastT(m) + 1] && LastT(r.memory) == LastT(m) + 1 && Reached(r.memory.counters, commits + 1)
  {
    BootAdvances(f, d, m, 3 * FULL, commits);
  }

  /** The supplies of `n` uncut boots. */
  function Uncut(n: nat): (powers: seq<nat>)
    ensures |powers| == n
  {
    seq(n, _ => 3 * FULL)
  }

  lemma UncutCons(n: nat)
    requires n > 0
    ensures Uncut(n)[0] == 3 * FULL && Uncut(n)[1..] == Uncut(n - 1)
  {
  }

  lemma NumbersCons(from: nat, n: nat)
    requires n > 0
    ensures [from] + Numbers(from + 1, n - 1) == Numbers(from, n)
  {
  }

  /** A run that starts with one boot. */
  lemma RunWithHead(f: Fates, d: Device, m: Memory, powers: seq<nat>, power: nat, rest: seq<nat>, t: u64, ts: seq<u64>)
    requires powers != [] && powers[0] == power && powers[1..] == rest
    requires var r := Boot(f, d, m, power); EmittedBy(r) == [t] && Emitted(f, d, r.memory, rest) == ts
    ensures Run(f, d, m, powers) == Run(f, d, Boot(f, d, m, power).memory, rest)
    ensures Emitted(f, d, m, powers) == [t] + ts
  {
    RunCons(f, d, m, powers);
  }

  /** Uncut boots emit one counter after the other. */
  lemma {:induction false} UncutBoots(f: Fates, d: Device, m: Memory, n: nat, commits: nat)
    requires Faithful(f) && Reached(m.counters, commits) && commits + n <= U32_MAX
    requires LastT(m) + n <= U64_MAX
    ensures var end := Run(f, d, m, Uncut(n));
            LastT(end) == LastT(m) + n && Reached(end.counters, commits + n)
    ensures Emitted(f, d, m, Uncut(n)) == Numbers(LastT(m) + 1, n)
    decreases n
  {
    if n > 0 {
      var next, t := Boot(f, d, m, 3 * FULL).memory, LastT(m) + 1;
      UncutStep(f, d, m, commits);
      UncutBoots(f, d, next, n - 1, commits + 1);
      UncutCons(n);
      RunWithHead(f, d, m, Uncut(n), 3 * FULL, Uncut(n - 1), t, Numbers(t + 1, n - 1));
      NumbersCons(t, n);
    }
  }

  /** After 2^32 - 1 uncut boots of a new device, every further boot that emits, cut or not, emits 2^32. */
  lemma RunsOut(f: Fates, d: Device, m: Memory, more: seq<nat>)
    requires Faithful(f) && Reached(m.counters, 0) && LastT(m) == 0
    ensures Emitted(f, d, m, Uncut(U32_MAX) + more) == Numbers(1, U32_MAX) + Repeat(0x1_0000_0000, Emitting(more))
  {
    UncutBoots(f, d, m, U32_MAX, 0);
    var end := Run(f, d, m, Uncut(U32_MAX));
    StalledRun(f, d, end, more);
    EmittedThen(f, d, m, Uncut(U32_MAX), more, Numbers(1, U32_MAX), Repeat(NextT(end), Emitting(more)));
  }
}
