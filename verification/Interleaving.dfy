/**
 * Concurrent generate_charge calls: the store and the counter lock separately, so a call is
 * three atomic steps and any number of threads may interleave them, with registrations,
 * consumption marks and clock movements in between.
 */
module Interleaving {
  import opened Bytes
  import opened Types
  import opened Derivation
  import opened Protocol
  import opened Receiver

  type Thread = nat

  datatype Phase =
    | Idle
    | SeedRead(sid: SeedId, amountCents: u64, seed: Seed)
    | CounterTaken(sid: SeedId, amountCents: u64, seed: Seed, t: u64)

  datatype Return = Return(charge: Charge, seed: Seed)

  /** The shared state, every thread's progress, and the history of what was done. */
  datatype System = System(
    store: Store,
    issued: Issued,
    threads: map<Thread, Phase>,
    taken: seq<Key>,
    written: seq<Key>,
    returned: seq<Return>
  )

  datatype Action =
    | ReadSeed(thread: Thread, sid: SeedId, amountCents: u64)
    | TakeCounter(thread: Thread, now: u64)
    | WriteReceipt(thread: Thread)
    | PutSeed(sid: SeedId, seed: Seed)
    | Consume(key: Key)

  const INIT: System := System(Store(map[], map[]), map[], map[], [], [], [])

  function PhaseOf(s: System, th: Thread): Phase {
    if th in s.threads then s.threads[th] else Idle
  }

  function Perform(mac: Mac, mode: Mode, s: System, a: Action): System
    requires mode.Quantized? ==> mode.windowSeconds > 0
  {
    match a
    case ReadSeed(th, sid, amount) =>
      if PhaseOf(s, th).Idle? && sid in s.store.seeds
      then s.(threads := s.threads[th := SeedRead(sid, amount, s.store.seeds[sid])])
      else s
    case TakeCounter(th, now) =>
      (match PhaseOf(s, th)
       case SeedRead(sid, amount, seed) =>
         (match NextCounter(mode, s.issued, sid, now)
          case Err(_) => s.(threads := s.threads[th := Idle])
          case Ok(t) =>
            s.(issued := s.issued[sid := t],
               threads := s.threads[th := CounterTaken(sid, amount, seed, t)],
               taken := s.taken + [Key(sid, t)]))
       case _ => s)
    case WriteReceipt(th) =>
      (match PhaseOf(s, th)
       case CounterTaken(sid, amount, seed, t) =>
         s.(store := s.store.(receipts := s.store.receipts[Key(sid, t) := ReceiptFor(mac, seed, sid, t, amount)]),
            threads := s.threads[th := Idle],
            written := s.written + [Key(sid, t)],
            returned := s.returned + [Return(ChargeFor(mac, seed, sid, t, amount), seed)])
       case _ => s)
    case PutSeed(sid, seed) => s.(store := s.store.(seeds := s.store.seeds[sid := seed]))
    case Consume(k) =>
      if k in s.store.receipts
      then s.(store := s.store.(receipts := s.store.receipts[k := s.store.receipts[k].(consumed := true)]))
      else s
  }

  function Interleave(mac: Mac, mode: Mode, s: System, actions: seq<Action>): System
    requires mode.Quantized? ==> mode.windowSeconds > 0
    decreases |actions|
  {
    if actions == [] then s else Interleave(mac, mode, Perform(mac, mode, s, actions[0]), actions[1..])
  }

  // ---- What every interleaving keeps ----

  /** Counters taken for one identifier strictly increase, up to the last one issued. */
  predicate TakenIncreases(s: System) {
    && (forall i, j :: 0 <= i < j < |s.taken| && s.taken[i].seedId == s.taken[j].seedId ==>
          s.taken[i].counter < s.taken[j].counter)
    && forall i :: 0 <= i < |s.taken| ==>
         s.taken[i].seedId in s.issued && s.taken[i].counter <= s.issued[s.taken[i].seedId]
  }

  predicate Holding(s: System, th: Thread, k: Key) {
    PhaseOf(s, th).CounterTaken? && Key(PhaseOf(s, th).sid, PhaseOf(s, th).t) == k
  }

  /** A taken counter is in one pair of hands, and nobody has written its receipt yet. */
  ghost predicate HandsAreDisjoint(s: System) {
    && (forall th, k :: Holding(s, th, k) ==> k in s.taken && k !in s.written)
    && forall th, other, k :: Holding(s, th, k) && Holding(s, other, k) ==> th == other
  }

  predicate Distinct(ks: seq<Key>) {
    forall i, j :: 0 <= i < j < |ks| ==> ks[i] != ks[j]
  }

  /** Receipts are written once each, under counters that were taken. */
  ghost predicate WrittenOnce(s: System) {
    && Distinct(s.written)
    && (forall k :: k in s.written ==> k in s.taken)
    && forall k :: k in s.store.receipts <==> k in s.written
  }

  /** A returned charge is the one its seed derives, and its own receipt expects its C2. */
  predicate OwnReceipt(mac: Mac, s: System, r: Return, k: Key) {
    && k == Key(r.charge.seedId, r.charge.counter)
    && r.charge == ChargeFor(mac, r.seed, k.seedId, k.counter, r.charge.amountCents)
    && k in s.store.receipts
    && s.store.receipts[k].(consumed := false) == ReceiptFor(mac, r.seed, k.seedId, k.counter, r.charge.amountCents)
  }

  predicate ReturnsBacked(mac: Mac, s: System) {
    |s.returned| == |s.written| && forall i :: 0 <= i < |s.returned| ==> OwnReceipt(mac, s, s.returned[i], s.written[i])
  }

  ghost predicate Inv(mac: Mac, s: System) {
    TakenIncreases(s) && HandsAreDisjoint(s) && WrittenOnce(s) && ReturnsBacked(mac, s)
  }

  lemma TakeIsFresh(mode: Mode, s: System, sid: SeedId, now: u64)
    requires mode.Quantized? ==> mode.windowSeconds > 0
    requires TakenIncreases(s) && NextCounter(mode, s.issued, sid, now).Ok?
    ensures Key(sid, NextCounter(mode, s.issued, sid, now).value) !in s.taken
    ensures sid in s.issued ==> NextCounter(mode, s.issued, sid, now).value > s.issued[sid]
  {
  }

  lemma TakeKeeps(mac: Mac, mode: Mode, s: System, th: Thread, now: u64)
    requires mode.Quantized? ==> mode.windowSeconds > 0
    requires Inv(mac, s)
    ensures Inv(mac, Perform(mac, mode, s, TakeCounter(th, now)))
  {
    var p := PhaseOf(s, th);
    var next := Perform(mac, mode, s, TakeCounter(th, now));
    if p.SeedRead? && NextCounter(mode, s.issued, p.sid, now).Ok? {
      TakeIsFresh(mode, s, p.sid, now);
      var mine := Key(p.sid, NextCounter(mode, s.issued, p.sid, now).value);
      assert next.taken == s.taken + [mine];
      forall o, k | Holding(next, o, k) ensures if o == th then k == mine else Holding(s, o, k) && k != mine {
        if o != th {
          assert PhaseOf(next, o) == PhaseOf(s, o);
          assert Holding(s, o, k) && k in s.taken;
        }
      }
      assert mine !in s.written;
    } else {
      assert forall o, k :: Holding(next, o, k) ==> Holding(s, o, k);
    }
  }

  /** The written receipt is its charge's own, and the earlier ones are still there. */
  lemma WriteBacks(mac: Mac, mode: Mode, s: System, th: Thread)
    requires mode.Quantized? ==> mode.windowSeconds > 0
    requires PhaseOf(s, th).CounterTaken? && ReturnsBacked(mac, s)
    requires Key(PhaseOf(s, th).sid, PhaseOf(s, th).t) !in s.written
    ensures ReturnsBacked(mac, Perform(mac, mode, s, WriteReceipt(th)))
  {
    var next := Perform(mac, mode, s, WriteReceipt(th));
    forall i | 0 <= i < |next.returned| ensures OwnReceipt(mac, next, next.returned[i], next.written[i]) {
      if i < |s.returned| {
        assert OwnReceipt(mac, s, s.returned[i], s.written[i]) && s.written[i] in s.written;
      }
    }
  }

  lemma WriteKeeps(mac: Mac, mode: Mode, s: System, th: Thread)
    requires mode.Quantized? ==> mode.windowSeconds > 0
    requires Inv(mac, s)
    ensures Inv(mac, Perform(mac, mode, s, WriteReceipt(th)))
  {
    var p := PhaseOf(s, th);
    var next := Perform(mac, mode, s, WriteReceipt(th));
    if p.CounterTaken? {
      var mine := Key(p.sid, p.t);
      assert Holding(s, th, mine);
      assert next.written == s.written + [mine];
      forall o, k | Holding(next, o, k) ensures Holding(s, o, k) && o != th && k != mine {
        assert Holding(s, o, k);
        assert Holding(s, o, mine) ==> o == th;
      }
      WriteBacks(mac, mode, s, th);
    }
  }

  /** What a state keeps that holds the same counters, and the same receipts but for their flags. */
  lemma SameHistoryKeeps(mac: Mac, s: System, next: System)
    requires Inv(mac, s)
    requires next.taken == s.taken && next.written == s.written && next.returned == s.returned
    requires next.issued == s.issued
    requires forall o, k :: Holding(next, o, k) ==> Holding(s, o, k)
    requires next.store.receipts.Keys == s.store.receipts.Keys
    requires forall k :: k in s.store.receipts ==>
               next.store.receipts[k].(consumed := false) == s.store.receipts[k].(consumed := false)
    ensures Inv(mac, next)
  {
    forall i | 0 <= i < |next.returned| ensures OwnReceipt(mac, next, next.returned[i], next.written[i]) {
      assert OwnReceipt(mac, s, s.returned[i], s.written[i]);
    }
  }

  lemma OthersChangeLittle(mac: Mac, mode: Mode, s: System, a: Action)
    requires mode.Quantized? ==> mode.windowSeconds > 0
    requires !a.TakeCounter? && !a.WriteReceipt?
    ensures var next := Perform(mac, mode, s, a);
            && (forall o, k :: Holding(next, o, k) ==> Holding(s, o, k))
            && next.store.receipts.Keys == s.store.receipts.Keys
            && forall k :: k in s.store.receipts ==>
                 next.store.receipts[k].(consumed := false) == s.store.receipts[k].(consumed := false)
  {
  }

  lemma OthersKeep(mac: Mac, mode: Mode, s: System, a: Action)
    requires mode.Quantized? ==> mode.windowSeconds > 0
    requires Inv(mac, s) && !a.TakeCounter? && !a.WriteReceipt?
    ensures Inv(mac, Perform(mac, mode, s, a))
  {
    OthersChangeLittle(mac, mode, s, a);
    SameHistoryKeeps(mac, s, Perform(mac, mode, s, a));
  }

  lemma {:induction false} InterleavingKeeps(mac: Mac, mode: Mode, s: System, actions: seq<Action>)
    requires mode.Quantized? ==> mode.windowSeconds > 0
    requires Inv(mac, s)
    ensures Inv(mac, Interleave(mac, mode, s, actions))
    decreases |actions|
  {
    if actions != [] {
      match actions[0] {
        case TakeCounter(th, now) => TakeKeeps(mac, mode, s, th, now);
        case WriteReceipt(th) => WriteKeeps(mac, mode, s, th);
        case _ => OthersKeep(mac, mode, s, actions[0]);
      }
      InterleavingKeeps(mac, mode, Perform(mac, mode, s, actions[0]), actions[1..]);
    }
  }

  /**
   * Under every interleaving, in either counter mode and however the clock moves: counters
   * taken per identifier strictly increase, no receipt key is written twice, and every
   * returned charge has its own receipt with the C2 of the seed that its call read.
   */
  lemma ConcurrentCharges(mac: Mac, mode: Mode, actions: seq<Action>)
    requires mode.Quantized? ==> mode.windowSeconds > 0
    ensures var s := Interleave(mac, mode, INIT, actions);
            TakenIncreases(s) && Distinct(s.written) && ReturnsBacked(mac, s)
  {
    InterleavingKeeps(mac, mode, INIT, actions);
  }

  // ---- A call that nobody disturbs ----

  lemma InterleaveThree(mac: Mac, mode: Mode, s: System, a: Action, b: Action, c: Action)
    requires mode.Quantized? ==> mode.windowSeconds > 0
    ensures Interleave(mac, mode, s, [a, b, c]) ==
            Perform(mac, mode, Perform(mac, mode, Perform(mac, mode, s, a), b), c)
  {
    var first := Perform(mac, mode, s, a);
    var second := Perform(mac, mode, first, b);
    assert [a, b, c][1..] == [b, c] && [b, c][1..] == [c] && [c][1..] == [];
    assert Interleave(mac, mode, second, [c]) == Perform(mac, mode, second, c);
    assert Interleave(mac, mode, first, [b, c]) == Interleave(mac, mode, second, [c]);
  }

  /** Where the three steps of an idle thread lead when the counter answers `t`. */
  lemma AloneIssues(
    mac: Mac, mode: Mode, s: System, th: Thread, sid: SeedId, amountCents: u64, now: u64, seed: Seed, t: u64)
    requires mode.Quantized? ==> mode.windowSeconds > 0
    requires PhaseOf(s, th).Idle? && sid in s.store.seeds && s.store.seeds[sid] == seed
    requires NextCounter(mode, s.issued, sid, now) == Ok(t)
    ensures var first := Perform(mac, mode, s, ReadSeed(th, sid, amountCents));
            var second := Perform(mac, mode, first, TakeCounter(th, now));
            && PhaseOf(first, th) == SeedRead(sid, amountCents, seed)
            && PhaseOf(second, th) == CounterTaken(sid, amountCents, seed, t)
            && second.store == s.store && second.issued == s.issued[sid := t] && second.returned == s.returned
            && (forall o :: o != th ==> PhaseOf(second, o) == PhaseOf(s, o))
  {
  }

  lemma AloneWrites(mac: Mac, mode: Mode, s: System, th: Thread, sid: SeedId, amountCents: u64, seed: Seed, t: u64)
    requires mode.Quantized? ==> mode.windowSeconds > 0
    requires PhaseOf(s, th) == CounterTaken(sid, amountCents, seed, t)
    ensures var end := Perform(mac, mode, s, WriteReceipt(th));
            && PhaseOf(end, th).Idle? && (forall o :: o != th ==> PhaseOf(end, o) == PhaseOf(s, o))
            && end.issued == s.issued && end.store.seeds == s.store.seeds
            && end.store.receipts == s.store.receipts[Key(sid, t) := ReceiptFor(mac, seed, sid, t, amountCents)]
            && end.returned == s.returned + [Return(ChargeFor(mac, seed, sid, t, amountCents), seed)]
  {
  }

  /** And where they lead when the call is refused: nowhere. */
  lemma AloneRefused(mac: Mac, mode: Mode, s: System, th: Thread, sid: SeedId, amountCents: u64, now: u64)
    requires mode.Quantized? ==> mode.windowSeconds > 0
    requires PhaseOf(s, th).Idle? && (sid !in s.store.seeds || NextCounter(mode, s.issued, sid, now).Err?)
    ensures var first := Perform(mac, mode, s, ReadSeed(th, sid, amountCents));
            var second := Perform(mac, mode, first, TakeCounter(th, now));
            && Perform(mac, mode, second, WriteReceipt(th)) == second
            && second.store == s.store && second.issued == s.issued && second.returned == s.returned
            && forall o :: PhaseOf(second, o) == PhaseOf(s, o)
  {
  }

  /** The three steps of an idle thread, taken alone, are the sequential call: same state, same answer. */
  lemma AloneIsSequential(mac: Mac, mode: Mode, s: System, th: Thread, sid: SeedId, amountCents: u64, now: u64)
    requires mode.Quantized? ==> mode.windowSeconds > 0
    requires PhaseOf(s, th).Idle?
    ensures var steps := [ReadSeed(th, sid, amountCents), TakeCounter(th, now), WriteReceipt(th)];
            var end := Interleave(mac, mode, s, steps);
            var (after, answer) := Generate(mac, mode, now, State(s.store, s.issued), sid, amountCents);
            && State(end.store, end.issued) == after
            && (forall o :: PhaseOf(end, o) == PhaseOf(s, o))
            && (answer.Err? ==> end.returned == s.returned)
            && (answer.Ok? ==> end.returned == s.returned + [Return(answer.value, s.store.seeds[sid])])
  {
    InterleaveThree(mac, mode, s, ReadSeed(th, sid, amountCents), TakeCounter(th, now), WriteReceipt(th));
    if sid in s.store.seeds && NextCounter(mode, s.issued, sid, now).Ok? {
      var seed, t := s.store.seeds[sid], NextCounter(mode, s.issued, sid, now).value;
      AloneIssues(mac, mode, s, th, sid, amountCents, now, seed, t);
      var first := Perform(mac, mode, s, ReadSeed(th, sid, amountCents));
      AloneWrites(mac, mode, Perform(mac, mode, first, TakeCounter(th, now)), th, sid, amountCents, seed, t);
    } else {
      AloneRefused(mac, mode, s, th, sid, amountCents, now);
    }
  }
}
