/** The receiver: its in-memory store, its two counters, and the three calls composed from them. */
module Receiver {
  import opened Bytes
  import opened Types
  import opened Derivation
  import opened Protocol
  import opened Quotients

  // ---- State, as values ----

  datatype Key = Key(seedId: SeedId, counter: u64)

  type Issued = map<SeedId, u64>

  datatype Store = Store(seeds: map<SeedId, Seed>, receipts: map<Key, RetainedReceipt>)

  datatype Mode = Sequential | Quantized(windowSeconds: u64)

  function LastSequential(issued: Issued, sid: SeedId): u64 {
    if sid in issued then issued[sid] else 0
  }

  /** What `next` answers, given the clock reading (which only the quantised mode looks at). */
  function NextCounter(mode: Mode, issued: Issued, sid: SeedId, now: u64): Result<u64, McpixError>
    requires mode.Quantized? ==> mode.windowSeconds > 0
  {
    match mode
    case Sequential =>
      if LastSequential(issued, sid) == U64_MAX then Err(CounterOverflow) else Ok(LastSequential(issued, sid) + 1)
    case Quantized(w) =>
      Division(now, w);
      var t: u64 := now / w;
      if sid !in issued || t > issued[sid] then Ok(t)
      else if t == issued[sid] then Err(CounterCollision(w))
      else Err(CounterRollback(issued[sid], t))
  }

  // ---- InMemorySeedStore ----

  class InMemorySeedStore {
    var seeds: map<SeedId, Seed>
    var receipts: map<Key, RetainedReceipt>

    constructor ()
      ensures seeds == map[] && receipts == map[]
    {
      seeds, receipts := map[], map[];
    }

    ghost function View(): Store
      reads this
    {
      Store(seeds, receipts)
    }

    method PutSeed(sid: SeedId, seed: Seed)
      modifies this`seeds
      ensures seeds == old(seeds)[sid := seed]
    {
      seeds := seeds[sid := seed];
    }

    method GetSeed(sid: SeedId) returns (r: Option<Seed>)
      ensures r == if sid in seeds then Some(seeds[sid]) else None
    {
      return if sid in seeds then Some(seeds[sid]) else None;
    }

    method SaveReceipt(receipt: RetainedReceipt)
      modifies this`receipts
      ensures receipts == old(receipts)[Key(receipt.seedId, receipt.counter) := receipt]
    {
      receipts := receipts[Key(receipt.seedId, receipt.counter) := receipt];
    }

    method GetReceipt(sid: SeedId, counter: u64) returns (r: Option<RetainedReceipt>)
      ensures r == if Key(sid, counter) in receipts then Some(receipts[Key(sid, counter)]) else None
    {
      return if Key(sid, counter) in receipts then Some(receipts[Key(sid, counter)]) else None;
    }

    method MarkConsumed(sid: SeedId, counter: u64) returns (r: Result<(), McpixError>)
      modifies this`receipts
      ensures var key := Key(sid, counter);
              if key in old(receipts) then
                r == Ok(()) && receipts == old(receipts)[key := old(receipts)[key].(consumed := true)]
              else
                r == Err(NoRetainedReceipt) && receipts == old(receipts)
    {
      var key := Key(sid, counter);
      if key !in receipts {
        return Err(NoRetainedReceipt);
      }
      receipts := receipts[key := receipts[key].(consumed := true)];
      return Ok(());
    }
  }

  // ---- Counters ----

  class InMemoryCounter {
    var inner: Issued

    constructor ()
      ensures inner == map[]
    {
      inner := map[];
    }

    /** Never goes back: the slot becomes the larger of what it was and what was restored. */
    method RestoreLastIssued(sid: SeedId, lastT: u64)
      modifies this
      ensures inner == old(inner)[sid := Max(LastSequential(old(inner), sid), lastT)]
    {
      if sid !in inner {
        inner := inner[sid := 0];
      }
      if lastT > inner[sid] {
        inner := inner[sid := lastT];
      }
    }

    method Next(sid: SeedId) returns (r: Result<u64, McpixError>)
      modifies this
      ensures r == NextCounter(Sequential, old(inner), sid, 0)
      ensures inner == if r.Ok? then old(inner)[sid := r.value] else old(inner)
    {
      if sid !in inner {
        inner := inner[sid := 0];
      }
      if inner[sid] == U64_MAX {
        return Err(CounterOverflow);
      }
      var next: u64 := inner[sid] + 1;
      inner := inner[sid := next];
      return Ok(next);
    }
  }

  class Clock {
    var now: u64

    constructor (now: u64)
      ensures this.now == now
    {
      this.now := now;
    }
  }

  class TimestampQuantizedCounter {
    const windowSeconds: u64
    const clock: Clock
    var lastIssued: Issued

    constructor (clock: Clock, windowSeconds: u64)
      requires windowSeconds > 0
      ensures this.clock == clock && this.windowSeconds == windowSeconds && lastIssued == map[]
    {
      this.clock, this.windowSeconds, lastIssued := clock, windowSeconds, map[];
    }

    method Next(sid: SeedId) returns (r: Result<u64, McpixError>)
      requires windowSeconds > 0
      modifies this
      ensures r == NextCounter(Quantized(windowSeconds), old(lastIssued), sid, clock.now)
      ensures lastIssued == if r.Ok? then old(lastIssued)[sid := r.value] else old(lastIssued)
    {
      Division(clock.now, windowSeconds);
      var t: u64 := clock.now / windowSeconds;
      if sid !in lastIssued {
        lastIssued := lastIssued[sid := t];
        return Ok(t);
      } else if t > lastIssued[sid] {
        lastIssued := lastIssued[sid := t];
        return Ok(t);
      } else if t == lastIssued[sid] {
        return Err(CounterCollision(windowSeconds));
      } else {
        return Err(CounterRollback(lastIssued[sid], t));
      }
    }
  }

  // ---- ReceiverSdk ----

  datatype State = State(store: Store, issued: Issued)

  function Register(s: State, sid: SeedId, seed: Seed): State {
    s.(store := s.store.(seeds := s.store.seeds[sid := seed]))
  }

  function Generate(mac: Mac, mode: Mode, now: u64, s: State, sid: SeedId, amountCents: u64)
    : (State, Result<Charge, McpixError>)
    requires mode.Quantized? ==> mode.windowSeconds > 0
  {
    if sid !in s.store.seeds then (s, Err(UnknownSeed))
    else
      match NextCounter(mode, s.issued, sid, now)
      case Err(e) => (s, Err(e))
      case Ok(t) =>
        var seed := s.store.seeds[sid];
        var receipts := s.store.receipts[Key(sid, t) := ReceiptFor(mac, seed, sid, t, amountCents)];
        (State(s.store.(receipts := receipts), s.issued[sid := t]), Ok(ChargeFor(mac, seed, sid, t, amountCents)))
  }

  function ValidateReceipt(s: State, sid: SeedId, counter: u64, presented: seq<byte>)
    : (State, Result<Outcome, McpixError>)
  {
    match ParseC2(presented)
    case Err(e) => (s, Err(e))
    case Ok(c2) =>
      var key := Key(sid, counter);
      if key !in s.store.receipts then (s, Err(NoRetainedReceipt))
      else
        var retained := s.store.receipts[key];
        var outcome := Validate(retained, c2);
        if outcome == Valid then
          (s.(store := s.store.(receipts := s.store.receipts[key := retained.(consumed := true)])), Ok(outcome))
        else
          (s, Ok(outcome))
  }

  /** The injected counter: one of the two implementations. */
  datatype Counter =
    | SequentialCounter(seqCounter: InMemoryCounter)
    | QuantizedCounter(quantized: TimestampQuantizedCounter)

  class ReceiverSdk {
    const mac: Mac
    const store: InMemorySeedStore
    const counter: Counter

    constructor (mac: Mac, store: InMemorySeedStore, counter: Counter)
      ensures this.mac == mac && this.store == store && this.counter == counter
    {
      this.mac, this.store, this.counter := mac, store, counter;
    }

    function CounterRepr(): set<object> {
      match counter
      case SequentialCounter(c) => {c}
      case QuantizedCounter(c) => {c}
    }

    ghost predicate Valid() {
      counter.QuantizedCounter? ==> counter.quantized.windowSeconds > 0
    }

    ghost function View(): State
      reads store, CounterRepr()
    {
      State(store.View(), match counter case SequentialCounter(c) => c.inner case QuantizedCounter(c) => c.lastIssued)
    }

    function CounterMode(): Mode {
      match counter
      case SequentialCounter(_) => Sequential
      case QuantizedCounter(c) => Quantized(c.windowSeconds)
    }

    ghost function Now(): u64
      reads if counter.QuantizedCounter? then {counter.quantized.clock} else {}
    {
      match counter
      case SequentialCounter(_) => 0
      case QuantizedCounter(c) => c.clock.now
    }

    /** The random bytes of the new seed come from outside. */
    method RegisterSeed(sid: SeedId, randomBytes: Seed)
      modifies store
      ensures View() == Register(old(View()), sid, randomBytes)
    {
      store.PutSeed(sid, randomBytes);
    }

    method GenerateCharge(sid: SeedId, amountCents: u64) returns (r: Result<Charge, McpixError>)
      requires Valid()
      modifies store, CounterRepr()
      ensures (View(), r) == Generate(mac, CounterMode(), Now(), old(View()), sid, amountCents)
    {
      var seed := store.GetSeed(sid);
      if seed.None? {
        return Err(UnknownSeed);
      }
      var next: Result<u64, McpixError>;
      match counter {
        case SequentialCounter(c) => next := c.Next(sid);
        case QuantizedCounter(c) => next := c.Next(sid);
      }
      if next.Err? {
        return Err(next.error);
      }
      store.SaveReceipt(ReceiptFor(mac, seed.value, sid, next.value, amountCents));
      return Ok(ChargeFor(mac, seed.value, sid, next.value, amountCents));
    }

    method ValidateCode(sid: SeedId, t: u64, presented: seq<byte>) returns (r: Result<Outcome, McpixError>)
      modifies store
      ensures (View(), r) == ValidateReceipt(old(View()), sid, t, presented)
    {
      var parsed := ParseC2(presented);
      if parsed.Err? {
        return Err(parsed.error);
      }
      var retained := store.GetReceipt(sid, t);
      if retained.None? {
        return Err(NoRetainedReceipt);
      }
      var outcome := Validate(retained.value, parsed.value);
      if outcome == Outcome.Valid {
        // The key was read above, so this call cannot report a missing receipt.
        var marked := store.MarkConsumed(sid, t);
        assert marked.Ok?;
      }
      return Ok(outcome);
    }
  }
}
