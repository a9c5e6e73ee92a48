/** Whole runs of non-overlapping receiver calls: single use, fresh counters, and drift. */
module ReceiverRuns {
  import opened Bytes
  import opened Types
  import opened Derivation
  import opened Encoder
  import opened Protocol
  import opened Payer
  import opened Quotients
  import opened Receiver

  /** A call, with the clock reading it meets where that matters. */
  datatype Call =
    | RegisterCall(sid: SeedId, seed: Seed)
    | GenerateCall(sid: SeedId, amountCents: u64, now: u64)
    | ValidateCall(sid: SeedId, counter: u64, presented: seq<byte>)

  predicate GoodMode(mode: Mode) {
    mode.Quantized? ==> mode.windowSeconds > 0
  }

  function Step(mac: Mac, mode: Mode, s: State, c: Call): State
    requires GoodMode(mode)
  {
    match c
    case RegisterCall(sid, seed) => Register(s, sid, seed)
    case GenerateCall(sid, amount, now) => Generate(mac, mode, now, s, sid, amount).0
    case ValidateCall(sid, t, presented) => ValidateReceipt(s, sid, t, presented).0
  }

  function Run(mac: Mac, mode: Mode, s: State, calls: seq<Call>): State
    requires GoodMode(mode)
    decreases |calls|
  {
    if calls == [] then s else Run(mac, mode, Step(mac, mode, s, calls[0]), calls[1..])
  }

  const START: State := State(Store(map[], map[]), map[])

  lemma {:induction false} RunConcat(mac: Mac, mode: Mode, s: State, xs: seq<Call>, ys: seq<Call>)
    requires GoodMode(mode)
    ensures Run(mac, mode, s, xs + ys) == Run(mac, mode, Run(mac, mode, s, xs), ys)
    decreases |xs|
  {
    if xs == [] {
      assert xs + ys == ys;
    } else {
      RunConcat(mac, mode, Step(mac, mode, s, xs[0]), xs[1..], ys);
      assert (xs + ys)[1..] == xs[1..] + ys;
    }
  }

  lemma RunSnoc(mac: Mac, mode: Mode, s: State, calls: seq<Call>)
    requires GoodMode(mode) && calls != []
    ensures var last := |calls| - 1;
            Run(mac, mode, s, calls) == Step(mac, mode, Run(mac, mode, s, calls[..last]), calls[last])
  {
    var last := |calls| - 1;
    RunConcat(mac, mode, s, calls[..last], [calls[last]]);
    assert calls[..last] + [calls[last]] == calls;
  }

  /** Every receipt sits under its own key, at or below the last counter issued to its identifier. */
  predicate Inv(s: State) {
    forall k :: k in s.store.receipts ==>
      && s.store.receipts[k].seedId == k.seedId && s.store.receipts[k].counter == k.counter
      && k.seedId in s.issued && k.counter <= s.issued[k.seedId]
  }

  /** The counter makes the key of every new receipt fresh. */
  lemma IssuedKeyIsFresh(mode: Mode, s: State, sid: SeedId, now: u64)
    requires GoodMode(mode) && Inv(s)
    requires NextCounter(mode, s.issued, sid, now).Ok?
    ensures var t := NextCounter(mode, s.issued, sid, now).value;
            (sid in s.issued ==> t > s.issued[sid]) && Key(sid, t) !in s.store.receipts
  {
  }

  lemma StepKeepsInv(mac: Mac, mode: Mode, s: State, c: Call)
    requires GoodMode(mode) && Inv(s)
    ensures Inv(Step(mac, mode, s, c))
  {
    if c.GenerateCall? && c.sid in s.store.seeds && NextCounter(mode, s.issued, c.sid, c.now).Ok? {
      IssuedKeyIsFresh(mode, s, c.sid, c.now);
    }
  }

  lemma {:induction false} RunKeepsInv(mac: Mac, mode: Mode, s: State, calls: seq<Call>)
    requires GoodMode(mode) && Inv(s)
    ensures Inv(Run(mac, mode, s, calls))
    decreases |calls|
  {
    if calls != [] {
      StepKeepsInv(mac, mode, s, calls[0]);
      RunKeepsInv(mac, mode, Step(mac, mode, s, calls[0]), calls[1..]);
    }
  }

  predicate Consumed(s: State, k: Key) {
    k in s.store.receipts && s.store.receipts[k].consumed
  }

  /** A consumed receipt never becomes unconsumed. */
  lemma {:induction false} ConsumedStays(mac: Mac, mode: Mode, s: State, calls: seq<Call>, k: Key)
    requires GoodMode(mode) && Inv(s) && Consumed(s, k)
    ensures Consumed(Run(mac, mode, s, calls), k)
    decreases |calls|
  {
    if calls != [] {
      var c := calls[0];
      StepKeepsInv(mac, mode, s, c);
      if c.GenerateCall? && c.sid in s.store.seeds && NextCounter(mode, s.issued, c.sid, c.now).Ok? {
        IssuedKeyIsFresh(mode, s, c.sid, c.now);
      }
      ConsumedStays(mac, mode, Step(mac, mode, s, c), calls[1..], k);
    }
  }

  /** Call `i` of a run validates `k`, and the verdict is Valid. */
  predicate ValidAt(mac: Mac, mode: Mode, calls: seq<Call>, i: nat, k: Key)
    requires GoodMode(mode) && i < |calls|
  {
    && calls[i].ValidateCall? && Key(calls[i].sid, calls[i].counter) == k
    && ValidateReceipt(Run(mac, mode, START, calls[..i]), k.seedId, k.counter, calls[i].presented).1 == Ok(Valid)
  }

  /** Single use: over any run, each charge is Valid at most once. */
  lemma SingleUse(mac: Mac, mode: Mode, calls: seq<Call>, i: nat, j: nat, k: Key)
    requires GoodMode(mode) && i < j < |calls|
    requires ValidAt(mac, mode, calls, i, k)
    ensures !ValidAt(mac, mode, calls, j, k)
    ensures calls[j].ValidateCall? && Key(calls[j].sid, calls[j].counter) == k && ParseC2(calls[j].presented).Ok? ==>
              ValidateReceipt(Run(mac, mode, START, calls[..j]), k.seedId, k.counter, calls[j].presented).1
              == Ok(Replay)
  {
    var before := Run(mac, mode, START, calls[..i]);
    RunKeepsInv(mac, mode, START, calls[..i]);
    var after := Step(mac, mode, before, calls[i]);
    StepKeepsInv(mac, mode, before, calls[i]);
    var between := calls[i + 1..j];
    RunConcat(mac, mode, START, calls[..i], [calls[i]] + between);
    assert calls[..j] == calls[..i] + ([calls[i]] + between);
    assert ([calls[i]] + between)[1..] == between;
    ConsumedStays(mac, mode, after, between, k);
  }

  /** A well-formed code other than the retained one is a Mismatch, and leaves the receipt as payable as it was. */
  lemma MistypedCode(s: State, sid: SeedId, counter: u64, presented: seq<byte>)
    requires |presented| == CODE_LEN && AllAlphanumeric(presented)
    requires var k := Key(sid, counter);
             && k in s.store.receipts && !s.store.receipts[k].consumed && presented != s.store.receipts[k].expectedC2
    ensures ValidateReceipt(s, sid, counter, presented) == (s, Ok(Mismatch))
  {
  }

  /**
   * From issue to consumption: the charge and the retained receipt carry the identifier, the
   * counter and the amount asked for; the bank's answer to the charge is the retained code,
   * and is Valid once, then Replay.
   */
  lemma EndToEnd(mac: Mac, mode: Mode, s: State, bank: Bank, sid: SeedId, amount: u64, now: u64)
    requires GoodMode(mode) && sid in s.store.seeds && sid in bank && bank[sid] == s.store.seeds[sid]
    requires Generate(mac, mode, now, s, sid, amount).1.Ok?
    ensures var (issuedState, charge) := Generate(mac, mode, now, s, sid, amount);
            var t := charge.value.counter;
            && charge.value.seedId == sid && charge.value.amountCents == amount
            && Key(sid, t) in issuedState.store.receipts
            && var kept := issuedState.store.receipts[Key(sid, t)];
            && kept.seedId == sid && kept.counter == t && kept.amountCents == amount && !kept.consumed
            && var paid := ProcessPayment(mac, bank, charge.value.transportField, amount, t);
            && paid == Ok(PaymentReceipt(sid, t, amount, kept.expectedC2))
            && var (usedState, verdict) := ValidateReceipt(issuedState, sid, t, paid.value.identifier);
            && verdict == Ok(Valid)
            && ValidateReceipt(usedState, sid, t, paid.value.identifier) == (usedState, Ok(Replay))
  {
    var t := NextCounter(mode, s.issued, sid, now).value;
    Substitution(mac, bank, s.store.seeds[sid], sid, t, amount, amount);
  }

  // ---- Drift ----

  /** The receiver tries the bank's candidates in order and stops at the first that is Valid. */
  function TryInOrder(s: State, sid: SeedId, cs: seq<Candidate>): (State, Option<nat>)
    decreases |cs|
  {
    if cs == [] then (s, None)
    else
      var (next, verdict) := ValidateReceipt(s, sid, cs[0].counter, cs[0].identifier);
      if verdict == Ok(Valid) then (next, Some(0))
      else
        match TryInOrder(next, sid, cs[1..])
        case (last, None) => (last, None)
        case (last, Some(i)) => (last, Some(i + 1))
  }

  /** A candidate opens a receipt: there is one under its counter, not consumed, that expects its identifier. */
  predicate Opens(s: State, sid: SeedId, c: Candidate) {
    var k := Key(sid, c.counter);
    && AllAlphanumeric(c.identifier) && k in s.store.receipts
    && !s.store.receipts[k].consumed && s.store.receipts[k].expectedC2 == c.identifier
  }

  predicate NoneOpens(s: State, sid: SeedId, cs: seq<Candidate>) {
    forall j :: 0 <= j < |cs| ==> !Opens(s, sid, cs[j])
  }

  function Consume(s: State, k: Key): State
    requires k in s.store.receipts
  {
    s.(store := s.store.(receipts := s.store.receipts[k := s.store.receipts[k].(consumed := true)]))
  }

  /** One try: Valid exactly when the candidate opens a receipt, which it consumes; any other answer changes nothing. */
  lemma TryIs(s: State, sid: SeedId, c: Candidate)
    ensures var (next, verdict) := ValidateReceipt(s, sid, c.counter, c.identifier);
            if Opens(s, sid, c) then verdict == Ok(Valid) && next == Consume(s, Key(sid, c.counter))
            else verdict != Ok(Valid) && next == s
  {
  }

  lemma NoneOpensCons(s: State, sid: SeedId, cs: seq<Candidate>, n: nat)
    requires n < |cs| && !Opens(s, sid, cs[0]) && NoneOpens(s, sid, cs[1..][..n])
    ensures NoneOpens(s, sid, cs[..n + 1])
  {
    assert cs[..n + 1] == [cs[0]] + cs[1..][..n];
  }

  /** Misses change nothing, and the first candidate that opens a receipt consumes exactly that receipt. */
  lemma {:induction false} FirstThatOpens(s: State, sid: SeedId, cs: seq<Candidate>)
    ensures match TryInOrder(s, sid, cs)
            case (last, None) => last == s && NoneOpens(s, sid, cs)
            case (last, Some(i)) =>
              && i < |cs| && Opens(s, sid, cs[i]) && NoneOpens(s, sid, cs[..i])
              && last == Consume(s, Key(sid, cs[i].counter))
    decreases |cs|
  {
    if cs != [] {
      TryIs(s, sid, cs[0]);
      if !Opens(s, sid, cs[0]) {
        FirstThatOpens(s, sid, cs[1..]);
        var hit := TryInOrder(s, sid, cs[1..]).1;
        var n := if hit.Some? then hit.value else |cs| - 1;
        assert cs[1..][..|cs| - 1] == cs[1..] && cs[..|cs|] == cs;
        NoneOpensCons(s, sid, cs, n);
      }
    }
  }

  /** A candidate that opens its receipt is the one that succeeds exactly when no earlier one opens a receipt. */
  lemma HitIff(s: State, sid: SeedId, cs: seq<Candidate>, i: nat)
    requires i < |cs| && Opens(s, sid, cs[i])
    ensures var hit := TryInOrder(s, sid, cs).1;
            hit.Some? && hit.value <= i && (hit == Some(i) <==> NoneOpens(s, sid, cs[..i]))
  {
    FirstThatOpens(s, sid, cs);
    var hit := TryInOrder(s, sid, cs).1;
    if hit.Some? {
      Prefix(cs, i, hit.value);
    }
  }

  lemma Prefix<T>(xs: seq<T>, i: nat, j: nat)
    requires i < |xs| && j < |xs|
    ensures i < j ==> xs[..j][i] == xs[i]
    ensures j < i ==> xs[..i][j] == xs[j]
  {
  }

  /** Candidates of consecutive counters from `lo`, the one of an issued counter `t` among them. */
  predicate Issued(s: State, sid: SeedId, cs: seq<Candidate>, lo: u64, t: u64) {
    && lo <= t < lo + |cs| && (forall j :: 0 <= j < |cs| ==> cs[j].counter == lo + j)
    && Opens(s, sid, cs[t - lo])
  }

  /** Trying them in order succeeds, and consumes the receipt of `t` exactly when no earlier candidate opens one. */
  lemma IssuedHit(s: State, sid: SeedId, cs: seq<Candidate>, lo: u64, t: u64)
    requires Issued(s, sid, cs, lo, t)
    ensures var (last, hit) := TryInOrder(s, sid, cs);
            && hit.Some? && hit.value <= t - lo
            && (Consumed(last, Key(sid, t)) <==> NoneOpens(s, sid, cs[..t - lo]))
  {
    HitIff(s, sid, cs, t - lo);
    FirstThatOpens(s, sid, cs);
  }

  lemma IssuedCandidate(mac: Mac, s: State, sid: SeedId, seed: Seed, amount: u64, t: u64, lo: u64, n: nat)
    requires lo <= t < lo + n <= U64_MAX + 1
    requires Key(sid, t) in s.store.receipts && s.store.receipts[Key(sid, t)] == ReceiptFor(mac, seed, sid, t, amount)
    ensures Issued(s, sid, Candidates(mac, seed, DeriveC1(mac, seed, t), lo, n), lo, t)
  {
    DerivedIsAlphanumeric(mac, seed, t, DeriveC1(mac, seed, t));
  }

  /** What it takes for the candidate of another counter to open a receipt: two digests that share 55 bits. */
  lemma EarlierHitIff(mac: Mac, s: State, sid: SeedId, seed: Seed, c1: Code, u: u64, other: Seed, amount: u64)
    requires Key(sid, u) in s.store.receipts && s.store.receipts[Key(sid, u)] == ReceiptFor(mac, other, sid, u, amount)
    ensures Opens(s, sid, Candidate(u, RecoverC2(mac, seed, u, c1))) <==>
            Stream(mac(seed, DOMAIN_C2 + ToBE(u, 8) + c1))[..55] ==
            Stream(mac(other, DOMAIN_C2 + ToBE(u, 8) + DeriveC1(mac, other, u)))[..55]
  {
    DerivedIsAlphanumeric(mac, seed, u, c1);
    SameEncodingIff(
      mac(seed, DOMAIN_C2 + ToBE(u, 8) + c1), mac(other, DOMAIN_C2 + ToBE(u, 8) + DeriveC1(mac, other, u)), CODE_LEN);
  }

  /**
   * Drift tolerance: with clocks at most `k` windows apart, the bank's candidates, tried in
   * order, consume a receipt; and they consume the one that was issued exactly when no earlier
   * candidate opens another receipt.
   */
  lemma DriftTolerance(
    mac: Mac, s: State, sid: SeedId, seed: Seed, amount: u64,
    receiverClock: u64, bankClock: u64, w: u64, k: u32, t: u64, lo: u64, hi: u64)
    requires w > 0 && receiverClock <= bankClock + k * w && bankClock <= receiverClock + k * w
    requires t == receiverClock / w
    requires lo == Max(0, bankClock / w - k) && hi == Min(U64_MAX, bankClock / w + k)
    requires Key(sid, t) in s.store.receipts && s.store.receipts[Key(sid, t)] == ReceiptFor(mac, seed, sid, t, amount)
    ensures lo <= t <= hi
    ensures var cs := Candidates(mac, seed, DeriveC1(mac, seed, t), lo, hi - lo + 1);
            var (last, hit) := TryInOrder(s, sid, cs);
            && hit.Some? && hit.value <= t - lo
            && (Consumed(last, Key(sid, t)) <==> NoneOpens(s, sid, cs[..t - lo]))
  {
    DriftCovered(receiverClock, bankClock, w, k);
    IssuedCandidate(mac, s, sid, seed, amount, t, lo, hi - lo + 1);
    IssuedHit(s, sid, Candidates(mac, seed, DeriveC1(mac, seed, t), lo, hi - lo + 1), lo, t);
  }

  /** Trying the candidates succeeds at `t` or before, and consumes `t` exactly when no earlier one opens a receipt. */
  predicate Reaches(s: State, sid: SeedId, cs: seq<Candidate>, t: u64) {
    var (last, hit) := TryInOrder(s, sid, cs);
    && hit.Some? && hit.value < |cs| && cs[hit.value].counter <= t
    && (Consumed(last, Key(sid, t)) <==> forall j :: 0 <= j < |cs| && cs[j].counter < t ==> !Opens(s, sid, cs[j]))
  }

  lemma IssuedReaches(s: State, sid: SeedId, cs: seq<Candidate>, lo: u64, t: u64)
    requires Issued(s, sid, cs, lo, t)
    ensures Reaches(s, sid, cs, t)
  {
    IssuedHit(s, sid, cs, lo, t);
    FirstThatOpens(s, sid, cs);
    Earlier(s, sid, cs, lo, t);
  }

  /** The same from end to end: the receiver generates the charge and the bank answers it, each on its own clock. */
  lemma DriftEndToEnd(
    mac: Mac, s: State, bank: Bank, sid: SeedId, amount: u64,
    receiverClock: u64, bankClock: u64, w: u64, k: u32, quantum: u64)
    requires w > 0 && receiverClock <= bankClock + k * w && bankClock <= receiverClock + k * w
    requires quantum == bankClock / w && sid in s.store.seeds && sid in bank && bank[sid] == s.store.seeds[sid]
    requires Generate(mac, Quantized(w), receiverClock, s, sid, amount).1.Ok?
    ensures var (after, charge) := Generate(mac, Quantized(w), receiverClock, s, sid, amount);
            && charge.value.counter == receiverClock / w
            && var paid := Windowed(mac, bank, charge.value.transportField, amount, quantum, k);
            && paid.Ok? && Reaches(after, sid, paid.value.candidates, charge.value.counter)
  {
    var seed, t := s.store.seeds[sid], NextCounter(Quantized(w), s.issued, sid, receiverClock).value;
    var after := Generate(mac, Quantized(w), receiverClock, s, sid, amount).0;
    var lo: u64, hi: u64 := Max(0, quantum - k), Min(U64_MAX, quantum + k);
    var cs := Candidates(mac, seed, DeriveC1(mac, seed, t), lo, hi - lo + 1);
    DriftCovered(receiverClock, bankClock, w, k);
    WindowedOwnCharge(mac, bank, seed, sid, t, amount, quantum, k, lo, hi);
    IssuedCandidate(mac, after, sid, seed, amount, t, lo, hi - lo + 1);
    IssuedReaches(after, sid, cs, lo, t);
  }

  lemma Earlier(s: State, sid: SeedId, cs: seq<Candidate>, lo: u64, t: u64)
    requires lo <= t < lo + |cs| && forall j :: 0 <= j < |cs| ==> cs[j].counter == lo + j
    ensures NoneOpens(s, sid, cs[..t - lo]) <==>
            forall j :: 0 <= j < |cs| && cs[j].counter < t ==> !Opens(s, sid, cs[j])
  {
    if NoneOpens(s, sid, cs[..t - lo]) {
      forall j | 0 <= j < |cs| && cs[j].counter < t ensures !Opens(s, sid, cs[j]) {
        assert cs[..t - lo][j] == cs[j];
      }
    }
  }

  // ---- Rate ----

  /** The counter that a call issues to `sid`, if it does. */
  function IssuedBy(mac: Mac, mode: Mode, s: State, c: Call, sid: SeedId): Option<u64>
    requires GoodMode(mode)
  {
    if !(c.GenerateCall? && c.sid == sid) then None
    else
      match Generate(mac, mode, c.now, s, sid, c.amountCents).1
      case Ok(charge) => Some(charge.counter)
      case Err(_) => None
  }

  /** Counters issued to `sid` along a run, in order. */
  function IssuedTo(mac: Mac, mode: Mode, s: State, calls: seq<Call>, sid: SeedId): seq<u64>
    requires GoodMode(mode)
    decreases |calls|
  {
    if calls == [] then []
    else
      var rest := IssuedTo(mac, mode, Step(mac, mode, s, calls[0]), calls[1..], sid);
      match IssuedBy(mac, mode, s, calls[0], sid)
      case None => rest
      case Some(t) => [t] + rest
  }

  lemma IssuedIsLast(mac: Mac, mode: Mode, s: State, c: Call, sid: SeedId)
    requires GoodMode(mode)
    ensures var next, t := Step(mac, mode, s, c), IssuedBy(mac, mode, s, c, sid);
            if t.Some? then
              && sid in next.issued && next.issued[sid] == t.value && (sid in s.issued ==> t.value > s.issued[sid])
              && Generate(mac, mode, c.now, s, sid, c.amountCents).1 ==
                 Ok(ChargeFor(mac, s.store.seeds[sid], sid, t.value, c.amountCents))
            else
              (sid in next.issued <==> sid in s.issued) && (sid in s.issued ==> next.issued[sid] == s.issued[sid])
  {
  }

  /** Counters issued to one identifier strictly increase, in either mode and however the clock moves. */
  lemma {:induction false} IssuedIncreasing(mac: Mac, mode: Mode, s: State, calls: seq<Call>, sid: SeedId)
    requires GoodMode(mode)
    ensures Increasing(IssuedTo(mac, mode, s, calls, sid))
    ensures sid in s.issued ==> AllAbove(IssuedTo(mac, mode, s, calls, sid), s.issued[sid])
    decreases |calls|
  {
    if calls != [] {
      IssuedIncreasing(mac, mode, Step(mac, mode, s, calls[0]), calls[1..], sid);
      IssuedIsLast(mac, mode, s, calls[0], sid);
    }
  }

  predicate ClockWithin(calls: seq<Call>, t0: u64, t1: u64) {
    forall i :: 0 <= i < |calls| && calls[i].GenerateCall? ==> t0 <= calls[i].now <= t1
  }

  lemma {:induction false} IssuedWithin(mac: Mac, w: u64, s: State, calls: seq<Call>, sid: SeedId, t0: u64, t1: u64)
    requires w > 0 && ClockWithin(calls, t0, t1)
    ensures forall t :: t in IssuedTo(mac, Quantized(w), s, calls, sid) ==> t0 / w <= t <= t1 / w
    decreases |calls|
  {
    if calls != [] {
      var c := calls[0];
      IssuedWithin(mac, w, Step(mac, Quantized(w), s, c), calls[1..], sid, t0, t1);
      if c.GenerateCall? {
        QuotientMonotone(t0, c.now, w);
        QuotientMonotone(c.now, t1, w);
      }
    }
  }

  lemma QuotientMonotone(x: nat, y: nat, w: nat)
    requires w > 0 && x <= y
    ensures x / w <= y / w
  {
    QuotientsClose(x, y, w, y - x);
  }

  lemma {:induction false} IncreasingCount(ts: seq<u64>, lo: int, hi: int)
    requires Increasing(ts) && forall t :: t in ts ==> lo <= t <= hi
    ensures ts != [] ==> |ts| <= hi - lo + 1
  {
    if |ts| > 1 {
      var last: int := ts[|ts| - 1];
      assert ts[|ts| - 1] in ts;
      var front := ts[..|ts| - 1];
      forall t | t in front ensures lo <= t <= last - 1 {
        var i :| 0 <= i < |front| && front[i] == t;
        assert ts[i] == t && ts[i] in ts && ts[i] < ts[|ts| - 1];
      }
      IncreasingCount(front, lo, last - 1);
    } else if |ts| == 1 {
      assert ts[0] in ts;
    }
  }

  /** At most one charge a window: while the clock reads between t0 and t1, t1/w - t0/w + 1 charges at most. */
  lemma RateLimit(mac: Mac, w: u64, s: State, calls: seq<Call>, sid: SeedId, t0: u64, t1: u64)
    requires w > 0 && t0 <= t1 && ClockWithin(calls, t0, t1)
    ensures |IssuedTo(mac, Quantized(w), s, calls, sid)| <= t1 / w - t0 / w + 1
  {
    IssuedIncreasing(mac, Quantized(w), s, calls, sid);
    IssuedWithin(mac, w, s, calls, sid, t0, t1);
    IncreasingCount(IssuedTo(mac, Quantized(w), s, calls, sid), t0 / w, t1 / w);
    QuotientMonotone(t0, t1, w);
  }
}
