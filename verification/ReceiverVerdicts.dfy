/**
 * What a receiver answers, told by its history alone: the calls made since it was new decide
 * every charge it grants or refuses, and every verdict on a presented code.
 */
module ReceiverVerdicts {
  import opened Bytes
  import opened Types
  import opened Derivation
  import opened Protocol
  import opened Payer
  import opened Receiver
  import opened ReceiverRuns

  // ---- What the history says ----

  /** The seed that was registered last for an identifier. */
  function LastSeed(calls: seq<Call>, sid: SeedId): Option<Seed>
    decreases |calls|
  {
    if calls == [] then None
    else
      var last := |calls| - 1;
      if calls[last].RegisterCall? && calls[last].sid == sid then Some(calls[last].seed)
      else LastSeed(calls[..last], sid)
  }

  lemma {:induction false} SeedIsLast(mac: Mac, mode: Mode, calls: seq<Call>, sid: SeedId)
    requires GoodMode(mode)
    ensures var seeds := Run(mac, mode, START, calls).store.seeds;
            LastSeed(calls, sid) == if sid in seeds then Some(seeds[sid]) else None
    decreases |calls|
  {
    if calls != [] {
      RunSnoc(mac, mode, START, calls);
      SeedIsLast(mac, mode, calls[..|calls| - 1], sid);
    }
  }

  /** Every counter issued to `sid` since the receiver was new, in order. */
  function History(mac: Mac, mode: Mode, calls: seq<Call>, sid: SeedId): seq<u64>
    requires GoodMode(mode)
  {
    IssuedTo(mac, mode, START, calls, sid)
  }

  function AsSeq<T>(x: Option<T>): seq<T> {
    match x case None => [] case Some(v) => [v]
  }

  lemma {:induction false} IssuedConcat(
    mac: Mac, mode: Mode, s: State, xs: seq<Call>, ys: seq<Call>, sid: SeedId)
    requires GoodMode(mode)
    ensures IssuedTo(mac, mode, s, xs + ys, sid) ==
            IssuedTo(mac, mode, s, xs, sid) + IssuedTo(mac, mode, Run(mac, mode, s, xs), ys, sid)
    decreases |xs|
  {
    if xs == [] {
      assert xs + ys == ys;
    } else {
      assert (xs + ys)[1..] == xs[1..] + ys;
      IssuedConcat(mac, mode, Step(mac, mode, s, xs[0]), xs[1..], ys, sid);
    }
  }

  lemma HistorySnoc(mac: Mac, mode: Mode, calls: seq<Call>, sid: SeedId)
    requires GoodMode(mode) && calls != []
    ensures var last := |calls| - 1;
            History(mac, mode, calls, sid) ==
            History(mac, mode, calls[..last], sid)
            + AsSeq(IssuedBy(mac, mode, Run(mac, mode, START, calls[..last]), calls[last], sid))
  {
    var last := |calls| - 1;
    assert calls[..last] + [calls[last]] == calls;
    IssuedConcat(mac, mode, START, calls[..last], [calls[last]], sid);
  }

  /** The counter remembers the last one it issued, and nothing before the first. */
  lemma {:induction false} RemembersLast(mac: Mac, mode: Mode, calls: seq<Call>, sid: SeedId)
    requires GoodMode(mode)
    ensures var issued, ts := Run(mac, mode, START, calls).issued, History(mac, mode, calls, sid);
            && (sid in issued <==> ts != [])
            && (ts != [] ==> issued[sid] == ts[|ts| - 1])
    decreases |calls|
  {
    if calls != [] {
      var front := calls[..|calls| - 1];
      RunSnoc(mac, mode, START, calls);
      HistorySnoc(mac, mode, calls, sid);
      RemembersLast(mac, mode, front, sid);
      IssuedIsLast(mac, mode, Run(mac, mode, START, front), calls[|calls| - 1], sid);
    }
  }

  // ---- Charges ----

  lemma LastIsLargest(ts: seq<u64>, t: u64)
    requires Increasing(ts) && ts != []
    ensures (forall i :: 0 <= i < |ts| ==> ts[i] < t) <==> ts[|ts| - 1] < t
  {
  }

  /**
   * The quantised counter, over any run: a charge is granted exactly when the identifier was
   * registered and the clock's quantum exceeds every counter issued to it. It carries that
   * quantum and is derived from the seed registered last. Otherwise the quantum is the last one
   * issued (a collision) or lies before it (a rollback), and nothing changes.
   */
  lemma QuantizedVerdict(mac: Mac, w: u64, calls: seq<Call>, sid: SeedId, amount: u64, now: u64, t: u64)
    requires w > 0 && t == now / w
    ensures var s, ts := Run(mac, Quantized(w), START, calls), History(mac, Quantized(w), calls, sid);
            var (after, answer) := Generate(mac, Quantized(w), now, s, sid, amount);
            && (answer.Err? ==> after == s)
            && match LastSeed(calls, sid)
               case None => answer == Err(UnknownSeed)
               case Some(seed) =>
                 && (answer.Ok? <==> forall i :: 0 <= i < |ts| ==> ts[i] < t)
                 && (answer.Ok? ==> answer == Ok(ChargeFor(mac, seed, sid, t, amount)))
                 && (answer == Err(CounterCollision(w)) <==> ts != [] && t == ts[|ts| - 1])
                 && (ts != [] ==> (answer == Err(CounterRollback(ts[|ts| - 1], t)) <==> t < ts[|ts| - 1]))
  {
    var ts := History(mac, Quantized(w), calls, sid);
    SeedIsLast(mac, Quantized(w), calls, sid);
    RemembersLast(mac, Quantized(w), calls, sid);
    IssuedIncreasing(mac, Quantized(w), START, calls, sid);
    if ts != [] {
      LastIsLargest(ts, t);
    }
  }

  /** Sequential counters are 1, 2, 3 and so on: the last is how many there are. */
  lemma {:induction false} SequentialCounts(mac: Mac, calls: seq<Call>, sid: SeedId)
    ensures |History(mac, Sequential, calls, sid)| == LastSequential(Run(mac, Sequential, START, calls).issued, sid)
    decreases |calls|
  {
    if calls != [] {
      var front := calls[..|calls| - 1];
      RunSnoc(mac, Sequential, START, calls);
      HistorySnoc(mac, Sequential, calls, sid);
      SequentialCounts(mac, front, sid);
    }
  }

  /**
   * The sequential counter, over any run: the next charge of a registered identifier carries
   * one more than the number of charges issued to it, and is derived from the seed registered
   * last; only after 2^64 - 1 of them is it refused.
   */
  lemma SequentialVerdict(mac: Mac, calls: seq<Call>, sid: SeedId, amount: u64, now: u64)
    ensures var s, n := Run(mac, Sequential, START, calls), |History(mac, Sequential, calls, sid)|;
            var (after, answer) := Generate(mac, Sequential, now, s, sid, amount);
            && (answer.Err? ==> after == s)
            && n <= U64_MAX
            && match LastSeed(calls, sid)
               case None => answer == Err(UnknownSeed)
               case Some(seed) =>
                 if n < U64_MAX then answer == Ok(ChargeFor(mac, seed, sid, n + 1, amount))
                 else answer == Err(CounterOverflow)
  {
    SeedIsLast(mac, Sequential, calls, sid);
    SequentialCounts(mac, calls, sid);
  }

  // ---- Receipts ----

  /** Call `g` of a run issues the charge of `k`. */
  predicate IssuedAt(mac: Mac, mode: Mode, calls: seq<Call>, g: nat, k: Key)
    requires GoodMode(mode) && g < |calls|
  {
    IssuedBy(mac, mode, Run(mac, mode, START, calls[..g]), calls[g], k.seedId) == Some(k.counter)
  }

  ghost predicate EverIssued(mac: Mac, mode: Mode, calls: seq<Call>, k: Key)
    requires GoodMode(mode)
  {
    exists g :: 0 <= g < |calls| && IssuedAt(mac, mode, calls, g, k)
  }

  ghost predicate EverValid(mac: Mac, mode: Mode, calls: seq<Call>, k: Key)
    requires GoodMode(mode)
  {
    exists i :: 0 <= i < |calls| && ValidAt(mac, mode, calls, i, k)
  }

  lemma PrefixOfFront<T>(xs: seq<T>, i: nat)
    requires i < |xs|
    ensures xs[..|xs| - 1][..i] == xs[..i]
  {
  }

  lemma EverIssuedSnoc(mac: Mac, mode: Mode, calls: seq<Call>, k: Key)
    requires GoodMode(mode) && calls != []
    ensures var last := |calls| - 1;
            EverIssued(mac, mode, calls, k) <==>
            EverIssued(mac, mode, calls[..last], k) || IssuedAt(mac, mode, calls, last, k)
  {
    var last := |calls| - 1;
    forall g | 0 <= g < last ensures IssuedAt(mac, mode, calls, g, k) <==> IssuedAt(mac, mode, calls[..last], g, k) {
      PrefixOfFront(calls, g);
    }
  }

  lemma EverValidSnoc(mac: Mac, mode: Mode, calls: seq<Call>, k: Key)
    requires GoodMode(mode) && calls != []
    ensures var last := |calls| - 1;
            EverValid(mac, mode, calls, k) <==>
            EverValid(mac, mode, calls[..last], k) || ValidAt(mac, mode, calls, last, k)
  {
    var last := |calls| - 1;
    forall i | 0 <= i < last ensures ValidAt(mac, mode, calls, i, k) <==> ValidAt(mac, mode, calls[..last], i, k) {
      PrefixOfFront(calls, i);
    }
  }

  lemma ReceiptGenerate(mac: Mac, mode: Mode, s: State, c: Call, k: Key)
    requires GoodMode(mode) && Inv(s) && c.GenerateCall?
    ensures var next := Step(mac, mode, s, c);
            && (k in next.store.receipts <==>
                  k in s.store.receipts || IssuedBy(mac, mode, s, c, k.seedId) == Some(k.counter))
            && (k in s.store.receipts ==> next.store.receipts[k] == s.store.receipts[k])
            && (k !in s.store.receipts && k in next.store.receipts ==> !next.store.receipts[k].consumed)
  {
    if c.sid in s.store.seeds && NextCounter(mode, s.issued, c.sid, c.now).Ok? {
      IssuedKeyIsFresh(mode, s, c.sid, c.now);
    }
  }

  /** Call `c`, made in state `s`, finds the code of `k` Valid. */
  predicate Validates(s: State, c: Call, k: Key) {
    && c.ValidateCall? && Key(c.sid, c.counter) == k
    && ValidateReceipt(s, c.sid, c.counter, c.presented).1 == Ok(Valid)
  }

  lemma ReceiptValidate(mac: Mac, mode: Mode, s: State, c: Call, k: Key)
    requires GoodMode(mode) && Inv(s) && c.ValidateCall?
    ensures var next := Step(mac, mode, s, c);
            && (k in next.store.receipts <==> k in s.store.receipts)
            && (k in s.store.receipts ==>
                  next.store.receipts[k].(consumed := false) == s.store.receipts[k].(consumed := false))
            && (Consumed(next, k) <==> Consumed(s, k) || Validates(s, c, k))
  {
  }

  /** One call: what it does to the receipt of one key. */
  lemma ReceiptStep(mac: Mac, mode: Mode, s: State, c: Call, k: Key)
    requires GoodMode(mode) && Inv(s)
    ensures var next := Step(mac, mode, s, c);
            && (k in next.store.receipts <==>
                  k in s.store.receipts || IssuedBy(mac, mode, s, c, k.seedId) == Some(k.counter))
            && (k in s.store.receipts ==>
                  next.store.receipts[k].(consumed := false) == s.store.receipts[k].(consumed := false))
            && (Consumed(next, k) <==> Consumed(s, k) || Validates(s, c, k))
  {
    match c {
      case RegisterCall(_, _) =>
      case GenerateCall(_, _, _) => ReceiptGenerate(mac, mode, s, c, k);
      case ValidateCall(_, _, _) => ReceiptValidate(mac, mode, s, c, k);
    }
  }

  lemma StartIsSound()
    ensures Inv(START)
  {
  }

  lemma SoundAfter(mac: Mac, mode: Mode, calls: seq<Call>)
    requires GoodMode(mode)
    ensures Inv(Run(mac, mode, START, calls))
  {
    StartIsSound();
    RunKeepsInv(mac, mode, START, calls);
  }

  /** A receipt exists exactly for what was issued, and is consumed exactly once some code for it was Valid. */
  lemma {:induction false} ReceiptsAreHistory(mac: Mac, mode: Mode, calls: seq<Call>, k: Key)
    requires GoodMode(mode)
    ensures var s := Run(mac, mode, START, calls);
            && (k in s.store.receipts <==> EverIssued(mac, mode, calls, k))
            && (Consumed(s, k) <==> EverValid(mac, mode, calls, k))
    decreases |calls|
  {
    if calls != [] {
      var last := |calls| - 1;
      var front := calls[..last];
      RunSnoc(mac, mode, START, calls);
      SoundAfter(mac, mode, front);
      ReceiptsAreHistory(mac, mode, front, k);
      ReceiptStep(mac, mode, Run(mac, mode, START, front), calls[last], k);
      EverIssuedSnoc(mac, mode, calls, k);
      EverValidSnoc(mac, mode, calls, k);
    }
  }

  /** The counters issued are those of the calls that issued them. */
  lemma {:induction false} HistoryIff(mac: Mac, mode: Mode, calls: seq<Call>, k: Key)
    requires GoodMode(mode)
    ensures EverIssued(mac, mode, calls, k) <==> k.counter in History(mac, mode, calls, k.seedId)
    decreases |calls|
  {
    if calls != [] {
      HistorySnoc(mac, mode, calls, k.seedId);
      EverIssuedSnoc(mac, mode, calls, k);
      HistoryIff(mac, mode, calls[..|calls| - 1], k);
    }
  }

  /** What a receipt retains never changes. */
  lemma {:induction false} ReceiptStays(mac: Mac, mode: Mode, s: State, calls: seq<Call>, k: Key)
    requires GoodMode(mode) && Inv(s) && k in s.store.receipts
    ensures var end := Run(mac, mode, s, calls);
            && k in end.store.receipts
            && end.store.receipts[k].(consumed := false) == s.store.receipts[k].(consumed := false)
    decreases |calls|
  {
    if calls != [] {
      ReceiptStep(mac, mode, s, calls[0], k);
      StepKeepsInv(mac, mode, s, calls[0]);
      ReceiptStays(mac, mode, Step(mac, mode, s, calls[0]), calls[1..], k);
    }
  }

  /** The state after the issuing call holds the receipt of the seed in force then. */
  lemma IssueRetains(mac: Mac, mode: Mode, calls: seq<Call>, g: nat, k: Key)
    requires GoodMode(mode) && g < |calls| && IssuedAt(mac, mode, calls, g, k)
    ensures LastSeed(calls[..g], k.seedId).Some?
    ensures var seed, s := LastSeed(calls[..g], k.seedId).value, Run(mac, mode, START, calls[..g]);
            var amount, next := calls[g].amountCents, Step(mac, mode, s, calls[g]);
            && Generate(mac, mode, calls[g].now, s, k.seedId, amount).1 ==
               Ok(ChargeFor(mac, seed, k.seedId, k.counter, amount))
            && k in next.store.receipts
            && next.store.receipts[k] == ReceiptFor(mac, seed, k.seedId, k.counter, amount)
  {
    SeedIsLast(mac, mode, calls[..g], k.seedId);
  }

  /** A run, taken apart at one of its calls. */
  lemma RunFrom(mac: Mac, mode: Mode, s: State, calls: seq<Call>, g: nat)
    requires GoodMode(mode) && g < |calls|
    ensures Run(mac, mode, s, calls) ==
            Run(mac, mode, Step(mac, mode, Run(mac, mode, s, calls[..g]), calls[g]), calls[g + 1..])
  {
    var rest := calls[g..];
    assert calls == calls[..g] + rest;
    RunConcat(mac, mode, s, calls[..g], rest);
    assert rest[0] == calls[g] && rest[1..] == calls[g + 1..];
  }

  lemma ReceiptOfIssue(mac: Mac, mode: Mode, calls: seq<Call>, g: nat, k: Key)
    requires GoodMode(mode) && g < |calls| && IssuedAt(mac, mode, calls, g, k)
    ensures LastSeed(calls[..g], k.seedId).Some?
    ensures var seed, s := LastSeed(calls[..g], k.seedId).value, Run(mac, mode, START, calls);
            && k in s.store.receipts
            && s.store.receipts[k].(consumed := false) ==
               ReceiptFor(mac, seed, k.seedId, k.counter, calls[g].amountCents)
  {
    var s := Run(mac, mode, START, calls[..g]);
    IssueRetains(mac, mode, calls, g, k);
    SoundAfter(mac, mode, calls[..g]);
    StepKeepsInv(mac, mode, s, calls[g]);
    ReceiptStays(mac, mode, Step(mac, mode, s, calls[g]), calls[g + 1..], k);
    RunFrom(mac, mode, START, calls, g);
  }

  // ---- Verdicts ----

  /**
   * Any presented bytes, at the end of any run. A code that is not eleven alphanumeric bytes is
   * refused; one for a counter never issued finds no receipt; and of the others the answer is
   * Replay exactly when some earlier call of the run was Valid for that charge. A wrong code
   * therefore leaves the charge payable.
   */
  lemma VerdictKind(mac: Mac, mode: Mode, calls: seq<Call>, k: Key, presented: seq<byte>)
    requires GoodMode(mode)
    ensures var s := Run(mac, mode, START, calls);
            var (after, verdict) := ValidateReceipt(s, k.seedId, k.counter, presented);
            && (verdict != Ok(Valid) ==> after == s)
            && (|presented| != CODE_LEN ==> verdict == Err(TransportFieldLength(|presented|)))
            && (|presented| == CODE_LEN && !AllAlphanumeric(presented) ==> verdict == Err(TransportFieldCharset(0)))
            && (|presented| == CODE_LEN && AllAlphanumeric(presented) ==>
                  && (verdict == Err(NoRetainedReceipt) <==> k.counter !in History(mac, mode, calls, k.seedId))
                  && (verdict == Ok(Replay) <==> EverValid(mac, mode, calls, k))
                  && (verdict.Err? ==> verdict == Err(NoRetainedReceipt)))
  {
    ReceiptsAreHistory(mac, mode, calls, k);
    HistoryIff(mac, mode, calls, k);
  }

  /**
   * And which of Valid and Mismatch it is, for a charge that call `g` issued: until some code
   * was Valid, exactly the identifier that a bank answers to that charge is, if the bank holds
   * the seed the receiver held at call `g`. What either side registered since plays no part.
   */
  lemma VerdictOfIssued(
    mac: Mac, mode: Mode, calls: seq<Call>, g: nat, k: Key, bank: Bank, paid: u64, presented: seq<byte>)
    requires GoodMode(mode) && g < |calls| && IssuedAt(mac, mode, calls, g, k)
    requires k.seedId in bank && LastSeed(calls[..g], k.seedId) == Some(bank[k.seedId])
    requires |presented| == CODE_LEN && AllAlphanumeric(presented)
    ensures var charge := Generate(
                mac, mode, calls[g].now, Run(mac, mode, START, calls[..g]), k.seedId, calls[g].amountCents).1;
            && charge.Ok?
            && var receipt := ProcessPayment(mac, bank, charge.value.transportField, paid, k.counter);
            && receipt.Ok?
            && ValidateReceipt(Run(mac, mode, START, calls), k.seedId, k.counter, presented).1 ==
               Ok(if EverValid(mac, mode, calls, k) then Replay
                  else if presented == receipt.value.identifier then Valid
                  else Mismatch)
  {
    var seed, amount := bank[k.seedId], calls[g].amountCents;
    IssueRetains(mac, mode, calls, g, k);
    ReceiptOfIssue(mac, mode, calls, g, k);
    ReceiptsAreHistory(mac, mode, calls, k);
    Substitution(mac, bank, seed, k.seedId, k.counter, amount, paid);
  }
}
