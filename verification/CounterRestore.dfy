/** Restoring a sequential receiver from a sealed backup: its counter never goes back. */
module CounterRestore {
  import opened Bytes
  import opened Types
  import opened BackupFormat
  import opened Backup
  import opened Derivation
  import opened Protocol
  import opened Payer
  import opened ReceiverRuns
  import opened ReceiverVerdicts
  import R = Receiver

  datatype RestoreFailure = BadBackup(error: BackupError) | QuantizedBackup

  /** The receiver that a restored state makes: only sequential backups have one. */
  function RestoredReceiver(s: ReceiverState): Option<R.State> {
    if s.counterMode != Sequential then None
    else Some(R.State(R.Store(map[s.seedId := s.seed], map[]), map[s.seedId := s.counterT]))
  }

  method FromSealedBackup(c: Crypto, mac: Mac, text: seq<byte>, passphrase: seq<byte>)
    returns (r: Result<R.ReceiverSdk, RestoreFailure>)
    ensures match Imported(c, text, passphrase)
            case Err(e) => r == Err(BadBackup(e))
            case Ok(s) =>
              match RestoredReceiver(s)
              case None => r == Err(QuantizedBackup)
              case Some(state) =>
                && r.Ok? && r.value.Valid() && r.value.mac == mac && r.value.CounterMode() == R.Sequential
                && r.value.View() == state
    ensures r.Ok? ==> fresh(r.value) && fresh(r.value.store) && fresh(r.value.CounterRepr())
  {
    var imported := Import(c, text, passphrase);
    if imported.Err? {
      return Err(BadBackup(imported.error));
    }
    var restored := imported.value;
    if restored.counterMode != Sequential {
      return Err(QuantizedBackup);
    }
    var store := new R.InMemorySeedStore();
    store.PutSeed(restored.seedId, restored.seed);
    var counter := new R.InMemoryCounter();
    counter.RestoreLastIssued(restored.seedId, restored.counterT);
    var sdk := new R.ReceiverSdk(mac, store, R.SequentialCounter(counter));
    assert sdk.View().issued == map[restored.seedId := restored.counterT];
    return Ok(sdk);
  }

  /**
   * What the restored receiver can do: the backed-up identifier goes on with the counter after
   * the backed-up one, on the backed-up seed, unless there is none; no other identifier is
   * known, and no earlier charge can be validated any more.
   */
  lemma RestoredGoesOn(mac: Mac, s: ReceiverState, now: u64, amount: u64)
    ensures RestoredReceiver(s).Some? <==> s.counterMode == Sequential
    ensures s.counterMode == Sequential ==>
              && R.Generate(mac, R.Sequential, now, RestoredReceiver(s).value, s.seedId, amount).1 ==
                 (if s.counterT < U64_MAX then Ok(ChargeFor(mac, s.seed, s.seedId, s.counterT + 1, amount))
                  else Err(CounterOverflow))
              && (forall sid: SeedId :: sid != s.seedId ==>
                    R.Generate(mac, R.Sequential, now, RestoredReceiver(s).value, sid, amount).1 == Err(UnknownSeed))
              && (forall sid, t, code :: ParseC2(code).Ok? ==>
                    R.ValidateReceipt(RestoredReceiver(s).value, sid, t, code).1 == Err(NoRetainedReceipt))
  {
  }

  // ---- One counter, restored and advanced in any order ----

  datatype CounterEvent = Restore(sid: SeedId, lastT: u64) | Issue(sid: SeedId)

  function RestoreIssued(issued: R.Issued, sid: SeedId, lastT: u64): R.Issued {
    issued[sid := Max(R.LastSequential(issued, sid), lastT)]
  }

  function CounterStep(issued: R.Issued, e: CounterEvent): (R.Issued, Option<u64>) {
    match e
    case Restore(sid, lastT) => (RestoreIssued(issued, sid, lastT), None)
    case Issue(sid) =>
      match R.NextCounter(R.Sequential, issued, sid, 0)
      case Err(_) => (issued, None)
      case Ok(t) => (issued[sid := t], Some(t))
  }

  function CounterRun(issued: R.Issued, es: seq<CounterEvent>): R.Issued
    decreases |es|
  {
    if es == [] then issued else CounterRun(CounterStep(issued, es[0]).0, es[1..])
  }

  /** What is issued to one identifier, in order. */
  function IssuedIn(issued: R.Issued, es: seq<CounterEvent>, sid: SeedId): seq<u64>
    decreases |es|
  {
    if es == [] then []
    else
      var (next, t) := CounterStep(issued, es[0]);
      (if es[0] == Issue(sid) && t.Some? then [t.value] else []) + IssuedIn(next, es[1..], sid)
  }

  /** A restore takes the larger of the two counters, and the next issue is exactly the one after it. */
  lemma RestoreThenIssue(issued: R.Issued, sid: SeedId, lastT: u64)
    ensures var (restored, none) := CounterStep(issued, Restore(sid, lastT));
            var last := Max(R.LastSequential(issued, sid), lastT);
            && none.None? && sid in restored && restored[sid] == last
            && CounterStep(restored, Issue(sid)).1 == (if last < U64_MAX then Some(last + 1) else None)
            && forall other :: other != sid ==> R.LastSequential(restored, other) == R.LastSequential(issued, other)
  {
  }

  /**
   * Any order and repetition of restores and issues: what is issued strictly increases, and
   * exceeds whatever was issued or restored before.
   */
  lemma {:induction false} RestoresNeverGoBack(issued: R.Issued, es: seq<CounterEvent>, sid: SeedId)
    ensures Increasing(IssuedIn(issued, es, sid))
    ensures AllAbove(IssuedIn(issued, es, sid), R.LastSequential(issued, sid))
    ensures R.LastSequential(issued, sid) <= R.LastSequential(CounterRun(issued, es), sid)
    decreases |es|
  {
    if es != [] {
      RestoresNeverGoBack(CounterStep(issued, es[0]).0, es[1..], sid);
    }
  }

  /** At the largest counter every further issue is refused; nothing ever wraps. */
  lemma {:induction false} ExhaustedStays(issued: R.Issued, es: seq<CounterEvent>, sid: SeedId)
    requires R.LastSequential(issued, sid) == U64_MAX
    ensures IssuedIn(issued, es, sid) == []
    ensures R.NextCounter(R.Sequential, CounterRun(issued, es), sid, 0) == Err(CounterOverflow)
    decreases |es|
  {
    if es != [] {
      ExhaustedStays(CounterStep(issued, es[0]).0, es[1..], sid);
    }
  }

  // ---- From one device to the next ----

  /** Nothing issued along a run exceeds the last counter at its end. */
  lemma {:induction false} IssuedUpToLast(mac: Mac, s: R.State, calls: seq<Call>, sid: SeedId)
    ensures var last := R.LastSequential(Run(mac, R.Sequential, s, calls).issued, sid);
            && R.LastSequential(s.issued, sid) <= last
            && forall i :: 0 <= i < |IssuedTo(mac, R.Sequential, s, calls, sid)| ==>
                 IssuedTo(mac, R.Sequential, s, calls, sid)[i] <= last
    decreases |calls|
  {
    if calls != [] {
      IssuedUpToLast(mac, Step(mac, R.Sequential, s, calls[0]), calls[1..], sid);
      IssuedIsLast(mac, R.Sequential, s, calls[0], sid);
    }
  }

  lemma IncreasingJoin(xs: seq<u64>, ys: seq<u64>, last: u64)
    requires Increasing(xs) && Increasing(ys) && AllAbove(ys, last) && forall i :: 0 <= i < |xs| ==> xs[i] <= last
    ensures Increasing(xs + ys)
  {
  }

  /**
   * A receiver is exported with its last counter, and restored from the text: the counters that
   * the old device issued up to the export, followed by all that the new one ever issues,
   * strictly increase.
   */
  lemma RestoredContinuesAbove(
    c: Crypto, mac: Mac, before: seq<Call>, sid: SeedId, seed: Seed,
    passphrase: seq<byte>, p: KdfParams, salt: Salt, nonce: Nonce, after: seq<Call>)
    requires Inverts(c)
    requires var t := R.LastSequential(Run(mac, R.Sequential, START, before).issued, sid);
             Blob(c, ReceiverState(seed, sid, Sequential, t), passphrase, p, salt, nonce).Ok?
    ensures var t := R.LastSequential(Run(mac, R.Sequential, START, before).issued, sid);
            var blob := Blob(c, ReceiverState(seed, sid, Sequential, t), passphrase, p, salt, nonce).value;
            var text := c.encodeText(blob);
            var imported := Imported(c, text, passphrase);
            && imported.Ok? && RestoredReceiver(imported.value).Some?
            && Increasing(IssuedTo(mac, R.Sequential, START, before, sid)
                          + IssuedTo(mac, R.Sequential, RestoredReceiver(imported.value).value, after, sid))
  {
    var t := R.LastSequential(Run(mac, R.Sequential, START, before).issued, sid);
    var state := ReceiverState(seed, sid, Sequential, t);
    ImportOfExport(c, state, passphrase, p, salt, nonce);
    var restored := RestoredReceiver(state).value;
    IssuedUpToLast(mac, START, before, sid);
    IssuedIncreasing(mac, R.Sequential, START, before, sid);
    IssuedIncreasing(mac, R.Sequential, restored, after, sid);
    IncreasingJoin(
      IssuedTo(mac, R.Sequential, START, before, sid), IssuedTo(mac, R.Sequential, restored, after, sid), t);
  }

  /**
   * The restored receiver issues the very charge that the exporting one would have issued next,
   * and it is payable: a bank with the exporter's seed answers it, and the restored receiver
   * finds the answer Valid.
   */
  lemma RestoredChargeIsPayable(
    c: Crypto, mac: Mac, before: seq<Call>, sid: SeedId, seed: Seed,
    passphrase: seq<byte>, p: KdfParams, salt: Salt, nonce: Nonce, bank: Bank, amount: u64)
    requires Inverts(c) && LastSeed(before, sid) == Some(seed) && sid in bank && bank[sid] == seed
    requires |History(mac, R.Sequential, before, sid)| < U64_MAX
    requires var n := |History(mac, R.Sequential, before, sid)|;
             Blob(c, ReceiverState(seed, sid, Sequential, n), passphrase, p, salt, nonce).Ok?
    ensures var n := |History(mac, R.Sequential, before, sid)|;
            var blob := Blob(c, ReceiverState(seed, sid, Sequential, n), passphrase, p, salt, nonce).value;
            var imported := Imported(c, c.encodeText(blob), passphrase);
            && imported.Ok? && RestoredReceiver(imported.value).Some?
            && var (after, charge) :=
                 R.Generate(mac, R.Sequential, 0, RestoredReceiver(imported.value).value, sid, amount);
            && charge == R.Generate(mac, R.Sequential, 0, Run(mac, R.Sequential, START, before), sid, amount).1
            && charge.Ok? && charge.value.counter == n + 1 && charge.value.amountCents == amount
            && var paid := ProcessPayment(mac, bank, charge.value.transportField, amount, n + 1);
            && paid.Ok?
            && R.ValidateReceipt(after, sid, n + 1, paid.value.identifier).1 == Ok(Valid)
  {
    var n := |History(mac, R.Sequential, before, sid)|;
    var state := ReceiverState(seed, sid, Sequential, n);
    ImportOfExport(c, state, passphrase, p, salt, nonce);
    RestoredGoesOn(mac, state, 0, amount);
    SequentialVerdict(mac, before, sid, amount, 0);
    EndToEnd(mac, R.Sequential, RestoredReceiver(state).value, bank, sid, amount, 0);
  }

  /** The backup's documented limit: if the old device goes on issuing, both issue the same next charge. */
  lemma ForkReuses(mac: Mac, s: R.State, sid: SeedId, seed: Seed, amount: u64)
    requires R.LastSequential(s.issued, sid) < U64_MAX
    ensures var t := R.LastSequential(s.issued, sid);
            var restored := RestoredReceiver(ReceiverState(seed, sid, Sequential, t)).value;
            && R.NextCounter(R.Sequential, s.issued, sid, 0) ==
               R.NextCounter(R.Sequential, restored.issued, sid, 0) == Ok(t + 1)
            && (sid in s.store.seeds && s.store.seeds[sid] == seed ==>
                  R.Generate(mac, R.Sequential, 0, s, sid, amount).1 ==
                  R.Generate(mac, R.Sequential, 0, restored, sid, amount).1 ==
                  Ok(ChargeFor(mac, seed, sid, t + 1, amount)))
  {
  }
}
