/**
 * The two-slot discipline, apart from any byte format: which slot a save overwrites, which
 * slot a load returns, and what whole runs of saves keep when any of them may be cut short.
 */
module PingPong {
  import opened Bytes
  import opened Records
  import opened TornWrites

  datatype Slots<+V> = Slots(a: Option<Stamped<V>>, b: Option<Stamped<V>>)

  /** `s + 1` on a 32-bit unsigned integer, as the release build computes it. */
  function Increment32(s: u32): u32 {
    (s + 1) % 0x1_0000_0000
  }

  function NextSeq<V>(s: Slots<V>): u32 {
    match (s.a, s.b)
    case (None, None) => 1
    case (Some(x), None) => Increment32(x.saveSeq)
    case (None, Some(y)) => Increment32(y.saveSeq)
    case (Some(x), Some(y)) => Increment32(Max(x.saveSeq, y.saveSeq))
  }

  predicate TargetsA<V>(s: Slots<V>) {
    s.a.None? || (s.b.Some? && s.a.value.saveSeq <= s.b.value.saveSeq)
  }

  function Load<V>(s: Slots<V>): Option<V> {
    match (s.a, s.b)
    case (None, None) => None
    case (Some(x), None) => Some(x.value)
    case (None, Some(y)) => Some(y.value)
    case (Some(x), Some(y)) => if x.saveSeq >= y.saveSeq then Some(x.value) else Some(y.value)
  }

  function After<V>(s: Slots<V>, fate: Fate<V>): Slots<V> {
    if TargetsA(s) then s.(a := AfterFate(s.a, NextSeq(s), fate))
    else s.(b := AfterFate(s.b, NextSeq(s), fate))
  }

  function Blank<V>(): Slots<V> {
    Slots(None, None)
  }

  function Newest<V>(s: Slots<V>): Option<Stamped<V>> {
    if TargetsA(s) then s.b else s.a
  }

  function Oldest<V>(s: Slots<V>): Option<Stamped<V>> {
    if TargetsA(s) then s.a else s.b
  }

  /**
   * The slots after `commits` saves have landed: the slot a save spares carries that number,
   * and the slot it overwrites is unreadable or carries the number before it.
   */
  predicate Consistent<V>(s: Slots<V>, commits: nat) {
    if commits == 0 then
      s.a.None? && s.b.None?
    else
      && Newest(s).Some? && Newest(s).value.saveSeq == commits
      && (Oldest(s).Some? ==> commits > 1 && Oldest(s).value.saveSeq == commits - 1)
  }

  /** Two valid slots differ by exactly one, and the larger counts the saves that landed. */
  lemma ConsistentSequences<V>(s: Slots<V>, commits: nat)
    requires Consistent(s, commits) && s.a.Some? && s.b.Some?
    ensures Max(s.a.value.saveSeq, s.b.value.saveSeq) == commits
    ensures Min(s.a.value.saveSeq, s.b.value.saveSeq) == commits - 1
  {
  }

  /** On a tie the two comparisons pick the same slot, so the next cut save loses the loaded record. */
  lemma TieLosesTheLoadedRecord<V>(x: V, y: V, seqNo: u32)
    ensures var s := Slots(Some(Stamped(seqNo, x)), Some(Stamped(seqNo, y)));
            TargetsA(s) && Load(s) == Some(x) && Load(After(s, Lost)) == Some(y)
            && forall commits :: !Consistent(s, commits)
  {
  }

  lemma StepConsistent<V>(s: Slots<V>, commits: nat, fate: Fate<V>)
    requires Consistent(s, commits) && commits < U32_MAX
    ensures NextSeq(s) == commits + 1
    ensures Consistent(After(s, fate), if fate.Wrote? then commits + 1 else commits)
    ensures Load(After(s, fate)) == if fate.Wrote? then Some(fate.value) else Load(s)
  {
  }

  /** One slot carries the largest sequence number, and only one. */
  predicate AtLimit<V>(s: Slots<V>) {
    && (s.a.Some? || s.b.Some?)
    && (s.a.Some? && s.b.Some? ==> s.a.value.saveSeq != s.b.value.saveSeq)
    && Max(if s.a.Some? then s.a.value.saveSeq else 0, if s.b.Some? then s.b.value.saveSeq else 0) == U32_MAX
  }

  /**
   * At the largest sequence number the increment wraps to zero: a save that lands is not
   * what the next load returns, and every later save meets the same fate.
   */
  lemma WrappedSavesAreLost<V>(s: Slots<V>, fate: Fate<V>)
    requires AtLimit(s)
    ensures NextSeq(s) == 0
    ensures Load(After(s, fate)) == Load(s)
    ensures AtLimit(After(s, fate))
  {
  }

  /** The slots that runs of saves reach: consistent below the largest number, and at the limit from then on. */
  predicate Reached<V>(s: Slots<V>, commits: nat) {
    if commits < U32_MAX then Consistent(s, commits) else commits == U32_MAX && AtLimit(s)
  }

  /** The saves that count: one that lands counts while there is a number left. */
  function Counted<V>(commits: nat, fate: Fate<V>): nat {
    if fate.Wrote? && commits < U32_MAX then commits + 1 else commits
  }

  lemma LimitIsReached<V>(s: Slots<V>, commits: nat)
    ensures Reached(s, commits) ==> (AtLimit(s) <==> commits == U32_MAX)
    ensures Consistent(s, U32_MAX) ==> AtLimit(s)
  {
  }

  /** One save, whatever becomes of it, at every distance from the limit. */
  lemma ReachedStep<V>(s: Slots<V>, commits: nat, fate: Fate<V>)
    requires Reached(s, commits)
    ensures NextSeq(s) == (commits + 1) % 0x1_0000_0000
    ensures Reached(After(s, fate), Counted(commits, fate))
    ensures Load(After(s, fate)) == if fate.Wrote? && commits < U32_MAX then Some(fate.value) else Load(s)
  {
    if commits < U32_MAX {
      StepConsistent(s, commits, fate);
      LimitIsReached(After(s, fate), Counted(commits, fate));
    } else {
      WrappedSavesAreLost(s, fate);
    }
  }

  /** A save never touches the slot a load returns: erasing its target changes no load. */
  lemma TargetIsSpare<V>(s: Slots<V>, commits: nat)
    requires Reached(s, commits)
    ensures Load(After(s, Lost)) == Load(s)
    ensures 0 < commits < U32_MAX ==> Load(s) == Some(Newest(s).value.value)
  {
    ReachedStep(s, commits, Lost);
  }

  /** A complete save is what the next load returns, exactly while there is a number left. */
  lemma CompleteSaveIsLoaded<V>(s: Slots<V>, commits: nat, v: V)
    requires Reached(s, commits) && Load(s) != Some(v)
    ensures Load(After(s, Wrote(v))) == Some(v) <==> commits < U32_MAX
  {
    ReachedStep(s, commits, Wrote(v));
  }

  // ---- Runs ----

  /** A save of `value` whose power supply lasts `steps` byte steps. */
  datatype Save<+V> = Save(value: V, steps: nat)

  /** What the bytes of a save under a sequence number do to its slot. */
  type FateOf<!V> = (u32, V, nat) -> Fate<V>

  function Run<V>(fate: FateOf<V>, s: Slots<V>, saves: seq<Save<V>>): Slots<V>
    decreases |saves|
  {
    if saves == [] then s
    else Run(fate, After(s, fate(NextSeq(s), saves[0].value, saves[0].steps)), saves[1..])
  }

  /** The store as a caller sees it: how many saves counted, and the value in force. At the limit it ignores saves. */
  datatype Cell<+V> = Cell(commits: nat, value: Option<V>)

  function CellStep<V>(cell: Cell<V>, fate: Fate<V>): Cell<V> {
    if fate.Wrote? && cell.commits < U32_MAX then Cell(cell.commits + 1, Some(fate.value)) else cell
  }

  function SeqAfter<V>(cell: Cell<V>): u32 {
    (cell.commits + 1) % 0x1_0000_0000
  }

  function CellRun<V>(fate: FateOf<V>, cell: Cell<V>, saves: seq<Save<V>>): Cell<V>
    decreases |saves|
  {
    if saves == [] then cell
    else CellRun(fate, CellStep(cell, fate(SeqAfter(cell), saves[0].value, saves[0].steps)), saves[1..])
  }

  predicate Represents<V(==)>(s: Slots<V>, cell: Cell<V>) {
    Reached(s, cell.commits) && Load(s) == cell.value
  }

  lemma StepRefines<V>(s: Slots<V>, cell: Cell<V>, fate: Fate<V>)
    requires Represents(s, cell)
    ensures NextSeq(s) == SeqAfter(cell)
    ensures Represents(After(s, fate), CellStep(cell, fate))
  {
    ReachedStep(s, cell.commits, fate);
  }

  /** Two slots behave as one cell, whatever is saved and wherever the power fails. */
  lemma {:induction false} RunRefines<V>(fate: FateOf<V>, s: Slots<V>, cell: Cell<V>, saves: seq<Save<V>>)
    requires Represents(s, cell)
    ensures Represents(Run(fate, s, saves), CellRun(fate, cell, saves))
    decreases |saves|
  {
    if saves != [] {
      var f := fate(NextSeq(s), saves[0].value, saves[0].steps);
      StepRefines(s, cell, f);
      RunRefines(fate, After(s, f), CellStep(cell, f), saves[1..]);
    }
  }

  /** The number of byte steps of a complete save. */
  const FULL: nat := 2 * SLOT_SIZE

  /** A complete save lands its value. */
  ghost predicate Completes<V(!new)>(fate: FateOf<V>) {
    forall seqNo, v, n :: n >= FULL ==> fate(seqNo, v, n) == Wrote(v)
  }

  /** No save of the run is read back as something that was never saved. */
  predicate NoTornValue<V(==)>(fate: FateOf<V>, cell: Cell<V>, saves: seq<Save<V>>)
    decreases |saves|
  {
    saves == [] ||
    (var f := fate(SeqAfter(cell), saves[0].value, saves[0].steps);
     (f.Wrote? ==> f.value == saves[0].value) && NoTornValue(fate, CellStep(cell, f), saves[1..]))
  }

  /** Every save of the run finds a sequence number left. */
  predicate RoomForAll<V>(fate: FateOf<V>, cell: Cell<V>, saves: seq<Save<V>>)
    decreases |saves|
  {
    saves == [] ||
    (&& cell.commits < U32_MAX
     && RoomForAll(fate, CellStep(cell, fate(SeqAfter(cell), saves[0].value, saves[0].steps)), saves[1..]))
  }

  lemma {:induction false} FewSavesHaveRoom<V>(fate: FateOf<V>, cell: Cell<V>, saves: seq<Save<V>>)
    requires cell.commits + |saves| <= U32_MAX
    ensures RoomForAll(fate, cell, saves)
    decreases |saves|
  {
    if saves != [] {
      FewSavesHaveRoom(fate, CellStep(cell, fate(SeqAfter(cell), saves[0].value, saves[0].steps)), saves[1..]);
    }
  }

  /** `value` is in force after `saves`: nothing completed since it was saved. */
  predicate InForce<V(==)>(value: Option<V>, before: Option<V>, saves: seq<Save<V>>) {
    || (value == before && forall i :: 0 <= i < |saves| ==> saves[i].steps < FULL)
    || exists j :: 0 <= j < |saves| && value == Some(saves[j].value) && CutFrom(saves, j + 1)
  }

  predicate CutFrom<V>(saves: seq<Save<V>>, from: nat) {
    forall i :: from <= i < |saves| ==> saves[i].steps < FULL
  }

  lemma InForceCons<V>(value: Option<V>, before: Option<V>, first: Save<V>, landed: bool, rest: seq<Save<V>>)
    requires InForce(value, if landed then Some(first.value) else before, rest)
    requires !landed ==> first.steps < FULL
    ensures InForce(value, before, [first] + rest)
  {
    var saves := [first] + rest;
    var mid := if landed then Some(first.value) else before;
    if value == mid && forall i :: 0 <= i < |rest| ==> rest[i].steps < FULL {
      assert CutFrom(saves, 1);
      if landed {
        assert saves[0].value == first.value;
      } else {
        assert forall i :: 0 <= i < |saves| ==> saves[i].steps < FULL;
      }
    } else {
      var j :| 0 <= j < |rest| && value == Some(rest[j].value) && CutFrom(rest, j + 1);
      assert saves[j + 1] == rest[j];
      forall i | j + 2 <= i < |saves| ensures saves[i].steps < FULL {
        assert saves[i] == rest[i - 1];
      }
    }
  }

  /** The cell of an atomic run holds the last completed value or that of a later, cut save. */
  lemma {:induction false} CellRunAtomic<V(!new)>(fate: FateOf<V>, cell: Cell<V>, saves: seq<Save<V>>)
    requires Completes(fate) && NoTornValue(fate, cell, saves) && RoomForAll(fate, cell, saves)
    ensures InForce(CellRun(fate, cell, saves).value, cell.value, saves)
    decreases |saves|
  {
    if saves != [] {
      var seqNo := SeqAfter(cell);
      var f := fate(seqNo, saves[0].value, saves[0].steps);
      CellRunAtomic(fate, CellStep(cell, f), saves[1..]);
      assert saves == [saves[0]] + saves[1..];
      if saves[0].steps >= FULL {
        assert f == Wrote(saves[0].value);
      }
      InForceCons(CellRun(fate, cell, saves).value, cell.value, saves[0], f.Wrote?, saves[1..]);
    }
  }
}
