/**
 * The lock-free lifetime of a foreign object: a flag, a reference count and a compare-and-set
 * loop. A step is one atomic operation of one activation of `destroy` or `callWithPointer`;
 * there may be any number of activations, and they interleave in any order.
 */
module Lifetime {

  const LONG_MAX: nat := 0x7FFF_FFFF_FFFF_FFFF

  type Activation = nat

  datatype Phase =
    | Outside
    | Looping
    | HasRead(c: int)
    | Inside
    | WonFlag
    | SawZero

  type Phases = map<Activation, Phase>

  /** `cleaned` counts the calls of `clean`. */
  datatype System = System(wasDestroyed: bool, callCounter: int, phases: Phases, cleaned: nat)

  datatype Action =
    | BeginCall(who: Activation)
    | ReadCounter(who: Activation)
    | CompareAndSet(who: Activation)
    | EndCall(who: Activation)
    | TryFlag(who: Activation)
    | DropInitial(who: Activation)
    | Clean(who: Activation)

  const INIT: System := System(false, 1, map[], 0)

  function PhaseOf(ps: Phases, who: Activation): Phase {
    if who in ps then ps[who] else Outside
  }

  function Move(s: System, who: Activation, p: Phase): System {
    s.(phases := s.phases[who := p])
  }

  /** `decrementAndGet`, and the comparison of its result with zero. */
  function Decrement(s: System, who: Activation): System {
    Move(s.(callCounter := s.callCounter - 1), who, if s.callCounter - 1 == 0 then SawZero else Outside)
  }

  /** An action whose activation is not where it should be does nothing. */
  function Perform(s: System, a: Action): System {
    var phase := PhaseOf(s.phases, a.who);
    match a
    case BeginCall(w) => if phase.Outside? then Move(s, w, Looping) else s
    case ReadCounter(w) => if phase.Looping? then Move(s, w, HasRead(s.callCounter)) else s
    case CompareAndSet(w) =>
      if !phase.HasRead? then s
      else if phase.c == 0 || phase.c == LONG_MAX then Move(s, w, Outside)
      else if s.callCounter == phase.c then Move(s.(callCounter := phase.c + 1), w, Inside)
      else Move(s, w, Looping)
    case EndCall(w) => if phase.Inside? then Decrement(s, w) else s
    case TryFlag(w) => if phase.Outside? && !s.wasDestroyed then Move(s.(wasDestroyed := true), w, WonFlag) else s
    case DropInitial(w) => if phase.WonFlag? then Decrement(s, w) else s
    case Clean(w) => if phase.SawZero? then Move(s.(cleaned := s.cleaned + 1), w, Outside) else s
  }

  function Run(s: System, actions: seq<Action>): System
    decreases |actions|
  {
    if actions == [] then s else Run(Perform(s, actions[0]), actions[1..])
  }

  // ---- Who is where ----

  datatype Role = InCall | Destroying | Cleaning

  predicate Plays(p: Phase, r: Role) {
    match r
    case InCall => p.Inside?
    case Destroying => p.WonFlag?
    case Cleaning => p.SawZero?
  }

  function Those(ps: Phases, r: Role): set<Activation> {
    set w | w in ps && Plays(ps[w], r)
  }

  /** The reference the object was created with has not been dropped yet. */
  predicate InitialHeld(s: System) {
    !s.wasDestroyed || |Those(s.phases, Destroying)| > 0
  }

  /** How often a decrement reached zero. */
  function Triggers(s: System): nat {
    |Those(s.phases, Cleaning)| + s.cleaned
  }

  predicate Inv(s: System) {
    && s.callCounter == |Those(s.phases, InCall)| + (if InitialHeld(s) then 1 else 0)
    && s.callCounter <= LONG_MAX
    && |Those(s.phases, Destroying)| <= (if s.wasDestroyed then 1 else 0)
    && Triggers(s) == (if s.callCounter == 0 then 1 else 0)
  }

  // ---- One step ----

  function One(b: bool): nat {
    if b then 1 else 0
  }

  lemma SetMove<T>(s: set<T>, t: set<T>, x: T, isIn: bool)
    requires t == if isIn then s + {x} else s - {x}
    ensures |t| == |s| - One(x in s) + One(isIn)
  {
    if x in s {
      assert s + {x} == s;
      assert (s - {x}) + {x} == s;
    } else {
      assert s - {x} == s;
    }
  }

  /** Moving one activation moves it alone. */
  lemma MoveCount(ps: Phases, who: Activation, p: Phase, r: Role)
    ensures |Those(ps[who := p], r)| == |Those(ps, r)| - One(Plays(PhaseOf(ps, who), r)) + One(Plays(p, r))
  {
    var before, after := Those(ps, r), Those(ps[who := p], r);
    assert after == if Plays(p, r) then before + {who} else before - {who};
    SetMove(before, after, who, Plays(p, r));
  }

  lemma StepKeeps(s: System, a: Action)
    requires Inv(s)
    ensures Inv(Perform(s, a))
  {
    var next := Perform(s, a);
    if next != s {
      var p := PhaseOf(next.phases, a.who);
      MoveCount(s.phases, a.who, p, InCall);
      MoveCount(s.phases, a.who, p, Destroying);
      MoveCount(s.phases, a.who, p, Cleaning);
    }
  }

  lemma {:induction false} RunKeeps(s: System, actions: seq<Action>)
    requires Inv(s)
    ensures Inv(Run(s, actions))
    decreases |actions|
  {
    if actions != [] {
      StepKeeps(s, actions[0]);
      RunKeeps(Perform(s, actions[0]), actions[1..]);
    }
  }

  // ---- What every interleaving keeps ----

  /**
   * Over any interleaving: the counter is the number of calls in flight, and one more for an
   * undropped initial reference; it never overflows; and a decrement has reached zero once,
   * exactly when the object is destroyed, its initial reference dropped and no call in flight.
   */
  lemma Accounting(actions: seq<Action>)
    ensures var s := Run(INIT, actions);
            && s.callCounter == |Those(s.phases, InCall)| + One(InitialHeld(s))
            && 0 <= s.callCounter <= LONG_MAX
            && Triggers(s) == One(!InitialHeld(s) && Those(s.phases, InCall) == {})
  {
    RunKeeps(INIT, actions);
  }

  /** Clean is called at most once, never before destroy, and never while a call is in flight. */
  lemma CleanedOnceAndSafely(actions: seq<Action>)
    ensures var s := Run(INIT, actions);
            && s.cleaned <= 1
            && (s.cleaned == 1 || Those(s.phases, Cleaning) != {} ==>
                  s.wasDestroyed && Those(s.phases, InCall) == {} && Those(s.phases, Destroying) == {})
  {
    RunKeeps(INIT, actions);
    var s := Run(INIT, actions);
    if Those(s.phases, InCall) != {} {
      var w :| w in Those(s.phases, InCall);
      assert |Those(s.phases, InCall)| >= 1;
    }
  }

  /** Once the counter is zero it stays zero: no call enters any more, and nothing triggers a second clean. */
  lemma {:induction false} NoEntryAfterZero(s: System, actions: seq<Action>)
    requires Inv(s) && s.callCounter == 0
    ensures var end := Run(s, actions);
            end.callCounter == 0 && Those(end.phases, InCall) == {} && Triggers(end) == 1
    decreases |actions|
  {
    if actions == [] {
      assert |Those(s.phases, InCall)| == 0;
    } else {
      StepKeeps(s, actions[0]);
      ZeroStays(s, actions[0]);
      NoEntryAfterZero(Perform(s, actions[0]), actions[1..]);
    }
  }

  lemma ZeroStays(s: System, a: Action)
    requires Inv(s) && s.callCounter == 0
    ensures Perform(s, a).callCounter == 0
  {
    assert Those(s.phases, InCall) == {} && Those(s.phases, Destroying) == {};
    assert a.who !in Those(s.phases, InCall) && a.who !in Those(s.phases, Destroying);
  }

  /** Two destroys, one of them wins: the flag lets a single activation drop the initial reference. */
  lemma OneDestroyer(actions: seq<Action>, v: Activation, w: Activation)
    ensures var s := Run(INIT, actions);
            v in Those(s.phases, Destroying) && w in Those(s.phases, Destroying) ==> v == w
  {
    RunKeeps(INIT, actions);
    var s := Run(INIT, actions);
    if v in Those(s.phases, Destroying) && w in Those(s.phases, Destroying) && v != w {
      assert {v, w} <= Those(s.phases, Destroying);
      TwoInside({v, w}, Those(s.phases, Destroying));
    }
  }

  lemma {:induction false} TwoInside<T>(s: set<T>, t: set<T>)
    requires s <= t
    ensures |s| <= |t|
    decreases s
  {
    if s != {} {
      var x :| x in s;
      TwoInside(s - {x}, t - {x});
    }
  }
}
