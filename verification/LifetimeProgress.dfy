/** What the lifetime of a foreign object lets happen: calls enter and leave, and a destroyed object is cleaned. */
module LifetimeProgress {
  import opened Lifetime

  // ---- One activation alone ----

  /** A call on a live object enters: three steps by itself, and the counter is one higher. */
  lemma CallEnters(s: System, w: Activation)
    requires PhaseOf(s.phases, w).Outside? && 0 < s.callCounter < LONG_MAX
    ensures Run(s, [BeginCall(w), ReadCounter(w), CompareAndSet(w)]) ==
            System(s.wasDestroyed, s.callCounter + 1, s.phases[w := Inside], s.cleaned)
  {
    RunThree(s, BeginCall(w), ReadCounter(w), CompareAndSet(w));
  }

  /** A call on an object whose counter is zero, or has no value left, is turned away and changes nothing. */
  lemma CallRefused(s: System, w: Activation)
    requires PhaseOf(s.phases, w).Outside? && (s.callCounter == 0 || s.callCounter == LONG_MAX)
    ensures Run(s, [BeginCall(w), ReadCounter(w), CompareAndSet(w)]) == s.(phases := s.phases[w := Outside])
  {
    MovedTwice(s.phases, w, Looping, HasRead(s.callCounter));
    MovedTwice(s.phases, w, HasRead(s.callCounter), Outside);
    RunThree(s, BeginCall(w), ReadCounter(w), CompareAndSet(w));
  }

  /** A call that enters and leaves again leaves the object as it was. */
  lemma CallReturns(s: System, w: Activation)
    requires PhaseOf(s.phases, w).Outside? && 0 < s.callCounter < LONG_MAX
    ensures Run(s, [BeginCall(w), ReadCounter(w), CompareAndSet(w)] + [EndCall(w)]) ==
            s.(phases := s.phases[w := Outside])
  {
    var entered := System(s.wasDestroyed, s.callCounter + 1, s.phases[w := Inside], s.cleaned);
    CallEnters(s, w);
    RunConcat(s, [BeginCall(w), ReadCounter(w), CompareAndSet(w)], [EndCall(w)]);
    RunOne(entered, EndCall(w));
    MovedTwice(s.phases, w, Inside, Outside);
  }

  /** Destroying an object that no call uses cleans it. */
  lemma DestroyCleans(s: System, w: Activation)
    requires PhaseOf(s.phases, w).Outside? && !s.wasDestroyed && s.callCounter == 1
    ensures Run(s, [TryFlag(w), DropInitial(w), Clean(w)]) ==
            System(true, 0, s.phases[w := Outside], s.cleaned + 1)
  {
    RunThree(s, TryFlag(w), DropInitial(w), Clean(w));
  }

  /** Destroying it while calls are in flight leaves the cleaning to the last of them. */
  lemma LastCallCleans(s: System, v: Activation, w: Activation)
    requires PhaseOf(s.phases, v).Outside? && PhaseOf(s.phases, w).Inside? && !s.wasDestroyed && s.callCounter == 2
    ensures var dropped := Run(s, [TryFlag(v), DropInitial(v), Clean(v)]);
            && dropped.wasDestroyed && dropped.cleaned == s.cleaned && PhaseOf(dropped.phases, v).Outside?
            && Run(dropped, [EndCall(w), Clean(w)]).cleaned == s.cleaned + 1
  {
    RunThree(s, TryFlag(v), DropInitial(v), Clean(v));
    var dropped := Run(s, [TryFlag(v), DropInitial(v), Clean(v)]);
    RunTwo(dropped, EndCall(w), Clean(w));
  }

  lemma MovedTwice(ps: Phases, w: Activation, p: Phase, q: Phase)
    ensures ps[w := p][w := q] == ps[w := q]
  {
  }

  lemma RunOne(s: System, a: Action)
    ensures Run(s, [a]) == Perform(s, a)
  {
    assert [a][1..] == [];
  }

  lemma RunTwo(s: System, a: Action, b: Action)
    ensures Run(s, [a, b]) == Perform(Perform(s, a), b)
  {
    assert [a, b][1..] == [b];
    RunOne(Perform(s, a), b);
  }

  lemma RunThree(s: System, a: Action, b: Action, c: Action)
    ensures Run(s, [a, b, c]) == Perform(Perform(Perform(s, a), b), c)
  {
    assert [a, b, c][1..] == [b, c];
    RunTwo(Perform(s, a), b, c);
  }

  lemma {:induction false} RunConcat(s: System, xs: seq<Action>, ys: seq<Action>)
    ensures Run(s, xs + ys) == Run(Run(s, xs), ys)
    decreases |xs|
  {
    if xs == [] {
      assert xs + ys == ys;
    } else {
      assert (xs + ys)[1..] == xs[1..] + ys;
      RunConcat(Perform(s, xs[0]), xs[1..], ys);
    }
  }

  // ---- The loop is lock-free ----

  /** An action that completes a step of its own call or destroy, and so moves the counter. */
  predicate Advances(s: System, a: Action) {
    var before, after := PhaseOf(s.phases, a.who), PhaseOf(Perform(s, a).phases, a.who);
    || (before.HasRead? && after.Inside?)
    || ((before.Inside? || before.WonFlag?) && (after.Outside? || after.SawZero?))
  }

  /** Nothing else moves it. */
  lemma AdvancesIff(s: System, a: Action)
    ensures Advances(s, a) <==> Perform(s, a).callCounter != s.callCounter
  {
  }

  /** Somewhere along the run an action advances. */
  ghost predicate SomeAdvance(s: System, actions: seq<Action>) {
    exists i :: 0 <= i < |actions| && Advances(Run(s, actions[..i]), actions[i])
  }

  lemma PrefixCons(s: System, actions: seq<Action>, i: nat)
    requires i + 1 < |actions|
    ensures Run(s, actions[..i + 1]) == Run(Perform(s, actions[0]), actions[1..][..i])
    ensures actions[i + 1] == actions[1..][i]
  {
    assert actions[..i + 1][1..] == actions[1..][..i];
  }

  lemma {:induction false} CounterMoved(s: System, actions: seq<Action>)
    requires Run(s, actions).callCounter != s.callCounter
    ensures SomeAdvance(s, actions)
    decreases |actions|
  {
    AdvancesIff(s, actions[0]);
    if Advances(s, actions[0]) {
      var none := actions[..0];
      assert none == [] && Advances(Run(s, none), actions[0]);
    } else {
      var rest, next := actions[1..], Perform(s, actions[0]);
      CounterMoved(next, rest);
      var i :| 0 <= i < |rest| && Advances(Run(next, rest[..i]), rest[i]);
      PrefixCons(s, actions, i);
    }
  }

  /** What others do leaves an activation where it is. */
  lemma {:induction false} OthersLeave(s: System, w: Activation, actions: seq<Action>)
    requires forall i :: 0 <= i < |actions| ==> actions[i].who != w
    ensures PhaseOf(Run(s, actions).phases, w) == PhaseOf(s.phases, w)
    decreases |actions|
  {
    if actions != [] {
      OthersLeave(Perform(s, actions[0]), w, actions[1..]);
    }
  }

  /**
   * Lock freedom: between an activation's read and its compare-and-set anything may happen.
   * The call enters exactly when the counter still is what was read; when it has to go round
   * again, another activation has advanced in between.
   */
  lemma RetryMeansProgress(s: System, w: Activation, actions: seq<Action>)
    requires PhaseOf(s.phases, w).Looping? && 0 < s.callCounter < LONG_MAX
    requires forall i :: 0 <= i < |actions| ==> actions[i].who != w
    ensures var read := Perform(s, ReadCounter(w));
            var before := Run(read, actions);
            var after := Perform(before, CompareAndSet(w));
            && (PhaseOf(after.phases, w).Inside? <==> before.callCounter == s.callCounter)
            && (PhaseOf(after.phases, w).Inside? ==> after.callCounter == s.callCounter + 1)
            && (!PhaseOf(after.phases, w).Inside? ==> PhaseOf(after.phases, w).Looping? && SomeAdvance(read, actions))
  {
    var read := Perform(s, ReadCounter(w));
    OthersLeave(read, w, actions);
    if Run(read, actions).callCounter != s.callCounter {
      CounterMoved(read, actions);
    }
  }

  // ---- Everything comes to an end ----

  /** Where every activation has returned. */
  ghost predicate Quiet(s: System) {
    forall w :: w in s.phases ==> s.phases[w].Outside?
  }

  lemma QuietRoles(s: System, r: Role)
    requires Quiet(s)
    ensures Those(s.phases, r) == {}
  {
  }

  /** Whatever happened before: a quiet object is cleaned exactly if it was destroyed, and otherwise as new. */
  lemma QuietIff(actions: seq<Action>)
    requires Quiet(Run(INIT, actions))
    ensures var s := Run(INIT, actions);
            && (s.wasDestroyed ==> s.cleaned == 1 && s.callCounter == 0)
            && (!s.wasDestroyed ==> s.cleaned == 0 && s.callCounter == 1)
  {
    var s := Run(INIT, actions);
    RunKeeps(INIT, actions);
    QuietRoles(s, InCall);
    QuietRoles(s, Destroying);
    QuietRoles(s, Cleaning);
  }

  /** The steps that finish any activation; those it is not ready for do nothing. */
  function Finish(w: Activation): seq<Action> {
    [CompareAndSet(w), ReadCounter(w), CompareAndSet(w)] + [EndCall(w), DropInitial(w), Clean(w)]
  }

  /** All but `w` stay where they are. */
  ghost predicate OnlyMoves(s: System, next: System, w: Activation) {
    next.wasDestroyed == s.wasDestroyed && forall v :: v != w ==> PhaseOf(next.phases, v) == PhaseOf(s.phases, v)
  }

  lemma LeavesTheLoop(s: System, w: Activation)
    ensures var mid := Run(s, [CompareAndSet(w), ReadCounter(w), CompareAndSet(w)]);
            var p := PhaseOf(mid.phases, w);
            !p.Looping? && !p.HasRead? && OnlyMoves(s, mid, w)
  {
    RunThree(s, CompareAndSet(w), ReadCounter(w), CompareAndSet(w));
    var first := Perform(s, CompareAndSet(w));
    var second := Perform(first, ReadCounter(w));
    assert OnlyMoves(s, first, w) && OnlyMoves(first, second, w);
    assert !PhaseOf(second.phases, w).Looping?;
  }

  lemma Returns(s: System, w: Activation)
    requires !PhaseOf(s.phases, w).Looping? && !PhaseOf(s.phases, w).HasRead?
    ensures var end := Run(s, [EndCall(w), DropInitial(w), Clean(w)]);
            PhaseOf(end.phases, w).Outside? && OnlyMoves(s, end, w)
  {
    RunThree(s, EndCall(w), DropInitial(w), Clean(w));
    var first := Perform(s, EndCall(w));
    var second := Perform(first, DropInitial(w));
    assert OnlyMoves(s, first, w) && OnlyMoves(first, second, w);
    assert PhaseOf(second.phases, w).Outside? || PhaseOf(second.phases, w).SawZero?;
  }

  /** An activation that is left alone comes to its end, wherever it stands, and moves nobody else. */
  lemma AloneFinishes(s: System, w: Activation)
    ensures PhaseOf(Run(s, Finish(w)).phases, w).Outside? && OnlyMoves(s, Run(s, Finish(w)), w)
  {
    LeavesTheLoop(s, w);
    var mid := Run(s, [CompareAndSet(w), ReadCounter(w), CompareAndSet(w)]);
    Returns(mid, w);
    RunConcat(s, [CompareAndSet(w), ReadCounter(w), CompareAndSet(w)], [EndCall(w), DropInitial(w), Clean(w)]);
  }

  function Busy(s: System): set<Activation> {
    set w | w in s.phases && !s.phases[w].Outside?
  }

  lemma FinishOne(s: System, w: Activation)
    requires w in Busy(s)
    ensures var end := Run(s, Finish(w));
            end.wasDestroyed == s.wasDestroyed && Busy(end) == Busy(s) - {w}
  {
    var end := Run(s, Finish(w));
    AloneFinishes(s, w);
    forall v ensures v in Busy(end) <==> v in Busy(s) - {w} {
      assert v in Busy(end) <==> !PhaseOf(end.phases, v).Outside?;
    }
  }

  /** From every state some schedule lets all activations return. */
  lemma {:induction false} CanDrain(s: System)
    ensures exists more :: Quiet(Run(s, more)) && Run(s, more).wasDestroyed == s.wasDestroyed
    decreases Busy(s)
  {
    if Busy(s) == {} {
      assert forall w :: w in s.phases && !s.phases[w].Outside? ==> w in Busy(s);
      assert Quiet(Run(s, []));
    } else {
      var w :| w in Busy(s);
      var next := Run(s, Finish(w));
      FinishOne(s, w);
      CanDrain(next);
      var more :| Quiet(Run(next, more)) && Run(next, more).wasDestroyed == s.wasDestroyed;
      RunConcat(s, Finish(w), more);
      assert Quiet(Run(s, Finish(w) + more));
    }
  }

  /** No reachable state is stuck: an object that was destroyed can always still be cleaned, once. */
  lemma DestroyedGetsCleaned(actions: seq<Action>)
    requires Run(INIT, actions).wasDestroyed
    ensures exists more :: Quiet(Run(INIT, actions + more)) && Run(INIT, actions + more).cleaned == 1
  {
    var s := Run(INIT, actions);
    CanDrain(s);
    var more :| Quiet(Run(s, more)) && Run(s, more).wasDestroyed == s.wasDestroyed;
    RunConcat(INIT, actions, more);
    QuietIff(actions + more);
    assert Quiet(Run(INIT, actions + more)) && Run(INIT, actions + more).cleaned == 1;
  }
}
