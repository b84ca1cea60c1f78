/** When a round can go on, and what the WaitGroup holds when it cannot. */
module RoundProgress {
  import opened Wrappers
  import opened Round
  import opened RoundSafety
  import RoundGodNode
  import RoundTesting
  import RoundOverlap

  ghost predicate Stuck(c: Config, s: State) {
    forall a :: !Enabled(c, s, a)
  }

  function NextMove(c: Config, t: Goroutine): Move {
    match t.phase
    case Preparing => Exit
    case Looping => if t.next >= |c.sections| then Finish else if Matches(c, t) then Check else Skip
    case Checked(_) => Acquire
    case Creating(_, _, left) => if left > 0 then Create else Release
    case Created => Spawn
    case Done => Finish
  }

  lemma OwnMoveIsEnabled(c: Config, s: State, g: nat)
    requires Inv(c, s) && Accepted(c) && g < |s.gs| && !s.gs[g].phase.Done?
    requires s.gs[g].phase.Checked? ==> s.lock.None?
    ensures Enabled(c, s, Action(g, NextMove(c, s.gs[g])))
  {
    assert GoroutineOk(c, s, g);
  }

  /** The mutex cannot deadlock the round: while a goroutine has not finished, it or
      the one that creates users can move. */
  lemma SomebodyCanMove(c: Config, s: State, g: nat)
    requires Accepted(c) && Reachable(c, s) && g < |s.gs| && !s.gs[g].phase.Done?
    ensures !Stuck(c, s)
  {
    var actions :| Exec(c, Init(c), actions) == Some(s);
    ExecKeepsInv(c, actions);
    var h := if s.gs[g].phase.Checked? && s.lock.Some? then s.lock.value else g;
    hide Enabled, GoroutineOk;
    OwnMoveIsEnabled(c, s, h);
  }

  lemma AllDoneIsStuck(c: Config, s: State)
    requires forall g :: 0 <= g < |s.gs| ==> s.gs[g].phase.Done?
    ensures Stuck(c, s)
  {
  }

  lemma SpawnedWhenPassed(c: Config, s: State)
    requires InitialOwners(c) && GodAbsorbed(c) && Reachable(c, s)
    ensures |s.spawned| == |c.sections| && c.initial <= |s.gs|
    ensures forall k :: 0 <= k < |c.sections| ==>
              c.sections[k].Owner() < c.initial && (s.spawned[k] == 1 <==> s.gs[c.sections[k].Owner()].next > k)
  {
    var actions :| Exec(c, Init(c), actions) == Some(s);
    ExecKeepsSafe(c, actions);
    hide Exec, Inv, OwnerOk;
    forall k | 0 <= k < |c.sections|
      ensures s.spawned[k] == 1 <==> s.gs[c.sections[k].Owner()].next > k
    {
      assert SpawnedByOwner(c, s, k);
    }
  }

  lemma StuckWhenDone(c: Config, s: State)
    requires Accepted(c) && Reachable(c, s)
    ensures Stuck(c, s) <==> EverybodyDone(s)
  {
    hide Reachable, Stuck, Accepted;
    if EverybodyDone(s) {
      AllDoneIsStuck(c, s);
    } else {
      var g :| 0 <= g < |s.gs| && !s.gs[g].phase.Done?;
      SomebodyCanMove(c, s, g);
    }
  }

  // ---------- giving up ----------

  /** Goroutine g has returned early in this run, its user not being active. */
  predicate GaveUp(actions: seq<Action>, g: nat) {
    Action(g, Exit) in actions
  }

  /** A finished goroutine either gave up at once or went through all sections. */
  predicate EndOk(c: Config, actions: seq<Action>, s: State, g: nat) {
    if g < |s.gs| && s.gs[g].phase.Done? then s.gs[g].next == if GaveUp(actions, g) then 0 else |c.sections|
    else !GaveUp(actions, g)
  }

  ghost predicate AllEndOk(c: Config, actions: seq<Action>, s: State) {
    forall g: nat :: EndOk(c, actions, s, g)
  }

  lemma EndOkAfter(c: Config, actions: seq<Action>, s: State, a: Action, g: nat)
    requires Enabled(c, s, a) && GoroutineOk(c, s, a.g) && EndOk(c, actions, s, g)
    ensures EndOk(c, actions + [a], Apply(c, s, a), g)
  {
    assert GaveUp(actions + [a], g) <==> GaveUp(actions, g) || a == Action(g, Exit);
  }

  lemma AllEndOkAfter(c: Config, actions: seq<Action>, s: State, a: Action)
    requires Inv(c, s) && Enabled(c, s, a) && AllEndOk(c, actions, s)
    ensures AllEndOk(c, actions + [a], Apply(c, s, a))
  {
    assert GoroutineOk(c, s, a.g);
    hide EndOk, GoroutineOk, Inv, Apply, Enabled;
    forall g: nat
      ensures EndOk(c, actions + [a], Apply(c, s, a), g)
    {
      EndOkAfter(c, actions, s, a, g);
    }
  }

  lemma {:induction false} ExecEndsOk(c: Config, actions: seq<Action>)
    requires Exec(c, Init(c), actions).Some?
    ensures AllEndOk(c, actions, Exec(c, Init(c), actions).value)
  {
    if actions != [] {
      var init, a := actions[..|actions| - 1], actions[|actions| - 1];
      var s := Exec(c, Init(c), init).value;
      assert Exec(c, Init(c), actions) == Some(Apply(c, s, a)) && init + [a] == actions;
      hide EndOk, AllEndOk, Inv, Exec, Apply, Enabled;
      ExecEndsOk(c, init);
      ExecKeepsInv(c, init);
      AllEndOkAfter(c, init, s, a);
    }
  }

  lemma PassedUnlessGivenUp(c: Config, actions: seq<Action>, s: State, k: nat)
    requires Exec(c, Init(c), actions) == Some(s) && EverybodyDone(s) && k < |c.sections|
    requires c.sections[k].Owner() < |s.gs|
    ensures s.gs[c.sections[k].Owner()].next > k <==> !GaveUp(actions, c.sections[k].Owner())
  {
    ExecEndsOk(c, actions);
    assert EndOk(c, actions, s, c.sections[k].Owner());
    hide Exec;
  }

  /** A round that cannot go on has every goroutine finished, and the counter at what
      the sections that were not spawned would have paid: it is zero, and the bot goes
      on without its timeout, exactly when no inviter of a section gave up. */
  lemma StuckExactly(c: Config, actions: seq<Action>, s: State)
    requires Accepted(c) && InitialOwners(c) && GodAbsorbed(c) && Exec(c, Init(c), actions) == Some(s)
    ensures Stuck(c, s) <==> EverybodyDone(s)
    ensures |s.spawned| == |c.sections|
    ensures Stuck(c, s) ==> s.wg == Pending(c.sections, s.spawned)
    ensures Stuck(c, s) ==>
              (s.wg == 0 <==> forall k :: 0 <= k < |c.sections| ==> !GaveUp(actions, c.sections[k].Owner()))
  {
    assert Reachable(c, s);
    hide Accepted, InitialOwners, GodAbsorbed, Reachable, Stuck, Pending, Running, Exec, GaveUp;
    StuckWhenDone(c, s);
    SpawnedWhenPassed(c, s);
    CounterEquation(c, s);
    WaitGroupIsSafe(c, s);
    NoneRunning(s.gs);
    if EverybodyDone(s) {
      forall k | 0 <= k < |c.sections|
        ensures s.spawned[k] == 1 <==> !GaveUp(actions, c.sections[k].Owner())
      {
        PassedUnlessGivenUp(c, actions, s, k);
      }
    }
  }

  lemma SpawnedWithoutOverlap(c: Config, actions: seq<Action>, s: State)
    requires !RoundOverlap.CanOverlap(c) && GodAbsorbed(c) && Exec(c, Init(c), actions) == Some(s)
    ensures |s.spawned| == |c.sections| && forall k :: 0 <= k < |c.sections| ==> RoundTesting.SpawnedOnce(c, s, k)
  {
    RoundOverlap.ExecKeepsSolo(c, actions);
    hide Exec, RoundTesting.SpawnedOnce, RoundOverlap.Overlaps, GoroutineOk;
  }

  /** The same wherever the inviters come from, as long as two are never at work at once:
      then an inviter may also never have come to exist. */
  lemma StuckWithoutOverlap(c: Config, actions: seq<Action>, s: State)
    requires Accepted(c) && !RoundOverlap.CanOverlap(c) && GodAbsorbed(c) && Exec(c, Init(c), actions) == Some(s)
    ensures Stuck(c, s) <==> EverybodyDone(s)
    ensures Stuck(c, s) ==>
              (s.wg == 0 <==> forall k :: 0 <= k < |c.sections| ==>
                                c.sections[k].Owner() < |s.gs| && !GaveUp(actions, c.sections[k].Owner()))
  {
    RoundTesting.WitnessRun(c, actions, s);
    hide Accepted, GodAbsorbed, Reachable, Stuck, Exec, GaveUp, RoundOverlap.CanOverlap;
    StuckWhenDone(c, s);
    SpawnedWithoutOverlap(c, actions, s);
    RoundOverlap.SafeWithoutOverlap(c, s);
    if EverybodyDone(s) {
      forall k | 0 <= k < |c.sections|
        ensures s.spawned[k] == 1 <==> c.sections[k].Owner() < |s.gs| && !GaveUp(actions, c.sections[k].Owner())
      {
        assert RoundTesting.SpawnedOnce(c, s, k);
        if c.sections[k].Owner() < |s.gs| {
          PassedUnlessGivenUp(c, actions, s, k);
        }
      }
    }
  }

  lemma {:induction false} TotalIsPositive(sections: seq<Section>)
    requires sections != [] && forall k :: 0 <= k < |sections| ==> sections[k].count >= 1
    ensures Total(sections) >= 1
  {
  }

  /** Any scenario with a section has such a round: everybody gives up, and the counter
      stays at all the users that were to come. */
  lemma CounterCanStayPositive(c: Config) returns (s: State)
    requires Accepted(c) && c.sections != []
    ensures Reachable(c, s) && Stuck(c, s) && s.wg == Total(c.sections) >= 1
  {
    var none: seq<Action> := [];
    var more;
    more, s := RoundGodNode.ExitAll(c, none, Init(c), 0);
    assert Reachable(c, s);
    hide Exec, Reachable;
    AllDoneIsStuck(c, s);
    CounterEquation(c, s);
    NoneRunning(s.gs);
    PendingAtStart(c.sections, s.spawned);
    TotalIsPositive(c.sections);
  }
}
