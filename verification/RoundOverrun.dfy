/** A round that is taken for over while goroutines still run: process.users can outgrow
    its sections exactly when the counter can go negative. */
module RoundOverrun {
  import opened Wrappers
  import opened Round
  import opened RoundSafety
  import opened RoundTesting
  import opened RoundGodNode
  import opened RoundLateInviter
  import opened RoundOverlap

  // ---------- every run can be brought to an end ----------

  /** after is s when goroutine g has finished; others moved only to prepare. */
  ghost predicate Finished(s: State, after: State, g: nat)
    requires g < |s.gs|
  {
    && after.lock.None? && |s.gs| <= |after.gs| && |s.users| <= |after.users|
    && after.gs[g].phase.Done?
    && (forall h :: 0 <= h < |s.gs| && h != g ==> after.gs[h] == s.gs[h])
    && (forall h :: |s.gs| <= h < |after.gs| ==> after.gs[h].phase.Preparing?)
  }

  lemma LocalFacts(c: Config, actions: seq<Action>, s: State, g: nat)
    requires Exec(c, Init(c), actions) == Some(s) && g < |s.gs|
    ensures GoroutineOk(c, s, g) && |s.spawned| == |c.sections| && s.gs[g].next <= |c.sections|
  {
    ExecKeepsInv(c, actions);
    hide Exec;
  }

  lemma FinishCreated(c: Config, actions: seq<Action>, s: State, g: nat)
    returns (more: seq<Action>, after: State)
    requires Exec(c, Init(c), actions) == Some(s) && !c.atomic && Accepted(c)
    requires g < |s.gs| && s.gs[g].phase.Created? && s.lock.None?
    ensures Exec(c, Init(c), more) == Some(after) && Finished(s, after, g)
  {
    hide Exec, Init;
    var run1, s1 := SpawnBlock(c, actions, s, g);
    more, after := RunThrough(c, run1, s1, g);
    assert forall h :: 0 <= h < |s.gs| && h != g ==> s1.gs[h] == s.gs[h];
  }

  lemma FinishCreating(c: Config, actions: seq<Action>, s: State, g: nat)
    returns (more: seq<Action>, after: State)
    requires Exec(c, Init(c), actions) == Some(s) && !c.atomic && Accepted(c)
    requires g < |s.gs| && s.gs[g].phase.Creating?
    ensures Exec(c, Init(c), more) == Some(after) && Finished(s, after, g)
  {
    LocalFacts(c, actions, s, g);
    hide Exec, Init;
    var run1, s1 := CreateRest(c, actions, s, g);
    OneMore(c, run1, s1, Action(g, Release));
    var s2 := Apply(c, s1, Action(g, Release));
    assert s2 == Released(c, s1, g);
    more, after := FinishCreated(c, run1 + [Action(g, Release)], s2, g);
    assert forall h :: 0 <= h < |s.gs| && h != g ==> s2.gs[h] == s.gs[h];
  }

  lemma FinishChecked(c: Config, actions: seq<Action>, s: State, g: nat)
    returns (more: seq<Action>, after: State)
    requires Exec(c, Init(c), actions) == Some(s) && !c.atomic && Accepted(c)
    requires g < |s.gs| && s.gs[g].phase.Checked? && s.lock.None?
    ensures Exec(c, Init(c), more) == Some(after) && Finished(s, after, g)
  {
    LocalFacts(c, actions, s, g);
    hide Exec, Init;
    OneMore(c, actions, s, Action(g, Acquire));
    var s1 := Apply(c, s, Action(g, Acquire));
    more, after := FinishCreating(c, actions + [Action(g, Acquire)], s1, g);
    assert forall h :: 0 <= h < |s.gs| && h != g ==> s1.gs[h] == s.gs[h];
  }

  lemma RanIsFinished(c: Config, s: State, after: State, g: nat)
    requires g < |s.gs| && |s.spawned| == |c.sections| && RanThrough(c, s, after, g)
    ensures Finished(s, after, g)
  {
  }

  /** A goroutine that nobody blocks finishes alone. */
  lemma FinishOne(c: Config, actions: seq<Action>, s: State, g: nat)
    returns (more: seq<Action>, after: State)
    requires Exec(c, Init(c), actions) == Some(s) && !c.atomic && Accepted(c)
    requires g < |s.gs| && !s.gs[g].phase.Preparing? && !s.gs[g].phase.Done?
    requires s.lock.None? || s.gs[g].phase.Creating?
    ensures Exec(c, Init(c), more) == Some(after) && Finished(s, after, g)
  {
    LocalFacts(c, actions, s, g);
    hide *;
    match s.gs[g].phase
    case Looping =>
      more, after := RunThrough(c, actions, s, g);
      RanIsFinished(c, s, after, g);
    case Checked(_) => more, after := FinishChecked(c, actions, s, g);
    case Creating(_, _, _) => more, after := FinishCreating(c, actions, s, g);
    case Created => more, after := FinishCreated(c, actions, s, g);
  }

  lemma NobodyCreates(c: Config, actions: seq<Action>, s: State, g: nat)
    requires Exec(c, Init(c), actions) == Some(s) && s.lock.None? && g < |s.gs|
    ensures !s.gs[g].phase.Creating?
  {
    LocalFacts(c, actions, s, g);
  }

  /** One goroutine after the other finishes, the first k being at rest already. */
  lemma {:induction false} FinishFrom(c: Config, actions: seq<Action>, s: State, k: nat, n: nat)
    returns (more: seq<Action>, after: State)
    requires Exec(c, Init(c), actions) == Some(s) && !c.atomic && Accepted(c) && s.lock.None? && k <= n <= |s.gs|
    requires forall g :: 0 <= g < |s.gs| && (g < k || g >= n) ==> s.gs[g].phase.Preparing? || s.gs[g].phase.Done?
    ensures Exec(c, Init(c), more) == Some(after) && |s.users| <= |after.users|
    ensures forall g :: 0 <= g < |after.gs| ==> after.gs[g].phase.Preparing? || after.gs[g].phase.Done?
    decreases n - k
  {
    hide Exec, Init, Accepted;
    if k == n {
      more, after := actions, s;
    } else if s.gs[k].phase.Preparing? || s.gs[k].phase.Done? {
      more, after := FinishFrom(c, actions, s, k + 1, n);
    } else {
      var run1, s1 := FinishOne(c, actions, s, k);
      more, after := FinishFrom(c, run1, s1, k + 1, n);
    }
  }

  lemma LockHolder(c: Config, actions: seq<Action>, s: State)
    requires Exec(c, Init(c), actions) == Some(s)
    ensures s.lock.Some? ==> s.lock.value < |s.gs| && s.gs[s.lock.value].phase.Creating?
  {
    ExecKeepsInv(c, actions);
    hide Exec, GoroutineOk;
  }

  /** From every state a run goes on to one in which everybody is done. */
  lemma EverybodyCanFinish(c: Config, s: State) returns (after: State)
    requires !c.atomic && Accepted(c) && Reachable(c, s)
    ensures Reachable(c, after) && EverybodyDone(after) && |s.users| <= |after.users|
  {
    var actions :| Exec(c, Init(c), actions) == Some(s);
    LockHolder(c, actions, s);
    hide Exec, Init, Accepted, Inv;
    var run1, s1 := actions, s;
    if s.lock.Some? {
      run1, s1 := FinishOne(c, actions, s, s.lock.value);
    }
    var run2, s2 := FinishFrom(c, run1, s1, 0, |s1.gs|);
    var run3;
    run3, after := ExitAll(c, run2, s2, 0);
    WitnessRun(c, run3, after);
  }

  // ---------- the counter passes zero ----------

  /** A step lowers the counter by at most one, and only one of a running goroutine does. */
  lemma StepsLowerByOne(c: Config, s: State, a: Action)
    requires Enabled(c, s, a)
    ensures Apply(c, s, a).wg >= s.wg - 1
    ensures Apply(c, s, a).wg < s.wg ==> !EverybodyDone(s)
  {
    assert a.g < |s.gs|;
  }

  lemma {:induction false} PassesZero(c: Config, actions: seq<Action>) returns (s: State)
    requires Exec(c, Init(c), actions).Some? && Exec(c, Init(c), actions).value.wg < 0
    ensures Reachable(c, s) && s.wg == 0 && !EverybodyDone(s)
  {
    if actions != [] {
      var init, a := actions[..|actions| - 1], actions[|actions| - 1];
      var before := Exec(c, Init(c), init).value;
      assert Exec(c, Init(c), actions) == Some(Apply(c, before, a));
      if before.wg < 0 {
        s := PassesZero(c, init);
      } else {
        hide Exec, Apply, Enabled;
        StepsLowerByOne(c, before, a);
        WitnessRun(c, init, before);
        s := before;
      }
    }
  }

  /** The bot takes the round for over with more users than its sections account for. */
  ghost predicate Overruns(c: Config, s: State) {
    Reachable(c, s) && s.wg == 0 && |s.users| > c.initial + Total(c.sections)
  }

  lemma NegativeOverruns(c: Config, s: State) returns (overrun: State)
    requires GodAbsorbed(c) && Reachable(c, s) && s.wg < 0
    ensures Overruns(c, overrun)
  {
    var actions :| Exec(c, Init(c), actions) == Some(s);
    hide Exec, Init;
    overrun := PassesZero(c, actions);
    ZeroExactly(c, overrun);
  }

  lemma TooManyGoNegative(c: Config, s: State) returns (after: State)
    requires !c.atomic && Accepted(c) && GodAbsorbed(c)
    requires Reachable(c, s) && |s.users| > c.initial + Total(c.sections)
    ensures Reachable(c, after) && after.wg < 0
  {
    hide *;
    after := EverybodyCanFinish(c, s);
    UsersPlusCounter(c, after);
  }

  /** A round can be taken for over with too many users, and with goroutines running, if
      and only if the counter can go negative. */
  lemma OverrunExactly(c: Config)
    requires !c.atomic && Accepted(c) && GodAbsorbed(c)
    ensures (exists s :: Overruns(c, s)) <==> (exists s :: Reachable(c, s) && s.wg < 0)
    ensures (exists s :: Overruns(c, s)) <==> (exists s :: Reachable(c, s) && s.wg == 0 && !EverybodyDone(s))
  {
    hide Reachable, Accepted, Total, EverybodyDone;
    if s :| Reachable(c, s) && s.wg < 0 {
      var overrun := NegativeOverruns(c, s);
      ZeroExactly(c, overrun);
    } else if s :| Overruns(c, s) {
      var after := TooManyGoNegative(c, s);
      assert false;
    } else {
      forall s | Reachable(c, s) && s.wg == 0
        ensures EverybodyDone(s)
      {
        ZeroExactly(c, s);
        assert !Overruns(c, s);
      }
    }
  }

  // ---------- rounds that end in order ----------

  /** The inviters exist when the round starts, or two are never at work at once. */
  predicate Calm(c: Config) {
    (forall k :: 0 <= k < |c.sections| ==> c.sections[k].Owner() < c.initial) || !CanOverlap(c)
  }

  lemma {:induction false} OneInviterNeverOverlaps(sections: seq<Section>, n: nat, spawned: seq<bool>, owner: nat)
    requires |spawned| == |sections| && forall k :: 0 <= k < |sections| ==> sections[k].Owner() == owner
    ensures !Overlaps(sections, n, spawned)
    decreases Left(spawned)
  {
    hide Left, FirstOpen;
    var k := FirstOpen(sections, n, spawned, 0);
    if k.Some? {
      LeftDrops(spawned, k.value);
      OneInviterNeverOverlaps(sections, n + sections[k.value].count, spawned[k.value := true], owner);
    }
  }

  lemma OneInviterIsCalm(c: Config, owner: nat)
    requires forall k :: 0 <= k < |c.sections| ==> c.sections[k].Owner() == owner
    ensures Calm(c)
  {
    OneInviterNeverOverlaps(c.sections, c.initial, seq(|c.sections|, k => false), owner);
  }

  /** Such a round is over exactly when everybody is done and all its users are there. */
  lemma CalmRoundsEndDone(c: Config, s: State)
    requires Accepted(c) && GodAbsorbed(c) && Calm(c) && Reachable(c, s) && s.wg == 0
    ensures EverybodyDone(s) && |s.users| == c.initial + Total(c.sections)
  {
    hide CanOverlap;
    if CanOverlap(c) {
      ZeroMeansDone(c, s);
    } else {
      SafeWithoutOverlap(c, s);
      ZeroExactly(c, s);
    }
  }

  /** Two inviters and a third created by both of them: such a round overruns. */
  lemma LateInviterOverruns(c: Config) returns (s: State)
    requires Accepted(c) && InvitedLate(c)
    ensures Overruns(c, s) && !EverybodyDone(s)
  {
    hide Reachable, Total;
    var after := LateInviterGoesNegative(c);
    s := NegativeOverruns(c, after);
    ZeroExactly(c, s);
  }
}
