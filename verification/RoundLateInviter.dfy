/** Two inviters and a third one created during the round: overlapping suffixes test the
    newcomer twice, it spawns its own section twice, and the counter goes negative
    although two users exist from the start. */
module RoundLateInviter {
  import opened Wrappers
  import opened Round
  import opened RoundSafety
  import opened RoundTesting
  import opened RoundGodNode

  /** What one goroutine adds to how often section k was spawned. */
  function Adds(c: Config, t: Goroutine, k: nat): nat
    requires k < |c.sections|
  {
    if t.next <= k && c.sections[k].Owner() == t.user then 1 else 0
  }

  /** after is s when goroutine g has gone through the rest of its sections alone. */
  ghost predicate RanThrough(c: Config, s: State, after: State, g: nat)
    requires g < |s.gs| && |s.spawned| == |c.sections|
  {
    && after.lock.None? && |after.spawned| == |c.sections| && |s.gs| <= |after.gs| && |s.users| <= |after.users|
    && after.gs[g].phase.Done? && after.gs[g].next == |c.sections| && after.gs[g].user == s.gs[g].user
    && (forall h :: 0 <= h < |s.gs| && h != g ==> after.gs[h] == s.gs[h])
    && (forall h :: |s.gs| <= h < |after.gs| ==> after.gs[h].phase.Preparing?)
    && (forall k :: 0 <= k < |c.sections| ==> after.spawned[k] == s.spawned[k] + Adds(c, s.gs[g], k))
  }

  lemma ThroughStep(c: Config, s: State, s1: State, after: State, g: nat)
    requires g < |s.gs| && Matches(c, s.gs[g]) && |s.spawned| == |c.sections|
    requires s1 == s.(users := s1.users, gs := s.gs[g := s.gs[g].(phase := Created)], blocks := s1.blocks)
    requires c.sections[s.gs[g].next].count <= |s1.users| && |s.users| <= |s1.users|
    requires RanThrough(c, TakeSuffix(c, s1, g), after, g)
    ensures RanThrough(c, s, after, g)
  {
    var s2 := TakeSuffix(c, s1, g);
    assert s2.gs[g] == Goroutine(s.gs[g].user, s.gs[g].next + 1, Looping);
    assert forall h :: 0 <= h < |s.gs| && h != g ==> s2.gs[h] == s.gs[h];
  }

  lemma {:induction false} RunThrough(c: Config, actions: seq<Action>, s: State, g: nat)
    returns (more: seq<Action>, after: State)
    requires Exec(c, Init(c), actions) == Some(s) && !c.atomic && Accepted(c)
    requires g < |s.gs| && s.gs[g].phase.Looping? && s.gs[g].next <= |c.sections| && s.lock.None?
    requires |s.spawned| == |c.sections|
    ensures Exec(c, Init(c), more) == Some(after) && RanThrough(c, s, after, g)
    decreases |c.sections| - s.gs[g].next
  {
    hide Exec, Enabled, Apply;
    if s.gs[g].next == |c.sections| {
      more, after := FinishAt(c, actions, s, g);
    } else if Matches(c, s.gs[g]) {
      var run1, s1 := CreateBlock(c, actions, s, g);
      assert c.sections[s.gs[g].next].count >= 1;
      var run2, s2 := SpawnBlock(c, run1, s1, g);
      more, after := RunThrough(c, run2, s2, g);
      ThroughStep(c, s, s1, after, g);
    } else {
      var run1, s1 := SkipTo(c, actions, s, g, s.gs[g].next + 1);
      more, after := RunThrough(c, run1, s1, g);
    }
  }

  lemma Start(c: Config, none: seq<Action>)
    requires none == [] && c.initial == 2 && |c.sections| >= 2 && c.sections[0].Owner() == 0
    ensures Exec(c, Init(c), none) == Some(Init(c)) && |Init(c).gs| == 2 && Init(c).lock.None? && |Init(c).users| == 2
    ensures Init(c).gs[0] == Goroutine(0, 0, Preparing) && Init(c).gs[1] == Goroutine(1, 0, Preparing)
    ensures Matches(c, Goroutine(0, 0, Looping))
  {
  }

  lemma OwnerMatches(c: Config, t: Goroutine)
    requires t.next < |c.sections| && c.sections[t.next].Owner() == t.user
    ensures Matches(c, t)
  {
  }

  /** Both inviters have created their users, neither has taken its suffix yet. */
  lemma TwoBlocks(c: Config) returns (actions: seq<Action>, s: State)
    requires !c.atomic && Accepted(c) && c.initial == 2 && !c.godMode && |c.sections| >= 2
    requires c.sections[0].Owner() == 0 && c.sections[1].Owner() == 1
    ensures Exec(c, Init(c), actions) == Some(s) && s.lock.None? && |s.gs| == 2
    ensures s.gs[0] == Goroutine(0, 0, Created) && s.gs[1] == Goroutine(1, 1, Created)
    ensures |s.users| == 2 + c.sections[0].count + c.sections[1].count
    ensures s.spawned == Init(c).spawned
  {
    hide *;
    var none: seq<Action> := [];
    Start(c, none);
    var run1, s1 := BeginAt(c, none, Init(c), 0);
    var run2, s2 := CreateBlock(c, run1, s1, 0);
    var run3, s3 := BeginAt(c, run2, s2, 1);
    var run4, s4 := SkipTo(c, run3, s3, 1, 1);
    OwnerMatches(c, s4.gs[1]);
    actions, s := CreateBlock(c, run4, s4, 1);
  }

  lemma LastUser(c: Config, actions: seq<Action>, s: State)
    requires Exec(c, Init(c), actions) == Some(s) && |s.users| >= 1
    ensures s.users[|s.users| - 1] == |s.users| - 1
  {
    ExecKeepsInv(c, actions);
    hide Exec, GoroutineOk;
  }

  /** Both suffixes end with the same newcomer. */
  lemma BothSuffixes(c: Config) returns (actions: seq<Action>, s: State, x: nat, y: nat)
    requires !c.atomic && Accepted(c) && c.initial == 2 && !c.godMode && |c.sections| >= 2
    requires c.sections[0].Owner() == 0 && c.sections[1].Owner() == 1
    ensures Exec(c, Init(c), actions) == Some(s) && s.lock.None? && 2 <= x < y < |s.gs|
    ensures s.gs[0] == Goroutine(0, 1, Looping) && s.gs[1] == Goroutine(1, 2, Looping)
    ensures forall h :: 2 <= h < |s.gs| ==> s.gs[h].phase.Preparing? && s.gs[h].next == 0
    ensures s.gs[x].user == s.gs[y].user == 1 + c.sections[0].count + c.sections[1].count
    ensures |s.spawned| == |c.sections|
    ensures forall k :: 0 <= k < |c.sections| ==> s.spawned[k] == if k < 2 then 1 else 0
  {
    hide Exec, Enabled, Apply, Inv;
    var run0, s0 := TwoBlocks(c);
    var run1, s1 := SpawnBlock(c, run0, s0, 0);
    LastOfSuffix(c, s0, 0);
    assert s1.gs[1] == s0.gs[1];
    actions, s := SpawnBlock(c, run1, s1, 1);
    LastOfSuffix(c, s1, 1);
    x, y := |s1.gs| - 1, |s.gs| - 1;
    LastUser(c, run0, s0);
  }

  /** The third section belongs to the newcomer both suffixes end with. */
  predicate InvitedLate(c: Config) {
    && !c.atomic && c.initial == 2 && !c.godMode && |c.sections| == 3
    && c.sections[0].Owner() == 0 && c.sections[1].Owner() == 1
    && c.sections[2].Owner() == 1 + c.sections[0].count + c.sections[1].count
  }

  lemma SpawnedTwiceIsNegative(c: Config, s: State)
    requires Accepted(c) && Reachable(c, s) && EverybodyDone(s) && |c.sections| == 3
    requires |s.spawned| == 3 && s.spawned[0] == 1 && s.spawned[1] == 1 && s.spawned[2] == 2
    ensures s.wg < 0
  {
    CounterEquation(c, s);
    NoneRunning(s.gs);
    hide Reachable, Running;
    NothingPending(c.sections[..2], s.spawned[..2]);
    assert c.sections[2].count >= 1;
  }

  /** Some run of every such round ends with a negative counter. */
  lemma LateInviterGoesNegative(c: Config) returns (after: State)
    requires Accepted(c) && InvitedLate(c)
    ensures Reachable(c, after) && after.wg < 0 && EverybodyDone(after)
  {
    hide Exec, Enabled, Apply;
    var run0, s0, x, y := BothSuffixes(c);
    var run1, s1 := RunThrough(c, run0, s0, 0);
    var run2, s2 := RunThrough(c, run1, s1, 1);
    var run3, s3 := BeginAt(c, run2, s2, x);
    var run4, s4 := RunThrough(c, run3, s3, x);
    var run5, s5 := BeginAt(c, run4, s4, y);
    var run6, s6 := RunThrough(c, run5, s5, y);
    var run7;
    run7, after := ExitAll(c, run6, s6, 0);
    WitnessRun(c, run7, after);
    SpawnedTwiceIsNegative(c, after);
  }
}
