/** The round of a god bot that is alone: the god node is counted as a newcomer,
    tested again, and the WaitGroup goes negative. */
module RoundGodNode {
  import opened Wrappers
  import opened Round
  import opened RoundSafety
  import opened RoundTesting

  ghost predicate OneOwner(c: Config, u: nat) {
    forall k :: 0 <= k < |c.sections| ==> c.sections[k].Owner() == u
  }

  /** One owner processes all its remaining sections without interruption. */
  lemma {:induction false} PassSections(c: Config, actions: seq<Action>, s: State, g: nat)
    returns (more: seq<Action>, after: State)
    requires Exec(c, Init(c), actions) == Some(s) && !c.atomic && Accepted(c)
    requires g < |s.gs| && s.gs[g].phase.Looping? && s.gs[g].next <= |c.sections| && s.lock.None?
    requires OneOwner(c, s.gs[g].user) && |s.spawned| == |c.sections|
    ensures Exec(c, Init(c), more) == Some(after) && after.lock.None?
    ensures |after.gs| >= |s.gs| && |after.spawned| == |c.sections|
    ensures after.gs[g] == Goroutine(s.gs[g].user, |c.sections|, Looping)
    ensures forall h :: 0 <= h < |s.gs| && h != g ==> after.gs[h] == s.gs[h]
    ensures forall h :: |s.gs| <= h < |after.gs| ==> after.gs[h].phase.Preparing?
    ensures forall k :: 0 <= k < |c.sections| ==>
              after.spawned[k] == s.spawned[k] + (if k >= s.gs[g].next then 1 else 0)
    decreases |c.sections| - s.gs[g].next
  {
    if s.gs[g].next == |c.sections| {
      more, after := actions, s;
    } else {
      var run1, s1 := CreateBlock(c, actions, s, g);
      var run2, s2 := SpawnBlock(c, run1, s1, g);
      more, after := PassSections(c, run2, s2, g);
    }
  }

  /** Everybody who has not begun yet gives up. */
  lemma {:induction false} ExitAll(c: Config, actions: seq<Action>, s: State, k: nat)
    returns (more: seq<Action>, after: State)
    requires Exec(c, Init(c), actions) == Some(s) && k <= |s.gs|
    requires forall g :: 0 <= g < k ==> s.gs[g].phase.Done?
    requires forall g :: k <= g < |s.gs| ==> s.gs[g].phase.Preparing? || s.gs[g].phase.Done?
    ensures Exec(c, Init(c), more) == Some(after) && after.spawned == s.spawned && after.users == s.users
    ensures forall g :: 0 <= g < |after.gs| ==> after.gs[g].phase.Done?
    decreases |s.gs| - k
  {
    if k == |s.gs| {
      more, after := actions, s;
    } else if s.gs[k].phase.Done? {
      more, after := ExitAll(c, actions, s, k + 1);
    } else {
      var a := Action(k, Exit);
      OneMore(c, actions, s, a);
      more, after := ExitAll(c, actions + [a], Apply(c, s, a), k + 1);
    }
  }

  lemma {:induction false} PendingWhenAllTwice(sections: seq<Section>, spawned: seq<nat>)
    requires |sections| == |spawned|
    requires forall k :: 0 <= k < |spawned| ==> spawned[k] == 2
    ensures Pending(sections, spawned) + Total(sections) == 0
  {
    if sections != [] {
      PendingWhenAllTwice(sections[..|sections| - 1], spawned[..|sections| - 1]);
    }
  }

  lemma GodNodeIsInTheSuffix(c: Config, actions: seq<Action>, s: State)
    requires Exec(c, Init(c), actions) == Some(s) && |s.gs| == 1 && s.gs[0].phase.Created?
    requires Matches(c, s.gs[0]) && |s.spawned| == |c.sections|
    requires 1 <= |s.users| == c.sections[s.gs[0].next].count
    ensures TakeSuffix(c, s, 0).gs[1] == Goroutine(0, 0, Preparing)
    ensures forall h :: 1 <= h < |TakeSuffix(c, s, 0).gs| ==> TakeSuffix(c, s, 0).gs[h].phase.Preparing?
  {
    ExecKeepsInv(c, actions);
  }

  lemma FinishAt(c: Config, actions: seq<Action>, s: State, g: nat) returns (more: seq<Action>, after: State)
    requires Exec(c, Init(c), actions) == Some(s) && g < |s.gs|
    requires s.gs[g].phase.Looping? && s.gs[g].next == |c.sections|
    ensures Exec(c, Init(c), more) == Some(after)
    ensures after == s.(gs := s.gs[g := s.gs[g].(phase := Done)], wg := s.wg - 1)
  {
    OneMore(c, actions, s, Action(g, Finish));
    more, after := actions + [Action(g, Finish)], Apply(c, s, Action(g, Finish));
  }

  lemma TwiceSpawnedEndsNegative(c: Config, actions: seq<Action>, s: State)
    requires Exec(c, Init(c), actions) == Some(s) && Accepted(c) && c.sections != []
    requires |s.spawned| == |c.sections| && forall k :: 0 <= k < |c.sections| ==> s.spawned[k] == 2
    requires forall g :: 0 <= g < |s.gs| ==> s.gs[g].phase.Done?
    ensures Reachable(c, s) && s.wg < 0
  {
    ExecKeepsInv(c, actions);
    NoneRunning(s.gs);
    PendingWhenAllTwice(c.sections, s.spawned);
    assert c.sections[|c.sections| - 1].count >= 1;
  }

  lemma BothRunToTheEnd(c: Config, actions: seq<Action>, s: State) returns (after: State)
    requires Exec(c, Init(c), actions) == Some(s) && !c.atomic && Accepted(c) && OneOwner(c, 0)
    requires c.sections != [] && |s.spawned| == |c.sections| && s.lock.None? && |s.gs| >= 2
    requires s.gs[0] == Goroutine(0, 1, Looping) && s.gs[1] == Goroutine(0, 0, Preparing)
    requires forall h :: 2 <= h < |s.gs| ==> s.gs[h].phase.Preparing?
    requires forall k :: 0 <= k < |c.sections| ==> s.spawned[k] == if k == 0 then 1 else 0
    ensures Reachable(c, after) && after.wg < 0
  {
    var run1, s1 := PassSections(c, actions, s, 0);
    assert s1.gs[1] == s.gs[1];
    var run2, s2 := BeginAt(c, run1, s1, 1);
    hide Exec;
    var run3, s3 := PassSections(c, run2, s2, 1);
    var run4, s4 := FinishAt(c, run3, s3, 0);
    var run5, s5 := FinishAt(c, run4, s4, 1);
    hide Enabled, Apply;
    var run6;
    run6, after := ExitAll(c, run5, s5, 2);
    TwiceSpawnedEndsNegative(c, run6, after);
  }

  /** The god bot's first section counts the god node as one of its own users, so a
      second goroutine tests it and spawns every section again. */
  lemma LonelyGodNode(c: Config) returns (after: State)
    requires !c.atomic && Accepted(c) && InitialOwners(c) && c.godMode && c.initial == 1 && c.sections != []
    ensures Reachable(c, after) && after.wg < 0
  {
    assert OneOwner(c, 0);
    var none: seq<Action> := [];
    var s0 := Init(c);
    var run1, s1 := BeginAt(c, none, s0, 0);
    var run2, s2 := CreateBlock(c, run1, s1, 0);
    var run3, s3 := SpawnBlock(c, run2, s2, 0);
    GodNodeIsInTheSuffix(c, run2, s2);
    after := BothRunToTheEnd(c, run3, s3);
  }

  /** For sections owned by initial users: some run drives the WaitGroup below zero
      exactly when the god bot has no user but the god node and a section to spawn. */
  lemma NegativeExactly(c: Config)
    requires !c.atomic && Accepted(c) && InitialOwners(c)
    ensures (exists s :: Reachable(c, s) && s.wg < 0)
       <==> c.godMode && c.initial == 1 && c.sections != []
  {
    if c.godMode && c.initial == 1 && c.sections != [] {
      var s := LonelyGodNode(c);
    } else if c.sections == [] {
      forall s | Reachable(c, s)
        ensures s.wg >= 0
      {
        CounterEquation(c, s);
      }
    } else {
      assert c.sections[0].Owner() < c.initial;
      forall s | Reachable(c, s)
        ensures s.wg >= 0
      {
        WaitGroupIsSafe(c, s);
      }
    }
  }
}
