/** Who is tested in a round. Taking the new users after the mutex was released
    tests everybody once exactly when all sections have one owner; taking them
    before releasing it would do so always. */
module RoundTesting {
  import opened Wrappers
  import opened Round
  import opened RoundSafety

  predicate OnceOk(c: Config, s: State, g: nat, owner: nat)
    requires g < |s.gs|
  {
    var t := s.gs[g];
    && t.user == g
    && match t.phase
       case Checked(exclude) => !exclude && (c.atomic || g == owner)
       case Creating(_, total, _) =>
         t.next < |c.sections| && total == c.sections[t.next].count && (c.atomic || g == owner)
       case Created => !c.atomic && g == owner
       case _ => true
  }

  /** Users that exist without a goroutine. */
  function Untested(c: Config, s: State, owner: nat): nat {
    if !c.atomic && owner < |s.gs| && s.gs[owner].phase.Created? && s.gs[owner].next < |c.sections| then
      c.sections[s.gs[owner].next].count
    else Partial(s)
  }

  /** Goroutine g tests user g, and what is not yet tested is the block being created. */
  ghost predicate OnceInv(c: Config, s: State, owner: nat) {
    && Inv(c, s)
    && c.initial <= |s.users|
    && (forall g :: 0 <= g < |s.gs| ==> OnceOk(c, s, g, owner))
    && |s.users| == |s.gs| + Untested(c, s, owner)
  }

  /** Either the suffix is taken under the mutex, or only one user owns sections. */
  ghost predicate Exclusive(c: Config, owner: nat) {
    c.atomic || forall k :: 0 <= k < |c.sections| ==> c.sections[k].Owner() == owner
  }

  lemma UntestedAfter(c: Config, s: State, a: Action, owner: nat)
    requires OnceInv(c, s, owner) && Exclusive(c, owner) && Enabled(c, s, a)
    requires a.move !in {Release, Spawn}
    ensures var after := Apply(c, s, a);
            |after.users| == |after.gs| + Untested(c, after, owner)
  {
    assert OnceOk(c, s, a.g, owner) && GoroutineOk(c, s, a.g);
    assert s.lock.Some? ==> GoroutineOk(c, s, s.lock.value) && OnceOk(c, s, s.lock.value, owner);
  }

  lemma LocalMoveKeepsOnce(c: Config, s: State, a: Action, owner: nat)
    requires OnceInv(c, s, owner) && Exclusive(c, owner) && GodAbsorbed(c) && Enabled(c, s, a)
    requires a.move !in {Release, Spawn}
    ensures OnceInv(c, Apply(c, s, a), owner)
  {
    var after := Apply(c, s, a);
    StepKeepsInv(c, s, a);
    assert OnceOk(c, s, a.g, owner) && GoroutineOk(c, s, a.g);
    forall g | 0 <= g < |after.gs|
      ensures OnceOk(c, after, g, owner)
    {
      assert OnceOk(c, s, g, owner);
    }
    UntestedAfter(c, s, a, owner);
  }

  lemma ReleaseKeepsOnce(c: Config, s: State, g: nat, owner: nat)
    requires OnceInv(c, s, owner) && Exclusive(c, owner) && !c.atomic
    requires g < |s.gs| && s.gs[g].phase.Creating? && s.gs[g].phase.left == 0
    ensures OnceInv(c, Released(c, s, g), owner)
  {
    var after := Released(c, s, g);
    ReleasingKeepsInv(c, s, g);
    assert OnceOk(c, s, g, owner) && GoroutineOk(c, s, g);
    forall h | 0 <= h < |after.gs|
      ensures OnceOk(c, after, h, owner)
    {
      assert OnceOk(c, s, h, owner);
    }
  }

  /** The new goroutines continue the numbering when nothing but their block is untested. */
  lemma SuffixKeepsOnce(c: Config, s: State, g: nat, owner: nat)
    requires Inv(c, s) && c.initial <= |s.users| && s.lock.None?
    requires g < |s.gs| && s.gs[g].phase.Created? && Matches(c, s.gs[g])
    requires |s.users| == |s.gs| + c.sections[s.gs[g].next].count
    requires forall h :: 0 <= h < |s.gs| && h != g ==> OnceOk(c, s, h, owner) && !s.gs[h].phase.Created?
    requires s.gs[g].user == g
    ensures |s.spawned| == |c.sections| && OnceInv(c, TakeSuffix(c, s, g), owner)
  {
    SpawningKeepsInv(c, s, g);
    var after := TakeSuffix(c, s, g);
    var count := c.sections[s.gs[g].next].count;
    forall h | 0 <= h < |after.gs|
      ensures OnceOk(c, after, h, owner)
    {
      if h >= |s.gs| {
        assert after.gs[h].user == s.users[|s.users| - count + (h - |s.gs|)];
      } else if h != g {
        assert OnceOk(c, s, h, owner);
      }
    }
  }

  lemma StepKeepsOnce(c: Config, s: State, a: Action, owner: nat)
    requires OnceInv(c, s, owner) && Exclusive(c, owner) && GodAbsorbed(c) && Enabled(c, s, a)
    ensures OnceInv(c, Apply(c, s, a), owner)
  {
    assert OnceOk(c, s, a.g, owner) && GoroutineOk(c, s, a.g);
    if a.move == Release {
      if c.atomic {
        ReleasingKeepsInv(c, s, a.g);
        var released := Released(c, s, a.g);
        forall h | 0 <= h < |released.gs| && h != a.g
          ensures OnceOk(c, released, h, owner) && !released.gs[h].phase.Created?
        {
          assert OnceOk(c, s, h, owner);
        }
        SuffixKeepsOnce(c, released, a.g, owner);
      } else {
        ReleaseKeepsOnce(c, s, a.g, owner);
      }
    } else if a.move == Spawn {
      forall h | 0 <= h < |s.gs| && h != a.g
        ensures OnceOk(c, s, h, owner) && !s.gs[h].phase.Created?
      {
        assert OnceOk(c, s, h, owner);
      }
      assert s.lock.Some? ==> OnceOk(c, s, s.lock.value, owner);
      SuffixKeepsOnce(c, s, a.g, owner);
    } else {
      LocalMoveKeepsOnce(c, s, a, owner);
    }
  }

  lemma {:induction false} ExecKeepsOnce(c: Config, actions: seq<Action>, owner: nat)
    requires Exclusive(c, owner) && GodAbsorbed(c) && Exec(c, Init(c), actions).Some?
    ensures OnceInv(c, Exec(c, Init(c), actions).value, owner)
  {
    if actions == [] {
      InvAtStart(c);
    } else {
      var init := actions[..|actions| - 1];
      ExecKeepsOnce(c, init, owner);
      StepKeepsOnce(c, Exec(c, Init(c), init).value, actions[|actions| - 1], owner);
    }
  }

  /** Some user has two goroutines. */
  ghost predicate TestedTwice(s: State) {
    exists g, h :: 0 <= g < h < |s.gs| && s.gs[g].user == s.gs[h].user
  }

  /** One owner, or the suffix taken under the mutex: goroutine g tests user g in
      every state, and once nothing is being created each user has exactly one. */
  lemma EachUserIsTestedOnce(c: Config, s: State, owner: nat)
    requires Exclusive(c, owner) && GodAbsorbed(c) && Reachable(c, s)
    ensures forall g :: 0 <= g < |s.gs| ==> s.gs[g].user == g
    ensures |s.gs| <= |s.users|
    ensures (forall g :: 0 <= g < |s.gs| ==> !s.gs[g].phase.Creating? && !s.gs[g].phase.Created?) ==>
              |s.gs| == |s.users|
    ensures !TestedTwice(s)
  {
    var actions :| Exec(c, Init(c), actions) == Some(s);
    ExecKeepsOnce(c, actions, owner);
    forall g | 0 <= g < |s.gs|
      ensures s.gs[g].user == g
    {
      assert OnceOk(c, s, g, owner);
    }
  }

  // ---------- the WaitGroup, whoever owns the sections ----------

  /** Section k was spawned once if its owner exists and is past it. */
  predicate SpawnedOnce(c: Config, s: State, k: nat)
    requires k < |c.sections| && k < |s.spawned|
  {
    var owner := c.sections[k].Owner();
    s.spawned[k] == if owner < |s.gs| && s.gs[owner].next > k then 1 else 0
  }

  lemma LocalMoveKeepsSpawnedOnce(c: Config, s: State, a: Action, owner: nat, k: nat)
    requires OnceInv(c, s, owner) && Enabled(c, s, a) && a.move !in {Release, Spawn}
    requires k < |c.sections| && SpawnedOnce(c, s, k)
    ensures k < |Apply(c, s, a).spawned| && SpawnedOnce(c, Apply(c, s, a), k)
  {
    assert OnceOk(c, s, a.g, owner);
    hide Inv, OnceInv;
  }

  lemma SuffixKeepsSpawnedOnce(c: Config, s: State, g: nat, k: nat)
    requires g < |s.gs| && Matches(c, s.gs[g]) && |s.spawned| == |c.sections|
    requires c.sections[s.gs[g].next].count <= |s.users| && s.gs[g].user == g
    requires k < |c.sections| && SpawnedOnce(c, s, k)
    ensures SpawnedOnce(c, TakeSuffix(c, s, g), k)
  {
  }

  lemma StepKeepsSpawnedOnce(c: Config, s: State, a: Action, owner: nat, k: nat)
    requires OnceInv(c, s, owner) && Enabled(c, s, a)
    requires k < |c.sections| && SpawnedOnce(c, s, k)
    ensures k < |Apply(c, s, a).spawned| && SpawnedOnce(c, Apply(c, s, a), k)
  {
    assert OnceOk(c, s, a.g, owner);
    if a.move == Release {
      var released := Released(c, s, a.g);
      assert SpawnedOnce(c, released, k);
      if c.atomic {
        SuffixKeepsSpawnedOnce(c, released, a.g, k);
      }
    } else if a.move == Spawn {
      SuffixKeepsSpawnedOnce(c, s, a.g, k);
    } else {
      LocalMoveKeepsSpawnedOnce(c, s, a, owner, k);
    }
  }

  lemma {:induction false} ExecKeepsSpawnedOnce(c: Config, actions: seq<Action>, owner: nat, k: nat)
    requires Exclusive(c, owner) && GodAbsorbed(c) && Exec(c, Init(c), actions).Some? && k < |c.sections|
    ensures var s := Exec(c, Init(c), actions).value;
            k < |s.spawned| && SpawnedOnce(c, s, k)
  {
    if actions != [] {
      var init := actions[..|actions| - 1];
      ExecKeepsSpawnedOnce(c, init, owner, k);
      ExecKeepsOnce(c, init, owner);
      StepKeepsSpawnedOnce(c, Exec(c, Init(c), init).value, actions[|actions| - 1], owner, k);
    }
  }

  /** With one owner, or the suffix taken under the mutex, the WaitGroup is safe even
      for owners that are created during the round. */
  lemma WaitGroupIsSafeForLateOwners(c: Config, s: State, owner: nat)
    requires Accepted(c) && Exclusive(c, owner) && GodAbsorbed(c) && Reachable(c, s)
    ensures s.wg >= 0
    ensures |s.spawned| == |c.sections|
    ensures s.wg == 0 <==> (forall k :: 0 <= k < |c.sections| ==> s.spawned[k] == 1)
                           && (forall g :: 0 <= g < |s.gs| ==> s.gs[g].phase.Done?)
  {
    var actions :| Exec(c, Init(c), actions) == Some(s);
    CounterEquation(c, s);
    forall k | 0 <= k < |c.sections|
      ensures s.spawned[k] <= 1
    {
      ExecKeepsSpawnedOnce(c, actions, owner, k);
    }
    hide Exec, Pending, Running;
    PendingIsWhatIsNotSpawned(c.sections, s.spawned);
    NoneRunning(s.gs);
  }

  // ---------- two owners ----------

  lemma OneMore(c: Config, actions: seq<Action>, s: State, a: Action)
    requires Exec(c, Init(c), actions) == Some(s) && Enabled(c, s, a)
    ensures Exec(c, Init(c), actions + [a]) == Some(Apply(c, s, a))
  {
    assert (actions + [a])[..|actions|] == actions;
  }

  lemma {:induction false} CreateRest(c: Config, actions: seq<Action>, s: State, g: nat)
    returns (more: seq<Action>, after: State)
    requires Exec(c, Init(c), actions) == Some(s)
    requires g < |s.gs| && s.gs[g].phase.Creating? && s.gs[g].phase.left <= s.gs[g].phase.total
    ensures Exec(c, Init(c), more) == Some(after)
    ensures after == s.(users := after.users,
                        gs := s.gs[g := s.gs[g].(phase := s.gs[g].phase.(left := 0))])
    ensures |after.users| == |s.users| + s.gs[g].phase.left
    decreases s.gs[g].phase.left
  {
    if s.gs[g].phase.left == 0 {
      more, after := actions, s;
      assert s.gs[g := s.gs[g]] == s.gs;
    } else {
      var a := Action(g, Create);
      var next := Apply(c, s, a);
      OneMore(c, actions, s, a);
      more, after := CreateRest(c, actions + [a], next, g);
      assert next.gs[g := after.gs[g]] == s.gs[g := after.gs[g]];
    }
  }

  /** From the loop to a created block, nobody else moving. */
  lemma CreateBlock(c: Config, actions: seq<Action>, s: State, g: nat)
    returns (more: seq<Action>, after: State)
    requires Exec(c, Init(c), actions) == Some(s) && !c.atomic && Accepted(c)
    requires g < |s.gs| && s.gs[g].phase.Looping? && Matches(c, s.gs[g]) && s.lock.None?
    ensures Exec(c, Init(c), more) == Some(after)
    ensures after == s.(users := after.users, gs := s.gs[g := s.gs[g].(phase := Created)],
                        blocks := after.blocks)
    ensures |after.users| + (if c.godMode && |s.users| == 1 then 1 else 0)
         == |s.users| + c.sections[s.gs[g].next].count
  {
    var a1, a2, a3 := Action(g, Check), Action(g, Acquire), Action(g, Release);
    var s1 := Apply(c, s, a1);
    OneMore(c, actions, s, a1);
    var s2 := Apply(c, s1, a2);
    OneMore(c, actions + [a1], s1, a2);
    var created;
    more, created := CreateRest(c, actions + [a1] + [a2], s2, g);
    OneMore(c, more, created, a3);
    after := Apply(c, created, a3);
    more := more + [a3];
    assert after.gs == s.gs[g := s.gs[g].(phase := Created)];
  }

  lemma {:induction false} SkipTo(c: Config, actions: seq<Action>, s: State, g: nat, j: nat)
    returns (more: seq<Action>, after: State)
    requires Exec(c, Init(c), actions) == Some(s)
    requires g < |s.gs| && s.gs[g].phase.Looping? && s.gs[g].next <= j <= |c.sections|
    requires forall k :: s.gs[g].next <= k < j ==> c.sections[k].Owner() != s.gs[g].user
    ensures Exec(c, Init(c), more) == Some(after)
    ensures after == s.(gs := s.gs[g := s.gs[g].(next := j)])
    decreases j - s.gs[g].next
  {
    if s.gs[g].next == j {
      more, after := actions, s;
      assert s.gs[g := s.gs[g]] == s.gs;
    } else {
      var a := Action(g, Skip);
      OneMore(c, actions, s, a);
      more, after := SkipTo(c, actions + [a], Apply(c, s, a), g, j);
    }
  }

  /** A created block can always be sent to testing. */
  lemma SpawnBlock(c: Config, actions: seq<Action>, s: State, g: nat)
    returns (more: seq<Action>, after: State)
    requires Exec(c, Init(c), actions) == Some(s) && Accepted(c)
    requires g < |s.gs| && s.gs[g].phase.Created?
    ensures Exec(c, Init(c), more) == Some(after) && |s.spawned| == |c.sections|
    ensures Matches(c, s.gs[g]) && s.gs[g].next < |c.sections|
    ensures 1 <= c.sections[s.gs[g].next].count <= |s.users|
    ensures after == TakeSuffix(c, s, g)
  {
    ExecKeepsInv(c, actions);
    assert GoroutineOk(c, s, g);
    OneMore(c, actions, s, Action(g, Spawn));
    more, after := actions + [Action(g, Spawn)], Apply(c, s, Action(g, Spawn));
  }

  lemma LastOfSuffix(c: Config, s: State, g: nat)
    requires g < |s.gs| && Matches(c, s.gs[g]) && |s.spawned| == |c.sections|
    requires 1 <= c.sections[s.gs[g].next].count <= |s.users|
    ensures var after := TakeSuffix(c, s, g);
            && |after.gs| == |s.gs| + c.sections[s.gs[g].next].count
            && after.users == s.users
            && after.gs[|after.gs| - 1].user == s.users[|s.users| - 1]
            && forall h :: 0 <= h < |s.gs| && h != g ==> after.gs[h] == s.gs[h]
  {
  }

  lemma WitnessRun(c: Config, actions: seq<Action>, s: State)
    requires Exec(c, Init(c), actions) == Some(s)
    ensures Reachable(c, s)
  {
  }

  lemma WitnessTwice(s: State, g: nat, h: nat)
    requires g < h < |s.gs| && s.gs[g].user == s.gs[h].user
    ensures TestedTwice(s)
  {
  }

  /** Both owners create before either takes its suffix: the two suffixes end with
      the same user. */
  lemma OverlappingSuffixes(c: Config, actions: seq<Action>, s: State, a: nat, b: nat)
    returns (after: State)
    requires Exec(c, Init(c), actions) == Some(s) && !c.atomic && Accepted(c)
    requires a < |s.gs| && b < |s.gs| && a != b
    requires s.gs[a].phase.Created? && s.gs[b].phase.Created?
    ensures Reachable(c, after) && TestedTwice(after)
  {
    hide *;
    var run1, mid := SpawnBlock(c, actions, s, a);
    LastOfSuffix(c, s, a);
    var run2;
    run2, after := SpawnBlock(c, run1, mid, b);
    LastOfSuffix(c, mid, b);
    assert after.gs[|mid.gs| - 1] == mid.gs[|mid.gs| - 1];
    WitnessRun(c, run2, after);
    WitnessTwice(after, |mid.gs| - 1, |after.gs| - 1);
  }

  /** The first section that is not owner a's. */
  lemma {:induction false} FirstOther(c: Config, a: nat, j: nat) returns (k: nat)
    requires j < |c.sections| && c.sections[j].Owner() != a
    ensures k < |c.sections| && c.sections[k].Owner() != a
    ensures forall l :: 0 <= l < k ==> c.sections[l].Owner() == a
  {
    k := 0;
    while c.sections[k].Owner() == a
      invariant k <= j && forall l :: 0 <= l < k ==> c.sections[l].Owner() == a
      decreases j - k
    {
      k := k + 1;
    }
  }

  lemma BeginAt(c: Config, actions: seq<Action>, s: State, g: nat) returns (more: seq<Action>, after: State)
    requires Exec(c, Init(c), actions) == Some(s) && g < |s.gs| && s.gs[g].phase.Preparing?
    ensures Exec(c, Init(c), more) == Some(after)
    ensures after == s.(gs := s.gs[g := s.gs[g].(phase := Looping)])
  {
    OneMore(c, actions, s, Action(g, Begin));
    more, after := actions + [Action(g, Begin)], Apply(c, s, Action(g, Begin));
  }

  lemma FirstStates(c: Config, none: seq<Action>, a: nat, b: nat)
    requires none == [] && a < c.initial && b < c.initial
    ensures Exec(c, Init(c), none) == Some(Init(c)) && |Init(c).gs| == c.initial && Init(c).lock.None?
    ensures Init(c).gs[a] == Goroutine(a, 0, Preparing) && Init(c).gs[b] == Goroutine(b, 0, Preparing)
    ensures c.sections != [] && c.sections[0].Owner() == a ==> Matches(c, Goroutine(a, 0, Looping))
  {
  }

  /** Two owners among the initial users: some run tests a user twice. */
  lemma TwoOwnersCanTestTwice(c: Config, i: nat, j: nat) returns (after: State)
    requires !c.atomic && Accepted(c) && InitialOwners(c)
    requires i < |c.sections| && j < |c.sections| && c.sections[i].Owner() != c.sections[j].Owner()
    ensures Reachable(c, after) && TestedTwice(after)
  {
    var a := c.sections[0].Owner();
    var k := FirstOther(c, a, if c.sections[i].Owner() != a then i else j);
    var b := c.sections[k].Owner();
    hide Inv, Exec, Init, Enabled, Apply, TestedTwice, Reachable;
    var none: seq<Action> := [];
    FirstStates(c, none, a, b);
    var run1, s1 := BeginAt(c, none, Init(c), a);
    var run2, s2 := CreateBlock(c, run1, s1, a);
    var run3, s3 := BeginAt(c, run2, s2, b);
    var run4, s4 := SkipTo(c, run3, s3, b, k);
    var run5, s5 := CreateBlock(c, run4, s4, b);
    after := OverlappingSuffixes(c, run5, s5, a, b);
  }

  /** For sections owned by initial users: a run can test some user twice exactly
      when two of the sections have different owners. */
  lemma TestedTwiceExactly(c: Config)
    requires !c.atomic && Accepted(c) && InitialOwners(c) && GodAbsorbed(c)
    ensures (exists s :: Reachable(c, s) && TestedTwice(s))
       <==> exists i, j :: 0 <= i < |c.sections| && 0 <= j < |c.sections|
                           && c.sections[i].Owner() != c.sections[j].Owner()
  {
    if i, j :| 0 <= i < |c.sections| && 0 <= j < |c.sections|
               && c.sections[i].Owner() != c.sections[j].Owner() {
      var s := TwoOwnersCanTestTwice(c, i, j);
    } else {
      var owner := if c.sections == [] then 0 else c.sections[0].Owner();
      assert Exclusive(c, owner);
      forall s | Reachable(c, s)
        ensures !TestedTwice(s)
      {
        EachUserIsTestedOnce(c, s, owner);
      }
    }
  }
}
