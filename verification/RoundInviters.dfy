/** process/verification.go: whose sections are spawned, and how often, told by the
    inviter that a section names; a section that names none belongs to user 0. */
module RoundInviters {
  import opened Wrappers
  import opened Round
  import opened RoundSafety
  import opened RoundTesting
  import opened RoundGodNode
  import opened RoundLateInviter
  import opened RoundProgress

  predicate BelongsTo(section: Section, user: nat) {
    section.inviter == Some(user) || (section.inviter.None? && user == 0)
  }

  // ---------- who works on a section ----------

  /** Whoever checks, creates or has created for a section is the user it belongs to. */
  lemma WhoInvites(c: Config, s: State, g: nat)
    requires Reachable(c, s) && g < |s.gs|
    requires s.gs[g].phase.Checked? || s.gs[g].phase.Creating? || s.gs[g].phase.Created?
    ensures s.gs[g].next < |c.sections| && BelongsTo(c.sections[s.gs[g].next], s.gs[g].user)
  {
    var actions :| Exec(c, Init(c), actions) == Some(s);
    ExecKeepsInv(c, actions);
    assert GoroutineOk(c, s, g);
    hide Exec;
  }

  /** In the loop a goroutine begins with a section that belongs to its user, and passes
      any other. */
  lemma WhoGoesOn(c: Config, s: State, g: nat)
    requires g < |s.gs| && s.gs[g].phase.Looping? && s.gs[g].next < |c.sections|
    ensures Enabled(c, s, Action(g, Check)) <==> BelongsTo(c.sections[s.gs[g].next], s.gs[g].user)
    ensures Enabled(c, s, Action(g, Skip)) <==> !BelongsTo(c.sections[s.gs[g].next], s.gs[g].user)
  {
  }

  // ---------- how often it is spawned ----------

  function PastOne(t: Goroutine, user: nat, k: nat): nat {
    if t.user == user && t.next > k then 1 else 0
  }

  /** The goroutines of a user that are past section k. */
  function Past(gs: seq<Goroutine>, user: nat, k: nat): nat {
    if gs == [] then 0 else Past(gs[..|gs| - 1], user, k) + PastOne(gs[|gs| - 1], user, k)
  }

  lemma {:induction false} PastUpdate(gs: seq<Goroutine>, user: nat, k: nat, g: nat, t: Goroutine)
    requires g < |gs|
    ensures Past(gs[g := t], user, k) + PastOne(gs[g], user, k) == Past(gs, user, k) + PastOne(t, user, k)
  {
    hide PastOne;
    var n := |gs| - 1;
    if g < n {
      PastUpdate(gs[..n], user, k, g, t);
      assert gs[g := t][..n] == gs[..n][g := t];
    } else {
      assert gs[g := t][..n] == gs[..n];
    }
  }

  lemma {:induction false} PastAppend(gs: seq<Goroutine>, more: seq<Goroutine>, user: nat, k: nat)
    requires forall g :: 0 <= g < |more| ==> more[g].next == 0
    ensures Past(gs + more, user, k) == Past(gs, user, k)
  {
    if more == [] {
      assert gs + more == gs;
    } else {
      PastAppend(gs, more[..|more| - 1], user, k);
      assert (gs + more)[..|gs + more| - 1] == gs + more[..|more| - 1];
    }
  }

  lemma {:induction false} NobodyPast(gs: seq<Goroutine>, user: nat, k: nat)
    requires forall g :: 0 <= g < |gs| && gs[g].user == user ==> gs[g].next <= k
    ensures Past(gs, user, k) == 0
  {
    if gs != [] {
      NobodyPast(gs[..|gs| - 1], user, k);
    }
  }

  /** Section k was spawned once by every goroutine of this user that is past it. */
  predicate SpawnedBy(s: State, user: nat, k: nat) {
    k < |s.spawned| && s.spawned[k] == Past(s.gs, user, k)
  }

  lemma SuffixSpawnedBy(c: Config, s: State, g: nat, user: nat, k: nat)
    requires g < |s.gs| && Matches(c, s.gs[g]) && |s.spawned| == |c.sections|
    requires c.sections[s.gs[g].next].count <= |s.users|
    requires k < |c.sections| && BelongsTo(c.sections[k], user) && SpawnedBy(s, user, k)
    ensures SpawnedBy(TakeSuffix(c, s, g), user, k)
  {
    var t := s.gs[g];
    var moved := s.gs[g := Goroutine(t.user, t.next + 1, Looping)];
    PastUpdate(s.gs, user, k, g, moved[g]);
    PastAppend(moved, Newcomers(s.users, c.sections[t.next].count), user, k);
    hide Past;
  }

  lemma LocalSpawnedBy(c: Config, s: State, a: Action, user: nat, k: nat)
    requires Enabled(c, s, a) && a.move !in {Release, Spawn}
    requires k < |c.sections| && BelongsTo(c.sections[k], user) && SpawnedBy(s, user, k)
    ensures SpawnedBy(Apply(c, s, a), user, k)
  {
    PastUpdate(s.gs, user, k, a.g, Apply(c, s, a).gs[a.g]);
    hide Past;
  }

  lemma StepSpawnedBy(c: Config, s: State, a: Action, user: nat, k: nat)
    requires Enabled(c, s, a) && |s.spawned| == |c.sections|
    requires k < |c.sections| && BelongsTo(c.sections[k], user) && SpawnedBy(s, user, k)
    ensures SpawnedBy(Apply(c, s, a), user, k)
  {
    if a.move == Release {
      var released := Released(c, s, a.g);
      PastUpdate(s.gs, user, k, a.g, released.gs[a.g]);
      hide Past;
      if c.atomic {
        SuffixSpawnedBy(c, released, a.g, user, k);
      }
    } else if a.move == Spawn {
      SuffixSpawnedBy(c, s, a.g, user, k);
    } else {
      LocalSpawnedBy(c, s, a, user, k);
    }
  }

  lemma {:induction false} ExecSpawnedBy(c: Config, actions: seq<Action>, user: nat, k: nat)
    requires Exec(c, Init(c), actions).Some? && k < |c.sections| && BelongsTo(c.sections[k], user)
    ensures SpawnedBy(Exec(c, Init(c), actions).value, user, k)
  {
    if actions == [] {
      NobodyPast(Init(c).gs, user, k);
    } else {
      var init := actions[..|actions| - 1];
      ExecSpawnedBy(c, init, user, k);
      ExecKeepsInv(c, init);
      hide SpawnedBy, GoroutineOk, BelongsTo;
      StepSpawnedBy(c, Exec(c, Init(c), init).value, actions[|actions| - 1], user, k);
    }
  }

  /** In every reachable state, in every configuration, a section was spawned as often as
      goroutines of its inviter have passed it. */
  lemma SpawnedByItsInviter(c: Config, s: State, user: nat, k: nat)
    requires Reachable(c, s) && k < |c.sections| && BelongsTo(c.sections[k], user)
    ensures k < |s.spawned| && s.spawned[k] == Past(s.gs, user, k)
  {
    var actions :| Exec(c, Init(c), actions) == Some(s);
    ExecSpawnedBy(c, actions, user, k);
  }

  // ---------- an inviter that gives up ----------

  /** Later goroutines test later users, and what is created lies behind the initial users. */
  predicate Placed(c: Config, s: State, g: nat)
    requires g < |s.gs|
  {
    var t := s.gs[g];
    && (if g < c.initial then t.user == g else t.user >= c.initial)
    && match t.phase
       case Checked(exclude) => !exclude
       case Creating(base, total, _) =>
         t.next < |c.sections| && base >= c.initial && total == c.sections[t.next].count
       case Created => t.next < |c.sections| && |s.users| >= c.initial + c.sections[t.next].count
       case _ => true
  }

  ghost predicate PlacedInv(c: Config, s: State) {
    Inv(c, s) && forall g :: 0 <= g < |s.gs| ==> Placed(c, s, g)
  }

  lemma LocalPlaced(c: Config, s: State, a: Action, g: nat)
    requires PlacedInv(c, s) && GodAbsorbed(c) && Enabled(c, s, a) && a.move !in {Release, Spawn} && g < |s.gs|
    ensures g < |Apply(c, s, a).gs| && Placed(c, Apply(c, s, a), g)
  {
    InitialUsersStay(c, s);
    assert Placed(c, s, g) && GoroutineOk(c, s, g);
    hide Inv;
  }

  lemma LocalKeepsPlaced(c: Config, s: State, a: Action)
    requires PlacedInv(c, s) && GodAbsorbed(c) && Enabled(c, s, a) && a.move !in {Release, Spawn}
    ensures PlacedInv(c, Apply(c, s, a))
  {
    hide Inv, Placed, Enabled, Apply;
    var after := Apply(c, s, a);
    StepKeepsInv(c, s, a);
    LocalMoveGrows(c, s, a);
    forall g | 0 <= g < |after.gs|
      ensures Placed(c, after, g)
    {
      LocalPlaced(c, s, a, g);
    }
  }

  lemma ReleasedPlaced(c: Config, s: State, g: nat, h: nat)
    requires g < |s.gs| && h < |s.gs| && s.gs[g].phase.Creating? && s.gs[g].phase.left == 0
    requires GoroutineOk(c, s, g) && Placed(c, s, g) && Placed(c, s, h)
    ensures Placed(c, Released(c, s, g), h)
  {
  }

  lemma ReleasedKeepsPlaced(c: Config, s: State, g: nat)
    requires PlacedInv(c, s) && g < |s.gs| && s.gs[g].phase.Creating? && s.gs[g].phase.left == 0
    ensures PlacedInv(c, Released(c, s, g))
  {
    ReleasingKeepsInv(c, s, g);
    assert GoroutineOk(c, s, g);
    hide Inv, Placed;
    forall h | 0 <= h < |s.gs|
      ensures Placed(c, Released(c, s, g), h)
    {
      ReleasedPlaced(c, s, g, h);
    }
  }

  lemma SuffixPlaced(c: Config, s: State, g: nat, h: nat)
    requires g < |s.gs| && Matches(c, s.gs[g]) && |s.spawned| == |c.sections| && c.initial <= |s.gs|
    requires c.initial + c.sections[s.gs[g].next].count <= |s.users|
    requires forall i :: 0 <= i < |s.users| ==> s.users[i] == i
    requires h < |TakeSuffix(c, s, g).gs| && (h < |s.gs| ==> Placed(c, s, h))
    ensures Placed(c, TakeSuffix(c, s, g), h)
  {
  }

  lemma SpawningKeepsPlaced(c: Config, s: State, g: nat)
    requires PlacedInv(c, s) && g < |s.gs| && s.gs[g].phase.Created? && c.initial <= |s.gs|
    ensures Matches(c, s.gs[g]) && c.sections[s.gs[g].next].count <= |s.users|
    ensures PlacedInv(c, TakeSuffix(c, s, g))
  {
    SpawningKeepsInv(c, s, g);
    assert Placed(c, s, g) && |s.spawned| == |c.sections|;
    assert forall i :: 0 <= i < |s.users| ==> s.users[i] == i;
    hide Inv, Placed, TakeSuffix;
    forall h | 0 <= h < |TakeSuffix(c, s, g).gs|
      ensures Placed(c, TakeSuffix(c, s, g), h)
    {
      SuffixPlaced(c, s, g, h);
    }
  }

  lemma StepKeepsPlaced(c: Config, s: State, a: Action)
    requires PlacedInv(c, s) && GodAbsorbed(c) && Enabled(c, s, a) && c.initial <= |s.gs|
    ensures PlacedInv(c, Apply(c, s, a)) && c.initial <= |Apply(c, s, a).gs|
  {
    if a.move == Release {
      ReleasedKeepsPlaced(c, s, a.g);
      if c.atomic {
        SpawningKeepsPlaced(c, Released(c, s, a.g), a.g);
      }
    } else if a.move == Spawn {
      SpawningKeepsPlaced(c, s, a.g);
    } else {
      LocalKeepsPlaced(c, s, a);
      LocalMoveGrows(c, s, a);
    }
  }

  lemma {:induction false} ExecKeepsPlaced(c: Config, actions: seq<Action>)
    requires GodAbsorbed(c) && Exec(c, Init(c), actions).Some?
    ensures PlacedInv(c, Exec(c, Init(c), actions).value) && c.initial <= |Exec(c, Init(c), actions).value.gs|
  {
    if actions == [] {
      InvAtStart(c);
    } else {
      var init := actions[..|actions| - 1];
      ExecKeepsPlaced(c, init);
      hide PlacedInv;
      StepKeepsPlaced(c, Exec(c, Init(c), init).value, actions[|actions| - 1]);
    }
  }

  /** The god bot alone: while its goroutine has not begun, or has given up, there is no other. */
  predicate NobodyElse(s: State) {
    |s.gs| >= 1 && (s.gs[0].phase.Preparing? || (s.gs[0].phase.Done? && s.gs[0].next == 0) ==> |s.gs| == 1)
  }

  lemma StepKeepsNobodyElse(c: Config, s: State, a: Action)
    requires NobodyElse(s) && Enabled(c, s, a) && c.sections != []
    ensures NobodyElse(Apply(c, s, a))
  {
  }

  lemma {:induction false} ExecKeepsNobodyElse(c: Config, actions: seq<Action>)
    requires c.initial == 1 && c.sections != [] && Exec(c, Init(c), actions).Some?
    ensures NobodyElse(Exec(c, Init(c), actions).value)
  {
    if actions != [] {
      var init := actions[..|actions| - 1];
      ExecKeepsNobodyElse(c, init);
      hide NobodyElse;
      StepKeepsNobodyElse(c, Exec(c, Init(c), init).value, actions[|actions| - 1]);
    }
  }

  lemma GivenUp(c: Config, actions: seq<Action>, s: State, user: nat)
    requires Exec(c, Init(c), actions) == Some(s) && user < c.initial && Action(user, Exit) in actions
    ensures user < |s.gs| && s.gs[user].phase.Done? && s.gs[user].next == 0
  {
    ExecEndsOk(c, actions);
    assert EndOk(c, actions, s, user);
    hide Exec;
  }

  lemma PlacedIsAlone(c: Config, s: State, user: nat, g: nat)
    requires user < c.initial && g < |s.gs| && Placed(c, s, g) && s.gs[g].user == user
    ensures g == user
  {
  }

  /** A user that exists at the start and has given up has no second goroutine. */
  lemma GivenUpAlone(c: Config, actions: seq<Action>, s: State, user: nat)
    requires Exec(c, Init(c), actions) == Some(s) && user < c.initial && Action(user, Exit) in actions
    requires c.sections != []
    ensures user < |s.gs| && s.gs[user].next == 0
    ensures forall g :: 0 <= g < |s.gs| && s.gs[g].user == user ==> g == user
  {
    GivenUp(c, actions, s, user);
    hide Exec, Inv, Placed;
    if GodAbsorbed(c) {
      ExecKeepsPlaced(c, actions);
      forall g | 0 <= g < |s.gs| && s.gs[g].user == user
        ensures g == user
      {
        PlacedIsAlone(c, s, user, g);
      }
    } else {
      ExecKeepsNobodyElse(c, actions);
    }
  }

  /** No section of a user that exists at the start is ever spawned in a run in which that
      user took the early return; a section without an inviter is user 0's. */
  lemma NeverSpawnedForIt(c: Config, actions: seq<Action>, s: State, user: nat, k: nat)
    requires Exec(c, Init(c), actions) == Some(s) && user < c.initial && Action(user, Exit) in actions
    requires k < |c.sections| && BelongsTo(c.sections[k], user)
    ensures k < |s.spawned| && s.spawned[k] == 0
  {
    hide Exec, BelongsTo;
    ExecSpawnedBy(c, actions, user, k);
    GivenUpAlone(c, actions, s, user);
    NobodyPast(s.gs, user, k);
  }

  // ---------- the run in which all inviters take part ----------

  ghost predicate InvitersAtStart(c: Config) {
    forall k :: 0 <= k < |c.sections| ==>
      (c.sections[k].inviter.None? ==> c.initial > 0)
      && (c.sections[k].inviter.Some? ==> c.sections[k].inviter.value < c.initial)
  }

  /** The goroutines of the first n users have gone through all sections. */
  ghost predicate FirstDone(c: Config, s: State, n: nat) {
    && s.lock.None? && c.initial <= |s.gs| && |s.spawned| == |c.sections| && n <= c.initial
    && (forall g :: 0 <= g < n ==> s.gs[g].phase.Done?)
    && (forall g :: n <= g < c.initial ==> s.gs[g] == Goroutine(g, 0, Preparing))
    && (forall g :: c.initial <= g < |s.gs| ==> s.gs[g].phase.Preparing?)
    && (forall k :: 0 <= k < |c.sections| ==>
          s.spawned[k] == if c.sections[k].Owner() < n then 1 else 0)
  }

  lemma NextIsDone(c: Config, actions: seq<Action>, s: State, n: nat) returns (more: seq<Action>, after: State)
    requires !c.atomic && Accepted(c) && Exec(c, Init(c), actions) == Some(s) && FirstDone(c, s, n) && n < c.initial
    ensures Exec(c, Init(c), more) == Some(after) && FirstDone(c, after, n + 1)
  {
    hide Exec, Init, Accepted;
    var run1, s1 := BeginAt(c, actions, s, n);
    more, after := RunThrough(c, run1, s1, n);
  }

  lemma {:induction false} AllAreDone(c: Config, actions: seq<Action>, s: State, n: nat)
    returns (more: seq<Action>, after: State)
    requires !c.atomic && Accepted(c) && Exec(c, Init(c), actions) == Some(s) && FirstDone(c, s, n)
    ensures Exec(c, Init(c), more) == Some(after) && FirstDone(c, after, c.initial)
    decreases c.initial - n
  {
    hide Exec, Init, Accepted;
    assert n <= c.initial;
    hide FirstDone;
    if n == c.initial {
      more, after := actions, s;
    } else {
      var run1, s1 := NextIsDone(c, actions, s, n);
      more, after := AllAreDone(c, run1, s1, n + 1);
    }
  }

  lemma FirstDoneAtStart(c: Config)
    ensures FirstDone(c, Init(c), 0)
  {
  }

  /** When the inviters exist at the start, some run spawns every section, has everybody
      done and the counter at zero, with exactly the summed counts added. */
  lemma EverySectionCanBeSpawned(c: Config) returns (s: State)
    requires !c.atomic && Accepted(c) && GodAbsorbed(c) && InvitersAtStart(c)
    ensures Reachable(c, s) && EverybodyDone(s) && s.wg == 0
    ensures |s.users| == c.initial + Total(c.sections)
    ensures |s.spawned| == |c.sections| && forall k :: 0 <= k < |c.sections| ==> s.spawned[k] == 1
  {
    var none: seq<Action> := [];
    assert Exec(c, Init(c), none) == Some(Init(c));
    FirstDoneAtStart(c);
    hide Exec, Init, Accepted, Total;
    var run1, s1 := AllAreDone(c, none, Init(c), 0);
    var run2;
    run2, s := ExitAll(c, run1, s1, 0);
    WitnessRun(c, run2, s);
    SpawnedOnceEach(c, s);
    PopulationAtTheEnd(c, s);
  }

  /** One user and one section without an inviter: the user can spawn it all. */
  lemma OneUserSpawnsItAll(count: nat) returns (s: State)
    requires count >= 1
    ensures var c := Config([Section(count, None)], 1, false, false);
            Reachable(c, s) && EverybodyDone(s) && s.wg == 0 && |s.users| == 1 + count
  {
    var sections := [Section(count, None)];
    var c := Config(sections, 1, false, false);
    assert sections[..0] == [];
    assert Total(sections) == count;
    s := EverySectionCanBeSpawned(c);
  }
}
