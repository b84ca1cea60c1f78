/** Safety of the round: the WaitGroup over every run, who is tested, and when
    taking the new users after unlocking goes wrong. */
module RoundSafety {
  import opened Wrappers
  import opened Round

  /** What an accepted scenario guarantees: every section creates somebody. */
  ghost predicate Accepted(c: Config) {
    forall k :: 0 <= k < |c.sections| ==> c.sections[k].count >= 1
  }

  /** The god node is not taken for a newcomer again. */
  predicate GodAbsorbed(c: Config) {
    c.godMode ==> c.initial >= 2 || c.sections == []
  }

  ghost predicate InitialOwners(c: Config) {
    forall k :: 0 <= k < |c.sections| ==> c.sections[k].Owner() < c.initial
  }

  // ---------- every configuration ----------

  /** In every reachable state the counter is the goroutines still running plus what
      the sections not yet spawned account for; positions carry their own index; and
      the blocks created so far lie end to end behind the initial users. */
  lemma CounterEquation(c: Config, s: State)
    requires Reachable(c, s)
    ensures |s.spawned| == |c.sections| && s.wg == Running(s.gs) + Pending(c.sections, s.spawned)
    ensures forall i :: 0 <= i < |s.users| ==> s.users[i] == i
    ensures |s.users| == c.initial + Sizes(s.blocks) + Partial(s)
    ensures forall j :: 0 <= j < |s.blocks| ==> s.blocks[j].base == c.initial + Sizes(s.blocks[..j])
  {
    var actions :| Exec(c, Init(c), actions) == Some(s);
    ExecKeepsInv(c, actions);
  }

  lemma {:induction false} SizesGrow(blocks: seq<Block>, i: nat, j: nat)
    requires i <= j <= |blocks|
    ensures Sizes(blocks[..i]) <= Sizes(blocks[..j])
  {
    if i < j {
      SizesGrow(blocks, i, j - 1);
      assert blocks[..j][..j - 1] == blocks[..j - 1];
    }
  }

  lemma SizesStep(blocks: seq<Block>, k: nat)
    requires k < |blocks|
    ensures Sizes(blocks[..k + 1]) == Sizes(blocks[..k]) + blocks[k].size
  {
    assert blocks[..k + 1][..k] == blocks[..k];
  }

  /** The index blocks that different creations produced are disjoint, whatever the interleaving. */
  lemma BlocksAreDisjoint(c: Config, s: State, i: nat, j: nat)
    requires Reachable(c, s) && i < j < |s.blocks|
    ensures c.initial <= s.blocks[i].base
    ensures s.blocks[i].base + s.blocks[i].size <= s.blocks[j].base
    ensures s.blocks[j].base + s.blocks[j].size <= |s.users|
  {
    hide *;
    CounterEquation(c, s);
    SizesGrow(s.blocks, i + 1, j);
    SizesGrow(s.blocks, j + 1, |s.blocks|);
    SizesGrow(s.blocks, 0, i);
    SizesStep(s.blocks, i);
    SizesStep(s.blocks, j);
    assert s.blocks[..|s.blocks|] == s.blocks;
  }

  // ---------- sections owned by users that exist from the start ----------

  /** A goroutine of an initial user runs under its own index and counts the god node
      never again; a goroutine of a later user owns no section. */
  predicate OwnerOk(c: Config, s: State, g: nat)
    requires g < |s.gs|
  {
    var t := s.gs[g];
    if g >= c.initial then
      t.user >= c.initial && (t.phase.Preparing? || t.phase.Looping? || t.phase.Done?)
    else
      && t.user == g
      && match t.phase
         case Checked(exclude) => !exclude
         case Creating(base, total, _) =>
           t.next < |c.sections| && base >= c.initial && total == c.sections[t.next].count
         case Created => t.next < |c.sections| && |s.users| >= c.initial + c.sections[t.next].count
         case _ => true
  }

  /** A section was spawned once if its owner is past it, and not at all otherwise. */
  predicate SpawnedByOwner(c: Config, s: State, k: nat)
    requires k < |c.sections| && k < |s.spawned|
  {
    var owner := c.sections[k].Owner();
    owner < |s.gs| && s.spawned[k] == if s.gs[owner].next > k then 1 else 0
  }

  ghost predicate SafeInv(c: Config, s: State) {
    && Inv(c, s)
    && c.initial <= |s.gs| && c.initial <= |s.users|
    && (forall g :: 0 <= g < |s.gs| ==> OwnerOk(c, s, g))
    && (forall k :: 0 <= k < |c.sections| ==> SpawnedByOwner(c, s, k))
  }

  lemma OwnerOkAfter(c: Config, s: State, a: Action, g: nat)
    requires SafeInv(c, s) && InitialOwners(c) && GodAbsorbed(c) && Enabled(c, s, a)
    requires a.move !in {Release, Spawn} && g < |s.gs|
    ensures |Apply(c, s, a).gs| == |s.gs| && OwnerOk(c, Apply(c, s, a), g)
  {
    assert OwnerOk(c, s, g) && GoroutineOk(c, s, g);
    if g == a.g && a.move == Check {
      assert c.sections[s.gs[g].next].Owner() < c.initial;
    }
  }

  lemma SpawnedAfter(c: Config, s: State, a: Action, k: nat)
    requires SafeInv(c, s) && InitialOwners(c) && Enabled(c, s, a)
    requires a.move !in {Release, Spawn} && k < |c.sections|
    ensures k < |Apply(c, s, a).spawned| && SpawnedByOwner(c, Apply(c, s, a), k)
  {
    assert SpawnedByOwner(c, s, k);
    assert OwnerOk(c, s, a.g) && OwnerOk(c, s, c.sections[k].Owner());
  }

  lemma LocalMoveGrows(c: Config, s: State, a: Action)
    requires Enabled(c, s, a) && a.move !in {Release, Spawn}
    ensures |s.users| <= |Apply(c, s, a).users| && |Apply(c, s, a).gs| == |s.gs|
  {
  }

  lemma LocalMoveKeepsSafe(c: Config, s: State, a: Action)
    requires SafeInv(c, s) && InitialOwners(c) && GodAbsorbed(c) && Enabled(c, s, a)
    requires a.move !in {Release, Spawn}
    ensures SafeInv(c, Apply(c, s, a))
  {
    hide Inv, OwnerOk, SpawnedByOwner, Apply, Enabled, InitialOwners, GodAbsorbed;
    var after := Apply(c, s, a);
    StepKeepsInv(c, s, a);
    LocalMoveGrows(c, s, a);
    forall g | 0 <= g < |after.gs|
      ensures OwnerOk(c, after, g)
    {
      OwnerOkAfter(c, s, a, g);
    }
    forall k | 0 <= k < |c.sections|
      ensures k < |after.spawned| && SpawnedByOwner(c, after, k)
    {
      SpawnedAfter(c, s, a, k);
    }
  }

  lemma ReleasedKeepsSafe(c: Config, s: State, g: nat)
    requires SafeInv(c, s) && g < |s.gs| && s.gs[g].phase.Creating? && s.gs[g].phase.left == 0
    ensures SafeInv(c, Released(c, s, g)) && g < c.initial
  {
    var after := Released(c, s, g);
    ReleasingKeepsInv(c, s, g);
    assert OwnerOk(c, s, g) && GoroutineOk(c, s, g);
    hide Inv;
    forall h | 0 <= h < |after.gs|
      ensures OwnerOk(c, after, h)
    {
      assert OwnerOk(c, s, h);
    }
    forall k | 0 <= k < |c.sections|
      ensures SpawnedByOwner(c, after, k)
    {
      assert SpawnedByOwner(c, s, k);
    }
  }

  lemma SpawningKeepsSafe(c: Config, s: State, g: nat)
    requires SafeInv(c, s) && g < |s.gs| && s.gs[g].phase.Created?
    ensures Matches(c, s.gs[g]) && c.sections[s.gs[g].next].count <= |s.users|
    ensures SafeInv(c, TakeSuffix(c, s, g))
  {
    SpawningKeepsInv(c, s, g);
    var after := TakeSuffix(c, s, g);
    assert OwnerOk(c, s, g);
    var count := c.sections[s.gs[g].next].count;
    forall h | 0 <= h < |after.gs|
      ensures OwnerOk(c, after, h)
    {
      if h < |s.gs| {
        assert OwnerOk(c, s, h);
      } else {
        assert after.gs[h].user == s.users[|s.users| - count + (h - |s.gs|)];
      }
    }
    forall k | 0 <= k < |c.sections|
      ensures SpawnedByOwner(c, after, k)
    {
      assert SpawnedByOwner(c, s, k);
    }
  }

  lemma StepKeepsSafe(c: Config, s: State, a: Action)
    requires SafeInv(c, s) && InitialOwners(c) && GodAbsorbed(c) && Enabled(c, s, a)
    ensures SafeInv(c, Apply(c, s, a))
  {
    if a.move == Release {
      ReleasedKeepsSafe(c, s, a.g);
      if c.atomic {
        SpawningKeepsSafe(c, Released(c, s, a.g), a.g);
      }
    } else if a.move == Spawn {
      SpawningKeepsSafe(c, s, a.g);
    } else {
      LocalMoveKeepsSafe(c, s, a);
    }
  }

  lemma SafeAtStart(c: Config)
    requires InitialOwners(c)
    ensures SafeInv(c, Init(c))
  {
    InvAtStart(c);
  }

  lemma {:induction false} ExecKeepsSafe(c: Config, actions: seq<Action>)
    requires InitialOwners(c) && GodAbsorbed(c) && Exec(c, Init(c), actions).Some?
    ensures SafeInv(c, Exec(c, Init(c), actions).value)
  {
    if actions == [] {
      SafeAtStart(c);
    } else {
      var init := actions[..|actions| - 1];
      ExecKeepsSafe(c, init);
      StepKeepsSafe(c, Exec(c, Init(c), init).value, actions[|actions| - 1]);
    }
  }

  lemma {:induction false} PendingIsWhatIsNotSpawned(sections: seq<Section>, spawned: seq<nat>)
    requires |sections| == |spawned|
    requires forall k :: 0 <= k < |sections| ==> spawned[k] <= 1 && sections[k].count >= 1
    ensures Pending(sections, spawned) >= 0
    ensures Pending(sections, spawned) == 0 <==> forall k :: 0 <= k < |sections| ==> spawned[k] == 1
  {
    if sections != [] {
      var n := |sections| - 1;
      PendingIsWhatIsNotSpawned(sections[..n], spawned[..n]);
      assert forall k :: 0 <= k < n ==> spawned[..n][k] == spawned[k];
    }
  }

  lemma {:induction false} NoneRunning(gs: seq<Goroutine>)
    ensures Running(gs) == 0 <==> forall g :: 0 <= g < |gs| ==> gs[g].phase.Done?
  {
    if gs != [] {
      var n := |gs| - 1;
      NoneRunning(gs[..n]);
      assert forall g :: 0 <= g < n ==> gs[..n][g] == gs[g];
    }
  }

  /** When the owners of all sections exist from the start (and, with the god node,
      at least two users do), the WaitGroup never goes negative, and it reaches zero
      exactly when every section was spawned once and every goroutine has finished. */
  lemma WaitGroupIsSafe(c: Config, s: State)
    requires Accepted(c) && InitialOwners(c) && GodAbsorbed(c) && Reachable(c, s)
    ensures s.wg >= 0
    ensures |s.spawned| == |c.sections| && forall k :: 0 <= k < |c.sections| ==> s.spawned[k] <= 1
    ensures s.wg == 0 <==> (forall k :: 0 <= k < |c.sections| ==> s.spawned[k] == 1)
                           && (forall g :: 0 <= g < |s.gs| ==> s.gs[g].phase.Done?)
  {
    var actions :| Exec(c, Init(c), actions) == Some(s);
    ExecKeepsSafe(c, actions);
    forall k | 0 <= k < |c.sections|
      ensures s.spawned[k] <= 1 && c.sections[k].count >= 1
    {
      assert SpawnedByOwner(c, s, k);
    }
    hide Exec, OwnerOk, SpawnedByOwner, GoroutineOk, Pending, Running;
    PendingIsWhatIsNotSpawned(c.sections, s.spawned);
    NoneRunning(s.gs);
  }

  // ---------- population, whoever owns the sections ----------

  /** Users a goroutine has created and not yet sent to testing. */
  function MadeBy(c: Config, t: Goroutine): nat {
    match t.phase
    case Creating(_, total, left) => if left <= total then total - left else 0
    case Created => if t.next < |c.sections| then c.sections[t.next].count else 0
    case _ => 0
  }

  function InFlight(c: Config, gs: seq<Goroutine>): nat {
    if gs == [] then 0 else InFlight(c, gs[..|gs| - 1]) + MadeBy(c, gs[|gs| - 1])
  }

  lemma {:induction false} InFlightUpdate(c: Config, gs: seq<Goroutine>, g: nat, t: Goroutine)
    requires g < |gs|
    ensures InFlight(c, gs[g := t]) + MadeBy(c, gs[g]) == InFlight(c, gs) + MadeBy(c, t)
  {
    hide MadeBy;
    var n := |gs| - 1;
    if g < n {
      InFlightUpdate(c, gs[..n], g, t);
      assert gs[g := t][..n] == gs[..n][g := t];
    } else {
      assert gs[g := t][..n] == gs[..n];
    }
  }

  lemma {:induction false} InFlightAppend(c: Config, gs: seq<Goroutine>, more: seq<Goroutine>)
    requires forall g :: 0 <= g < |more| ==> more[g].phase.Preparing?
    ensures InFlight(c, gs + more) == InFlight(c, gs)
  {
    if more == [] {
      assert gs + more == gs;
    } else {
      InFlightAppend(c, gs, more[..|more| - 1]);
      assert (gs + more)[..|gs + more| - 1] == gs + more[..|more| - 1];
    }
  }

  lemma {:induction false} NothingInFlight(c: Config, gs: seq<Goroutine>)
    requires forall g :: 0 <= g < |gs| ==> gs[g].phase.Preparing? || gs[g].phase.Done?
    ensures InFlight(c, gs) == 0
  {
    if gs != [] {
      NothingInFlight(c, gs[..|gs| - 1]);
    }
  }

  /** The god node is not taken for a newcomer, so a creation has its section's size. */
  predicate WholeSection(c: Config, t: Goroutine) {
    match t.phase
    case Checked(exclude) => !exclude
    case Creating(_, total, _) => t.next < |c.sections| && total == c.sections[t.next].count
    case _ => true
  }

  /** Users that exist and users still accounted for by sections are conserved. */
  ghost predicate Conserved(c: Config, s: State) {
    && |s.spawned| == |c.sections|
    && |s.users| + Pending(c.sections, s.spawned) == c.initial + Total(c.sections) + InFlight(c, s.gs)
  }

  ghost predicate PopulationInv(c: Config, s: State) {
    && Inv(c, s)
    && (forall g :: 0 <= g < |s.gs| ==> WholeSection(c, s.gs[g]))
    && Conserved(c, s)
  }

  lemma InitialUsersStay(c: Config, s: State)
    requires Inv(c, s)
    ensures |s.users| >= c.initial
  {
    hide GoroutineOk, Pending, Running;
  }

  lemma WholeSectionAfter(c: Config, s: State, a: Action, g: nat)
    requires PopulationInv(c, s) && GodAbsorbed(c) && Enabled(c, s, a)
    requires a.move !in {Release, Spawn} && g < |s.gs|
    ensures |Apply(c, s, a).gs| == |s.gs| && WholeSection(c, Apply(c, s, a).gs[g])
  {
    InitialUsersStay(c, s);
    assert WholeSection(c, s.gs[g]) && GoroutineOk(c, s, g);
    hide Conserved, Inv;
  }

  /** A step adds to the population what it adds to its goroutine's users. */
  lemma StepMakes(c: Config, s: State, a: Action)
    requires Enabled(c, s, a) && GoroutineOk(c, s, a.g) && a.move !in {Release, Spawn}
    ensures var after := Apply(c, s, a);
            && after.gs == s.gs[a.g := after.gs[a.g]] && after.spawned == s.spawned
            && |after.users| + MadeBy(c, s.gs[a.g]) == |s.users| + MadeBy(c, after.gs[a.g])
  {
  }

  lemma LocalMoveConserves(c: Config, s: State, a: Action)
    requires PopulationInv(c, s) && GodAbsorbed(c) && Enabled(c, s, a) && a.move !in {Release, Spawn}
    ensures PopulationInv(c, Apply(c, s, a))
  {
    var after := Apply(c, s, a);
    StepKeepsInv(c, s, a);
    assert GoroutineOk(c, s, a.g);
    hide Inv, WholeSection, MadeBy, InFlight, Pending, Total, Apply, Enabled, GoroutineOk;
    StepMakes(c, s, a);
    InFlightUpdate(c, s.gs, a.g, after.gs[a.g]);
    forall g | 0 <= g < |after.gs|
      ensures WholeSection(c, after.gs[g])
    {
      WholeSectionAfter(c, s, a, g);
    }
  }

  lemma ReleasedConserves(c: Config, s: State, g: nat)
    requires PopulationInv(c, s) && g < |s.gs| && s.gs[g].phase.Creating? && s.gs[g].phase.left == 0
    ensures PopulationInv(c, Released(c, s, g))
  {
    var after := Released(c, s, g);
    ReleasingKeepsInv(c, s, g);
    assert WholeSection(c, s.gs[g]);
    hide Inv, InFlight, Pending, Total;
    InFlightUpdate(c, s.gs, g, after.gs[g]);
  }

  lemma SuffixIsWhole(c: Config, s: State, g: nat, h: nat)
    requires g < |s.gs| && Matches(c, s.gs[g]) && |s.spawned| == |c.sections|
    requires c.sections[s.gs[g].next].count <= |s.users|
    requires h < |TakeSuffix(c, s, g).gs| && (h < |s.gs| ==> WholeSection(c, s.gs[h]))
    ensures WholeSection(c, TakeSuffix(c, s, g).gs[h])
  {
  }

  lemma SuffixConserves(c: Config, s: State, g: nat)
    requires Conserved(c, s) && g < |s.gs| && s.gs[g].phase.Created?
    requires Matches(c, s.gs[g]) && c.sections[s.gs[g].next].count <= |s.users|
    ensures Conserved(c, TakeSuffix(c, s, g))
  {
    hide InFlight, Pending, Total;
    var t := s.gs[g];
    var moved := s.gs[g := Goroutine(t.user, t.next + 1, Looping)];
    InFlightUpdate(c, s.gs, g, moved[g]);
    InFlightAppend(c, moved, Newcomers(s.users, c.sections[t.next].count));
    PendingUpdate(c.sections, s.spawned, t.next);
  }

  lemma SpawningConserves(c: Config, s: State, g: nat)
    requires PopulationInv(c, s) && g < |s.gs| && s.gs[g].phase.Created?
    ensures Matches(c, s.gs[g]) && c.sections[s.gs[g].next].count <= |s.users|
    ensures PopulationInv(c, TakeSuffix(c, s, g))
  {
    SpawningKeepsInv(c, s, g);
    hide Inv;
    SuffixConserves(c, s, g);
    var after := TakeSuffix(c, s, g);
    hide WholeSection, Conserved;
    forall h | 0 <= h < |after.gs|
      ensures WholeSection(c, after.gs[h])
    {
      SuffixIsWhole(c, s, g, h);
    }
  }

  lemma StepConserves(c: Config, s: State, a: Action)
    requires PopulationInv(c, s) && GodAbsorbed(c) && Enabled(c, s, a)
    ensures PopulationInv(c, Apply(c, s, a))
  {
    if a.move == Release {
      ReleasedConserves(c, s, a.g);
      if c.atomic {
        SpawningConserves(c, Released(c, s, a.g), a.g);
      }
    } else if a.move == Spawn {
      SpawningConserves(c, s, a.g);
    } else {
      LocalMoveConserves(c, s, a);
    }
  }

  lemma {:induction false} ExecConserves(c: Config, actions: seq<Action>)
    requires GodAbsorbed(c) && Exec(c, Init(c), actions).Some?
    ensures PopulationInv(c, Exec(c, Init(c), actions).value)
  {
    if actions == [] {
      InvAtStart(c);
      PendingAtStart(c.sections, Init(c).spawned);
      NothingInFlight(c, Init(c).gs);
    } else {
      var init := actions[..|actions| - 1];
      ExecConserves(c, init);
      hide PopulationInv;
      StepConserves(c, Exec(c, Init(c), init).value, actions[|actions| - 1]);
    }
  }

  ghost predicate EverybodyDone(s: State) {
    forall g :: 0 <= g < |s.gs| ==> s.gs[g].phase.Done?
  }

  /** In every reachable state, whoever owns the sections and however they interleave,
      users and counter together are what the round was charged with plus the users
      made but not yet tested and the goroutines running. */
  lemma UsersPlusCounter(c: Config, s: State)
    requires GodAbsorbed(c) && Reachable(c, s)
    ensures |s.users| + s.wg == c.initial + Total(c.sections) + InFlight(c, s.gs) + Running(s.gs)
    ensures EverybodyDone(s) ==> |s.users| + s.wg == c.initial + Total(c.sections)
  {
    var actions :| Exec(c, Init(c), actions) == Some(s);
    ExecConserves(c, actions);
    hide Exec, GoroutineOk, WholeSection, MadeBy, Pending, Total;
    NoneRunning(s.gs);
    if EverybodyDone(s) {
      NothingInFlight(c, s.gs);
    }
  }

  /** When the round is over, process.users has grown by exactly the summed counts if
      and only if the counter came out at zero. */
  lemma PopulationAtTheEnd(c: Config, s: State)
    requires GodAbsorbed(c) && Reachable(c, s) && EverybodyDone(s)
    ensures |s.users| == c.initial + Total(c.sections) <==> s.wg == 0
  {
    UsersPlusCounter(c, s);
  }

  /** The bot takes a round for over as soon as the counter is zero. It has all its users
      then, and no others exactly when nobody is still running. */
  lemma ZeroExactly(c: Config, s: State)
    requires GodAbsorbed(c) && Reachable(c, s) && s.wg == 0
    ensures |s.users| >= c.initial + Total(c.sections)
    ensures |s.users| == c.initial + Total(c.sections) <==> EverybodyDone(s)
  {
    UsersPlusCounter(c, s);
    hide Reachable, InFlight, Running, Total;
    NoneRunning(s.gs);
  }

  /** With inviters that exist at the start, nobody can still be running then. */
  lemma ZeroMeansDone(c: Config, s: State)
    requires Accepted(c) && InitialOwners(c) && GodAbsorbed(c) && Reachable(c, s) && s.wg == 0
    ensures EverybodyDone(s) && |s.users| == c.initial + Total(c.sections)
  {
    WaitGroupIsSafe(c, s);
    ZeroExactly(c, s);
  }

  lemma {:induction false} NothingPending(sections: seq<Section>, spawned: seq<nat>)
    requires |sections| == |spawned| && forall k :: 0 <= k < |spawned| ==> spawned[k] == 1
    ensures Pending(sections, spawned) == 0
  {
    if sections != [] {
      NothingPending(sections[..|sections| - 1], spawned[..|sections| - 1]);
    }
  }

  /** When every section was spawned once, the counter is the goroutines still running:
      it is zero exactly when everybody is done. */
  lemma SpawnedOnceEach(c: Config, s: State)
    requires Reachable(c, s) && forall k :: 0 <= k < |s.spawned| ==> s.spawned[k] == 1
    ensures s.wg == Running(s.gs) && (s.wg == 0 <==> EverybodyDone(s))
  {
    CounterEquation(c, s);
    NothingPending(c.sections, s.spawned);
    NoneRunning(s.gs);
  }
}
