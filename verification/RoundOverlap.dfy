/** Who can be tested twice, wherever the inviters come from: going through the sections
    one at a time decides whether two inviters can ever be at work at once. */
module RoundOverlap {
  import opened Wrappers
  import opened Round
  import opened RoundSafety
  import opened RoundTesting
  import opened RoundGodNode

  // ---------- one section at a time ----------

  /** Section k is still to be spawned and its inviter is among the first n users. */
  predicate Open(sections: seq<Section>, n: nat, spawned: seq<bool>, k: nat)
    requires |spawned| == |sections|
  {
    k < |sections| && !spawned[k] && sections[k].Owner() < n
  }

  /** Two users that exist both have a section to spawn. */
  predicate Contended(sections: seq<Section>, n: nat, spawned: seq<bool>)
    requires |spawned| == |sections|
  {
    exists i, j :: 0 <= i < |sections| && 0 <= j < |sections| && Open(sections, n, spawned, i)
                   && Open(sections, n, spawned, j) && sections[i].Owner() != sections[j].Owner()
  }

  function FirstOpen(sections: seq<Section>, n: nat, spawned: seq<bool>, from: nat): (k: Option<nat>)
    requires |spawned| == |sections| && from <= |sections|
    ensures k.Some? ==> from <= k.value && Open(sections, n, spawned, k.value)
    ensures k.Some? ==> forall j :: from <= j < k.value ==> !Open(sections, n, spawned, j)
    ensures k.None? ==> forall j :: from <= j < |sections| ==> !Open(sections, n, spawned, j)
    decreases |sections| - from
  {
    if from == |sections| then None
    else if Open(sections, n, spawned, from) then Some(from)
    else FirstOpen(sections, n, spawned, from + 1)
  }

  function Left(spawned: seq<bool>): nat {
    if spawned == [] then 0 else Left(spawned[..|spawned| - 1]) + (if spawned[|spawned| - 1] then 0 else 1)
  }

  lemma {:induction false} LeftDrops(spawned: seq<bool>, k: nat)
    requires k < |spawned| && !spawned[k]
    ensures Left(spawned[k := true]) < Left(spawned)
  {
    var n := |spawned| - 1;
    if k < n {
      LeftDrops(spawned[..n], k);
      assert spawned[k := true][..n] == spawned[..n][k := true];
    } else {
      assert spawned[k := true][..n] == spawned[..n];
    }
  }

  /** Spawning the open sections in order, two users come to compete at some point. */
  predicate Overlaps(sections: seq<Section>, n: nat, spawned: seq<bool>)
    requires |spawned| == |sections|
    decreases Left(spawned)
  {
    Contended(sections, n, spawned)
    || (var k := FirstOpen(sections, n, spawned, 0);
        k.Some?
        && (LeftDrops(spawned, k.value);
            Overlaps(sections, n + sections[k.value].count, spawned[k.value := true])))
  }

  /** Two inviters of the round can be at work at once. */
  predicate CanOverlap(c: Config) {
    Overlaps(c.sections, c.initial, seq(|c.sections|, k => false))
  }

  function Flags(s: State): (flags: seq<bool>)
    ensures |flags| == |s.spawned|
    ensures forall k :: 0 <= k < |flags| ==> flags[k] == (s.spawned[k] > 0)
  {
    seq(|s.spawned|, k requires 0 <= k < |s.spawned| => s.spawned[k] > 0)
  }

  // ---------- without overlap everybody is tested once ----------

  /** Goroutine g tests user g, the users without a goroutine are those in flight, each
      section was spawned when its inviter passed it, and no overlap lies ahead. */
  ghost predicate SoloInv(c: Config, s: State) {
    && Inv(c, s)
    && (forall g :: 0 <= g < |s.gs| ==> s.gs[g].user == g && WholeSection(c, s.gs[g]))
    && |s.users| == |s.gs| + InFlight(c, s.gs)
    && (forall k :: 0 <= k < |c.sections| ==> SpawnedOnce(c, s, k))
    && !Overlaps(c.sections, |s.gs|, Flags(s))
  }

  /** A goroutine that creates or has created is at an open section of its own. */
  lemma AtOpenSection(c: Config, s: State, g: nat)
    requires |s.spawned| == |c.sections| && g < |s.gs| && s.gs[g].user == g && GoroutineOk(c, s, g)
    requires s.gs[g].phase.Checked? || s.gs[g].phase.Creating? || s.gs[g].phase.Created?
    requires s.gs[g].next < |c.sections| ==> SpawnedOnce(c, s, s.gs[g].next)
    ensures Open(c.sections, |s.gs|, Flags(s), s.gs[g].next) && c.sections[s.gs[g].next].Owner() == g
  {
  }

  lemma TwoAtWorkContend(c: Config, s: State, g: nat, h: nat)
    requires Inv(c, s) && g < |s.gs| && h < |s.gs| && g != h && s.gs[g].user == g && s.gs[h].user == h
    requires forall k :: 0 <= k < |c.sections| ==> SpawnedOnce(c, s, k)
    requires s.gs[g].phase.Created? && (s.gs[h].phase.Creating? || s.gs[h].phase.Created?)
    ensures Contended(c.sections, |s.gs|, Flags(s))
  {
    assert GoroutineOk(c, s, g) && GoroutineOk(c, s, h);
    AtOpenSection(c, s, g);
    AtOpenSection(c, s, h);
  }

  lemma OthersMakeNothing(c: Config, s: State, g: nat, h: nat)
    requires SoloInv(c, s) && g < |s.gs| && h < |s.gs| && g != h && s.gs[g].phase.Created?
    ensures MadeBy(c, s.gs[h]) == 0
  {
    assert !Contended(c.sections, |s.gs|, Flags(s));
    hide Inv, Contended, InFlight, Overlaps;
    if s.gs[h].phase.Creating? || s.gs[h].phase.Created? {
      TwoAtWorkContend(c, s, g, h);
    }
  }

  lemma {:induction false} NobodyMakes(c: Config, gs: seq<Goroutine>)
    requires forall h :: 0 <= h < |gs| ==> MadeBy(c, gs[h]) == 0
    ensures InFlight(c, gs) == 0
  {
    if gs != [] {
      NobodyMakes(c, gs[..|gs| - 1]);
    }
  }

  lemma {:induction false} OnlyOneMakes(c: Config, gs: seq<Goroutine>, g: nat)
    requires g < |gs| && forall h :: 0 <= h < |gs| && h != g ==> MadeBy(c, gs[h]) == 0
    ensures InFlight(c, gs) == MadeBy(c, gs[g])
  {
    hide MadeBy;
    var n := |gs| - 1;
    if g == n {
      NobodyMakes(c, gs[..n]);
    } else {
      OnlyOneMakes(c, gs[..n], g);
    }
  }

  lemma SoloSections(c: Config, s: State, a: Action, k: nat)
    requires Enabled(c, s, a) && a.move !in {Release, Spawn} && s.gs[a.g].user == a.g
    requires k < |c.sections| && k < |s.spawned| && SpawnedOnce(c, s, k)
    ensures k < |Apply(c, s, a).spawned| && SpawnedOnce(c, Apply(c, s, a), k)
    ensures Apply(c, s, a).spawned == s.spawned
  {
  }

  lemma SoloUsers(c: Config, s: State, a: Action, g: nat)
    requires SoloInv(c, s) && GodAbsorbed(c) && Enabled(c, s, a)
    requires a.move !in {Release, Spawn} && g < |s.gs|
    ensures |Apply(c, s, a).gs| == |s.gs| && Apply(c, s, a).gs[g].user == g && WholeSection(c, Apply(c, s, a).gs[g])
  {
    InitialUsersStay(c, s);
    assert s.gs[g].user == g && WholeSection(c, s.gs[g]) && GoroutineOk(c, s, g);
    hide Inv, Overlaps, InFlight;
  }

  lemma LocalMoveKeepsSolo(c: Config, s: State, a: Action)
    requires SoloInv(c, s) && GodAbsorbed(c) && Enabled(c, s, a) && a.move !in {Release, Spawn}
    ensures SoloInv(c, Apply(c, s, a))
  {
    var after := Apply(c, s, a);
    StepKeepsInv(c, s, a);
    assert GoroutineOk(c, s, a.g) && s.gs[a.g].user == a.g && |s.spawned| == |c.sections|;
    hide Inv, WholeSection, MadeBy, InFlight, Apply, Enabled, GoroutineOk, SpawnedOnce, Overlaps;
    StepMakes(c, s, a);
    InFlightUpdate(c, s.gs, a.g, after.gs[a.g]);
    assert Flags(after) == Flags(s);
    forall g | 0 <= g < |after.gs|
      ensures after.gs[g].user == g && WholeSection(c, after.gs[g])
    {
      SoloUsers(c, s, a, g);
    }
    forall k | 0 <= k < |c.sections|
      ensures SpawnedOnce(c, after, k)
    {
      SoloSections(c, s, a, k);
    }
  }

  lemma ReleasedKeepsSolo(c: Config, s: State, g: nat)
    requires SoloInv(c, s) && g < |s.gs| && s.gs[g].phase.Creating? && s.gs[g].phase.left == 0
    ensures SoloInv(c, Released(c, s, g))
  {
    var after := Released(c, s, g);
    ReleasingKeepsInv(c, s, g);
    assert WholeSection(c, s.gs[g]) && |s.spawned| == |c.sections|;
    assert MadeBy(c, after.gs[g]) == MadeBy(c, s.gs[g]);
    hide Inv, InFlight, Overlaps, MadeBy;
    InFlightUpdate(c, s.gs, g, after.gs[g]);
    assert Flags(after) == Flags(s);
    forall k | 0 <= k < |c.sections|
      ensures SpawnedOnce(c, after, k)
    {
      assert SpawnedOnce(c, s, k);
    }
  }

  /** The section a lone inviter spawns is the first open one. */
  lemma SpawnsFirstOpen(c: Config, s: State, g: nat)
    requires SoloInv(c, s) && g < |s.gs| && s.gs[g].phase.Created?
    ensures s.gs[g].next < |c.sections| && FirstOpen(c.sections, |s.gs|, Flags(s), 0) == Some(s.gs[g].next)
  {
    var k := s.gs[g].next;
    assert GoroutineOk(c, s, g) && s.gs[g].user == g;
    assert forall j :: 0 <= j < |c.sections| ==> SpawnedOnce(c, s, j);
    AtOpenSection(c, s, g);
    var first := FirstOpen(c.sections, |s.gs|, Flags(s), 0);
    assert !Contended(c.sections, |s.gs|, Flags(s));
    hide Inv, Overlaps;
    assert c.sections[first.value].Owner() == g;
    assert SpawnedOnce(c, s, first.value);
  }

  lemma OnlyMaker(c: Config, s: State, g: nat)
    requires SoloInv(c, s) && g < |s.gs| && s.gs[g].phase.Created?
    ensures InFlight(c, s.gs) == MadeBy(c, s.gs[g])
  {
    hide Inv, InFlight, Overlaps, Contended, MadeBy, SpawnedOnce, WholeSection;
    forall h | 0 <= h < |s.gs| && h != g
      ensures MadeBy(c, s.gs[h]) == 0
    {
      OthersMakeNothing(c, s, g, h);
    }
    OnlyOneMakes(c, s.gs, g);
  }

  lemma SuffixFlight(c: Config, s: State, g: nat)
    requires g < |s.gs| && Matches(c, s.gs[g]) && |s.spawned| == |c.sections| && s.gs[g].phase.Created?
    requires c.sections[s.gs[g].next].count <= |s.users|
    requires InFlight(c, s.gs) == MadeBy(c, s.gs[g])
    ensures var t, after := s.gs[g], TakeSuffix(c, s, g);
            && InFlight(c, after.gs) == 0 && |after.gs| == |s.gs| + c.sections[t.next].count
            && after.users == s.users && Flags(after) == Flags(s)[t.next := true]
            && |after.spawned| == |c.sections|
  {
    hide InFlight;
    var t := s.gs[g];
    var moved := s.gs[g := Goroutine(t.user, t.next + 1, Looping)];
    InFlightUpdate(c, s.gs, g, moved[g]);
    InFlightAppend(c, moved, Newcomers(s.users, c.sections[t.next].count));
  }

  lemma SuffixSections(c: Config, s: State, g: nat)
    requires g < |s.gs| && Matches(c, s.gs[g]) && |s.spawned| == |c.sections|
    requires c.sections[s.gs[g].next].count <= |s.users| && s.gs[g].user == g
    requires forall k :: 0 <= k < |c.sections| ==> SpawnedOnce(c, s, k)
    ensures |TakeSuffix(c, s, g).spawned| == |c.sections|
    ensures forall k :: 0 <= k < |c.sections| ==> SpawnedOnce(c, TakeSuffix(c, s, g), k)
  {
    forall k | 0 <= k < |c.sections|
      ensures SpawnedOnce(c, TakeSuffix(c, s, g), k)
    {
      assert SpawnedOnce(c, s, k);
    }
  }

  lemma SuffixUsers(c: Config, s: State, g: nat)
    requires g < |s.gs| && Matches(c, s.gs[g]) && |s.spawned| == |c.sections|
    requires c.sections[s.gs[g].next].count <= |s.users| == |s.gs| + c.sections[s.gs[g].next].count
    requires forall i :: 0 <= i < |s.users| ==> s.users[i] == i
    requires forall h :: 0 <= h < |s.gs| ==> s.gs[h].user == h && WholeSection(c, s.gs[h])
    ensures var after := TakeSuffix(c, s, g);
            forall h :: 0 <= h < |after.gs| ==> after.gs[h].user == h && WholeSection(c, after.gs[h])
  {
  }

  lemma OverlapGoesOn(sections: seq<Section>, n: nat, spawned: seq<bool>, k: nat)
    requires |spawned| == |sections| && k < |sections| && FirstOpen(sections, n, spawned, 0) == Some(k)
    requires !Overlaps(sections, n, spawned)
    ensures !Overlaps(sections, n + sections[k].count, spawned[k := true])
  {
  }

  lemma SpawnerFacts(c: Config, s: State, g: nat)
    requires SoloInv(c, s) && g < |s.gs| && s.gs[g].phase.Created?
    ensures |s.spawned| == |c.sections| && Matches(c, s.gs[g]) && c.sections[s.gs[g].next].count <= |s.users|
    ensures forall i :: 0 <= i < |s.users| ==> s.users[i] == i
    ensures MadeBy(c, s.gs[g]) == c.sections[s.gs[g].next].count
  {
    assert GoroutineOk(c, s, g);
    hide Overlaps, InFlight;
  }

  lemma SpawningKeepsSolo(c: Config, s: State, g: nat)
    requires SoloInv(c, s) && g < |s.gs| && s.gs[g].phase.Created?
    ensures Matches(c, s.gs[g]) && c.sections[s.gs[g].next].count <= |s.users|
    ensures SoloInv(c, TakeSuffix(c, s, g))
  {
    hide Inv, InFlight, Overlaps, FirstOpen, Contended, MadeBy, TakeSuffix, SpawnedOnce, WholeSection, Flags, Matches,
         GoroutineOk;
    SpawnerFacts(c, s, g);
    SpawningKeepsInv(c, s, g);
    SpawnsFirstOpen(c, s, g);
    OnlyMaker(c, s, g);
    SuffixFlight(c, s, g);
    OverlapGoesOn(c.sections, |s.gs|, Flags(s), s.gs[g].next);
    SuffixSections(c, s, g);
    SuffixUsers(c, s, g);
  }

  lemma StepKeepsSolo(c: Config, s: State, a: Action)
    requires SoloInv(c, s) && GodAbsorbed(c) && Enabled(c, s, a)
    ensures SoloInv(c, Apply(c, s, a))
  {
    if a.move == Release {
      ReleasedKeepsSolo(c, s, a.g);
      if c.atomic {
        SpawningKeepsSolo(c, Released(c, s, a.g), a.g);
      }
    } else if a.move == Spawn {
      SpawningKeepsSolo(c, s, a.g);
    } else {
      LocalMoveKeepsSolo(c, s, a);
    }
  }

  lemma SoloAtStart(c: Config)
    requires !CanOverlap(c)
    ensures SoloInv(c, Init(c))
  {
    hide Inv, Overlaps, InFlight;
    InvAtStart(c);
    NothingInFlight(c, Init(c).gs);
    assert Flags(Init(c)) == seq(|c.sections|, k => false);
  }

  lemma {:induction false} ExecKeepsSolo(c: Config, actions: seq<Action>)
    requires !CanOverlap(c) && GodAbsorbed(c) && Exec(c, Init(c), actions).Some?
    ensures SoloInv(c, Exec(c, Init(c), actions).value)
  {
    if actions == [] {
      SoloAtStart(c);
    } else {
      var init := actions[..|actions| - 1];
      ExecKeepsSolo(c, init);
      hide SoloInv, CanOverlap;
      StepKeepsSolo(c, Exec(c, Init(c), init).value, actions[|actions| - 1]);
    }
  }

  /** When two inviters can never be at work at once, goroutine g tests user g, and the
      counter is never negative and zero only at the very end. */
  lemma SafeWithoutOverlap(c: Config, s: State)
    requires Accepted(c) && !CanOverlap(c) && GodAbsorbed(c) && Reachable(c, s)
    ensures !TestedTwice(s) && s.wg >= 0
    ensures |s.spawned| == |c.sections|
    ensures s.wg == 0 <==> (forall k :: 0 <= k < |c.sections| ==> s.spawned[k] == 1) && EverybodyDone(s)
  {
    var actions :| Exec(c, Init(c), actions) == Some(s);
    ExecKeepsSolo(c, actions);
    CounterEquation(c, s);
    forall k | 0 <= k < |c.sections|
      ensures s.spawned[k] <= 1 && c.sections[k].count >= 1
    {
      assert SpawnedOnce(c, s, k);
    }
    assert !TestedTwice(s);
    hide Exec, SoloInv, SpawnedOnce, Pending, Running, CanOverlap;
    PendingIsWhatIsNotSpawned(c.sections, s.spawned);
    NoneRunning(s.gs);
  }

  // ---------- with overlap somebody can be tested twice ----------

  predicate AtRest(c: Config, t: Goroutine) {
    t.next <= |c.sections| && (t.phase.Looping? || (t.phase.Preparing? && t.next == 0))
  }

  /** A run that went through sections one at a time: every user has its goroutine, and
      none is at work. */
  ghost predicate Sequential(c: Config, s: State) {
    && s.lock.None? && |s.gs| == |s.users| && |s.spawned| == |c.sections|
    && (forall g :: 0 <= g < |s.gs| ==> s.gs[g].user == g && AtRest(c, s.gs[g]))
    && (forall k :: 0 <= k < |c.sections| ==> SpawnedOnce(c, s, k))
  }

  /** A goroutine at rest goes to a section of its user, past no other one. */
  lemma ToSection(c: Config, actions: seq<Action>, s: State, g: nat, k: nat)
    returns (more: seq<Action>, after: State)
    requires Exec(c, Init(c), actions) == Some(s)
    requires g < |s.gs| && s.gs[g].user == g && AtRest(c, s.gs[g]) && s.gs[g].next <= k < |c.sections|
    requires forall j :: s.gs[g].next <= j < k ==> c.sections[j].Owner() != g
    ensures Exec(c, Init(c), more) == Some(after)
    ensures after == s.(gs := s.gs[g := Goroutine(g, k, Looping)])
  {
    hide Exec, Init;
    var run, mid := actions, s;
    if s.gs[g].phase.Preparing? {
      run, mid := BeginAt(c, actions, s, g);
    }
    more, after := SkipTo(c, run, mid, g, k);
    assert after.gs == s.gs[g := Goroutine(g, k, Looping)];
  }

  /** The first open section of a user is where its goroutine can go. */
  lemma FirstOpenIsAhead(c: Config, s: State, k: nat)
    requires Sequential(c, s) && k < |c.sections| && Open(c.sections, |s.gs|, Flags(s), k)
    requires forall j :: 0 <= j < k && c.sections[j].Owner() == c.sections[k].Owner() ==> !Open(c.sections, |s.gs|, Flags(s), j)
    ensures var g := c.sections[k].Owner();
            && g < |s.gs| && s.gs[g].user == g && AtRest(c, s.gs[g]) && s.gs[g].next <= k
            && forall j :: s.gs[g].next <= j < k ==> c.sections[j].Owner() != g
  {
    var g := c.sections[k].Owner();
    assert SpawnedOnce(c, s, k);
    forall j | s.gs[g].next <= j < k
      ensures c.sections[j].Owner() != g
    {
      assert SpawnedOnce(c, s, j);
    }
  }

  /** The first open section that is not user a's. */
  lemma {:induction false} FirstOpenOfAnother(sections: seq<Section>, n: nat, spawned: seq<bool>, a: nat, from: nat, j: nat)
    returns (k: nat)
    requires |spawned| == |sections| && from <= j < |sections|
    requires Open(sections, n, spawned, j) && sections[j].Owner() != a
    ensures from <= k < |sections| && Open(sections, n, spawned, k) && sections[k].Owner() != a
    ensures forall l :: from <= l < k && Open(sections, n, spawned, l) ==> sections[l].Owner() == a
    decreases j - from
  {
    if Open(sections, n, spawned, from) && sections[from].Owner() != a {
      k := from;
    } else {
      k := FirstOpenOfAnother(sections, n, spawned, a, from + 1, j);
    }
  }

  lemma ContendedPair(sections: seq<Section>, n: nat, spawned: seq<bool>) returns (i: nat, j: nat)
    requires |spawned| == |sections| && Contended(sections, n, spawned)
    ensures i < |sections| && j < |sections| && Open(sections, n, spawned, i) && Open(sections, n, spawned, j)
    ensures sections[i].Owner() != sections[j].Owner()
    ensures forall l :: 0 <= l < i ==> !Open(sections, n, spawned, l)
    ensures forall l :: 0 <= l < j && sections[l].Owner() == sections[j].Owner() ==> !Open(sections, n, spawned, l)
  {
    var x, y :| 0 <= x < |sections| && 0 <= y < |sections| && Open(sections, n, spawned, x)
                && Open(sections, n, spawned, y) && sections[x].Owner() != sections[y].Owner();
    i := FirstOpen(sections, n, spawned, 0).value;
    var a := sections[i].Owner();
    j := FirstOpenOfAnother(sections, n, spawned, a, 0, if sections[x].Owner() != a then x else y);
  }

  lemma ContendedTestsTwice(c: Config, actions: seq<Action>, s: State) returns (after: State)
    requires !c.atomic && Accepted(c) && Exec(c, Init(c), actions) == Some(s) && Sequential(c, s)
    requires Contended(c.sections, |s.gs|, Flags(s))
    ensures Reachable(c, after) && TestedTwice(after)
  {
    var i, j := ContendedPair(c.sections, |s.gs|, Flags(s));
    FirstOpenIsAhead(c, s, i);
    FirstOpenIsAhead(c, s, j);
    var a, b := c.sections[i].Owner(), c.sections[j].Owner();
    hide Exec, Init, Sequential, Contended;
    var run1, s1 := ToSection(c, actions, s, a, i);
    var run2, s2 := CreateBlock(c, run1, s1, a);
    assert s2.gs[b] == s.gs[b];
    var run3, s3 := ToSection(c, run2, s2, b, j);
    var run4, s4 := CreateBlock(c, run3, s3, b);
    after := OverlappingSuffixes(c, run4, s4, a, b);
  }

  lemma InitialStay(c: Config, actions: seq<Action>, s: State)
    requires Exec(c, Init(c), actions) == Some(s)
    ensures |s.users| >= c.initial
  {
    ExecKeepsInv(c, actions);
    hide Exec;
    InitialUsersStay(c, s);
  }

  lemma IndexedUsers(c: Config, actions: seq<Action>, s: State)
    requires Exec(c, Init(c), actions) == Some(s)
    ensures forall i :: 0 <= i < |s.users| ==> s.users[i] == i
  {
    ExecKeepsInv(c, actions);
    hide Exec, GoroutineOk;
  }

  lemma SequentialAfter(c: Config, s: State, s2: State, g: nat, k: nat)
    requires Sequential(c, s) && g < |s.gs| && k < |c.sections| && c.sections[k].Owner() == g && s.gs[g].next <= k
    requires forall j :: s.gs[g].next <= j < k ==> c.sections[j].Owner() != g
    requires s2.gs == s.gs[g := Goroutine(g, k, Created)] && s2.spawned == s.spawned && s2.lock.None?
    requires |s2.users| == |s.users| + c.sections[k].count && forall i :: 0 <= i < |s2.users| ==> s2.users[i] == i
    ensures Sequential(c, TakeSuffix(c, s2, g))
    ensures |TakeSuffix(c, s2, g).gs| == |s.gs| + c.sections[k].count
    ensures Flags(TakeSuffix(c, s2, g)) == Flags(s)[k := true]
  {
    var after := TakeSuffix(c, s2, g);
    forall j | 0 <= j < |c.sections|
      ensures SpawnedOnce(c, after, j)
    {
      assert SpawnedOnce(c, s, j) && SpawnedOnce(c, s, k);
    }
    forall h | 0 <= h < |after.gs|
      ensures after.gs[h].user == h && AtRest(c, after.gs[h])
    {
      if h < |s.gs| {
        assert s.gs[h].user == h && AtRest(c, s.gs[h]);
      }
    }
    assert Flags(after) == Flags(s)[k := true];
  }

  /** The lone inviter spawns its first open section, and nobody else moves. */
  lemma SpawnNext(c: Config, actions: seq<Action>, s: State, k: nat)
    returns (more: seq<Action>, after: State)
    requires !c.atomic && Accepted(c) && GodAbsorbed(c)
    requires Exec(c, Init(c), actions) == Some(s) && Sequential(c, s)
    requires FirstOpen(c.sections, |s.gs|, Flags(s), 0) == Some(k)
    ensures k < |c.sections| && Exec(c, Init(c), more) == Some(after) && Sequential(c, after)
    ensures |after.spawned| == |c.sections|
    ensures |after.gs| == |s.gs| + c.sections[k].count && Flags(after) == Flags(s)[k := true]
  {
    FirstOpenIsAhead(c, s, k);
    assert |s.spawned| == |c.sections|;
    var g := c.sections[k].Owner();
    InitialStay(c, actions, s);
    hide Exec, Init, FirstOpen, Sequential;
    var run1, s1 := ToSection(c, actions, s, g, k);
    var run2, s2 := CreateBlock(c, run1, s1, g);
    more, after := SpawnBlock(c, run2, s2, g);
    IndexedUsers(c, run2, s2);
    SequentialAfter(c, s, s2, g, k);
  }

  lemma OverlapMovesOn(sections: seq<Section>, n: nat, spawned: seq<bool>)
    requires |spawned| == |sections| && Overlaps(sections, n, spawned) && !Contended(sections, n, spawned)
    ensures FirstOpen(sections, n, spawned, 0).Some?
    ensures var k := FirstOpen(sections, n, spawned, 0).value;
            && k < |sections| && Left(spawned[k := true]) < Left(spawned)
            && Overlaps(sections, n + sections[k].count, spawned[k := true])
  {
    hide Contended;
    LeftDrops(spawned, FirstOpen(sections, n, spawned, 0).value);
  }

  lemma {:induction false} OverlapTestsTwice(c: Config, actions: seq<Action>, s: State) returns (after: State)
    requires !c.atomic && Accepted(c) && GodAbsorbed(c) && |s.spawned| == |c.sections|
    requires Exec(c, Init(c), actions) == Some(s) && Sequential(c, s)
    requires Overlaps(c.sections, |s.gs|, Flags(s))
    ensures Reachable(c, after) && TestedTwice(after)
    decreases Left(Flags(s))
  {
    hide *;
    if Contended(c.sections, |s.gs|, Flags(s)) {
      after := ContendedTestsTwice(c, actions, s);
    } else {
      OverlapMovesOn(c.sections, |s.gs|, Flags(s));
      var k := FirstOpen(c.sections, |s.gs|, Flags(s), 0).value;
      var run1, s1 := SpawnNext(c, actions, s, k);
      after := OverlapTestsTwice(c, run1, s1);
    }
  }

  lemma SequentialAtStart(c: Config)
    ensures Sequential(c, Init(c)) && |Init(c).gs| == c.initial && Flags(Init(c)) == seq(|c.sections|, k => false)
  {
  }

  /** Wherever the inviters come from: some run tests a user twice exactly when, spawning
      the sections one at a time, two existing users come to have sections to spawn. */
  lemma TestedTwiceExactlyByOverlap(c: Config)
    requires !c.atomic && Accepted(c) && GodAbsorbed(c)
    ensures (exists s :: Reachable(c, s) && TestedTwice(s)) <==> CanOverlap(c)
  {
    if CanOverlap(c) {
      var none: seq<Action> := [];
      SequentialAtStart(c);
      var s := OverlapTestsTwice(c, none, Init(c));
    } else {
      hide CanOverlap, Reachable, TestedTwice;
      forall s | Reachable(c, s)
        ensures !TestedTwice(s)
      {
        SafeWithoutOverlap(c, s);
      }
    }
  }
}
