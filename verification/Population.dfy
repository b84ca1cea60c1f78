/** The number of users over a whole scenario: the validator's table, the converted
    sections and the process agree at the end of every epoch. */
module Population {
  import opened Wrappers
  import opened Lists
  import opened NewUsersPlan
  import opened NewUsersValidation
  import Nodes
  import Round
  import RoundSafety
  import RoundOverrun

  // ---------- epochs beyond the table ----------

  lemma LastListsNothing(sections: seq<NewUsers>, epoch: int)
    requires sections != [] && Occ(Epochs(sections[|sections| - 1]), epoch) == 0
    ensures Listed(sections, epoch) == Listed(sections[..|sections| - 1], epoch)
  {
    hide *;
    ListedLast(sections, epoch);
  }

  lemma LaterThanAll(sections: seq<NewUsers>, epoch: int)
    requires sections != [] && epoch > LastEpoch(sections)
    ensures epoch > LastEpoch(sections[..|sections| - 1]) && epoch !in Epochs(sections[|sections| - 1])
  {
    hide Epochs, MaxOf;
  }

  lemma {:induction false} AbsentNeverOccurs(xs: seq<int>, x: int)
    requires x !in xs
    ensures Occ(xs, x) == 0
  {
    if xs != [] {
      AbsentNeverOccurs(xs[..|xs| - 1], x);
    }
  }

  lemma {:induction false} NothingListedLater(sections: seq<NewUsers>, epoch: int)
    requires epoch > LastEpoch(sections)
    ensures Listed(sections, epoch) == 0
  {
    if sections != [] {
      LaterThanAll(sections, epoch);
      hide *;
      NothingListedLater(sections[..|sections| - 1], epoch);
      AbsentNeverOccurs(Epochs(sections[|sections| - 1]), epoch);
      LastListsNothing(sections, epoch);
    }
  }

  lemma {:induction false} NothingAddedLater(sections: seq<NewUsers>, epoch: int)
    requires epoch >= LastEpoch(sections)
    ensures UpTo(sections, epoch) == UpTo(sections, LastEpoch(sections))
    decreases epoch
  {
    hide LastEpoch, Listed;
    if epoch > LastEpoch(sections) {
      NothingAddedLater(sections, epoch - 1);
      NothingListedLater(sections, epoch);
    }
  }

  /** What BuildEpochUserCounts returns. */
  ghost predicate IsTable(p: Plan, table: seq<int>) {
    && |table| == LastEpoch(p.newUsers + p.newUsersAfterFlips) + 1
    && forall e :: 0 <= e < |table| ==> table[e] == p.users + UpTo(p.newUsers + p.newUsersAfterFlips, e)
  }

  lemma TableLookup(p: Plan, table: seq<int>, epoch: int)
    requires IsTable(p, table) && epoch >= 0
    ensures TableAt(table, epoch) == p.users + UpTo(p.newUsers + p.newUsersAfterFlips, epoch)
  {
    var all := p.newUsers + p.newUsersAfterFlips;
    hide LastEpoch, UpTo;
    if epoch > |table| - 1 {
      NothingAddedLater(all, epoch);
    }
  }

  /** The table and the conversion are computed apart; they differ exactly by the
      override of the number of users. */
  lemma TableMatchesConversion(p: Plan, nodes: int, table: seq<int>, before: SectionMap, after: SectionMap, epoch: int)
    requires IsTable(p, table) && IsConversion(p, nodes, before, after) && p.users > 0 && epoch >= 0
    ensures Converted(before, after, epoch) == TableAt(table, epoch) + EffectiveUsers(p, nodes) - p.users
  {
    ConvertedIsListed(p, nodes, before, after, epoch);
    TableLookup(p, table, epoch);
    hide IsConversion, EffectiveUsers;
  }

  // ---------- creating users before the flips ----------

  predicate Creates(s: Section) {
    s.count >= 1 && (s.inviter.Some? ==> s.inviter.value >= 0)
  }

  /** The population after createEpochNewUsers went through the sections in order. */
  function BeforeFlips(godMode: bool, population: nat, sections: seq<Section>): (after: nat)
    requires forall k :: 0 <= k < |sections| ==> Creates(sections[k])
  {
    if sections == [] then population
    else
      var last := sections[|sections| - 1];
      assert Creates(last);
      Nodes.PopulationAfter(godMode, BeforeFlips(godMode, population, sections[..|sections| - 1]), last.count)
  }

  /** A section may place its users on the node of any user that exists by then. */
  predicate TargetExists(godMode: bool, population: nat, sections: seq<Section>, k: nat)
    requires k < |sections| && forall j :: 0 <= j < |sections| ==> Creates(sections[j])
  {
    var target := sections[k].sharedNode;
    target.Some? ==> 0 <= target.value < BeforeFlips(godMode, population, sections[..k])
  }

  lemma {:induction false} PopulationGrows(godMode: bool, population: nat, sections: seq<Section>, j: nat, k: nat)
    requires forall i :: 0 <= i < |sections| ==> Creates(sections[i])
    requires j <= k <= |sections|
    ensures BeforeFlips(godMode, population, sections[..j]) <= BeforeFlips(godMode, population, sections[..k])
    decreases k
  {
    if j < k {
      PopulationGrows(godMode, population, sections, j, k - 1);
      assert sections[..k][..k - 1] == sections[..k - 1] && Creates(sections[k - 1]);
    }
  }

  predicate LivesOn(u: Nodes.User, target: Option<int>) {
    if target.Some? then u.OnNodeOf? && u.parent == target.value else u.OwnNode?
  }

  /** The users that section k created live on the node it names. */
  predicate CreatedAt(users: seq<Nodes.User>, godMode: bool, population: nat, sections: seq<Section>, k: nat)
    requires k < |sections| && forall j :: 0 <= j < |sections| ==> Creates(sections[j])
  {
    forall i :: BeforeFlips(godMode, population, sections[..k]) <= i < |users|
                && i < BeforeFlips(godMode, population, sections[..k + 1]) ==>
      LivesOn(users[i], sections[k].sharedNode)
  }

  lemma CreatedStays(users: seq<Nodes.User>, more: seq<Nodes.User>, godMode: bool, population: nat,
                     sections: seq<Section>, k: nat)
    requires k < |sections| && forall j :: 0 <= j < |sections| ==> Creates(sections[j])
    requires CreatedAt(users, godMode, population, sections, k) && users <= more
    requires BeforeFlips(godMode, population, sections[..k + 1]) <= |users|
    ensures CreatedAt(more, godMode, population, sections, k)
  {
  }

  method CreateEpochNewUsers(p: Nodes.Process, sections: seq<Section>)
    requires p.Valid() && forall k :: 0 <= k < |sections| ==> Creates(sections[k])
    requires forall k :: 0 <= k < |sections| ==> TargetExists(p.godMode, |p.users|, sections, k)
    modifies p`users, p`lowPowerProfileCount
    ensures p.Valid() && |p.users| == BeforeFlips(p.godMode, old(|p.users|), sections)
    ensures |p.users| >= old(|p.users|) && p.users[..old(|p.users|)] == old(p.users)
    ensures forall k :: 0 <= k < |sections| ==> CreatedAt(p.users, p.godMode, old(|p.users|), sections, k)
  {
    for k := 0 to |sections|
      invariant p.Valid() && |p.users| == BeforeFlips(p.godMode, old(|p.users|), sections[..k])
      invariant |p.users| >= old(|p.users|) && p.users[..old(|p.users|)] == old(p.users)
      invariant forall j :: 0 <= j < k ==> CreatedAt(p.users, p.godMode, old(|p.users|), sections, j)
    {
      assert TargetExists(p.godMode, old(|p.users|), sections, k);
      assert sections[..k + 1][..k] == sections[..k];
      var s := sections[k];
      var sharedNode := if s.sharedNode.Some? then Some(s.sharedNode.value as nat) else None;
      ghost var was := p.users;
      var created := p.StartNewNodes(s.count, sharedNode);
      assert p.users[..|was|][..old(|p.users|)] == p.users[..old(|p.users|)];
      hide BeforeFlips;
      forall j | 0 <= j < k
        ensures CreatedAt(p.users, p.godMode, old(|p.users|), sections, j)
      {
        PopulationGrows(p.godMode, old(|p.users|), sections, j + 1, k);
        CreatedStays(was, p.users, p.godMode, old(|p.users|), sections, j);
      }
    }
    assert sections[..|sections|] == sections;
  }

  /** The users before the first section: the god node, if there is one. */
  function Start(godMode: bool): nat {
    if godMode then 1 else 0
  }

  lemma {:induction false} GrowingPopulation(godMode: bool, population: nat, sections: seq<Section>)
    requires forall k :: 0 <= k < |sections| ==> Creates(sections[k])
    requires godMode ==> population >= 2
    ensures BeforeFlips(godMode, population, sections) == population + Total(sections)
    ensures Total(sections) >= 0
  {
    if sections != [] {
      GrowingPopulation(godMode, population, sections[..|sections| - 1]);
    }
  }

  lemma {:induction false} FirstSectionBound(sections: seq<Section>)
    requires sections != [] && forall k :: 0 <= k < |sections| ==> Creates(sections[k])
    ensures Total(sections) >= sections[0].count
  {
    if |sections| == 1 {
      assert sections[..0] == [];
    } else {
      FirstSectionBound(sections[..|sections| - 1]);
    }
  }

  /** Created in order from nothing, the population is the summed count exactly when
      the first of several sections gives the god node company. */
  lemma {:induction false} PopulationIsTheSumExactly(godMode: bool, sections: seq<Section>)
    requires sections != [] && forall k :: 0 <= k < |sections| ==> Creates(sections[k])
    ensures var p := BeforeFlips(godMode, Start(godMode), sections);
            && 1 <= p <= Total(sections)
            && (p == Total(sections) <==> !(godMode && |sections| >= 2 && sections[0].count == 1))
  {
    if |sections| == 1 {
      assert sections[..0] == [];
    } else {
      var init := sections[..|sections| - 1];
      PopulationIsTheSumExactly(godMode, init);
      FirstSectionBound(init);
      assert Creates(sections[|sections| - 1]) && init[0] == sections[0];
      if |sections| == 2 {
        assert init[..0] == [];
      }
    }
  }

  // ---------- whole runs ----------

  function RoundSection(s: Section): Round.Section
    requires Creates(s)
  {
    Round.Section(s.count, if s.inviter.None? then None else Some(s.inviter.value))
  }

  function RoundSections(sections: seq<Section>): (rs: seq<Round.Section>)
    requires forall k :: 0 <= k < |sections| ==> Creates(sections[k])
    ensures |rs| == |sections|
  {
    seq(|sections|, k requires 0 <= k < |sections| && Creates(sections[k]) => RoundSection(sections[k]))
  }

  lemma {:induction false} RoundTotal(sections: seq<Section>)
    requires forall k :: 0 <= k < |sections| ==> Creates(sections[k])
    ensures Round.Total(RoundSections(sections)) == Total(sections)
  {
    if sections != [] {
      var n := |sections| - 1;
      RoundTotal(sections[..n]);
      assert RoundSections(sections)[..n] == RoundSections(sections[..n]);
    }
  }

  function RoundOf(godMode: bool, population: nat, sections: seq<Section>): Round.Config
    requires forall k :: 0 <= k < |sections| ==> Creates(sections[k])
  {
    Round.Config(RoundSections(sections), population, godMode, false)
  }

  ghost predicate AllCreate(before: SectionMap, after: SectionMap) {
    forall e, k :: (0 <= k < |At(before, e)| ==> Creates(At(before, e)[k]))
                && (0 <= k < |At(after, e)| ==> Creates(At(after, e)[k]))
  }

  /** The bot goes on as soon as the counter is zero, whoever is still running. */
  ghost predicate EndsAt(c: Round.Config, end: Round.State) {
    Round.Reachable(c, end) && end.wg == 0
  }

  /** One epoch: the sections before the flips in order, then any interleaving of the
      round with the sections after the flips, up to a counter of zero. */
  ghost predicate EpochRun(godMode: bool, before: SectionMap, after: SectionMap, epoch: nat, from: nat, end: Round.State) {
    && AllCreate(before, after)
    && EndsAt(RoundOf(godMode, BeforeFlips(godMode, from, At(before, epoch)), At(after, epoch)), end)
  }

  function Before(godMode: bool, ends: seq<Round.State>, e: nat): nat
    requires e <= |ends|
  {
    if e == 0 then Start(godMode) else |ends[e - 1].users|
  }

  /** ends[e] is the state at the end of epoch e of one run. */
  ghost predicate Campaign(godMode: bool, before: SectionMap, after: SectionMap, ends: seq<Round.State>) {
    forall e :: 0 <= e < |ends| ==> EpochRun(godMode, before, after, e, Before(godMode, ends, e), ends[e])
  }

  /** The inviters of these sections exist when their round starts with that many users,
      or two of them are never at work at once: a check on the scenario alone. */
  predicate Orderly(sections: seq<Section>, population: int)
    requires forall k :: 0 <= k < |sections| ==> Creates(sections[k])
  {
    population >= 0 && RoundOverrun.Calm(RoundOf(false, population, sections))
  }

  /** The users an epoch's round starts with when all went as listed. */
  function Planned(before: SectionMap, after: SectionMap, epoch: nat): int {
    Converted(before, after, epoch - 1) + Total(At(before, epoch))
  }

  ghost predicate OrderlyUpTo(before: SectionMap, after: SectionMap, epoch: nat) {
    && AllCreate(before, after)
    && forall e: nat :: e <= epoch ==> Orderly(At(after, e), Planned(before, after, e))
  }

  lemma SectionsAreAccepted(c: Round.Config, sections: seq<Section>)
    requires forall k :: 0 <= k < |sections| ==> Creates(sections[k])
    requires c.sections == RoundSections(sections)
    ensures RoundSafety.Accepted(c)
  {
    forall k | 0 <= k < |c.sections|
      ensures c.sections[k].count >= 1
    {
      assert Creates(sections[k]) && c.sections[k] == RoundSection(sections[k]);
    }
  }

  /** An epoch ends with at least its sections' counts added, and with no more exactly
      when everybody is done; in an orderly epoch everybody is. */
  lemma EpochAddsItsSections(godMode: bool, before: SectionMap, after: SectionMap, epoch: nat, from: nat, end: Round.State)
    requires EpochRun(godMode, before, after, epoch, from, end)
    requires godMode ==> BeforeFlips(godMode, from, At(before, epoch)) >= 2 || At(after, epoch) == []
    requires BeforeFlips(godMode, from, At(before, epoch)) == Planned(before, after, epoch)
    ensures |end.users| >= Converted(before, after, epoch)
    ensures |end.users| >= BeforeFlips(godMode, from, At(before, epoch))
    ensures |end.users| == Converted(before, after, epoch) <==> RoundSafety.EverybodyDone(end)
    ensures AllCreate(before, after)
    ensures Orderly(At(after, epoch), Planned(before, after, epoch)) ==> RoundSafety.EverybodyDone(end)
  {
    var sections := At(after, epoch);
    var c := RoundOf(godMode, BeforeFlips(godMode, from, At(before, epoch)), sections);
    RoundTotal(sections);
    SectionsAreAccepted(c, sections);
    var planned := RoundOf(false, BeforeFlips(godMode, from, At(before, epoch)), sections);
    assert planned.sections == c.sections && planned.initial == c.initial;
    hide Round.Reachable, Round.Total, RoundSafety.EverybodyDone, BeforeFlips, At, RoundOf, RoundSafety.Accepted;
    RoundSafety.ZeroExactly(c, end);
    if RoundOverrun.Calm(c) {
      RoundOverrun.CalmRoundsEndDone(c, end);
    }
  }

  /** A round that spawned every section once and brought the counter to zero has ended
      with everybody done and the summed counts added. */
  lemma RoundEndsAtTheSum(c: Round.Config, s: Round.State)
    requires RoundSafety.GodAbsorbed(c) && EndsAt(c, s)
    requires forall k :: 0 <= k < |s.spawned| ==> s.spawned[k] == 1
    ensures RoundSafety.EverybodyDone(s) && |s.users| == c.initial + Round.Total(c.sections)
  {
    RoundSafety.SpawnedOnceEach(c, s);
    RoundSafety.PopulationAtTheEnd(c, s);
  }

  lemma {:induction false} EntriesCreate(sections: seq<NewUsers>, epoch: int)
    requires forall k :: 0 <= k < |sections| ==> SectionOk(sections[k])
    ensures forall s :: s in Entries(sections, epoch) ==> Creates(s)
  {
    if sections != [] {
      var du := sections[|sections| - 1];
      EntriesCreate(sections[..|sections| - 1], epoch);
      CopiesAreCopies(Convert(du), Occ(Epochs(du), epoch));
    }
  }

  lemma EpochSectionsCreate(users: nat, sections: seq<NewUsers>, epoch: int)
    requires NewUsersOk(sections)
    ensures var all := Initial(users, epoch) + Entries(sections, epoch);
            forall k :: 0 <= k < |all| ==> Creates(all[k])
  {
    EntriesCreate(sections, epoch);
    hide Entries, SectionOk;
  }

  /** An accepted scenario compiles to sections that all create somebody. */
  lemma AcceptedSectionsCreate(p: Plan, nodes: int, before: SectionMap, after: SectionMap)
    requires p.users > 0 && NewUsersOk(p.newUsers) && NewUsersOk(p.newUsersAfterFlips)
    requires IsConversion(p, nodes, before, after)
    ensures AllCreate(before, after)
    ensures At(before, 0) != [] && At(before, 0)[0].count == EffectiveUsers(p, nodes)
  {
    var users := EffectiveUsers(p, nodes);
    forall e
      ensures forall k :: 0 <= k < |At(before, e)| ==> Creates(At(before, e)[k])
      ensures forall k :: 0 <= k < |At(after, e)| ==> Creates(At(after, e)[k])
    {
      assert At(before, e) == Initial(users, e) + Entries(p.newUsers, e);
      assert At(after, e) == Initial(0, e) + Entries(p.newUsersAfterFlips, e);
      assert users > 0;
      hide IsConversion, EffectiveUsers, At, Entries, NewUsersPlan.Initial, SectionOk;
      EpochSectionsCreate(users, p.newUsers, e);
      EpochSectionsCreate(0, p.newUsersAfterFlips, e);
    }
    assert At(before, 0) == Initial(users, 0) + Entries(p.newUsers, 0);
  }

  lemma FirstEpochBeforeFlips(godMode: bool, before: SectionMap, after: SectionMap)
    requires AllCreate(before, after) && At(before, 0) != [] && (godMode ==> At(before, 0)[0].count >= 2)
    ensures BeforeFlips(godMode, Start(godMode), At(before, 0)) == Planned(before, after, 0)
    ensures godMode ==> BeforeFlips(godMode, Start(godMode), At(before, 0)) >= 2
  {
    PopulationIsTheSumExactly(godMode, At(before, 0));
    FirstSectionBound(At(before, 0));
  }

  lemma NextEpochBeforeFlips(godMode: bool, before: SectionMap, after: SectionMap, from: nat, e: nat)
    requires AllCreate(before, after) && (godMode ==> from >= 2) && e > 0
    ensures BeforeFlips(godMode, from, At(before, e)) == from + Total(At(before, e))
    ensures godMode ==> BeforeFlips(godMode, from, At(before, e)) >= 2
  {
    GrowingPopulation(godMode, from, At(before, e));
  }

  lemma RunOfEpoch(godMode: bool, before: SectionMap, after: SectionMap, ends: seq<Round.State>, e: nat)
    requires Campaign(godMode, before, after, ends) && e < |ends|
    ensures EpochRun(godMode, before, after, e, Before(godMode, ends, e), ends[e])
  {
    hide EpochRun, Before;
  }

  /** One run, with what it needs to be in step with the conversion. */
  ghost predicate InStep(godMode: bool, before: SectionMap, after: SectionMap, ends: seq<Round.State>) {
    && AllCreate(before, after) && Campaign(godMode, before, after, ends)
    && At(before, 0) != [] && (godMode ==> At(before, 0)[0].count >= 2)
  }

  /** An epoch's end has at least the converted users, and only them exactly when everybody
      is done, as they are in an orderly epoch. */
  ghost predicate EndsConverted(godMode: bool, before: SectionMap, after: SectionMap, end: Round.State, e: nat) {
    && AllCreate(before, after)
    && |end.users| >= Converted(before, after, e)
    && (|end.users| == Converted(before, after, e) <==> RoundSafety.EverybodyDone(end))
    && (Orderly(At(after, e), Planned(before, after, e)) ==> RoundSafety.EverybodyDone(end))
    && (godMode ==> |end.users| >= 2)
  }

  /** Nobody was left running at the end of an epoch before e. */
  ghost predicate DoneBefore(ends: seq<Round.State>, e: nat) {
    forall i :: 0 <= i < e && i < |ends| ==> RoundSafety.EverybodyDone(ends[i])
  }

  lemma FirstEpoch(godMode: bool, before: SectionMap, after: SectionMap, ends: seq<Round.State>)
    requires InStep(godMode, before, after, ends) && ends != []
    ensures EndsConverted(godMode, before, after, ends[0], 0)
  {
    hide AllCreate, Campaign, At, Start, EpochRun, Converted, BeforeFlips, Orderly, RoundSafety.EverybodyDone, Planned;
    RunOfEpoch(godMode, before, after, ends, 0);
    FirstEpochBeforeFlips(godMode, before, after);
    EpochAddsItsSections(godMode, before, after, 0, Start(godMode), ends[0]);
  }

  lemma NextEpoch(godMode: bool, before: SectionMap, after: SectionMap, ends: seq<Round.State>, e: nat)
    requires InStep(godMode, before, after, ends) && 0 < e < |ends|
    requires |ends[e - 1].users| == Converted(before, after, e - 1) && (godMode ==> |ends[e - 1].users| >= 2)
    ensures EndsConverted(godMode, before, after, ends[e], e)
  {
    hide AllCreate, Campaign, At, Start, EpochRun, Converted, BeforeFlips, Orderly, RoundSafety.EverybodyDone;
    RunOfEpoch(godMode, before, after, ends, e);
    NextEpochBeforeFlips(godMode, before, after, |ends[e - 1].users|, e);
    EpochAddsItsSections(godMode, before, after, e, |ends[e - 1].users|, ends[e]);
  }

  lemma {:induction false} PopulationIsConverted(godMode: bool, before: SectionMap, after: SectionMap, ends: seq<Round.State>, e: nat)
    requires InStep(godMode, before, after, ends) && e < |ends| && DoneBefore(ends, e)
    ensures EndsConverted(godMode, before, after, ends[e], e)
    decreases e
  {
    hide InStep, Orderly, RoundSafety.EverybodyDone, Converted, At, AllCreate, Planned;
    if e == 0 {
      FirstEpoch(godMode, before, after, ends);
    } else {
      PopulationIsConverted(godMode, before, after, ends, e - 1);
      NextEpoch(godMode, before, after, ends, e);
    }
  }

  lemma {:induction false} OrderlyEndsDone(godMode: bool, before: SectionMap, after: SectionMap, ends: seq<Round.State>, e: nat)
    requires InStep(godMode, before, after, ends) && e <= |ends|
    requires e > 0 ==> OrderlyUpTo(before, after, e - 1)
    ensures DoneBefore(ends, e)
    decreases e
  {
    hide InStep, Orderly, RoundSafety.EverybodyDone, Converted, At, AllCreate, Planned;
    if e > 0 {
      OrderlyEndsDone(godMode, before, after, ends, e - 1);
      PopulationIsConverted(godMode, before, after, ends, e - 1);
    }
  }

  // ---------- the table ----------

  /** A run of an accepted scenario, with its table and its conversion. */
  ghost predicate AcceptedRun(p: Plan, nodes: int, godMode: bool, table: seq<int>, before: SectionMap,
                              after: SectionMap, ends: seq<Round.State>)
  {
    && p.users > 0 && NewUsersOk(p.newUsers) && NewUsersOk(p.newUsersAfterFlips)
    && IsTable(p, table) && IsConversion(p, nodes, before, after)
    && Campaign(godMode, before, after, ends)
  }

  /** The users the table gives an epoch, past its end by its last entry, once the
      override is in force. */
  function Known(p: Plan, nodes: int, table: seq<int>, epoch: nat): int
    requires table != []
  {
    TableAt(table, epoch) + EffectiveUsers(p, nodes) - p.users
  }

  lemma AcceptedIsInStep(p: Plan, nodes: int, godMode: bool, table: seq<int>, before: SectionMap, after: SectionMap,
                         ends: seq<Round.State>, e: nat)
    requires AcceptedRun(p, nodes, godMode, table, before, after, ends)
    requires godMode ==> EffectiveUsers(p, nodes) >= 2
    ensures table != [] && InStep(godMode, before, after, ends)
    ensures Converted(before, after, e) == Known(p, nodes, table, e)
  {
    hide NewUsersOk, IsConversion, Campaign, AllCreate, At, EffectiveUsers, TableAt, Converted;
    AcceptedSectionsCreate(p, nodes, before, after);
    TableMatchesConversion(p, nodes, table, before, after, e);
  }

  /** In every run of an accepted scenario, while nobody was left running before, an epoch
      ends with at least the users the table gives it, and with no more exactly when
      everybody is done. In god mode the scenario must start with two users. */
  lemma RunMatchesTableExactly(p: Plan, nodes: int, godMode: bool, table: seq<int>, before: SectionMap,
                               after: SectionMap, ends: seq<Round.State>, e: nat)
    requires AcceptedRun(p, nodes, godMode, table, before, after, ends)
    requires (godMode ==> EffectiveUsers(p, nodes) >= 2) && e < |ends| && DoneBefore(ends, e)
    ensures table != [] && |ends[e].users| >= Known(p, nodes, table, e)
    ensures |ends[e].users| == Known(p, nodes, table, e) <==> RoundSafety.EverybodyDone(ends[e])
  {
    hide AcceptedRun, InStep, EffectiveUsers, RoundSafety.EverybodyDone, Converted, Known, Orderly, At, AllCreate;
    AcceptedIsInStep(p, nodes, godMode, table, before, after, ends, e);
    PopulationIsConverted(godMode, before, after, ends, e);
  }

  /** When the inviters of every epoch exist at its start, or two are never at work at
      once, the table is right in every run. */
  lemma RunMatchesTable(p: Plan, nodes: int, godMode: bool, table: seq<int>, before: SectionMap, after: SectionMap,
                        ends: seq<Round.State>, e: nat)
    requires AcceptedRun(p, nodes, godMode, table, before, after, ends)
    requires (godMode ==> EffectiveUsers(p, nodes) >= 2) && e < |ends| && OrderlyUpTo(before, after, e)
    ensures table != [] && |ends[e].users| == Known(p, nodes, table, e) && RoundSafety.EverybodyDone(ends[e])
  {
    hide AcceptedRun, InStep, EffectiveUsers, RoundSafety.EverybodyDone, Known, OrderlyUpTo;
    AcceptedIsInStep(p, nodes, godMode, table, before, after, ends, e);
    OrderlyEndsDone(godMode, before, after, ends, e + 1);
    RunMatchesTableExactly(p, nodes, godMode, table, before, after, ends, e);
  }

  lemma EndReached(p: Plan, nodes: int, godMode: bool, table: seq<int>, before: SectionMap, after: SectionMap,
                   ends: seq<Round.State>, e: nat)
    requires AcceptedRun(p, nodes, godMode, table, before, after, ends) && e < |ends|
    requires forall k :: 0 <= k < |ends[e].spawned| ==> ends[e].spawned[k] == 1
    ensures RoundSafety.EverybodyDone(ends[e])
  {
    RunOfEpoch(godMode, before, after, ends, e);
    hide NewUsersOk, IsConversion, IsTable, Round.Reachable;
    var c := RoundOf(godMode, BeforeFlips(godMode, Before(godMode, ends, e), At(before, e)), At(after, e));
    RoundSafety.SpawnedOnceEach(c, ends[e]);
  }

  /** Whoever the inviters are: when every section was spawned once, the table is right. */
  lemma RunMatchesTableWhenSpawnedOnce(p: Plan, nodes: int, godMode: bool, table: seq<int>, before: SectionMap,
                                       after: SectionMap, ends: seq<Round.State>, e: nat)
    requires AcceptedRun(p, nodes, godMode, table, before, after, ends)
    requires (godMode ==> EffectiveUsers(p, nodes) >= 2) && e < |ends|
    requires forall i, k :: 0 <= i <= e && 0 <= k < |ends[i].spawned| ==> ends[i].spawned[k] == 1
    ensures table != [] && |ends[e].users| == Known(p, nodes, table, e)
    ensures DoneBefore(ends, e + 1)
  {
    forall i | 0 <= i < e + 1
      ensures RoundSafety.EverybodyDone(ends[i])
    {
      EndReached(p, nodes, godMode, table, before, after, ends, i);
    }
    hide AcceptedRun, EffectiveUsers, RoundSafety.EverybodyDone, Known;
    RunMatchesTableExactly(p, nodes, godMode, table, before, after, ends, e);
  }
}
