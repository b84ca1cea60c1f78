/** Whole runs of a god bot whose scenario starts with a single user: the god node is
    taken for a newcomer again, and the table is too high from then on. */
module PopulationGodNode {
  import opened Wrappers
  import opened NewUsersPlan
  import opened NewUsersValidation
  import opened Population
  import Nodes
  import Round
  import RoundSafety

  /** The sections before the flips of all epochs up to this one, in order. */
  function Earlier(before: SectionMap, epoch: int): seq<Section>
    decreases epoch + 1
  {
    if epoch < 0 then [] else Earlier(before, epoch - 1) + At(before, epoch)
  }

  predicate EachCreates(sections: seq<Section>) {
    forall k :: 0 <= k < |sections| ==> Creates(sections[k])
  }

  ghost predicate NobodyAfter(after: SectionMap) {
    forall e :: At(after, e) == []
  }

  lemma {:induction false} CreatedInTwoParts(godMode: bool, population: nat, a: seq<Section>, b: seq<Section>)
    requires EachCreates(a) && EachCreates(b)
    ensures EachCreates(a + b)
    ensures BeforeFlips(godMode, population, a + b) == BeforeFlips(godMode, BeforeFlips(godMode, population, a), b)
  {
    if b == [] {
      assert a + b == a;
    } else {
      var init := b[..|b| - 1];
      CreatedInTwoParts(godMode, population, a, init);
      assert (a + b)[..|a + b| - 1] == a + init;
    }
  }

  lemma EpochCreates(before: SectionMap, after: SectionMap, epoch: nat)
    requires AllCreate(before, after) && NobodyAfter(after)
    ensures EachCreates(At(before, epoch)) && At(after, epoch) == []
    ensures Converted(before, after, epoch) == Converted(before, after, epoch - 1) + Total(At(before, epoch))
    ensures Earlier(before, epoch) == Earlier(before, epoch - 1) + At(before, epoch)
  {
    hide Creates, At;
    assert Total(At(after, epoch)) == 0;
  }

  lemma NothingYet(before: SectionMap, after: SectionMap)
    ensures Converted(before, after, -1) == Total(Earlier(before, -1)) == 0
  {
  }

  lemma {:induction false} EarlierFacts(before: SectionMap, after: SectionMap, epoch: nat)
    requires AllCreate(before, after) && NobodyAfter(after) && At(before, 0) != []
    ensures EachCreates(Earlier(before, epoch)) && Total(Earlier(before, epoch)) == Converted(before, after, epoch)
    ensures Earlier(before, epoch) != [] && Earlier(before, epoch)[0] == At(before, 0)[0]
  {
    hide AllCreate, NobodyAfter, At, Creates, Total;
    EpochCreates(before, after, epoch);
    TotalAppend(Earlier(before, epoch - 1), At(before, epoch));
    if epoch > 0 {
      EarlierFacts(before, after, epoch - 1);
    } else {
      assert Earlier(before, -1) == [];
      NothingYet(before, after);
    }
  }

  /** Without sections after the flips a round changes nothing. */
  lemma RoundAddsNobody(godMode: bool, before: SectionMap, after: SectionMap, epoch: nat, from: nat, end: Round.State)
    requires EpochRun(godMode, before, after, epoch, from, end) && At(after, epoch) == []
    ensures |end.users| == BeforeFlips(godMode, from, At(before, epoch))
  {
    var c := RoundOf(godMode, BeforeFlips(godMode, from, At(before, epoch)), At(after, epoch));
    hide BeforeFlips, At, Round.Reachable;
    RoundSafety.ZeroMeansDone(c, end);
    assert Round.Total(c.sections) == 0;
  }

  lemma NoneEarlier(before: SectionMap)
    ensures Earlier(before, -1) == []
  {
  }

  lemma {:induction false} PopulationOfEarlier(godMode: bool, before: SectionMap, after: SectionMap,
                                               ends: seq<Round.State>, e: nat)
    requires AllCreate(before, after) && NobodyAfter(after) && At(before, 0) != []
    requires Campaign(godMode, before, after, ends) && e < |ends|
    ensures EachCreates(Earlier(before, e))
    ensures |ends[e].users| == BeforeFlips(godMode, Start(godMode), Earlier(before, e))
    decreases e
  {
    hide Campaign, BeforeFlips, Start, EpochRun, At, Creates, AllCreate, NobodyAfter, Earlier;
    EarlierFacts(before, after, e);
    EpochCreates(before, after, e);
    RunOfEpoch(godMode, before, after, ends, e);
    RoundAddsNobody(godMode, before, after, e, Before(godMode, ends, e), ends[e]);
    if e > 0 {
      PopulationOfEarlier(godMode, before, after, ends, e - 1);
      CreatedInTwoParts(godMode, Start(godMode), Earlier(before, e - 1), At(before, e));
    } else {
      assert Earlier(before, -1) == [] by {
        NoneEarlier(before);
      }
      assert Earlier(before, 0) == At(before, 0);
    }
  }

  lemma {:induction false} ManyMakeTwo(sections: seq<Section>)
    requires EachCreates(sections)
    ensures Total(sections) >= |sections|
    ensures |sections| == 1 ==> Total(sections) == sections[0].count
  {
    if sections != [] {
      ManyMakeTwo(sections[..|sections| - 1]);
      assert Creates(sections[|sections| - 1]);
    }
  }

  lemma StartsWithOne(sections: seq<Section>)
    requires sections != [] && EachCreates(sections) && sections[0].count == 1
    ensures var population := BeforeFlips(true, Start(true), sections);
            population <= Total(sections) && (population == Total(sections) <==> Total(sections) == 1)
  {
    PopulationIsTheSumExactly(true, sections);
    ManyMakeTwo(sections);
    hide Total, BeforeFlips;
  }

  lemma NothingAfterFlips(p: Plan, nodes: int, before: SectionMap, after: SectionMap)
    requires IsConversion(p, nodes, before, after) && p.newUsersAfterFlips == []
    ensures NobodyAfter(after)
  {
    forall e
      ensures At(after, e) == []
    {
      assert At(after, e) == Initial(0, e) + Entries(p.newUsersAfterFlips, e);
    }
  }

  lemma PlanOfRun(p: Plan, nodes: int, table: seq<int>, before: SectionMap, after: SectionMap,
                  ends: seq<Round.State>, e: nat)
    requires AcceptedRun(p, nodes, true, table, before, after, ends)
    requires EffectiveUsers(p, nodes) == 1 && p.newUsersAfterFlips == []
    ensures table != [] && Campaign(true, before, after, ends)
    ensures AllCreate(before, after) && NobodyAfter(after) && At(before, 0) != [] && At(before, 0)[0].count == 1
    ensures Converted(before, after, e) == Known(p, nodes, table, e) == 1 + UpTo(p.newUsers, e)
  {
    hide NewUsersOk, IsConversion, Campaign, AllCreate, NobodyAfter, TableAt, EffectiveUsers, At, Converted, UpTo,
         Entries, Listed;
    NothingAfterFlips(p, nodes, before, after);
    assert p.newUsers + p.newUsersAfterFlips == p.newUsers;
    AcceptedSectionsCreate(p, nodes, before, after);
    TableMatchesConversion(p, nodes, table, before, after, e);
    ConvertedIsListed(p, nodes, before, after, e);
  }

  /** A god bot that starts with one user and creates none after the flips: in every run
      the table is right exactly until something is listed. */
  lemma LoneGodRun(p: Plan, nodes: int, table: seq<int>, before: SectionMap, after: SectionMap,
                   ends: seq<Round.State>, e: nat)
    requires AcceptedRun(p, nodes, true, table, before, after, ends) && e < |ends|
    requires EffectiveUsers(p, nodes) == 1 && p.newUsersAfterFlips == []
    ensures table != [] && |ends[e].users| <= Known(p, nodes, table, e)
    ensures |ends[e].users| == Known(p, nodes, table, e) <==> UpTo(p.newUsers, e) == 0
  {
    PlanOfRun(p, nodes, table, before, after, ends, e);
    hide *;
    EarlierFacts(before, after, e);
    PopulationOfEarlier(true, before, after, ends, e);
    StartsWithOne(Earlier(before, e));
  }
}
