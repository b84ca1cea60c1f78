/** When an accepted scenario can have a run whose population is not the table's: exactly
    when the counter of an epoch's round can go negative. */
module PopulationOverrun {
  import opened Wrappers
  import opened Text
  import opened Nums
  import opened Lists
  import opened NewUsersPlan
  import opened NewUsersValidation
  import opened Population
  import Round
  import RoundSafety
  import RoundLateInviter
  import RoundOverrun

  // ---------- one more epoch ----------

  /** The round of the epoch after those that ended so far. */
  function NextRound(godMode: bool, before: SectionMap, after: SectionMap, ends: seq<Round.State>): Round.Config
    requires forall k :: 0 <= k < |At(before, |ends|)| ==> Creates(At(before, |ends|)[k])
    requires forall k :: 0 <= k < |At(after, |ends|)| ==> Creates(At(after, |ends|)[k])
  {
    RoundOf(godMode, BeforeFlips(godMode, Before(godMode, ends, |ends|), At(before, |ends|)), At(after, |ends|))
  }

  lemma CampaignGrows(godMode: bool, before: SectionMap, after: SectionMap, ends: seq<Round.State>, end: Round.State)
    requires Campaign(godMode, before, after, ends)
    requires AllCreate(before, after)
    ensures Campaign(godMode, before, after, ends + [end])
       <==> EndsAt(NextRound(godMode, before, after, ends), end)
  {
    var n, more := |ends|, ends + [end];
    assert Before(godMode, more, n) == Before(godMode, ends, n);
    assert EpochRun(godMode, before, after, n, Before(godMode, more, n), more[n])
      <==> EndsAt(NextRound(godMode, before, after, ends), end);
    forall e | 0 <= e < n
      ensures EpochRun(godMode, before, after, e, Before(godMode, more, e), more[e])
    {
      assert EpochRun(godMode, before, after, e, Before(godMode, ends, e), ends[e]);
      assert Before(godMode, more, e) == Before(godMode, ends, e);
    }
    hide EpochRun, EndsAt, AllCreate, NextRound, Before;
    if EpochRun(godMode, before, after, n, Before(godMode, more, n), more[n]) {
      forall e | 0 <= e < |more|
        ensures EpochRun(godMode, before, after, e, Before(godMode, more, e), more[e])
      {
        if e == n {
        }
      }
    }
  }

  lemma LastIsConverted(godMode: bool, before: SectionMap, after: SectionMap, ends: seq<Round.State>)
    requires InStep(godMode, before, after, ends) && DoneBefore(ends, |ends|) && ends != []
    ensures godMode ==> |ends[|ends| - 1].users| >= 2
  {
    hide InStep, Orderly, RoundSafety.EverybodyDone, Converted, At, AllCreate, Planned;
    PopulationIsConverted(godMode, before, after, ends, |ends| - 1);
  }

  lemma NextRoundIsAccepted(godMode: bool, before: SectionMap, after: SectionMap, ends: seq<Round.State>)
    requires InStep(godMode, before, after, ends) && DoneBefore(ends, |ends|)
    ensures var c := NextRound(godMode, before, after, ends);
            !c.atomic && RoundSafety.Accepted(c) && RoundSafety.GodAbsorbed(c)
  {
    var c := NextRound(godMode, before, after, ends);
    SectionsAreAccepted(c, At(after, |ends|));
    if ends == [] {
      FirstEpochBeforeFlips(godMode, before, after);
    } else {
      var last := |ends| - 1;
      LastIsConverted(godMode, before, after, ends);
      NextEpochBeforeFlips(godMode, before, after, |ends[last].users|, |ends|);
    }
  }

  /** The run can go on to an end of the next epoch that the table does not give. */
  ghost predicate FailsNext(p: Plan, nodes: int, godMode: bool, table: seq<int>, before: SectionMap, after: SectionMap,
                            ends: seq<Round.State>, end: Round.State)
  {
    && AcceptedRun(p, nodes, godMode, table, before, after, ends + [end])
    && table != [] && |end.users| != Known(p, nodes, table, |ends|)
  }

  lemma EndFails(p: Plan, nodes: int, godMode: bool, table: seq<int>, before: SectionMap, after: SectionMap,
                 ends: seq<Round.State>, end: Round.State)
    requires AcceptedRun(p, nodes, godMode, table, before, after, ends) && DoneBefore(ends, |ends|)
    requires godMode ==> EffectiveUsers(p, nodes) >= 2
    ensures AllCreate(before, after)
    ensures FailsNext(p, nodes, godMode, table, before, after, ends, end)
       <==> Round.Reachable(NextRound(godMode, before, after, ends), end) && end.wg == 0
            && !RoundSafety.EverybodyDone(end)
  {
    AcceptedIsInStep(p, nodes, godMode, table, before, after, ends, 0);
    hide NewUsersOk, IsTable, IsConversion, Campaign, AllCreate, Known, EffectiveUsers, RoundSafety.EverybodyDone,
         Round.Reachable, NextRound;
    CampaignGrows(godMode, before, after, ends, end);
    if Campaign(godMode, before, after, ends + [end]) {
      RunMatchesTableExactly(p, nodes, godMode, table, before, after, ends + [end], |ends|);
    }
  }

  /** While nobody was left running, the next epoch can end with a population that is not
      the table's if and only if the counter of its round can go negative. */
  lemma TableFailsExactly(p: Plan, nodes: int, godMode: bool, table: seq<int>, before: SectionMap, after: SectionMap,
                          ends: seq<Round.State>)
    requires AcceptedRun(p, nodes, godMode, table, before, after, ends) && DoneBefore(ends, |ends|)
    requires godMode ==> EffectiveUsers(p, nodes) >= 2
    ensures AllCreate(before, after)
    ensures (exists end :: FailsNext(p, nodes, godMode, table, before, after, ends, end))
       <==> (exists s :: Round.Reachable(NextRound(godMode, before, after, ends), s) && s.wg < 0)
  {
    AcceptedIsInStep(p, nodes, godMode, table, before, after, ends, 0);
    NextRoundIsAccepted(godMode, before, after, ends);
    var c := NextRound(godMode, before, after, ends);
    hide *;
    RoundOverrun.OverrunExactly(c);
    if end :| FailsNext(p, nodes, godMode, table, before, after, ends, end) {
      EndFails(p, nodes, godMode, table, before, after, ends, end);
    }
    if s :| Round.Reachable(c, s) && s.wg == 0 && !RoundSafety.EverybodyDone(s) {
      EndFails(p, nodes, godMode, table, before, after, ends, s);
    }
  }

  // ---------- an accepted scenario with such a run ----------

  const BY_FIRST := NewUsers("0", 1, Some(0), "", None, None)
  const BY_SECOND := NewUsers("0", 1, Some(1), "", None, None)
  const BY_LATE := NewUsers("0", 1, Some(3), "", None, None)
  const LATE := Plan(2, [], [BY_FIRST, BY_SECOND, BY_LATE])
  const LATE_TABLE := [5]
  const TWO_BEFORE: SectionMap := map[0 := [Section(Some(0), "", 2, None, None)]]
  const THREE_AFTER: SectionMap := map[0 := [Convert(BY_FIRST), Convert(BY_SECOND), Convert(BY_LATE)]]

  lemma LateEpochs()
    ensures Parse("0") == Ok([0]) && Epochs(BY_FIRST) == Epochs(BY_SECOND) == Epochs(BY_LATE) == [0]
  {
    hide Parse;
    OneDigit(0);
    assert "0" == [DigitChar(0)];
  }

  lemma LateIsAccepted()
    ensures NewUsersOk(LATE.newUsers) && NewUsersOk(LATE.newUsersAfterFlips)
  {
    LateEpochs();
    hide Parse;
    assert SectionOk(BY_FIRST) && SectionOk(BY_SECOND) && SectionOk(BY_LATE);
    assert LATE.newUsersAfterFlips == [BY_FIRST, BY_SECOND, BY_LATE];
  }

  lemma OneMoreListed(sections: seq<NewUsers>, e: int)
    requires sections != []
    requires var last := sections[|sections| - 1]; last.count == 1 && Occ(Epochs(last), e) == if e == 0 then 1 else 0
    ensures var init, last := sections[..|sections| - 1], sections[|sections| - 1];
            && Entries(sections, e) == Entries(init, e) + (if e == 0 then [Convert(last)] else [])
            && Listed(sections, e) == Listed(init, e) + (if e == 0 then 1 else 0)
  {
    var s := Convert(sections[|sections| - 1]);
    assert Copies(s, 0) == [];
    assert Copies(s, 1) == [s];
  }

  lemma LateEntries(e: int)
    ensures At(TWO_BEFORE, e) == Initial(2, e) + Entries(LATE.newUsers, e)
    ensures At(THREE_AFTER, e) == Initial(0, e) + Entries(LATE.newUsersAfterFlips, e)
    ensures Listed(LATE.newUsersAfterFlips, e) == if e == 0 then 3 else 0
  {
    LateEpochs();
    hide Epochs;
    var all := LATE.newUsersAfterFlips;
    var zero, none := [0], [];
    assert zero[..0] == none;
    assert Occ(zero[..0], e) == 0;
    assert Occ(zero, e) == if e == 0 then 1 else 0;
    OneMoreListed(all[..1], e);
    OneMoreListed(all[..2], e);
    OneMoreListed(all, e);
    assert all[..2][..1] == all[..1] && all[..1][..0] == all[..0];
    assert Entries(all[..0], e) == [] && Listed(all[..0], e) == 0;
  }

  lemma LateConverted()
    ensures IsConversion(LATE, 0, TWO_BEFORE, THREE_AFTER)
  {
    assert EffectiveUsers(LATE, 0) == 2;
    hide At, Initial, Entries, EffectiveUsers;
    forall e
      ensures At(TWO_BEFORE, e) == Initial(2, e) + Entries(LATE.newUsers, e)
      ensures At(THREE_AFTER, e) == Initial(0, e) + Entries(LATE.newUsersAfterFlips, e)
    {
      LateEntries(e);
    }
  }

  lemma {:induction false} LastIsZero(sections: seq<NewUsers>)
    requires forall k :: 0 <= k < |sections| ==> Epochs(sections[k]) == [0]
    ensures LastEpoch(sections) == 0
  {
    hide Epochs;
    assert MaxOf([0]) == 0;
    if sections != [] {
      LastIsZero(sections[..|sections| - 1]);
    }
  }

  lemma LateTable()
    ensures IsTable(LATE, LATE_TABLE)
  {
    var all := LATE.newUsers + LATE.newUsersAfterFlips;
    assert all == LATE.newUsersAfterFlips;
    LateEpochs();
    LateEntries(0);
    assert MaxOf([0]) == 0;
    LastIsZero(all);
    hide Epochs, Listed;
    assert UpTo(all, -1) == 0;
  }

  lemma LateRound() returns (c: Round.Config)
    requires AllCreate(TWO_BEFORE, THREE_AFTER)
    ensures c == NextRound(false, TWO_BEFORE, THREE_AFTER, [])
    ensures RoundSafety.Accepted(c) && RoundLateInviter.InvitedLate(c)
    ensures c.initial + Round.Total(c.sections) == 5
  {
    var first, later := At(TWO_BEFORE, 0), At(THREE_AFTER, 0);
    assert first[..0] == [];
    assert BeforeFlips(false, 0, first[..0]) == 0;
    c := NextRound(false, TWO_BEFORE, THREE_AFTER, []);
    SectionsAreAccepted(c, later);
    RoundTotal(later);
    assert later[..2][..1] == later[..1] && later[..1][..0] == [];
    assert later == [Convert(BY_FIRST), Convert(BY_SECOND), Convert(BY_LATE)];
    assert Total(later[..1]) == 1;
    assert Total(later[..2]) == 2;
    assert Total(later) == 3;
  }

  lemma LateEnd(c: Round.Config, end: Round.State)
    requires AllCreate(TWO_BEFORE, THREE_AFTER) && c == NextRound(false, TWO_BEFORE, THREE_AFTER, [])
    requires Round.Reachable(c, end) && end.wg == 0
    ensures Campaign(false, TWO_BEFORE, THREE_AFTER, [end])
  {
    var none: seq<Round.State> := [];
    assert none + [end] == [end];
    assert Campaign(false, TWO_BEFORE, THREE_AFTER, none);
    hide AllCreate;
    CampaignGrows(false, TWO_BEFORE, THREE_AFTER, none, end);
  }

  /** Two users, and after the flips of epoch 0 one more by user 0, one by user 1 and one by
      user 3: accepted, with five users in the table, and a run that ends epoch 0 with more. */
  lemma AcceptedRunOverruns() returns (end: Round.State)
    ensures AcceptedRun(LATE, 0, false, LATE_TABLE, TWO_BEFORE, THREE_AFTER, [end])
    ensures |end.users| > 5 == Known(LATE, 0, LATE_TABLE, 0)
    ensures !RoundSafety.EverybodyDone(end)
  {
    LateIsAccepted();
    LateTable();
    LateConverted();
    AcceptedSectionsCreate(LATE, 0, TWO_BEFORE, THREE_AFTER);
    hide NewUsersOk, IsTable, IsConversion, AllCreate, Campaign, RoundSafety.EverybodyDone, Round.Reachable,
         RoundSafety.Accepted, RoundLateInviter.InvitedLate, NextRound;
    var c := LateRound();
    end := RoundOverrun.LateInviterOverruns(c);
    LateEnd(c, end);
  }
}
