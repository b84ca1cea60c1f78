/** Whether the users that an accepted scenario's ceremonies name exist when their
    epochs come: the limit they are checked against belongs to one listed epoch only. */
module NamedUsers {
  import opened Wrappers
  import opened Text
  import opened Nums
  import opened Lists
  import opened NewUsersPlan
  import opened NewUsersValidation
  import C = Ceremonies
  import opened Population
  import Round
  import RoundSafety

  /** A run of an accepted scenario whose epochs are all orderly; in god mode it starts
      with two users. */
  ghost predicate OrderlyRun(p: Plan, nodes: int, godMode: bool, table: seq<int>, before: SectionMap,
                             after: SectionMap, ends: seq<Round.State>)
  {
    && AcceptedRun(p, nodes, godMode, table, before, after, ends)
    && (godMode ==> EffectiveUsers(p, nodes) >= 2)
    && (ends != [] ==> OrderlyUpTo(before, after, |ends| - 1))
  }

  /** A section names a user. */
  predicate Names(sections: seq<C.Section>, k: nat, user: int) {
    k < |sections| && exists j :: 0 <= j < |sections[k].users| && user in C.UsersOf(sections[k].users[j])
  }

  function Smallest(xs: seq<int>): (m: int)
    requires xs != []
    ensures m in xs && forall x :: x in xs ==> m <= x
  {
    if |xs| == 1 then xs[0]
    else
      assert xs == [xs[0]] + xs[1..];
      var m := Smallest(xs[1..]);
      if xs[0] < m then xs[0] else m
  }

  // ---------- the table grows ----------

  ghost predicate AllOk(sections: seq<NewUsers>) {
    forall k :: 0 <= k < |sections| ==> SectionOk(sections[k])
  }

  lemma ListsNobodyLess(du: NewUsers, epoch: int)
    requires SectionOk(du)
    ensures du.count * Occ(Epochs(du), epoch) >= 0
  {
    hide Epochs, Occ, Distinct, Parse;
  }

  lemma {:induction false} ListedIsNotNegative(sections: seq<NewUsers>, epoch: int)
    requires AllOk(sections)
    ensures Listed(sections, epoch) >= 0
  {
    if sections != [] {
      hide SectionOk, Epochs, Occ;
      ListedIsNotNegative(sections[..|sections| - 1], epoch);
      ListsNobodyLess(sections[|sections| - 1], epoch);
    }
  }

  lemma {:induction false} UpToGrows(sections: seq<NewUsers>, early: nat, late: nat)
    requires AllOk(sections) && early <= late
    ensures UpTo(sections, early) <= UpTo(sections, late)
    decreases late
  {
    hide AllOk, Listed;
    if late > early {
      UpToGrows(sections, early, late - 1);
      ListedIsNotNegative(sections, late);
    }
  }

  lemma BothOk(p: Plan)
    requires NewUsersOk(p.newUsers) && NewUsersOk(p.newUsersAfterFlips)
    ensures AllOk(p.newUsers + p.newUsersAfterFlips)
  {
    hide SectionOk, MayStandTogether;
  }

  lemma TableGrows(p: Plan, table: seq<int>, early: nat, late: nat)
    requires IsTable(p, table) && early <= late
    requires NewUsersOk(p.newUsers) && NewUsersOk(p.newUsersAfterFlips)
    ensures TableAt(table, early) <= TableAt(table, late)
  {
    TableLookup(p, table, early);
    TableLookup(p, table, late);
    BothOk(p);
    hide *;
    UpToGrows(p.newUsers + p.newUsersAfterFlips, early, late);
  }

  // ---------- who exists ----------

  /** In every run of an accepted scenario with orderly epochs, whatever the override,
      exactly the users below the corrected table entry exist at the end of an epoch. */
  lemma ExistsExactly(p: Plan, nodes: int, godMode: bool, table: seq<int>, before: SectionMap,
                      after: SectionMap, ends: seq<Round.State>, epoch: nat, user: int)
    requires OrderlyRun(p, nodes, godMode, table, before, after, ends) && epoch < |ends|
    ensures table != []
    ensures user < |ends[epoch].users| <==> user < Known(p, nodes, table, epoch)
  {
    assert OrderlyUpTo(before, after, epoch);
    hide AcceptedRun, EffectiveUsers, TableAt, Known, OrderlyUpTo;
    RunMatchesTable(p, nodes, godMode, table, before, after, ends, epoch);
  }

  function LastListed(s: C.Section): int
    requires C.EpochsOf(s) != []
  {
    C.EpochsOf(s)[|C.EpochsOf(s)| - 1]
  }

  lemma SectionFacts(s: C.Section, table: seq<int>)
    requires table != [] && C.SectionOk(s, table)
    ensures C.EpochsOf(s) != [] && forall e :: e in C.EpochsOf(s) ==> e >= 0
    ensures var last := LastListed(s); last >= 0 && C.Limit(s, table) == TableAt(table, last)
  {
    hide Parse, ParsedOrEmpty, C.UsersOk, C.Limit, C.SectionOk, C.EpochsOf, Distinct, Elems;
    C.SectionParts(s, table);
    ParsedNumbersAreNotNegative(s.epochs);
  }

  lemma UserFacts(us: C.UserSection, limit: int, user: int)
    requires C.UserSectionOk(us, limit) && user in C.UsersOf(us)
    ensures 0 <= user < limit
  {
    hide Parse;
    ParsedNumbersAreNotNegative(us.users);
  }

  lemma NamedUserParts(sections: seq<C.Section>, table: seq<int>, k: nat, user: int)
    requires table != [] && C.CeremoniesOk(sections, |sections|, table) && Names(sections, k, user)
    ensures C.EpochsOf(sections[k]) != [] && forall e :: e in C.EpochsOf(sections[k]) ==> e >= 0
    ensures var last := LastListed(sections[k]); last >= 0 && 0 <= user < TableAt(table, last)
  {
    var s := sections[k];
    var j :| 0 <= j < |s.users| && user in C.UsersOf(s.users[j]);
    assert C.SectionOk(s, table);
    assert C.UserSectionOk(s.users[j], C.Limit(s, table));
    hide *;
    SectionFacts(s, table);
    UserFacts(s.users[j], C.Limit(s, table), user);
  }

  lemma KnownGrows(p: Plan, nodes: int, godMode: bool, table: seq<int>, before: SectionMap, after: SectionMap,
                   ends: seq<Round.State>, early: nat, late: nat)
    requires OrderlyRun(p, nodes, godMode, table, before, after, ends) && early <= late
    ensures table != [] && Known(p, nodes, table, early) <= Known(p, nodes, table, late)
  {
    hide NewUsersOk, IsConversion, Campaign, EffectiveUsers, TableAt;
    TableGrows(p, table, early, late);
  }

  /** A user that an accepted section names exists in all listed epochs of a run if and
      only if it is below the corrected table entry of the smallest of them, whatever
      the override; acceptance itself compares it with the last one listed. */
  lemma NamedUsersExist(p: Plan, nodes: int, godMode: bool, table: seq<int>, before: SectionMap, after: SectionMap,
                        ends: seq<Round.State>, sections: seq<C.Section>, k: nat, user: int)
    requires OrderlyRun(p, nodes, godMode, table, before, after, ends)
    requires table != [] && C.CeremoniesOk(sections, |sections|, table) && Names(sections, k, user)
    requires C.EpochsOf(sections[k]) != [] && Smallest(C.EpochsOf(sections[k])) < |ends|
    ensures 0 <= Smallest(C.EpochsOf(sections[k]))
    ensures (forall e :: e in C.EpochsOf(sections[k]) && e < |ends| ==> 0 <= e && user < |ends[e].users|)
       <==> user < Known(p, nodes, table, Smallest(C.EpochsOf(sections[k])))
  {
    var epochs := C.EpochsOf(sections[k]);
    NamedUserParts(sections, table, k, user);
    hide C.EpochsOf, C.CeremoniesOk, Names, OrderlyRun;
    var first := Smallest(epochs);
    forall e | e in epochs && e < |ends|
      ensures user < |ends[e].users| <==> user < Known(p, nodes, table, e)
      ensures Known(p, nodes, table, first) <= Known(p, nodes, table, e)
    {
      ExistsExactly(p, nodes, godMode, table, before, after, ends, e, user);
      KnownGrows(p, nodes, godMode, table, before, after, ends, first, e);
    }
    hide Known;
  }

  /** When the override takes nobody away, it exists from the last listed epoch on. */
  lemma NamedUsersExistFromTheLastEpoch(p: Plan, nodes: int, godMode: bool, table: seq<int>, before: SectionMap,
                                        after: SectionMap, ends: seq<Round.State>, sections: seq<C.Section>, k: nat,
                                        user: int, epoch: nat)
    requires OrderlyRun(p, nodes, godMode, table, before, after, ends) && epoch < |ends|
    requires table != [] && C.CeremoniesOk(sections, |sections|, table) && Names(sections, k, user)
    requires EffectiveUsers(p, nodes) >= p.users
    requires C.EpochsOf(sections[k]) != [] && LastListed(sections[k]) <= epoch
    ensures 0 <= user < |ends[epoch].users|
  {
    var last := LastListed(sections[k]);
    NamedUserParts(sections, table, k, user);
    hide C.EpochsOf, C.CeremoniesOk, Names, OrderlyRun, TableAt, EffectiveUsers;
    ExistsExactly(p, nodes, godMode, table, before, after, ends, epoch, user);
    KnownGrows(p, nodes, godMode, table, before, after, ends, last, epoch);
  }

  // ---------- a named user that does not exist ----------

  const ONE_AT_FIVE := NewUsers("5", 1, None, "", None, None)
  const ALONE := Plan(1, [ONE_AT_FIVE], [])
  const IDLE := C.Conduct(None, false, false, false)
  const TOO_EARLY := C.Section("0,5", [C.UserSection("1", IDLE, true)])
  const TABLE := [1, 1, 1, 1, 1, 2]

  lemma ParsedTexts()
    ensures Parse("5") == Ok([5]) && Parse("1") == Ok([1]) && Parse("0,5") == Ok([0, 5])
  {
    hide Parse;
    OneDigit(5);
    OneDigit(1);
    TwoDigits(0, 5);
    assert "0,5" == [DigitChar(0)] + [ROWS_SEPARATOR] + [DigitChar(5)];
    assert "5" == [DigitChar(5)] && "1" == [DigitChar(1)];
  }

  lemma AloneIsAccepted()
    ensures NewUsersOk(ALONE.newUsers) && NewUsersOk(ALONE.newUsersAfterFlips)
    ensures C.CeremoniesOk([TOO_EARLY], 1, TABLE)
  {
    ParsedTexts();
    hide Parse;
    var sections := [TOO_EARLY];
    assert C.EpochsOf(TOO_EARLY) == [0, 5] && C.Limit(TOO_EARLY, TABLE) == 2;
    assert C.UsersOf(TOO_EARLY.users[0]) == [1];
    assert C.UserSectionOk(TOO_EARLY.users[0], 2);
    assert C.SectionOk(sections[0], TABLE);
    assert Epochs(ONE_AT_FIVE) == [5];
  }

  lemma {:induction false} ListedForAlone(all: seq<NewUsers>, e: nat)
    requires all == [ONE_AT_FIVE] && Epochs(ONE_AT_FIVE) == [5] && e <= 5
    ensures UpTo(all, e) == if e == 5 then 1 else 0
  {
    if e > 0 {
      ListedForAlone(all, e - 1);
    }
    var five := [5];
    assert five[..0] == [] && Occ(five[..0], e) == 0;
    assert all[..0] == [] && Listed(all[..0], e) == 0;
    assert Listed(all, e) == Occ(five, e);
  }

  lemma AloneTable()
    ensures IsTable(ALONE, TABLE)
  {
    ParsedTexts();
    hide Parse;
    var all := ALONE.newUsers + ALONE.newUsersAfterFlips;
    assert all == [ONE_AT_FIVE] && all[..0] == [];
    assert Epochs(ONE_AT_FIVE) == [5] && [5][..0] == [];
    assert LastEpoch(all) == 5 by {
      assert MaxOf([5]) == 5;
    }
    forall e | 0 <= e < 6
      ensures TABLE[e] == 1 + UpTo(all, e)
    {
      ListedForAlone(all, e);
    }
  }

  const ALONE_BEFORE: SectionMap := map[0 := [Section(Some(0), "", 1, None, None)], 5 := [Convert(ONE_AT_FIVE)]]
  const NOBODY_AFTER: SectionMap := map[]

  lemma {:induction false} EntriesForAlone(sections: seq<NewUsers>, e: int)
    requires sections == [ONE_AT_FIVE] && Epochs(ONE_AT_FIVE) == [5]
    ensures Entries(sections, e) == if e == 5 then [Convert(ONE_AT_FIVE)] else []
  {
    var five := [5];
    assert five[..0] == [] && Occ(five[..0], e) == 0;
    assert sections[..0] == [] && Entries(sections[..0], e) == [];
    assert Occ(five, e) == if e == 5 then 1 else 0;
    assert Copies(Convert(ONE_AT_FIVE), 0) == [];
  }

  lemma AloneEpoch(e: int)
    ensures At(ALONE_BEFORE, e) == Initial(1, e) + Entries(ALONE.newUsers, e)
    ensures At(NOBODY_AFTER, e) == Initial(0, e) + Entries(ALONE.newUsersAfterFlips, e)
  {
    ParsedTexts();
    assert Epochs(ONE_AT_FIVE) == [5];
    EntriesForAlone(ALONE.newUsers, e);
    hide Parse, Epochs, Occ;
  }

  lemma AloneConverted()
    ensures IsConversion(ALONE, 0, ALONE_BEFORE, NOBODY_AFTER)
    ensures AllCreate(ALONE_BEFORE, NOBODY_AFTER)
  {
    assert EffectiveUsers(ALONE, 0) == 1;
    hide At, Initial, Entries, EffectiveUsers, NewUsersOk, AllCreate;
    forall e
      ensures At(ALONE_BEFORE, e) == Initial(1, e) + Entries(ALONE.newUsers, e)
      ensures At(NOBODY_AFTER, e) == Initial(0, e) + Entries(ALONE.newUsersAfterFlips, e)
    {
      AloneEpoch(e);
    }
    AloneIsAccepted();
    AcceptedSectionsCreate(ALONE, 0, ALONE_BEFORE, NOBODY_AFTER);
  }

  /** The first round: one user, no sections after the flips, and it gives up. */
  lemma AloneRound(c: Round.Config) returns (s: Round.State)
    requires c == Round.Config([], 1, false, false)
    ensures EndsAt(c, s) && |s.users| == 1
  {
    var a := Round.Action(0, Round.Exit);
    var none: seq<Round.Action> := [];
    var start := Round.Init(c);
    assert Round.Exec(c, start, none) == Some(start);
    assert Round.Enabled(c, start, a);
    s := Round.Apply(c, start, a);
    assert [a][..0] == none;
    assert Round.Exec(c, start, [a]) == Some(s);
    assert Round.Reachable(c, s);
    RoundSafety.SpawnedOnceEach(c, s);
  }

  lemma AloneFirstEpoch() returns (s: Round.State)
    ensures EpochRun(false, ALONE_BEFORE, NOBODY_AFTER, 0, 0, s) && |s.users| == 1
  {
    AloneConverted();
    var sections := At(ALONE_BEFORE, 0);
    assert sections[..0] == [];
    assert BeforeFlips(false, 0, sections[..0]) == 0;
    assert BeforeFlips(false, 0, sections) == 1;
    hide BeforeFlips, AllCreate, EndsAt, IsConversion;
    s := AloneRound(RoundOf(false, 1, At(NOBODY_AFTER, 0)));
  }

  lemma AloneRuns(ends: seq<Round.State>)
    requires |ends| == 1 && EpochRun(false, ALONE_BEFORE, NOBODY_AFTER, 0, 0, ends[0])
    ensures Campaign(false, ALONE_BEFORE, NOBODY_AFTER, ends)
  {
    hide EpochRun;
    assert Before(false, ends, 0) == 0;
  }

  lemma AloneIsOrderly()
    ensures OrderlyUpTo(ALONE_BEFORE, NOBODY_AFTER, 0)
  {
    AloneConverted();
    var sections := At(ALONE_BEFORE, 0);
    assert sections[..0] == [];
    assert Planned(ALONE_BEFORE, NOBODY_AFTER, 0) == 1;
    hide AllCreate, IsConversion, Planned;
  }

  lemma AloneIsNamed()
    ensures Names([TOO_EARLY], 0, 1) && 0 in C.EpochsOf(TOO_EARLY)
  {
    ParsedTexts();
    hide Parse;
    assert 1 in C.UsersOf([TOO_EARLY][0].users[0]);
  }

  /** Accepted, and missing: one user, a second one in epoch 5, and a ceremony for user 1
      in the epochs "0,5". The run ends epoch 0 without a user 1. */
  lemma AcceptedUserIsMissing() returns (ends: seq<Round.State>)
    ensures OrderlyRun(ALONE, 0, false, TABLE, ALONE_BEFORE, NOBODY_AFTER, ends)
    ensures C.CeremoniesOk([TOO_EARLY], 1, TABLE) && Names([TOO_EARLY], 0, 1) && 0 in C.EpochsOf(TOO_EARLY)
    ensures |ends| == 1 && !(1 < |ends[0].users|)
  {
    hide NewUsersOk, C.CeremoniesOk, Names, C.EpochsOf, IsTable, IsConversion, Campaign, OrderlyUpTo;
    var end := AloneFirstEpoch();
    ends := [end];
    AloneIsAccepted();
    AloneTable();
    AloneConverted();
    AloneRuns(ends);
    AloneIsOrderly();
    AloneIsNamed();
  }
}
