/** scenario/validation.go and scenario/conversion.go: which ceremony sections are
    accepted, and what the converted ceremonies look up afterwards. */
module Ceremonies {
  import opened Wrappers
  import opened Nums
  import opened Lists
  import opened NewUsersPlan

  /** What a user does in a ceremony. */
  datatype Conduct = Conduct(submitFlips: Option<int>, skipValidation: bool, failShortSession: bool, skipEpoch: bool)

  /** answersOk is the verdict on the deprecated answer fields. */
  datatype UserSection = UserSection(users: string, conduct: Conduct, answersOk: bool)

  datatype Section = Section(epochs: string, users: seq<UserSection>)

  datatype Verdict = Accepted | Rejected | Panicked

  function UsersOf(us: UserSection): seq<int> {
    ParsedOrEmpty(us.users)
  }

  function EpochsOf(s: Section): seq<int> {
    ParsedOrEmpty(s.epochs)
  }

  lemma EpochsAreParsed(s: Section)
    ensures EpochsOf(s) == ParsedOrEmpty(s.epochs)
  {
  }

  function UserLists(sections: seq<UserSection>): (lists: seq<seq<int>>)
    ensures |lists| == |sections|
  {
    seq(|sections|, k requires 0 <= k < |sections| => UsersOf(sections[k]))
  }

  function EpochLists(sections: seq<Section>): (lists: seq<seq<int>>)
    ensures |lists| == |sections|
  {
    seq(|sections|, k requires 0 <= k < |sections| => EpochsOf(sections[k]))
  }

  // ---------- what is accepted ----------

  predicate Below(xs: seq<int>, limit: int) {
    forall x :: x in xs ==> x < limit
  }

  lemma OneMoreBelow(xs: seq<int>, k: nat, limit: int)
    requires k < |xs|
    ensures Below(xs[..k + 1], limit) <==> Below(xs[..k], limit) && xs[k] < limit
    ensures Below(xs, limit) ==> xs[k] < limit
  {
    assert xs[..k + 1] == xs[..k] + [xs[k]];
    assert xs[k] in xs && xs[k] in xs[..k + 1];
    assert forall x :: x in xs[..k] ==> x in xs[..k + 1];
  }

  predicate UserSectionOk(us: UserSection, limit: int) {
    && Parse(us.users).Ok? && Distinct(UsersOf(us))
    && Below(UsersOf(us), limit)
    && (us.conduct.submitFlips.Some? ==> us.conduct.submitFlips.value >= 0)
    && us.answersOk
  }

  ghost predicate UsersOk(sections: seq<UserSection>, n: nat, limit: int)
    requires n <= |sections|
  {
    && (forall k :: 0 <= k < n ==> UserSectionOk(sections[k], limit))
    && Pairwise(UserLists(sections), n)
  }

  /** The number of users known in the last epoch a section lists. */
  function Limit(s: Section, table: seq<int>): int
    requires table != [] && EpochsOf(s) != []
  {
    var last := EpochsOf(s)[|EpochsOf(s)| - 1];
    if last < 0 then 0 else TableAt(table, last)
  }

  ghost predicate SectionOk(s: Section, table: seq<int>)
    requires table != []
  {
    && Parse(s.epochs).Ok? && Distinct(EpochsOf(s)) && EpochsOf(s) != []
    && UsersOk(s.users, |s.users|, Limit(s, table))
  }

  ghost predicate CeremoniesOk(sections: seq<Section>, n: nat, table: seq<int>)
    requires n <= |sections| && table != []
  {
    && (forall k :: 0 <= k < n ==> SectionOk(sections[k], table))
    && Pairwise(EpochLists(sections), n)
  }

  // ---------- the validator ----------

  method ValidateEpochs(epochsStr: string, used: set<int>) returns (ok: bool, usedAfter: set<int>)
    ensures ok <==> Parse(epochsStr).Ok? && Distinct(Parse(epochsStr).value)
                    && Elems(Parse(epochsStr).value) !! used
    ensures ok ==> usedAfter == used + Elems(Parse(epochsStr).value)
  {
    var parsed := Parse(epochsStr);
    usedAfter := used;
    if parsed.Err? {
      return false, used;
    }
    ParsedNumbersAreNotNegative(epochsStr);
    var epochs := parsed.value;
    assert epochs[..0] == [];
    hide *;
    for j := 0 to |epochs|
      invariant Distinct(epochs[..j]) && Elems(epochs[..j]) !! used
      invariant usedAfter == used + Elems(epochs[..j])
    {
      OneMore(epochs, j);
      if epochs[j] < 0 || epochs[j] in usedAfter {
        return false, usedAfter;
      }
      usedAfter := usedAfter + {epochs[j]};
    }
    assert epochs[..|epochs|] == epochs;
    ok := true;
  }

  method ValidateCeremonyUsers(usersStr: string, limit: int, used: set<int>) returns (ok: bool, usedAfter: set<int>)
    ensures ok <==> Parse(usersStr).Ok? && Distinct(Parse(usersStr).value)
                    && Below(Parse(usersStr).value, limit) && Elems(Parse(usersStr).value) !! used
    ensures ok ==> usedAfter == used + Elems(Parse(usersStr).value)
  {
    var parsed := Parse(usersStr);
    usedAfter := used;
    if parsed.Err? {
      return false, used;
    }
    ParsedNumbersAreNotNegative(usersStr);
    var users := parsed.value;
    assert users[..0] == [];
    hide *;
    for j := 0 to |users|
      invariant Distinct(users[..j]) && Below(users[..j], limit) && Elems(users[..j]) !! used
      invariant usedAfter == used + Elems(users[..j])
    {
      OneMore(users, j);
      OneMoreBelow(users, j, limit);
      if users[j] < 0 || users[j] >= limit || users[j] in usedAfter {
        return false, usedAfter;
      }
      usedAfter := usedAfter + {users[j]};
    }
    assert users[..|users|] == users;
    ok := true;
  }

  method ValidateUserCeremony(us: UserSection, limit: int, used: set<int>) returns (ok: bool, usedAfter: set<int>)
    ensures ok <==> UserSectionOk(us, limit) && Elems(UsersOf(us)) !! used
    ensures ok ==> us.answersOk && (us.conduct.submitFlips.Some? ==> us.conduct.submitFlips.value >= 0)
    ensures !ok && us.answersOk && (us.conduct.submitFlips.Some? ==> us.conduct.submitFlips.value >= 0) ==>
              !(Parse(us.users).Ok? && Distinct(Parse(us.users).value) && Elems(Parse(us.users).value) !! used
                && forall user :: user in Parse(us.users).value ==> user < limit)
    ensures ok ==> usedAfter == used + Elems(UsersOf(us))
  {
    ok, usedAfter := ValidateCeremonyUsers(us.users, limit, used);
    if ok && us.conduct.submitFlips.Some? && us.conduct.submitFlips.value < 0 {
      ok := false;
    }
    if ok && !us.answersOk {
      ok := false;
    }
  }

  lemma NoUsersYet(sections: seq<UserSection>, limit: int)
    ensures UsersOk(sections, 0, limit) && AllOf(UserLists(sections), 0) == {}
  {
  }

  lemma UsersStep(sections: seq<UserSection>, k: nat, limit: int)
    requires k < |sections| && UsersOk(sections, k, limit)
    ensures UsersOk(sections, k + 1, limit)
       <==> UserSectionOk(sections[k], limit) && Elems(UsersOf(sections[k])) !! AllOf(UserLists(sections), k)
    ensures UsersOk(sections, |sections|, limit) ==> UsersOk(sections, k + 1, limit)
    ensures AllOf(UserLists(sections), k + 1) == AllOf(UserLists(sections), k) + Elems(UsersOf(sections[k]))
  {
    hide UserSectionOk, UsersOf, Elems;
    PairwiseStep(UserLists(sections), k);
    assert UserLists(sections)[k] == UsersOf(sections[k]);
  }

  method ValidateUserCeremonies(sections: seq<UserSection>, limit: int) returns (ok: bool)
    ensures ok <==> UsersOk(sections, |sections|, limit)
  {
    hide *;
    var used: set<int> := {};
    NoUsersYet(sections, limit);
    for k := 0 to |sections|
      invariant UsersOk(sections, k, limit) && used == AllOf(UserLists(sections), k)
    {
      ok, used := ValidateUserCeremony(sections[k], limit, used);
      UsersStep(sections, k, limit);
      if !ok {
        return;
      }
    }
    ok := true;
  }

  lemma NoSectionsYet(sections: seq<Section>, table: seq<int>)
    requires table != []
    ensures CeremoniesOk(sections, 0, table) && AllOf(EpochLists(sections), 0) == {}
  {
  }

  lemma SectionsStep(sections: seq<Section>, k: nat, table: seq<int>)
    requires k < |sections| && table != [] && CeremoniesOk(sections, k, table)
    ensures CeremoniesOk(sections, k + 1, table)
       <==> SectionOk(sections[k], table) && Elems(EpochsOf(sections[k])) !! AllOf(EpochLists(sections), k)
    ensures forall n :: k < n <= |sections| && CeremoniesOk(sections, n, table) ==> CeremoniesOk(sections, k + 1, table)
    ensures AllOf(EpochLists(sections), k + 1) == AllOf(EpochLists(sections), k) + Elems(EpochsOf(sections[k]))
    ensures SectionOk(sections[k], table) ==> Parse(sections[k].epochs) != Ok([])
  {
    assert SectionOk(sections[k], table) ==> EpochsOf(sections[k]) != [];
    hide SectionOk, EpochsOf, Elems, Parse;
    assert EpochLists(sections)[k] == EpochsOf(sections[k]);
    hide EpochLists;
    PairwiseStep(EpochLists(sections), k);
  }

  lemma SectionParts(s: Section, table: seq<int>)
    requires table != []
    ensures EpochsOf(s) == ParsedOrEmpty(s.epochs)
    ensures Parse(s.epochs).Ok? ==> EpochsOf(s) == Parse(s.epochs).value
    ensures EpochsOf(s) != [] ==>
              var last := EpochsOf(s)[|EpochsOf(s)| - 1];
              last >= 0 && Limit(s, table) == if last > |table| - 1 then table[|table| - 1] else table[last]
    ensures SectionOk(s, table)
       <==> Parse(s.epochs).Ok? && Distinct(EpochsOf(s)) && EpochsOf(s) != []
            && UsersOk(s.users, |s.users|, Limit(s, table))
    ensures EpochsOf(s) == [] && Parse(s.epochs).Ok? ==> Distinct(EpochsOf(s)) && Elems(EpochsOf(s)) == {}
  {
    hide Parse, UsersOk;
    if EpochsOf(s) != [] {
      ParsedNumbersAreNotNegative(s.epochs);
      assert EpochsOf(s)[|EpochsOf(s)| - 1] in EpochsOf(s);
    }
  }

  method ValidateCeremony(s: Section, table: seq<int>, used: set<int>) returns (v: Verdict, usedAfter: set<int>)
    requires table != []
    ensures v == Accepted <==> SectionOk(s, table) && Elems(EpochsOf(s)) !! used
    ensures v == Panicked <==> Parse(s.epochs) == Ok([])
    ensures v == Accepted ==> usedAfter == used + Elems(EpochsOf(s))
  {
    hide *;
    var ok;
    ok, usedAfter := ValidateEpochs(s.epochs, used);
    SectionParts(s, table);
    if !ok {
      return Rejected, usedAfter;
    }
    var epochs := ParsedOrEmpty(s.epochs);
    if |epochs| == 0 {
      return Panicked, usedAfter;
    }
    var maxEpoch := epochs[|epochs| - 1];
    var usersCount;
    if maxEpoch > |table| - 1 {
      usersCount := table[|table| - 1];
    } else {
      usersCount := table[maxEpoch];
    }
    ok := ValidateUserCeremonies(s.users, usersCount);
    v := if ok then Accepted else Rejected;
  }

  /** Accepted exactly when the sections are in order; the section that makes the
      validator panic is one that parses to no epoch, such as a descending range, after
      sections that are in order. */
  method ValidateCeremonies(sections: seq<Section>, table: seq<int>) returns (v: Verdict)
    requires table != []
    ensures v == Accepted <==> CeremoniesOk(sections, |sections|, table)
    ensures v == Panicked <==> exists k :: 0 <= k < |sections| && CeremoniesOk(sections, k, table)
                                           && Parse(sections[k].epochs) == Ok([])
  {
    hide *;
    var used: set<int> := {};
    NoSectionsYet(sections, table);
    for k := 0 to |sections|
      invariant CeremoniesOk(sections, k, table) && used == AllOf(EpochLists(sections), k)
      invariant forall j :: 0 <= j < k ==> Parse(sections[j].epochs) != Ok([])
    {
      v, used := ValidateCeremony(sections[k], table, used);
      SectionsStep(sections, k, table);
      if v != Accepted {
        return;
      }
    }
    v := Accepted;
  }
}
