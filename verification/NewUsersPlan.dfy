/** scenario/validation.go and scenario/conversion.go: the users a scenario creates,
    once as the validator's table and once as the converted per-epoch sections. */
module NewUsersPlan {
  import opened Wrappers
  import opened Nums
  import opened Lists

  /** A newUsers section of a scenario. */
  datatype NewUsers = NewUsers(epochs: string, count: int, inviter: Option<int>, command: string,
                               sharedNode: Option<int>, inviteAmount: Option<real>)

  /** A converted section. */
  datatype Section = Section(inviter: Option<int>, command: string, count: int,
                             sharedNode: Option<int>, inviteAmount: Option<real>)

  /** The numbers of the scenario that plan its users. */
  datatype Plan = Plan(users: int, newUsers: seq<NewUsers>, newUsersAfterFlips: seq<NewUsers>)

  function Convert(du: NewUsers): Section {
    Section(du.inviter, du.command, du.count, du.sharedNode, du.inviteAmount)
  }

  function Epochs(du: NewUsers): seq<int> {
    ParsedOrEmpty(du.epochs)
  }

  /** How often a number occurs in a list. */
  function Occ(xs: seq<int>, x: int): nat {
    if xs == [] then 0 else Occ(xs[..|xs| - 1], x) + (if xs[|xs| - 1] == x then 1 else 0)
  }

  /** The users these sections create in one epoch, a section once per listing. */
  function Listed(sections: seq<NewUsers>, epoch: int): int {
    if sections == [] then 0
    else
      var du := sections[|sections| - 1];
      Listed(sections[..|sections| - 1], epoch) + du.count * Occ(Epochs(du), epoch)
  }

  /** The users created up to and including an epoch. */
  function UpTo(sections: seq<NewUsers>, epoch: int): int
    decreases epoch + 1
  {
    if epoch < 0 then 0 else UpTo(sections, epoch - 1) + Listed(sections, epoch)
  }

  function Max(a: int, b: int): int {
    if a < b then b else a
  }

  function MaxOf(xs: seq<int>): (m: int)
    ensures m >= 0 && forall x :: x in xs ==> x <= m
  {
    if xs == [] then 0
    else
      assert xs == xs[..|xs| - 1] + [xs[|xs| - 1]];
      Max(MaxOf(xs[..|xs| - 1]), xs[|xs| - 1])
  }

  /** The last epoch any section lists, at least 0. */
  function LastEpoch(sections: seq<NewUsers>): (m: int)
    ensures m >= 0
  {
    if sections == [] then 0
    else Max(LastEpoch(sections[..|sections| - 1]), MaxOf(Epochs(sections[|sections| - 1])))
  }

  // ---------- the validator's table ----------

  function Get(m: map<int, int>, k: int): int {
    if k in m then m[k] else 0
  }

  lemma PrefixStep<T>(xs: seq<T>, k: nat)
    requires k < |xs|
    ensures xs[..k + 1][..k] == xs[..k] && xs[..k + 1][k] == xs[k]
  {
  }

  lemma NothingOccursYet(count: int, xs: seq<int>)
    ensures forall e :: count * Occ(xs[..0], e) == 0
  {
  }

  lemma OneMoreOccurrence(count: int, xs: seq<int>, x: int, e: int)
    ensures count * Occ(xs + [x], e) == count * Occ(xs, e) + (if x == e then count else 0)
  {
    assert (xs + [x])[..|xs|] == xs;
  }

  lemma CountedOnceMore(counts: map<int, int>, before: map<int, int>, count: int, epochs: seq<int>, j: nat)
    requires j < |epochs| && forall e :: Get(before, e) == Get(counts, e) + count * Occ(epochs[..j], e)
    ensures forall e :: Get(before[epochs[j] := Get(before, epochs[j]) + count], e)
                     == Get(counts, e) + count * Occ(epochs[..j + 1], e)
  {
    var m := before[epochs[j] := Get(before, epochs[j]) + count];
    assert epochs[..j + 1] == epochs[..j] + [epochs[j]];
    hide Occ;
    forall e
      ensures Get(m, e) == Get(counts, e) + count * Occ(epochs[..j + 1], e)
    {
      assert Get(before, e) == Get(counts, e) + count * Occ(epochs[..j], e);
      OneMoreOccurrence(count, epochs[..j], epochs[j], e);
    }
  }

  lemma MaxOfStep(xs: seq<int>, k: nat)
    requires k < |xs|
    ensures MaxOf(xs[..k + 1]) == Max(MaxOf(xs[..k]), xs[k])
  {
    PrefixStep(xs, k);
  }

  /** One section of the first loop: its count is added at every epoch it lists. */
  method AddSection(counts: map<int, int>, maxEpoch: int, du: NewUsers)
    returns (m: map<int, int>, last: int)
    requires maxEpoch >= 0
    ensures forall e :: Get(m, e) == Get(counts, e) + du.count * Occ(Epochs(du), e)
    ensures last == Max(maxEpoch, MaxOf(Epochs(du)))
  {
    m, last := counts, maxEpoch;
    var epochs := ParsedOrEmpty(du.epochs);
    NothingOccursYet(du.count, epochs);
    assert MaxOf(epochs[..0]) == 0;
    hide ParsedOrEmpty, Occ, MaxOf, Get;
    for j := 0 to |epochs|
      invariant forall e :: Get(m, e) == Get(counts, e) + du.count * Occ(epochs[..j], e)
      invariant last == Max(maxEpoch, MaxOf(epochs[..j]))
    {
      MaxOfStep(epochs, j);
      CountedOnceMore(counts, m, du.count, epochs, j);
      var epoch := epochs[j];
      m := m[epoch := Get(m, epoch) + du.count];
      if last < epoch {
        last := epoch;
      }
    }
    assert epochs[..|epochs|] == epochs;
  }

  lemma NobodyListedYet(sections: seq<NewUsers>)
    ensures LastEpoch(sections[..0]) == 0 && forall e :: Listed(sections[..0], e) == 0
  {
  }

  lemma ListedStep(sections: seq<NewUsers>, k: nat, e: int)
    requires k < |sections|
    ensures Listed(sections[..k + 1], e) == Listed(sections[..k], e) + sections[k].count * Occ(Epochs(sections[k]), e)
  {
    hide Occ, Epochs;
    PrefixStep(sections, k);
  }

  lemma LastEpochStep(sections: seq<NewUsers>, k: nat)
    requires k < |sections|
    ensures LastEpoch(sections[..k + 1]) == Max(LastEpoch(sections[..k]), MaxOf(Epochs(sections[k])))
  {
    hide MaxOf, Epochs;
    PrefixStep(sections, k);
  }

  lemma UpToStep(sections: seq<NewUsers>, epoch: nat)
    ensures UpTo(sections, epoch) == (if epoch == 0 then 0 else UpTo(sections, epoch - 1)) + Listed(sections, epoch)
  {
  }

  method BuildEpochUserCounts(p: Plan) returns (table: seq<int>)
    ensures |table| == LastEpoch(p.newUsers + p.newUsersAfterFlips) + 1
    ensures forall e :: 0 <= e < |table| ==>
              table[e] == p.users + UpTo(p.newUsers + p.newUsersAfterFlips, e)
  {
    hide Listed, LastEpoch, UpTo, Occ, MaxOf, Epochs;
    var sections := p.newUsers + p.newUsersAfterFlips;
    var counts: map<int, int> := map[];
    var maxEpoch := 0;
    NobodyListedYet(sections);
    for k := 0 to |sections|
      invariant maxEpoch == LastEpoch(sections[..k])
      invariant forall e :: Get(counts, e) == Listed(sections[..k], e)
    {
      ghost var before := counts;
      counts, maxEpoch := AddSection(counts, maxEpoch, sections[k]);
      forall e
        ensures Get(counts, e) == Listed(sections[..k + 1], e)
      {
        assert Get(before, e) == Listed(sections[..k], e);
        ListedStep(sections, k, e);
      }
      LastEpochStep(sections, k);
    }
    assert sections[..|sections|] == sections;
    table := [p.users];
    if 0 in counts {
      table := [table[0] + counts[0]];
    }
    assert Get(counts, 0) == Listed(sections, 0);
    UpToStep(sections, 0);
    var i := 1;
    while i <= maxEpoch
      invariant 1 <= i <= maxEpoch + 1 && |table| == i
      invariant forall e :: 0 <= e < i ==> table[e] == p.users + UpTo(sections, e)
    {
      assert Get(counts, i) == Listed(sections, i);
      UpToStep(sections, i);
      table := table + [table[i - 1] + Get(counts, i)];
      i := i + 1;
    }
  }

  /** The table's entry for an epoch; epochs past its end read the last entry. */
  function TableAt(table: seq<int>, epoch: int): int
    requires epoch >= 0 && table != []
  {
    if epoch > |table| - 1 then table[|table| - 1] else table[epoch]
  }

  // ---------- the converted sections ----------

  type SectionMap = map<int, seq<Section>>

  function At(m: SectionMap, epoch: int): seq<Section> {
    if epoch in m then m[epoch] else []
  }

  /** What the sections list for one epoch, in the order of the scenario. */
  function Entries(sections: seq<NewUsers>, epoch: int): seq<Section> {
    if sections == [] then []
    else
      var du := sections[|sections| - 1];
      Entries(sections[..|sections| - 1], epoch) + Copies(Convert(du), Occ(Epochs(du), epoch))
  }

  /** The section of the scenario's own users: user 0 invites them in epoch 0. */
  function Initial(users: int, epoch: int): seq<Section> {
    if users > 0 && epoch == 0 then [Section(Some(0), "", users, None, None)] else []
  }

  lemma NoInitial(users: int, sections: seq<NewUsers>)
    ensures forall e :: users <= 0 || e != 0 ==> Initial(users, e) + Entries(sections, e) == Entries(sections, e)
    ensures users > 0 ==> Initial(users, 0) == [Section(Some(0), "", users, None, None)]
  {
    hide Entries;
  }

  lemma NoEntriesYet(users: int, m: SectionMap, sections: seq<NewUsers>)
    requires forall e :: At(m, e) == Initial(users, e)
    ensures forall e :: At(m, e) == Initial(users, e) + Entries(sections[..0], e)
  {
  }

  lemma EntriesStep(front: seq<Section>, sections: seq<NewUsers>, k: nat, epoch: int)
    requires k < |sections|
    ensures (front + Entries(sections[..k], epoch)) + Copies(Convert(sections[k]), Occ(Epochs(sections[k]), epoch))
         == front + Entries(sections[..k + 1], epoch)
  {
    PrefixStep(sections, k);
  }

  lemma CopiesStep(front: seq<Section>, s: Section, xs: seq<int>, k: nat, x: int)
    requires k < |xs|
    ensures (front + Copies(s, Occ(xs[..k], x))) + (if xs[k] == x then [s] else [])
         == front + Copies(s, Occ(xs[..k + 1], x))
  {
    PrefixStep(xs, k);
  }

  method AppendSection(m0: SectionMap, du: NewUsers) returns (m: SectionMap)
    ensures forall e :: At(m, e) == At(m0, e) + Copies(Convert(du), Occ(Epochs(du), e))
  {
    m := m0;
    var epochs := ParsedOrEmpty(du.epochs);
    for j := 0 to |epochs|
      invariant forall e :: At(m, e) == At(m0, e) + Copies(Convert(du), Occ(epochs[..j], e))
    {
      var epoch := epochs[j];
      ghost var before := m;
      m := m[epoch := At(m, epoch) + [Convert(du)]];
      forall e
        ensures At(m, e) == At(m0, e) + Copies(Convert(du), Occ(epochs[..j + 1], e))
      {
        assert At(m, e) == At(before, e) + (if epoch == e then [Convert(du)] else []);
        hide *;
        assert At(before, e) == At(m0, e) + Copies(Convert(du), Occ(epochs[..j], e));
        CopiesStep(At(m0, e), Convert(du), epochs, j, e);
      }
    }
    assert epochs[..|epochs|] == epochs;
  }

  predicate SameFields(s: Section, du: NewUsers) {
    && s.inviter == du.inviter && s.command == du.command && s.count == du.count
    && s.sharedNode == du.sharedNode && s.inviteAmount == du.inviteAmount
  }

  lemma {:induction false} OccIsMultiplicity(xs: seq<int>, x: int)
    ensures Occ(xs, x) == multiset(xs)[x]
  {
    if xs != [] {
      OccIsMultiplicity(xs[..|xs| - 1], x);
      assert xs == xs[..|xs| - 1] + [xs[|xs| - 1]];
    }
  }

  /** How many entries these sections make for an epoch. */
  function Listings(sections: seq<NewUsers>, epoch: int): nat {
    if sections == [] then 0
    else Listings(sections[..|sections| - 1], epoch) + multiset(Epochs(sections[|sections| - 1]))[epoch]
  }

  lemma CopiesFrom(du: NewUsers, epoch: int)
    ensures var copies := Copies(Convert(du), Occ(Epochs(du), epoch));
            && |copies| == multiset(Epochs(du))[epoch]
            && forall j :: 0 <= j < |copies| ==> SameFields(copies[j], du)
  {
    var copies := Copies(Convert(du), Occ(Epochs(du), epoch));
    OccIsMultiplicity(Epochs(du), epoch);
    CopiesAreCopies(Convert(du), Occ(Epochs(du), epoch));
    hide Copies, Occ, Epochs;
    forall j | 0 <= j < |copies|
      ensures SameFields(copies[j], du)
    {
      assert copies[j] in copies;
    }
  }

  lemma ListingsStep(sections: seq<NewUsers>, epoch: int, k: nat)
    requires k < |sections|
    ensures Listings(sections[..k + 1], epoch)
         == Listings(sections[..k], epoch) + multiset(Epochs(sections[k]))[epoch]
  {
    hide Epochs;
    PrefixStep(sections, k);
  }

  lemma LastEntries(sections: seq<NewUsers>, epoch: int)
    requires sections != []
    ensures var n := |sections| - 1;
            Entries(sections, epoch)
            == Entries(sections[..n], epoch) + Copies(Convert(sections[n]), Occ(Epochs(sections[n]), epoch))
  {
  }

  lemma NothingListed(sections: seq<NewUsers>, epoch: int)
    requires sections == []
    ensures Entries(sections, epoch) == [] && Listings(sections, epoch) == 0
  {
  }

  /** The entries of an epoch come section by section, in their order; a section makes one
      entry, with all its fields, each time it lists the epoch. */
  lemma {:induction false} EntriesBySection(sections: seq<NewUsers>, epoch: int, k: nat)
    requires k < |sections|
    ensures |Entries(sections, epoch)| == Listings(sections, epoch)
    ensures Listings(sections[..k + 1], epoch)
         == Listings(sections[..k], epoch) + multiset(Epochs(sections[k]))[epoch]
    ensures Listings(sections[..k + 1], epoch) <= |Entries(sections, epoch)|
    ensures forall j :: Listings(sections[..k], epoch) <= j < Listings(sections[..k + 1], epoch) ==>
              SameFields(Entries(sections, epoch)[j], sections[k])
    decreases |sections|
  {
    hide Epochs, SameFields, Listings, Entries, Copies, Occ, Convert;
    var n := |sections| - 1;
    var init := sections[..n];
    ListingsStep(sections, epoch, k);
    ListingsStep(sections, epoch, n);
    LastEntries(sections, epoch);
    CopiesFrom(sections[n], epoch);
    assert sections[..n + 1] == sections;
    if n == 0 {
      NothingListed(init, epoch);
    } else {
      EntriesBySection(init, epoch, if k < n then k else 0);
      if k < n {
        assert init[..k + 1] == sections[..k + 1] && init[..k] == sections[..k];
      }
    }
  }

  method ConvertEpochNewUsers(users: int, sections: seq<NewUsers>) returns (m: SectionMap)
    ensures forall e :: At(m, e) == Initial(users, e) + Entries(sections, e)
    ensures users > 0 ==> At(m, 0) == [Section(Some(0), "", users, None, None)] + Entries(sections, 0)
    ensures forall e :: users <= 0 || e != 0 ==> At(m, e) == Entries(sections, e)
  {
    NoInitial(users, sections);
    hide Entries, Copies, Occ, Convert, Epochs;
    m := map[];
    if users > 0 {
      m := m[0 := [Section(Some(0), "", users, None, None)]];
    }
    NoEntriesYet(users, m, sections);
    hide *;
    for k := 0 to |sections|
      invariant forall e :: At(m, e) == Initial(users, e) + Entries(sections[..k], e)
    {
      ghost var before := m;
      m := AppendSection(m, sections[k]);
      forall e
        ensures At(m, e) == Initial(users, e) + Entries(sections[..k + 1], e)
      {
        assert At(before, e) == Initial(users, e) + Entries(sections[..k], e);
        EntriesStep(Initial(users, e), sections, k, e);
      }
    }
    assert sections[..|sections|] == sections;
  }

  // ---------- the two agree ----------

  function Total(sections: seq<Section>): int {
    if sections == [] then 0 else Total(sections[..|sections| - 1]) + sections[|sections| - 1].count
  }

  lemma {:induction false} TotalAppend(a: seq<Section>, b: seq<Section>)
    ensures Total(a + b) == Total(a) + Total(b)
  {
    if b == [] {
      assert a + b == a;
    } else {
      TotalAppend(a, b[..|b| - 1]);
      assert (a + b)[..|a + b| - 1] == a + b[..|b| - 1];
    }
  }

  lemma OneMoreCopy(s: Section, n: nat)
    requires n > 0
    ensures Copies(s, n) == Copies(s, n - 1) + [s] && Total([s]) == s.count
    ensures s.count * n == s.count * (n - 1) + s.count
  {
    var one := [s];
    assert one[..0] == [] && Total(one[..0]) == 0;
  }

  lemma {:induction false} TotalOfCopies(s: Section, n: nat)
    ensures Total(Copies(s, n)) == s.count * n
  {
    if n > 0 {
      hide *;
      TotalOfCopies(s, n - 1);
      TotalAppend(Copies(s, n - 1), [s]);
      OneMoreCopy(s, n);
    }
  }

  lemma {:induction false} TotalOfEntries(sections: seq<NewUsers>, epoch: int)
    ensures Total(Entries(sections, epoch)) == Listed(sections, epoch)
  {
    if sections != [] {
      var du := sections[|sections| - 1];
      TotalOfEntries(sections[..|sections| - 1], epoch);
      TotalAppend(Entries(sections[..|sections| - 1], epoch), Copies(Convert(du), Occ(Epochs(du), epoch)));
      TotalOfCopies(Convert(du), Occ(Epochs(du), epoch));
    }
  }

  /** The counts of the converted sections of both kinds, epochs 0 to epoch. */
  function Converted(before: SectionMap, after: SectionMap, epoch: int): int
    decreases epoch + 1
  {
    if epoch < 0 then 0
    else Converted(before, after, epoch - 1) + Total(At(before, epoch)) + Total(At(after, epoch))
  }

  function EffectiveUsers(p: Plan, nodes: int): int {
    if nodes > 0 then nodes else p.users
  }

  /** What the conversion produces, as ConvertEpochNewUsers states it; the override
      replaces the number of users when it is positive. */
  ghost predicate IsConversion(p: Plan, nodes: int, before: SectionMap, after: SectionMap) {
    && (forall e :: At(before, e) == Initial(EffectiveUsers(p, nodes), e) + Entries(p.newUsers, e))
    && (forall e :: At(after, e) == Initial(0, e) + Entries(p.newUsersAfterFlips, e))
  }

  lemma ListedLast(sections: seq<NewUsers>, epoch: int)
    requires sections != []
    ensures var du := sections[|sections| - 1];
            Listed(sections, epoch) == Listed(sections[..|sections| - 1], epoch) + du.count * Occ(Epochs(du), epoch)
  {
    hide Occ, Epochs;
  }

  lemma {:induction false} ListedAppend(a: seq<NewUsers>, b: seq<NewUsers>, epoch: int)
    ensures Listed(a + b, epoch) == Listed(a, epoch) + Listed(b, epoch)
  {
    if b == [] {
      assert a + b == a;
    } else {
      ListedLast(b, epoch);
      ListedLast(a + b, epoch);
      hide *;
      ListedAppend(a, b[..|b| - 1], epoch);
      assert (a + b)[..|a + b| - 1] == a + b[..|b| - 1];
    }
  }

  lemma TotalOfInitial(users: int, epoch: int)
    ensures Total(Initial(users, epoch)) == if users > 0 && epoch == 0 then users else 0
  {
    if users > 0 && epoch == 0 {
      var s := Initial(users, epoch)[0];
      assert Initial(users, epoch) == [] + [s];
      TotalAppend([], [s]);
      assert [s][..0] == [];
    }
  }

  lemma EpochTotal(p: Plan, nodes: int, before: SectionMap, after: SectionMap, epoch: int)
    requires IsConversion(p, nodes, before, after) && EffectiveUsers(p, nodes) >= 0
    ensures Total(At(before, epoch)) + Total(At(after, epoch))
         == (if epoch == 0 then EffectiveUsers(p, nodes) else 0) + Listed(p.newUsers + p.newUsersAfterFlips, epoch)
  {
    var users := EffectiveUsers(p, nodes);
    assert At(before, epoch) == Initial(users, epoch) + Entries(p.newUsers, epoch);
    assert At(after, epoch) == Initial(0, epoch) + Entries(p.newUsersAfterFlips, epoch);
    hide *;
    TotalAppend(Initial(users, epoch), Entries(p.newUsers, epoch));
    TotalAppend(Initial(0, epoch), Entries(p.newUsersAfterFlips, epoch));
    TotalOfInitial(users, epoch);
    TotalOfInitial(0, epoch);
    TotalOfEntries(p.newUsers, epoch);
    TotalOfEntries(p.newUsersAfterFlips, epoch);
    ListedAppend(p.newUsers, p.newUsersAfterFlips, epoch);
  }

  /** The converted sections up to an epoch hold the scenario's users and all users
      the sections list up to then. */
  lemma {:induction false} ConvertedIsListed(p: Plan, nodes: int, before: SectionMap, after: SectionMap, epoch: int)
    requires IsConversion(p, nodes, before, after) && EffectiveUsers(p, nodes) >= 0 && epoch >= 0
    ensures Converted(before, after, epoch)
         == EffectiveUsers(p, nodes) + UpTo(p.newUsers + p.newUsersAfterFlips, epoch)
    decreases epoch
  {
    hide IsConversion, Total, At, Listed, EffectiveUsers;
    EpochTotal(p, nodes, before, after, epoch);
    if epoch > 0 {
      ConvertedIsListed(p, nodes, before, after, epoch - 1);
    }
  }
}
