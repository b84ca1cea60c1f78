/** What a scenario's ceremonies look up once the validator accepted them. */
module CeremonyLookup {
  import opened Wrappers
  import opened Nums
  import opened Lists
  import C = Ceremonies

  type Conducts = map<int, C.Conduct>

  // ---------- the conversion ----------

  /** A map written list by list, a later list overwriting an earlier one. */
  ghost predicate Written<V>(m: map<int, V>, lists: seq<seq<int>>, values: seq<V>)
    requires |lists| == |values|
  {
    forall x ::
      var k := LastWith(lists, x);
      (x in m <==> k.Some?) && (x in m ==> m[x] == values[k.value])
  }

  /** The inner loop of both conversions. */
  method WriteAll<V>(m0: map<int, V>, keys: seq<int>, value: V) returns (m: map<int, V>)
    ensures forall x :: (x in m <==> x in m0 || x in keys)
    ensures forall x :: x in m ==> m[x] == if x in keys then value else m0[x]
  {
    m := m0;
    for j := 0 to |keys|
      invariant forall x :: (x in m <==> x in m0 || x in keys[..j])
      invariant forall x :: x in m ==> m[x] == if x in keys[..j] then value else m0[x]
    {
      m := m[keys[j] := value];
      assert keys[..j + 1] == keys[..j] + [keys[j]];
    }
    assert keys[..|keys|] == keys;
  }

  lemma WrittenStep<V>(m: map<int, V>, after: map<int, V>, lists: seq<seq<int>>, values: seq<V>, k: nat)
    requires k < |lists| == |values| && Written(m, lists[..k], values[..k])
    requires forall x :: (x in after <==> x in m || x in lists[k])
    requires forall x :: x in after ==> after[x] == if x in lists[k] then values[k] else m[x]
    ensures Written(after, lists[..k + 1], values[..k + 1])
  {
    forall x
      ensures LastWith(lists[..k + 1], x) == if x in lists[k] then Some(k) else LastWith(lists[..k], x)
    {
      assert lists[..k + 1][..k] == lists[..k];
    }
    hide LastWith;
  }

  function ConductsOf(sections: seq<C.UserSection>): (values: seq<C.Conduct>)
    ensures |values| == |sections|
  {
    seq(|sections|, k requires 0 <= k < |sections| => sections[k].conduct)
  }

  /** What the entries of one ceremony section convert to. */
  ghost predicate IsConduct(m: Conducts, sections: seq<C.UserSection>) {
    Written(m, C.UserLists(sections), ConductsOf(sections))
  }

  method ConvertUserCeremonies(sections: seq<C.UserSection>) returns (m: Conducts)
    ensures IsConduct(m, sections)
  {
    ghost var lists, values := C.UserLists(sections), ConductsOf(sections);
    m := map[];
    for k := 0 to |sections|
      invariant Written(m, lists[..k], values[..k])
    {
      ghost var before := m;
      m := WriteAll(m, ParsedOrEmpty(sections[k].users), sections[k].conduct);
      WrittenStep(before, m, lists, values, k);
    }
    assert lists[..|sections|] == lists && values[..|sections|] == values;
  }

  ghost predicate IsConverted(m: map<int, Conducts>, sections: seq<C.Section>) {
    forall e ::
      var k := LastWith(C.EpochLists(sections), e);
      (e in m <==> k.Some?) && (e in m ==> IsConduct(m[e], sections[k.value].users))
  }

  lemma NothingConverted(m: map<int, Conducts>, sections: seq<C.Section>)
    requires m == map[]
    ensures IsConverted(m, sections[..0])
  {
  }

  lemma ConvertedStep(m: map<int, Conducts>, after: map<int, Conducts>, sections: seq<C.Section>, k: nat, value: Conducts)
    requires k < |sections| && IsConverted(m, sections[..k]) && IsConduct(value, sections[k].users)
    requires forall e :: (e in after <==> e in m || e in C.EpochsOf(sections[k]))
    requires forall e :: e in after ==> after[e] == if e in C.EpochsOf(sections[k]) then value else m[e]
    ensures IsConverted(after, sections[..k + 1])
  {
    var lists, more := C.EpochLists(sections[..k]), C.EpochLists(sections[..k + 1]);
    assert more[..k] == lists && more[k] == C.EpochsOf(sections[k]);
    hide IsConduct, C.EpochLists;
    forall e
      ensures LastWith(more, e) == if e in C.EpochsOf(sections[k]) then Some(k) else LastWith(lists, e)
    {
    }
    hide LastWith;
  }

  method ConvertCeremonies(sections: seq<C.Section>) returns (m: map<int, Conducts>)
    ensures IsConverted(m, sections)
  {
    hide *;
    m := map[];
    NothingConverted(m, sections);
    for k := 0 to |sections|
      invariant IsConverted(m, sections[..k])
    {
      var ceremony := ConvertUserCeremonies(sections[k].users);
      ghost var before := m;
      m := WriteAll(m, ParsedOrEmpty(sections[k].epochs), ceremony);
      C.EpochsAreParsed(sections[k]);
      ConvertedStep(before, m, sections, k, ceremony);
    }
    assert sections[..|sections|] == sections;
  }

  // ---------- lookups among accepted sections ----------

  lemma FoundIn<V>(m: map<int, V>, lists: seq<seq<int>>, values: seq<V>, k: nat, x: int)
    requires |lists| == |values| && Written(m, lists, values) && LastWith(lists, x) == Some(k)
    ensures k < |lists| && x in m && m[x] == values[k]
  {
    hide LastWith;
  }

  lemma EpochFindsItsSection(sections: seq<C.Section>, table: seq<int>, m: map<int, Conducts>, k: nat, e: int)
    requires table != [] && C.CeremoniesOk(sections, |sections|, table) && IsConverted(m, sections)
    requires k < |sections| && e in C.EpochsOf(sections[k])
    ensures e in m && IsConduct(m[e], sections[k].users)
  {
    hide IsConduct, C.EpochsOf, C.SectionOk, LastWith, Pairwise;
    var lists := C.EpochLists(sections);
    assert lists[k] == C.EpochsOf(sections[k]);
    OnlyOneHolds(lists, k, e);
  }

  lemma SectionUsersOk(sections: seq<C.Section>, table: seq<int>, k: nat)
    requires table != [] && C.CeremoniesOk(sections, |sections|, table) && k < |sections|
    ensures C.EpochsOf(sections[k]) != []
    ensures C.UsersOk(sections[k].users, |sections[k].users|, C.Limit(sections[k], table))
  {
    assert C.SectionOk(sections[k], table);
    hide Parse, C.UsersOk, C.Limit;
  }

  lemma UserIsFound(found: Conducts, sections: seq<C.UserSection>, limit: int, j: nat, u: int)
    requires C.UsersOk(sections, |sections|, limit) && IsConduct(found, sections)
    requires j < |sections| && u in C.UsersOf(sections[j])
    ensures u in found && found[u] == sections[j].conduct && 0 <= u < limit
  {
    var lists, values := C.UserLists(sections), ConductsOf(sections);
    assert C.UserSectionOk(sections[j], limit) && lists[j] == C.UsersOf(sections[j]);
    hide Parse, Written, LastWith, Pairwise, C.UserLists;
    ParsedNumbersAreNotNegative(sections[j].users);
    OnlyOneHolds(lists, j, u);
    FoundIn(found, lists, values, j, u);
  }

  lemma FoundIsListed(found: Conducts, sections: seq<C.UserSection>, u: int) returns (j: nat)
    requires IsConduct(found, sections) && u in found
    ensures j < |sections| && u in C.UsersOf(sections[j])
  {
    hide Parse, ParsedOrEmpty;
    j := LastWith(C.UserLists(sections), u).value;
  }

  predicate Finds(found: Conducts, u: int, conduct: C.Conduct) {
    u in found && found[u] == conduct
  }

  /** Every entry's users are found with their entry's conduct, and nobody else is. */
  ghost predicate FindsExactly(found: Conducts, sections: seq<C.UserSection>, limit: int) {
    && (forall j, u :: 0 <= j < |sections| && u in C.UsersOf(sections[j]) ==>
          Finds(found, u, sections[j].conduct) && 0 <= u < limit)
    && (forall u :: u in found ==> exists j :: 0 <= j < |sections| && u in C.UsersOf(sections[j]))
  }

  lemma UsersAreFound(found: Conducts, sections: seq<C.UserSection>, limit: int)
    requires C.UsersOk(sections, |sections|, limit) && IsConduct(found, sections)
    ensures FindsExactly(found, sections, limit)
  {
    hide C.UsersOk, IsConduct, C.UsersOf;
    forall j, u | 0 <= j < |sections| && u in C.UsersOf(sections[j])
      ensures Finds(found, u, sections[j].conduct) && 0 <= u < limit
    {
      UserIsFound(found, sections, limit, j, u);
    }
    forall u | u in found
      ensures exists j :: 0 <= j < |sections| && u in C.UsersOf(sections[j])
    {
      var j := FoundIsListed(found, sections, u);
    }
  }

  lemma FoundEpochIsListed(sections: seq<C.Section>, m: map<int, Conducts>, e: int) returns (k: nat)
    requires IsConverted(m, sections) && e in m
    ensures k < |sections| && e in C.EpochsOf(sections[k])
  {
    hide Parse, ParsedOrEmpty, IsConduct;
    k := LastWith(C.EpochLists(sections), e).value;
  }

  /** Nothing was overwritten: an epoch finds the one section that lists it, and in it
      every user finds the one entry that lists the user; all lie below the limit. */
  lemma LookupFindsTheOnlyListing(sections: seq<C.Section>, table: seq<int>, m: map<int, Conducts>, e: int)
    requires table != [] && C.CeremoniesOk(sections, |sections|, table) && IsConverted(m, sections)
    ensures e in m <==> exists k :: 0 <= k < |sections| && e in C.EpochsOf(sections[k])
    ensures forall k :: 0 <= k < |sections| && e in C.EpochsOf(sections[k]) ==>
              C.EpochsOf(sections[k]) != [] && e in m && FindsExactly(m[e], sections[k].users, C.Limit(sections[k], table))
  {
    hide *;
    if e in m {
      var k := FoundEpochIsListed(sections, m, e);
    }
    forall k | 0 <= k < |sections| && e in C.EpochsOf(sections[k])
      ensures C.EpochsOf(sections[k]) != [] && e in m
      ensures FindsExactly(m[e], sections[k].users, C.Limit(sections[k], table))
    {
      EpochFindsItsSection(sections, table, m, k, e);
      SectionUsersOk(sections, table, k);
      UsersAreFound(m[e], sections[k].users, C.Limit(sections[k], table));
    }
  }

  // ---------- permuted sections ----------

  ghost predicate IsPermutation(order: seq<nat>, n: nat) {
    && |order| == n
    && (forall i :: 0 <= i < n ==> order[i] < n)
    && (forall i, j :: 0 <= i < j < n ==> order[i] != order[j])
    && (forall k :: 0 <= k < n ==> k in order)
  }

  function Permuted(sections: seq<C.Section>, order: seq<nat>): (r: seq<C.Section>)
    requires forall i :: 0 <= i < |order| ==> order[i] < |sections|
    ensures |r| == |order|
  {
    seq(|order|, i requires 0 <= i < |order| => sections[order[i]])
  }

  lemma PermutedIsAccepted(sections: seq<C.Section>, table: seq<int>, order: seq<nat>)
    requires table != [] && C.CeremoniesOk(sections, |sections|, table) && IsPermutation(order, |sections|)
    ensures C.CeremoniesOk(Permuted(sections, order), |sections|, table)
  {
    var lists, after := C.EpochLists(sections), C.EpochLists(Permuted(sections, order));
    hide C.SectionOk, C.EpochsOf;
    forall j, k | 0 <= j < k < |sections|
      ensures Disjoint(after[j], after[k])
    {
      assert after[j] == lists[order[j]] && after[k] == lists[order[k]];
      assert if order[j] < order[k] then Disjoint(lists[order[j]], lists[order[k]])
             else Disjoint(lists[order[k]], lists[order[j]]);
    }
  }

  /** A section converts to one map only. */
  lemma ConductIsUnique(m: Conducts, n: Conducts, s: C.Section)
    requires IsConduct(m, s.users) && IsConduct(n, s.users)
    ensures m == n
  {
    hide LastWith;
    forall u
      ensures u in m <==> u in n
      ensures u in m ==> m[u] == n[u]
    {
      var k := LastWith(C.UserLists(s.users), u);
    }
  }

  lemma PositionOf(sections: seq<C.Section>, order: seq<nat>, k: nat) returns (i: nat)
    requires IsPermutation(order, |sections|) && k < |sections|
    ensures i < |sections| && Permuted(sections, order)[i] == sections[k]
  {
    assert k in order;
    i :| 0 <= i < |order| && order[i] == k;
  }

  lemma EpochAgrees(sections: seq<C.Section>, table: seq<int>, order: seq<nat>,
                    m: map<int, Conducts>, n: map<int, Conducts>, e: int)
    requires table != [] && C.CeremoniesOk(sections, |sections|, table) && IsPermutation(order, |sections|)
    requires IsConverted(m, sections) && IsConverted(n, Permuted(sections, order))
    ensures e in m ==> e in n && n[e] == m[e]
    ensures e in n ==> e in m
  {
    var after := Permuted(sections, order);
    PermutedIsAccepted(sections, table, order);
    if e in m {
      var k := FoundEpochIsListed(sections, m, e);
      var i := PositionOf(sections, order, k);
      hide *;
      EpochFindsItsSection(sections, table, m, k, e);
      EpochFindsItsSection(after, table, n, i, e);
      ConductIsUnique(m[e], n[e], sections[k]);
    } else if e in n {
      var i := FoundEpochIsListed(after, n, e);
      EpochFindsItsSection(sections, table, m, order[i], e);
    }
  }

  /** The order of accepted sections does not matter: permuted they are accepted too and
      convert to the same ceremonies. */
  lemma OrderDoesNotMatter(sections: seq<C.Section>, table: seq<int>, order: seq<nat>,
                           m: map<int, Conducts>, n: map<int, Conducts>)
    requires table != [] && C.CeremoniesOk(sections, |sections|, table) && IsPermutation(order, |sections|)
    requires IsConverted(m, sections) && IsConverted(n, Permuted(sections, order))
    ensures C.CeremoniesOk(Permuted(sections, order), |sections|, table) && m == n
  {
    hide *;
    PermutedIsAccepted(sections, table, order);
    forall e
      ensures (e in m <==> e in n) && (e in m ==> n[e] == m[e])
    {
      EpochAgrees(sections, table, order, m, n, e);
    }
  }
}
