/** scenario/validation.go: which newUsers sections are accepted. The key of a section
    formats the address of its inviter, so it identifies the section, not the user. */
module NewUsersValidation {
  import opened Wrappers
  import opened Nums
  import opened Lists
  import opened NewUsersPlan

  /** An epoch, and which section's inviter pointer was formatted; nil has no section. */
  type Key = (int, Option<nat>)

  function Pointer(du: NewUsers, k: nat): Option<nat> {
    if du.inviter.None? then None else Some(k)
  }

  predicate FieldsOk(du: NewUsers) {
    Parse(du.epochs).Ok? && du.count > 0 && (du.inviter.Some? ==> du.inviter.value >= 0)
  }

  predicate SectionOk(du: NewUsers) {
    FieldsOk(du) && Distinct(Epochs(du))
  }

  predicate MayStandTogether(du: NewUsers, other: NewUsers) {
    du.inviter.None? && other.inviter.None? ==> Disjoint(Epochs(du), Epochs(other))
  }

  ghost predicate OkUpTo(sections: seq<NewUsers>, n: nat)
    requires n <= |sections|
  {
    && (forall k :: 0 <= k < n ==> SectionOk(sections[k]))
    && (forall j, k :: 0 <= j < k < n ==> MayStandTogether(sections[j], sections[k]))
  }

  /** No section lists an epoch twice, and no two sections without an inviter list the
      same epoch. */
  ghost predicate NewUsersOk(sections: seq<NewUsers>) {
    OkUpTo(sections, |sections|)
  }

  /** No epoch of the list is taken with this pointer. */
  predicate Free(used: set<Key>, node: Option<nat>, epochs: seq<int>) {
    forall e :: e in epochs ==> (e, node) !in used
  }

  /** The keys of the list were added to used, and no others. */
  ghost predicate Taken(usedAfter: set<Key>, used: set<Key>, node: Option<nat>, epochs: seq<int>) {
    forall e, p :: (e, p) in usedAfter <==> (e, p) in used || (p == node && e in epochs)
  }

  lemma NothingTaken(used: set<Key>, node: Option<nat>, epochs: seq<int>)
    ensures Free(used, node, epochs[..0]) && Taken(used, used, node, epochs[..0]) && Distinct(epochs[..0])
  {
  }

  lemma TakeOne(usedAfter: set<Key>, used: set<Key>, node: Option<nat>, front: seq<int>, x: int)
    requires Free(used, node, front) && Taken(usedAfter, used, node, front)
    ensures (x, node) in usedAfter <==> (x, node) in used || x in front
    ensures (x, node) !in used ==> Free(used, node, front + [x])
    ensures Taken(usedAfter + {(x, node)}, used, node, front + [x])
  {
  }

  lemma NotFree(used: set<Key>, node: Option<nat>, epochs: seq<int>, x: int)
    requires x in epochs && (x, node) in used
    ensures !Free(used, node, epochs)
  {
  }

  method ValidateEpochNodes(epochsStr: string, node: Option<nat>, used: set<Key>) returns (ok: bool, usedAfter: set<Key>)
    ensures ok <==> Parse(epochsStr).Ok? && Distinct(Parse(epochsStr).value) && Free(used, node, Parse(epochsStr).value)
    ensures ok ==> Taken(usedAfter, used, node, Parse(epochsStr).value)
  {
    hide *;
    var parsed := Parse(epochsStr);
    usedAfter := used;
    if parsed.Err? {
      return false, used;
    }
    ParsedNumbersAreNotNegative(epochsStr);
    var epochs := parsed.value;
    NothingTaken(used, node, epochs);
    for j := 0 to |epochs|
      invariant Distinct(epochs[..j]) && Free(used, node, epochs[..j]) && Taken(usedAfter, used, node, epochs[..j])
    {
      OneMore(epochs, j);
      var epoch := epochs[j];
      TakeOne(usedAfter, used, node, epochs[..j], epoch);
      assert epochs[..j + 1] == epochs[..j] + [epoch];
      if epoch < 0 || (epoch, node) in usedAfter {
        if (epoch, node) in used {
          NotFree(used, node, epochs, epoch);
        }
        return false, usedAfter;
      }
      usedAfter := usedAfter + {(epoch, node)};
    }
    assert epochs[..|epochs|] == epochs;
    ok := true;
  }

  method ValidateNewUsers(du: NewUsers, k: nat, used: set<Key>) returns (ok: bool, usedAfter: set<Key>)
    ensures ok <==> SectionOk(du) && Free(used, Pointer(du, k), Epochs(du))
    ensures ok ==> Taken(usedAfter, used, Pointer(du, k), Epochs(du))
  {
    ok, usedAfter := ValidateEpochNodes(du.epochs, Pointer(du, k), used);
    if ok && du.count <= 0 {
      ok := false;
    }
    if ok && du.inviter.Some? && du.inviter.value < 0 {
      ok := false;
    }
  }

  predicate Claims(du: NewUsers, k: nat, e: int, p: Option<nat>) {
    p == Pointer(du, k) && e in Epochs(du)
  }

  /** A key is taken once a section with that pointer listed that epoch. */
  ghost predicate Claimed(sections: seq<NewUsers>, n: nat, e: int, p: Option<nat>)
    requires n <= |sections|
  {
    exists j :: 0 <= j < n && Claims(sections[j], j, e, p)
  }

  lemma ClaimedStep(sections: seq<NewUsers>, k: nat, e: int, p: Option<nat>)
    requires k < |sections|
    ensures Claimed(sections, k + 1, e, p) <==> Claimed(sections, k, e, p) || Claims(sections[k], k, e, p)
  {
    hide Claims;
  }

  /** Only sections without an inviter share a pointer. */
  lemma NoClaim(sections: seq<NewUsers>, j: nat, k: nat, e: int)
    requires j < k < |sections| && MayStandTogether(sections[j], sections[k]) && e in Epochs(sections[k])
    ensures !Claims(sections[j], j, e, Pointer(sections[k], k))
  {
    hide Epochs;
  }

  lemma SharedClaim(sections: seq<NewUsers>, j: nat, k: nat) returns (e: int)
    requires j < k < |sections| && !MayStandTogether(sections[j], sections[k])
    ensures e in Epochs(sections[k]) && Claims(sections[j], j, e, Pointer(sections[k], k))
  {
    var xs, ys := Epochs(sections[j]), Epochs(sections[k]);
    hide Epochs;
    e :| e in xs && e in ys;
  }

  predicate KeysFree(sections: seq<NewUsers>, k: nat)
    requires k < |sections|
  {
    forall j, e :: 0 <= j < k && e in Epochs(sections[k]) ==> !Claims(sections[j], j, e, Pointer(sections[k], k))
  }

  lemma OkStep(sections: seq<NewUsers>, k: nat)
    requires k < |sections| && OkUpTo(sections, k)
    ensures OkUpTo(sections, k + 1) <==> SectionOk(sections[k]) && KeysFree(sections, k)
  {
    hide SectionOk, MayStandTogether, Claims, Epochs, Pointer;
    if KeysFree(sections, k) {
      forall j | 0 <= j < k
        ensures MayStandTogether(sections[j], sections[k])
      {
        if !MayStandTogether(sections[j], sections[k]) {
          var e := SharedClaim(sections, j, k);
        }
      }
    } else {
      var j, e :| 0 <= j < k && e in Epochs(sections[k]) && Claims(sections[j], j, e, Pointer(sections[k], k));
      if MayStandTogether(sections[j], sections[k]) {
        NoClaim(sections, j, k, e);
      }
    }
  }

  method ValidateAllNewUsers(sections: seq<NewUsers>) returns (ok: bool)
    ensures ok <==> NewUsersOk(sections)
  {
    var used: set<Key> := {};
    for k := 0 to |sections|
      invariant OkUpTo(sections, k)
      invariant forall e, p :: (e, p) in used <==> Claimed(sections, k, e, p)
    {
      ok, used := ValidateNewUsers(sections[k], k, used);
      OkStep(sections, k);
      if !ok {
        return;
      }
      forall e, p
        ensures (e, p) in used <==> Claimed(sections, k + 1, e, p)
      {
        ClaimedStep(sections, k, e, p);
      }
    }
    ok := true;
  }

  lemma WithItself(du: NewUsers)
    ensures MayStandTogether(du, du) <==> du.inviter.Some? || Epochs(du) == []
  {
    hide Epochs;
    DisjointFromItself(Epochs(du));
  }

  /** Two sections with the same epochs and the same inviter are accepted: their keys
      hold different addresses. Without an inviter they are accepted only if they list
      nothing. */
  lemma SameSectionTwice(du: NewUsers)
    requires NewUsersOk([du])
    ensures NewUsersOk([du, du]) <==> du.inviter.Some? || Epochs(du) == []
  {
    var once, twice := [du], [du, du];
    assert SectionOk(once[0]);
    assert NewUsersOk(twice) ==> MayStandTogether(twice[0], twice[1]);
    WithItself(du);
    hide *;
  }
}
