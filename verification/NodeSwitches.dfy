/** scenario/conversion.go: the start and stop switches of every node in every epoch,
    kept in order by sorting after each append. */
module NodeSwitches {
  import opened Nums
  import opened Lists
  import opened NewUsersPlan

  /** A section of nodeStarts or nodeStops. */
  datatype Section = Section(epochs: string, nodes: string, delaySec: int)

  /** Delays are 64-bit nanoseconds. */
  datatype Switch = Switch(isStart: bool, delay: int)

  const TWO_TO_THE_63 := 0x8000_0000_0000_0000
  const TWO_TO_THE_64 := 0x1_0000_0000_0000_0000

  function Wrap64(n: int): int {
    (n + TWO_TO_THE_63) % TWO_TO_THE_64 - TWO_TO_THE_63
  }

  function SwitchOf(isStart: bool, s: Section): Switch {
    Switch(isStart, Wrap64(1_000_000_000 * s.delaySec))
  }

  // ---------- stable sorting ----------

  predicate Sorted(xs: seq<Switch>) {
    forall i, j :: 0 <= i < j < |xs| ==> xs[i].delay <= xs[j].delay
  }

  /** x placed behind everything that is not later. */
  function Insert(xs: seq<Switch>, x: Switch): seq<Switch> {
    if xs != [] && x.delay < xs[|xs| - 1].delay then Insert(xs[..|xs| - 1], x) + [xs[|xs| - 1]]
    else xs + [x]
  }

  function StableSort(xs: seq<Switch>): seq<Switch> {
    if xs == [] then [] else Insert(StableSort(xs[..|xs| - 1]), xs[|xs| - 1])
  }

  /** The entries with one delay, in order. */
  function WithDelay(xs: seq<Switch>, d: int): seq<Switch> {
    if xs == [] then []
    else WithDelay(xs[..|xs| - 1], d) + (if xs[|xs| - 1].delay == d then [xs[|xs| - 1]] else [])
  }

  lemma {:induction false} InsertAdds(xs: seq<Switch>, x: Switch)
    ensures multiset(Insert(xs, x)) == multiset(xs) + multiset{x}
  {
    if xs != [] && x.delay < xs[|xs| - 1].delay {
      InsertAdds(xs[..|xs| - 1], x);
      assert xs == xs[..|xs| - 1] + [xs[|xs| - 1]];
    }
  }

  lemma {:induction false} InsertSorts(xs: seq<Switch>, x: Switch)
    requires Sorted(xs)
    ensures Sorted(Insert(xs, x))
    ensures forall i :: 0 <= i < |Insert(xs, x)| ==>
              Insert(xs, x)[i].delay <= x.delay || (xs != [] && Insert(xs, x)[i].delay <= xs[|xs| - 1].delay)
  {
    if xs != [] && x.delay < xs[|xs| - 1].delay {
      InsertSorts(xs[..|xs| - 1], x);
    }
  }

  lemma {:induction false} InsertKeepsTies(xs: seq<Switch>, x: Switch, d: int)
    requires Sorted(xs)
    ensures WithDelay(Insert(xs, x), d) == WithDelay(xs, d) + (if x.delay == d then [x] else [])
  {
    if xs != [] && x.delay < xs[|xs| - 1].delay {
      var init, last := xs[..|xs| - 1], xs[|xs| - 1];
      InsertKeepsTies(init, x, d);
      assert (Insert(init, x) + [last])[..|Insert(init, x)|] == Insert(init, x);
      if x.delay == d {
        assert last.delay != d;
      }
    } else {
      assert (xs + [x])[..|xs|] == xs;
    }
  }

  /** The sort is ascending, loses nothing, and leaves entries with equal delays in
      their order. */
  lemma StableSortUnfolds(xs: seq<Switch>)
    requires xs != []
    ensures StableSort(xs) == Insert(StableSort(xs[..|xs| - 1]), xs[|xs| - 1])
  {
    hide Insert;
  }

  lemma OneMoreElement(xs: seq<Switch>)
    requires xs != []
    ensures multiset(xs) == multiset(xs[..|xs| - 1]) + multiset{xs[|xs| - 1]}
  {
    assert xs == xs[..|xs| - 1] + [xs[|xs| - 1]];
  }

  lemma WithDelayUnfolds(xs: seq<Switch>, d: int)
    requires xs != []
    ensures WithDelay(xs, d) == WithDelay(xs[..|xs| - 1], d) + (if xs[|xs| - 1].delay == d then [xs[|xs| - 1]] else [])
  {
  }

  lemma {:induction false} StableSortSorts(xs: seq<Switch>)
    ensures Sorted(StableSort(xs)) && multiset(StableSort(xs)) == multiset(xs)
    ensures forall d :: WithDelay(StableSort(xs), d) == WithDelay(xs, d)
  {
    if xs != [] {
      hide *;
      var init, last := xs[..|xs| - 1], xs[|xs| - 1];
      StableSortUnfolds(xs);
      OneMoreElement(xs);
      StableSortSorts(init);
      InsertSorts(StableSort(init), last);
      InsertAdds(StableSort(init), last);
      forall d
        ensures WithDelay(StableSort(xs), d) == WithDelay(xs, d)
      {
        InsertKeepsTies(StableSort(init), last, d);
        WithDelayUnfolds(xs, d);
      }
    }
  }

  lemma {:induction false} WithDelayFinds(xs: seq<Switch>, k: nat)
    requires k < |xs|
    ensures xs[k] in WithDelay(xs, xs[k].delay)
  {
    if k < |xs| - 1 {
      WithDelayFinds(xs[..|xs| - 1], k);
    }
  }

  lemma {:induction false} SomeWithDelay(xs: seq<Switch>, d: int) returns (k: nat)
    requires WithDelay(xs, d) != []
    ensures k < |xs| && xs[k].delay == d
  {
    k := |xs| - 1;
    if xs[k].delay != d {
      k := SomeWithDelay(xs[..|xs| - 1], d);
    }
  }

  lemma LastIsLatest(xs: seq<Switch>, ys: seq<Switch>)
    requires Sorted(ys) && xs != [] && ys != []
    requires WithDelay(xs, xs[|xs| - 1].delay) == WithDelay(ys, xs[|xs| - 1].delay)
    ensures xs[|xs| - 1].delay <= ys[|ys| - 1].delay
  {
    var k := SomeWithDelay(ys, xs[|xs| - 1].delay);
  }

  lemma LastAgrees(xs: seq<Switch>, ys: seq<Switch>)
    requires xs != [] && ys != [] && xs[|xs| - 1].delay == ys[|ys| - 1].delay
    requires WithDelay(xs, xs[|xs| - 1].delay) == WithDelay(ys, xs[|xs| - 1].delay)
    ensures xs[|xs| - 1] == ys[|ys| - 1]
  {
    var d := xs[|xs| - 1].delay;
    assert WithDelay(xs, d)[|WithDelay(xs, d)| - 1] == xs[|xs| - 1];
    assert WithDelay(ys, d)[|WithDelay(ys, d)| - 1] == ys[|ys| - 1];
  }

  lemma WithDelayStep(xs: seq<Switch>, d: int)
    requires xs != []
    ensures WithDelay(xs, d)
         == WithDelay(xs[..|xs| - 1], d) + (if xs[|xs| - 1].delay == d then [xs[|xs| - 1]] else [])
  {
  }

  lemma SameLastDropped(a: seq<Switch>, b: seq<Switch>, x: Switch)
    requires a + [x] == b + [x]
    ensures a == b
  {
    assert (a + [x])[..|a|] == a && (b + [x])[..|b|] == b;
  }

  lemma InitAgrees(xs: seq<Switch>, ys: seq<Switch>, d: int)
    requires xs != [] && ys != [] && xs[|xs| - 1] == ys[|ys| - 1] && WithDelay(xs, d) == WithDelay(ys, d)
    ensures WithDelay(xs[..|xs| - 1], d) == WithDelay(ys[..|ys| - 1], d)
  {
    hide *;
    WithDelayStep(xs, d);
    WithDelayStep(ys, d);
    var a, b := WithDelay(xs[..|xs| - 1], d), WithDelay(ys[..|ys| - 1], d);
    if xs[|xs| - 1].delay == d {
      SameLastDropped(a, b, xs[|xs| - 1]);
    } else {
      assert a + [] == a && b + [] == b;
    }
  }

  /** Ascending order and the order among equal delays leave one result only, so any
      stable sort computes this one. */
  lemma {:induction false} StableOrderIsUnique(xs: seq<Switch>, ys: seq<Switch>)
    requires Sorted(xs) && Sorted(ys) && forall d :: WithDelay(xs, d) == WithDelay(ys, d)
    ensures xs == ys
  {
    if xs == [] && ys == [] {
    } else if xs == [] {
      WithDelayFinds(ys, 0);
    } else if ys == [] {
      WithDelayFinds(xs, 0);
    } else {
      LastIsLatest(xs, ys);
      LastIsLatest(ys, xs);
      LastAgrees(xs, ys);
      var xi, yi := xs[..|xs| - 1], ys[..|ys| - 1];
      forall d
        ensures WithDelay(xi, d) == WithDelay(yi, d)
      {
        InitAgrees(xs, ys, d);
      }
      StableOrderIsUnique(xi, yi);
      assert xs == xi + [xs[|xs| - 1]] && ys == yi + [ys[|ys| - 1]];
    }
  }

  lemma SortedStays(xs: seq<Switch>)
    requires Sorted(xs)
    ensures StableSort(xs) == xs
  {
    StableSortSorts(xs);
    StableOrderIsUnique(StableSort(xs), xs);
  }

  /** Sorting early changes nothing: what was sorted before more was appended sorts to
      the same list as everything at once. */
  lemma {:induction false} SortingEarlyIsHarmless(xs: seq<Switch>, more: seq<Switch>)
    ensures StableSort(StableSort(xs) + more) == StableSort(xs + more)
  {
    if more == [] {
      StableSortSorts(xs);
      SortedStays(StableSort(xs));
      assert StableSort(xs) + more == StableSort(xs) && xs + more == xs;
    } else {
      var init, last := more[..|more| - 1], more[|more| - 1];
      SortingEarlyIsHarmless(xs, init);
      assert (StableSort(xs) + more)[..|StableSort(xs) + more| - 1] == StableSort(xs) + init;
      assert (xs + more)[..|xs + more| - 1] == xs + init;
    }
  }

  // ---------- the conversion ----------

  type SwitchMap = map<int, map<int, seq<Switch>>>

  function SwitchesAt(m: SwitchMap, epoch: int, node: int): seq<Switch> {
    if epoch in m && node in m[epoch] then m[epoch][node] else []
  }

  function Times(a: nat, b: nat): nat {
    a * b
  }

  function Occurrences(s: Section, epoch: int, node: int): nat {
    Times(Occ(ParsedOrEmpty(s.epochs), epoch), Occ(ParsedOrEmpty(s.nodes), node))
  }

  function SectionEntries(isStart: bool, s: Section, epoch: int, node: int): seq<Switch> {
    Copies(SwitchOf(isStart, s), Occurrences(s, epoch, node))
  }

  /** The entries of one node in one epoch, in the order of the scenario. */
  function Entries(isStart: bool, sections: seq<Section>, epoch: int, node: int): seq<Switch> {
    if sections == [] then []
    else
      var last := sections[|sections| - 1];
      Entries(isStart, sections[..|sections| - 1], epoch, node)
      + SectionEntries(isStart, last, epoch, node)
  }

  /** The switch a section asks for: its direction, and its seconds as 64-bit nanoseconds,
      which wrap around. */
  predicate Made(x: Switch, isStart: bool, s: Section) {
    && x.isStart == isStart
    && -0x8000_0000_0000_0000 <= x.delay < 0x8000_0000_0000_0000
    && (x.delay - 1_000_000_000 * s.delaySec) % 0x1_0000_0000_0000_0000 == 0
    && (-9_223_372_036 <= s.delaySec <= 9_223_372_036 ==> x.delay == 1_000_000_000 * s.delaySec)
  }

  lemma SwitchIsMade(isStart: bool, s: Section)
    ensures Made(SwitchOf(isStart, s), isStart, s)
  {
    var n := 1_000_000_000 * s.delaySec;
    var q := (n + TWO_TO_THE_63) / TWO_TO_THE_64;
    assert n + TWO_TO_THE_63 == q * TWO_TO_THE_64 + (n + TWO_TO_THE_63) % TWO_TO_THE_64;
    assert Wrap64(n) - n == -q * TWO_TO_THE_64;
    assert (-q * TWO_TO_THE_64) % TWO_TO_THE_64 == 0;
  }

  /** How often a section lists a node for an epoch: each listing of the one for each of
      the other. */
  function Listings(s: Section, epoch: int, node: int): nat {
    Times(multiset(ParsedOrEmpty(s.epochs))[epoch], multiset(ParsedOrEmpty(s.nodes))[node])
  }

  function AllListings(sections: seq<Section>, epoch: int, node: int): nat {
    if sections == [] then 0
    else AllListings(sections[..|sections| - 1], epoch, node) + Listings(sections[|sections| - 1], epoch, node)
  }

  lemma SectionListings(isStart: bool, s: Section, epoch: int, node: int)
    ensures |SectionEntries(isStart, s, epoch, node)| == Listings(s, epoch, node)
    ensures forall x :: x in SectionEntries(isStart, s, epoch, node) ==> Made(x, isStart, s)
  {
    OccIsMultiplicity(ParsedOrEmpty(s.epochs), epoch);
    OccIsMultiplicity(ParsedOrEmpty(s.nodes), node);
    CopiesAreCopies(SwitchOf(isStart, s), Occurrences(s, epoch, node));
    SwitchIsMade(isStart, s);
    hide Made, SwitchOf, ParsedOrEmpty, Occ, Copies;
  }

  lemma AllListingsStep(sections: seq<Section>, epoch: int, node: int, k: nat)
    requires k < |sections|
    ensures AllListings(sections[..k + 1], epoch, node)
         == AllListings(sections[..k], epoch, node) + Listings(sections[k], epoch, node)
  {
    hide Listings;
    assert sections[..k + 1][..k] == sections[..k];
  }

  lemma NothingListed(isStart: bool, sections: seq<Section>, epoch: int, node: int)
    requires sections == []
    ensures Entries(isStart, sections, epoch, node) == [] && AllListings(sections, epoch, node) == 0
  {
  }

  lemma LastEntries(isStart: bool, sections: seq<Section>, epoch: int, node: int)
    requires sections != []
    ensures var n := |sections| - 1;
            Entries(isStart, sections, epoch, node)
            == Entries(isStart, sections[..n], epoch, node) + SectionEntries(isStart, sections[n], epoch, node)
  {
    hide SectionEntries;
  }

  /** The entries of a node in an epoch come section by section, in their order; each is
      the switch of its section, once for each listing of epoch and node. */
  lemma {:induction false} EntriesBySection(isStart: bool, sections: seq<Section>, epoch: int, node: int, k: nat)
    requires k < |sections|
    ensures |Entries(isStart, sections, epoch, node)| == AllListings(sections, epoch, node)
    ensures AllListings(sections[..k + 1], epoch, node)
         == AllListings(sections[..k], epoch, node) + Listings(sections[k], epoch, node)
    ensures AllListings(sections[..k + 1], epoch, node) <= |Entries(isStart, sections, epoch, node)|
    ensures forall j :: AllListings(sections[..k], epoch, node) <= j < AllListings(sections[..k + 1], epoch, node) ==>
              Made(Entries(isStart, sections, epoch, node)[j], isStart, sections[k])
    decreases |sections|
  {
    hide Made, AllListings, Listings, Entries, SectionEntries;
    var n := |sections| - 1;
    var init := sections[..n];
    AllListingsStep(sections, epoch, node, k);
    AllListingsStep(sections, epoch, node, n);
    LastEntries(isStart, sections, epoch, node);
    SectionListings(isStart, sections[n], epoch, node);
    assert sections[..n + 1] == sections;
    if n == 0 {
      NothingListed(isStart, init, epoch, node);
    } else {
      EntriesBySection(isStart, init, epoch, node, if k < n then k else 0);
      if k < n {
        assert init[..k + 1] == sections[..k + 1] && init[..k] == sections[..k];
      }
    }
  }

  function WithOneMore(m: SwitchMap, epoch: int, node: int, x: Switch, e: int, n: int): seq<Switch> {
    if e == epoch && n == node then StableSort(SwitchesAt(m, e, n) + [x]) else SwitchesAt(m, e, n)
  }

  /** The innermost step. The slice it sorts was read before the epoch's map was made,
      so the first entry of an epoch is not sorted; it is alone. */
  method AddSwitch(m0: SwitchMap, epoch: int, node: int, x: Switch) returns (m: SwitchMap)
    ensures forall e, n :: SwitchesAt(m, e, n) == WithOneMore(m0, epoch, node, x, e, n)
  {
    hide StableSort;
    m := m0;
    var present := epoch in m;
    if !present {
      m := m[epoch := map[]];
    }
    var switches := SwitchesAt(m, epoch, node) + [x];
    if present {
      switches := StableSort(switches);
    } else {
      SortedStays([x]);
      assert SwitchesAt(m0, epoch, node) + [x] == [x];
    }
    m := m[epoch := m[epoch][node := switches]];
  }

  ghost predicate AllSorted(m: SwitchMap) {
    forall e, n :: Sorted(SwitchesAt(m, e, n))
  }

  /** One section: k epochs are done, and of the next one i nodes. */
  function Done(s: Section, k: nat, i: nat, epoch: int, node: int): nat
    requires k <= |ParsedOrEmpty(s.epochs)| && i <= |ParsedOrEmpty(s.nodes)|
  {
    var epochs, nodes := ParsedOrEmpty(s.epochs), ParsedOrEmpty(s.nodes);
    Times(Occ(epochs[..k], epoch), Occ(nodes, node))
    + (if k < |epochs| && epochs[k] == epoch then Occ(nodes[..i], node) else 0)
  }

  /** What m holds after an old list was extended by some copies of x. */
  ghost predicate Extended(m: SwitchMap, m0: SwitchMap, x: Switch, s: Section, k: nat, i: nat)
    requires k <= |ParsedOrEmpty(s.epochs)| && i <= |ParsedOrEmpty(s.nodes)|
  {
    forall e, n :: SwitchesAt(m, e, n) == StableSort(SwitchesAt(m0, e, n) + Copies(x, Done(s, k, i, e, n)))
  }

  /** After one more section was added to m. */
  ghost predicate Added(m: SwitchMap, after: SwitchMap, isStart: bool, s: Section) {
    forall e, n :: SwitchesAt(after, e, n) == StableSort(SwitchesAt(m, e, n) + SectionEntries(isStart, s, e, n))
  }

  lemma DoneStep(s: Section, k: nat, i: nat, e: int, n: int)
    requires k < |ParsedOrEmpty(s.epochs)| && i < |ParsedOrEmpty(s.nodes)|
    ensures Done(s, k, i + 1, e, n) == Done(s, k, i, e, n)
         + (if e == ParsedOrEmpty(s.epochs)[k] && n == ParsedOrEmpty(s.nodes)[i] then 1 else 0)
  {
    hide ParsedOrEmpty, Times;
    PrefixStep(ParsedOrEmpty(s.nodes), i);
  }

  lemma OneMoreCopy(x: Switch, n: nat)
    ensures Copies(x, n + 1) == Copies(x, n) + [x]
  {
  }

  lemma OneMoreSwitch(m: SwitchMap, epoch: int, node: int, x: Switch, e: int, n: int)
    ensures WithOneMore(m, epoch, node, x, e, n)
         == if e == epoch && n == node then StableSort(SwitchesAt(m, e, n) + [x]) else SwitchesAt(m, e, n)
  {
  }

  lemma ExtendedStep(m: SwitchMap, m0: SwitchMap, after: SwitchMap, x: Switch, s: Section, k: nat, i: nat, e: int, n: int)
    requires k < |ParsedOrEmpty(s.epochs)| && i < |ParsedOrEmpty(s.nodes)|
    requires SwitchesAt(m, e, n) == StableSort(SwitchesAt(m0, e, n) + Copies(x, Done(s, k, i, e, n)))
    requires SwitchesAt(after, e, n) == WithOneMore(m, ParsedOrEmpty(s.epochs)[k], ParsedOrEmpty(s.nodes)[i], x, e, n)
    ensures SwitchesAt(after, e, n) == StableSort(SwitchesAt(m0, e, n) + Copies(x, Done(s, k, i + 1, e, n)))
  {
    hide *;
    var front, copies := SwitchesAt(m0, e, n), Copies(x, Done(s, k, i, e, n));
    DoneStep(s, k, i, e, n);
    OneMoreCopy(x, Done(s, k, i, e, n));
    OneMoreSwitch(m, ParsedOrEmpty(s.epochs)[k], ParsedOrEmpty(s.nodes)[i], x, e, n);
    SortingEarlyIsHarmless(front + copies, [x]);
    assert (front + copies) + [x] == front + (copies + [x]);
  }

  lemma EpochDone(s: Section, k: nat, e: int, n: int)
    requires k < |ParsedOrEmpty(s.epochs)|
    ensures Done(s, k, |ParsedOrEmpty(s.nodes)|, e, n) == Done(s, k + 1, 0, e, n)
  {
    var epochs, nodes := ParsedOrEmpty(s.epochs), ParsedOrEmpty(s.nodes);
    hide ParsedOrEmpty;
    PrefixStep(epochs, k);
    assert nodes[..|nodes|] == nodes && nodes[..0] == [];
  }

  lemma SectionDone(s: Section, e: int, n: int)
    ensures Done(s, 0, 0, e, n) == 0
    ensures Done(s, |ParsedOrEmpty(s.epochs)|, 0, e, n) == Occurrences(s, e, n)
  {
    var epochs, nodes := ParsedOrEmpty(s.epochs), ParsedOrEmpty(s.nodes);
    hide ParsedOrEmpty;
    assert epochs[..|epochs|] == epochs && nodes[..0] == [] && epochs[..0] == [];
  }

  lemma NothingAt(m: SwitchMap, x: Switch, s: Section, e: int, n: int)
    requires AllSorted(m)
    ensures SwitchesAt(m, e, n) == StableSort(SwitchesAt(m, e, n) + Copies(x, Done(s, 0, 0, e, n)))
  {
    hide ParsedOrEmpty, StableSort, SwitchesAt, Occ, Done;
    SectionDone(s, e, n);
    SortedStays(SwitchesAt(m, e, n));
    assert SwitchesAt(m, e, n) + [] == SwitchesAt(m, e, n);
  }

  lemma NothingExtended(m: SwitchMap, x: Switch, s: Section)
    requires AllSorted(m)
    ensures Extended(m, m, x, s, 0, 0)
  {
    hide ParsedOrEmpty, StableSort, SwitchesAt, AllSorted, Done, Copies;
    forall e, n
      ensures SwitchesAt(m, e, n) == StableSort(SwitchesAt(m, e, n) + Copies(x, Done(s, 0, 0, e, n)))
    {
      NothingAt(m, x, s, e, n);
    }
  }

  lemma ExtendedAll(m: SwitchMap, m0: SwitchMap, after: SwitchMap, x: Switch, s: Section, k: nat, i: nat)
    requires k < |ParsedOrEmpty(s.epochs)| && i < |ParsedOrEmpty(s.nodes)| && Extended(m, m0, x, s, k, i)
    requires forall e, n :: SwitchesAt(after, e, n)
                         == WithOneMore(m, ParsedOrEmpty(s.epochs)[k], ParsedOrEmpty(s.nodes)[i], x, e, n)
    ensures Extended(after, m0, x, s, k, i + 1)
  {
    hide ParsedOrEmpty, StableSort, Copies, Done, SwitchesAt, WithOneMore;
    forall e, n
      ensures SwitchesAt(after, e, n) == StableSort(SwitchesAt(m0, e, n) + Copies(x, Done(s, k, i + 1, e, n)))
    {
      ExtendedStep(m, m0, after, x, s, k, i, e, n);
    }
  }

  lemma EpochExtended(m: SwitchMap, m0: SwitchMap, x: Switch, s: Section, k: nat)
    requires k < |ParsedOrEmpty(s.epochs)| && Extended(m, m0, x, s, k, |ParsedOrEmpty(s.nodes)|)
    ensures Extended(m, m0, x, s, k + 1, 0)
  {
    hide ParsedOrEmpty, StableSort, Copies, Done, SwitchesAt;
    forall e, n
      ensures SwitchesAt(m, e, n) == StableSort(SwitchesAt(m0, e, n) + Copies(x, Done(s, k + 1, 0, e, n)))
    {
      EpochDone(s, k, e, n);
    }
  }

  lemma SectionExtended(m: SwitchMap, m0: SwitchMap, isStart: bool, s: Section)
    requires Extended(m, m0, SwitchOf(isStart, s), s, |ParsedOrEmpty(s.epochs)|, 0)
    ensures Added(m0, m, isStart, s)
  {
    hide ParsedOrEmpty, StableSort, Copies, Done, SwitchesAt, Occurrences;
    forall e, n
      ensures SwitchesAt(m, e, n)
           == StableSort(SwitchesAt(m0, e, n) + SectionEntries(isStart, s, e, n))
    {
      SectionDone(s, e, n);
    }
  }

  method AddSection(m0: SwitchMap, isStart: bool, s: Section) returns (m: SwitchMap)
    requires AllSorted(m0)
    ensures Added(m0, m, isStart, s)
  {
    hide *;
    m := m0;
    var epochs, nodes, x := ParsedOrEmpty(s.epochs), ParsedOrEmpty(s.nodes), SwitchOf(isStart, s);
    NothingExtended(m0, x, s);
    for k := 0 to |epochs|
      invariant Extended(m, m0, x, s, k, 0)
    {
      for i := 0 to |nodes|
        invariant Extended(m, m0, x, s, k, i)
      {
        ghost var before := m;
        m := AddSwitch(m, epochs[k], nodes[i], x);
        ExtendedAll(before, m0, m, x, s, k, i);
      }
      EpochExtended(m, m0, x, s, k);
    }
    SectionExtended(m, m0, isStart, s);
  }

  // ---------- all sections ----------

  /** Every list is one stable sort of what the sections say, starts before stops. */
  ghost predicate Holds(m: SwitchMap, starts: seq<Section>, stops: seq<Section>) {
    forall e, n :: SwitchesAt(m, e, n) == StableSort(Entries(true, starts, e, n) + Entries(false, stops, e, n))
  }

  lemma NothingHeld(m: SwitchMap, starts: seq<Section>)
    requires m == map[]
    ensures Holds(m, starts[..0], [])
  {
  }

  lemma HoldsIsSorted(m: SwitchMap, starts: seq<Section>, stops: seq<Section>)
    requires Holds(m, starts, stops)
    ensures AllSorted(m)
  {
    hide SwitchesAt, StableSort, Entries, Sorted;
    forall e, n
      ensures Sorted(SwitchesAt(m, e, n))
    {
      StableSortSorts(Entries(true, starts, e, n) + Entries(false, stops, e, n));
    }
  }

  lemma EntriesStep(isStart: bool, sections: seq<Section>, k: nat, e: int, n: int)
    requires k < |sections|
    ensures Entries(isStart, sections[..k + 1], e, n)
         == Entries(isStart, sections[..k], e, n) + SectionEntries(isStart, sections[k], e, n)
  {
    hide SectionEntries;
    PrefixStep(sections, k);
  }

  lemma NoEntries(e: int, n: int)
    ensures Entries(false, [], e, n) == []
  {
  }

  lemma StartsStep(m: SwitchMap, after: SwitchMap, starts: seq<Section>, k: nat)
    requires k < |starts| && Holds(m, starts[..k], []) && Added(m, after, true, starts[k])
    ensures Holds(after, starts[..k + 1], [])
  {
    hide SwitchesAt, StableSort, Entries, SectionEntries;
    forall e, n
      ensures SwitchesAt(after, e, n) == StableSort(Entries(true, starts[..k + 1], e, n) + Entries(false, [], e, n))
    {
      var xs, ys, more := Entries(true, starts[..k], e, n), Entries(false, [], e, n), SectionEntries(true, starts[k], e, n);
      NoEntries(e, n);
      EntriesStep(true, starts, k, e, n);
      SortingEarlyIsHarmless(xs + ys, more);
      assert (xs + ys) + more == (xs + more) + ys;
    }
  }

  lemma StopsStep(m: SwitchMap, after: SwitchMap, starts: seq<Section>, stops: seq<Section>, k: nat)
    requires k < |stops| && Holds(m, starts, stops[..k]) && Added(m, after, false, stops[k])
    ensures Holds(after, starts, stops[..k + 1])
  {
    hide SwitchesAt, StableSort, Entries, SectionEntries;
    forall e, n
      ensures SwitchesAt(after, e, n) == StableSort(Entries(true, starts, e, n) + Entries(false, stops[..k + 1], e, n))
    {
      var xs, ys, more := Entries(true, starts, e, n), Entries(false, stops[..k], e, n), SectionEntries(false, stops[k], e, n);
      EntriesStep(false, stops, k, e, n);
      SortingEarlyIsHarmless(xs + ys, more);
      assert (xs + ys) + more == xs + (ys + more);
    }
  }

  method ConvertNodeSwitches(starts: seq<Section>, stops: seq<Section>) returns (m: SwitchMap)
    ensures Holds(m, starts, stops)
  {
    hide *;
    m := map[];
    NothingHeld(m, starts);
    for k := 0 to |starts|
      invariant Holds(m, starts[..k], [])
    {
      ghost var before := m;
      HoldsIsSorted(m, starts[..k], []);
      m := AddSection(m, true, starts[k]);
      StartsStep(before, m, starts, k);
    }
    assert starts[..|starts|] == starts && stops[..0] == [];
    for k := 0 to |stops|
      invariant Holds(m, starts, stops[..k])
    {
      ghost var before := m;
      HoldsIsSorted(m, starts, stops[..k]);
      m := AddSection(m, false, stops[k]);
      StopsStep(before, m, starts, stops, k);
    }
    assert stops[..|stops|] == stops;
  }

  lemma {:induction false} WithDelayAppend(xs: seq<Switch>, ys: seq<Switch>, d: int)
    ensures WithDelay(xs + ys, d) == WithDelay(xs, d) + WithDelay(ys, d)
  {
    if ys == [] {
      assert xs + ys == xs;
    } else {
      WithDelayAppend(xs, ys[..|ys| - 1], d);
      assert (xs + ys)[..|xs + ys| - 1] == xs + ys[..|ys| - 1];
    }
  }

  /** Ascending; equal delays are those of xs, then those of ys, each in its order. */
  ghost predicate IsStableMerge(r: seq<Switch>, xs: seq<Switch>, ys: seq<Switch>) {
    Sorted(r) && forall d :: WithDelay(r, d) == WithDelay(xs, d) + WithDelay(ys, d)
  }

  lemma SortMerges(xs: seq<Switch>, ys: seq<Switch>)
    ensures IsStableMerge(StableSort(xs + ys), xs, ys)
    ensures multiset(StableSort(xs + ys)) == multiset(xs) + multiset(ys)
  {
    StableSortSorts(xs + ys);
    hide WithDelay, StableSort, Sorted;
    forall d
      ensures WithDelay(StableSort(xs + ys), d) == WithDelay(xs, d) + WithDelay(ys, d)
    {
      WithDelayAppend(xs, ys, d);
    }
  }

  lemma MergeIsUnique(r: seq<Switch>, other: seq<Switch>, xs: seq<Switch>, ys: seq<Switch>)
    requires IsStableMerge(r, xs, ys) && IsStableMerge(other, xs, ys)
    ensures r == other
  {
    hide WithDelay, Sorted;
    StableOrderIsUnique(r, other);
  }

  /** A node's converted list holds each of its entries once per listing, in ascending
      order; equal delays keep the order of the scenario, starts before stops; and no
      other list does. */
  lemma SwitchListIsOrdered(m: SwitchMap, starts: seq<Section>, stops: seq<Section>, e: int, n: int)
    requires Holds(m, starts, stops)
    ensures var xs, ys, r := Entries(true, starts, e, n), Entries(false, stops, e, n), SwitchesAt(m, e, n);
            && IsStableMerge(r, xs, ys) && multiset(r) == multiset(xs) + multiset(ys)
            && forall other :: IsStableMerge(other, xs, ys) ==> other == r
  {
    var xs, ys, r := Entries(true, starts, e, n), Entries(false, stops, e, n), SwitchesAt(m, e, n);
    hide IsStableMerge, StableSort, Entries, SwitchesAt;
    SortMerges(xs, ys);
    forall other | IsStableMerge(other, xs, ys)
      ensures other == r
    {
      MergeIsUnique(r, other, xs, ys);
    }
  }
}
