/** api/api.go and apiclient/client.go: the pool allocator behind CreateInvites. */
module Pools {
  import opened Wrappers
  import opened Text
  import opened Lists

  const OK_REPLY := "OK"
  const COMMA := ','

  // ---------- the stream of pool places ----------

  /** Places of a pool; one of non-positive size has none. */
  function FreeOf(size: int): nat {
    if size > 0 then size else 0
  }

  /** Every free place in order: owner j once per place of pool j, pool by pool. */
  function Places(sizes: seq<int>, owners: seq<string>): seq<string>
    requires |sizes| == |owners|
  {
    if sizes == [] then [] else Copies(owners[0], FreeOf(sizes[0])) + Places(sizes[1..], owners[1..])
  }

  /** Free places left. */
  function Free(sizes: seq<int>): nat {
    if sizes == [] then 0 else FreeOf(sizes[0]) + Free(sizes[1..])
  }

  lemma {:induction false} FreeCountsPlaces(sizes: seq<int>, owners: seq<string>)
    requires |sizes| == |owners|
    ensures |Places(sizes, owners)| == Free(sizes)
  {
    if sizes != [] {
      FreeCountsPlaces(sizes[1..], owners[1..]);
      CopiesAreCopies(owners[0], FreeOf(sizes[0]));
    }
  }

  /** The first pool with a free place. */
  function FirstOpen(sizes: seq<int>): (r: Option<nat>)
    ensures r.Some? ==> r.value < |sizes| && sizes[r.value] > 0
    ensures r.Some? ==> forall j :: 0 <= j < r.value ==> sizes[j] <= 0
    ensures r.None? ==> forall j :: 0 <= j < |sizes| ==> sizes[j] <= 0
  {
    if sizes == [] then None
    else if sizes[0] > 0 then Some(0)
    else
      var r := FirstOpen(sizes[1..]);
      if r.None? then None else Some(r.value + 1)
  }

  /** n rounds of first fit: the owners handed out and the sizes left. */
  function Allocate(sizes: seq<int>, owners: seq<string>, n: nat): (r: (seq<string>, seq<int>))
    requires |sizes| == |owners|
    ensures |r.1| == |sizes|
  {
    if n == 0 then ([], sizes)
    else
      var (given, left) := Allocate(sizes, owners, n - 1);
      var open := FirstOpen(left);
      if open.None? then (given, left)
      else (given + [owners[open.value]], left[open.value := left[open.value] - 1])
  }

  lemma {:induction false} NoPlaceWhenNoneOpen(sizes: seq<int>, owners: seq<string>)
    requires |sizes| == |owners|
    requires forall j :: 0 <= j < |sizes| ==> sizes[j] <= 0
    ensures Places(sizes, owners) == []
  {
    if sizes != [] {
      NoPlaceWhenNoneOpen(sizes[1..], owners[1..]);
    }
  }

  lemma FirstCopy(owner: string, n: nat)
    ensures Copies(owner, n + 1) == [owner] + Copies(owner, n)
  {
    CopiesAreCopies(owner, n);
    CopiesAreCopies(owner, n + 1);
    var more, copies := Copies(owner, n + 1), Copies(owner, n);
    assert forall i :: 0 <= i < |more| ==> more[i] in more;
    assert forall i :: 0 <= i < |copies| ==> copies[i] in copies;
  }

  /** One allocation takes the first place of the stream. */
  lemma {:induction false} FirstFitTakesFirstPlace(sizes: seq<int>, owners: seq<string>, k: nat)
    requires |sizes| == |owners| && k < |sizes| && sizes[k] > 0
    requires forall j :: 0 <= j < k ==> sizes[j] <= 0
    ensures Places(sizes, owners) == [owners[k]] + Places(sizes[k := sizes[k] - 1], owners)
  {
    var next := sizes[k := sizes[k] - 1];
    if k == 0 {
      assert next[1..] == sizes[1..];
      FirstCopy(owners[0], sizes[0] - 1);
    } else {
      FirstFitTakesFirstPlace(sizes[1..], owners[1..], k - 1);
      assert next[1..] == sizes[1..][k - 1 := sizes[k] - 1];
    }
  }

  function Min(a: nat, b: nat): nat {
    if a < b then a else b
  }

  lemma NoRounds(sizes: seq<int>, owners: seq<string>)
    requires |sizes| == |owners|
    ensures Allocate(sizes, owners, 0) == ([], sizes) && Min(0, |Places(sizes, owners)|) == 0
  {
    hide Places;
  }

  lemma NextPlace(places: seq<string>, n: nat, place: string, rest: seq<string>)
    requires places[Min(n, |places|)..] == [place] + rest
    ensures n < |places| && places[..n + 1] == places[..n] + [place] && places[n + 1..] == rest
  {
    assert |places[Min(n, |places|)..]| == 1 + |rest|;
    assert places[n..][1..] == rest && places[n..][0] == place;
  }

  lemma NextRound(places: seq<string>, n: nat, given: seq<string>, left: seq<int>, owners: seq<string>)
    requires |left| == |owners|
    requires given == places[..Min(n, |places|)] && Places(left, owners) == places[Min(n, |places|)..]
    ensures var open := FirstOpen(left);
            var after := if open.None? then left else left[open.value := left[open.value] - 1];
            && given + (if open.None? then [] else [owners[open.value]]) == places[..Min(n + 1, |places|)]
            && Places(after, owners) == places[Min(n + 1, |places|)..]
  {
    hide Places, FirstOpen;
    var open := FirstOpen(left);
    if open.None? {
      NoPlaceWhenNoneOpen(left, owners);
    } else {
      FirstFitTakesFirstPlace(left, owners, open.value);
      NextPlace(places, n, owners[open.value], Places(left[open.value := left[open.value] - 1], owners));
    }
  }

  lemma AllocateStep(sizes: seq<int>, owners: seq<string>, n: nat)
    requires |sizes| == |owners| && n > 0
    ensures var (given, left) := Allocate(sizes, owners, n - 1);
            var open := FirstOpen(left);
            var after := if open.None? then left else left[open.value := left[open.value] - 1];
            Allocate(sizes, owners, n) == (given + (if open.None? then [] else [owners[open.value]]), after)
  {
    var (given, left) := Allocate(sizes, owners, n - 1);
    hide FirstOpen;
    assert given + [] == given;
  }

  /** Allocating n times takes the first n places of the stream and leaves the rest. */
  lemma {:induction false} AllocateTakesPrefix(sizes: seq<int>, owners: seq<string>, n: nat)
    requires |sizes| == |owners|
    ensures var places := Places(sizes, owners);
            var k := Min(n, |places|);
            && Allocate(sizes, owners, n).0 == places[..k]
            && Places(Allocate(sizes, owners, n).1, owners) == places[k..]
  {
    hide *;
    if n == 0 {
      NoRounds(sizes, owners);
    } else {
      AllocateTakesPrefix(sizes, owners, n - 1);
      AllocateStep(sizes, owners, n);
      var (given, left) := Allocate(sizes, owners, n - 1);
      NextRound(Places(sizes, owners), n - 1, given, left, owners);
    }
  }

  lemma {:induction false} AllocateOnlyShrinks(sizes: seq<int>, owners: seq<string>, n: nat)
    requires |sizes| == |owners|
    ensures forall j :: 0 <= j < |sizes| ==>
              var left := Allocate(sizes, owners, n).1[j];
              left <= sizes[j] && (sizes[j] >= 0 ==> left >= 0)
  {
    if n > 0 {
      AllocateOnlyShrinks(sizes, owners, n - 1);
    }
  }

  /** Remaining places plus assigned delegators are conserved, and no size that
      was not negative becomes so. */
  lemma {:induction false} AllocateConserves(sizes: seq<int>, owners: seq<string>, n: nat)
    requires |sizes| == |owners|
    ensures var (given, left) := Allocate(sizes, owners, n);
            && Free(left) + |given| == Free(sizes)
            && |given| <= n
            && forall j :: 0 <= j < |sizes| ==> left[j] <= sizes[j] && (sizes[j] >= 0 ==> left[j] >= 0)
  {
    AllocateTakesPrefix(sizes, owners, n);
    FreeCountsPlaces(sizes, owners);
    FreeCountsPlaces(Allocate(sizes, owners, n).1, owners);
    AllocateOnlyShrinks(sizes, owners, n);
  }

  // ---------- requests ----------

  /** Go's conversion of a float to an int: truncation towards zero. */
  function Trunc(x: real): int {
    if x >= 0.0 then x.Floor else -((-x).Floor)
  }

  /** How many rounds of first fit a request of this many addresses goes through. */
  function Rounds(count: nat, rate: real): int {
    var n := Trunc(count as real * rate);
    if n == 0 then 1 else n
  }

  /** Rounds that can take a place: a round beyond the addresses takes one and then
      indexes past them. */
  function PlacesAsked(count: nat, rate: real): nat {
    var n := Rounds(count, rate);
    if n < 0 then 0 else Min(n, count + 1)
  }

  lemma RoundsAtMostOneEach(count: nat, rate: real)
    requires count >= 1 && rate <= 1.0
    ensures Rounds(count, rate) <= count
  {
    assert count as real * rate <= count as real;
  }

  /** The rounds of a request by the product they are truncated from: its whole part,
      but one round when that is zero, and none when it is negative. */
  predicate Truncates(count: nat, rate: real, n: nat) {
    var x := count as real * rate;
    && (x >= 1.0 ==> n as real <= x < (n + 1) as real)
    && (-1.0 < x < 1.0 ==> n == 1)
    && (x <= -1.0 ==> n == 0)
  }

  lemma RoundsTruncate(count: nat, rate: real, n: nat)
    requires Truncates(count, rate, n)
    ensures n == if Rounds(count, rate) < 0 then 0 else Rounds(count, rate)
  {
    var x := count as real * rate;
    if x >= 1.0 {
      assert x.Floor == n;
    } else if x <= -1.0 {
      assert (-x).Floor >= 1;
    }
  }

  lemma SomeRounds(count: nat, rate: real) returns (n: nat)
    ensures Truncates(count, rate, n)
  {
    var x := count as real * rate;
    n := if x >= 1.0 then x.Floor else if x > -1.0 then 1 else 0;
  }

  datatype State = State(sizes: seq<int>, rate: real, owners: seq<string>)
  {
    predicate Valid() {
      |owners| <= |sizes|
    }
  }

  /** One request: it sets the next owner, or takes places from the pools. */
  function Handle(s: State, addresses: seq<string>): (r: (State, seq<string>))
    requires s.Valid() && |addresses| >= 1
    ensures r.0.Valid()
  {
    if |s.owners| < |s.sizes| then (s.(owners := s.owners + [addresses[0]]), [])
    else
      var (taken, left) := Allocate(s.sizes, s.owners, PlacesAsked(|addresses|, s.rate));
      (s.(sizes := left), taken)
  }

  /** A round beyond the addresses finds a free place. */
  predicate Panics(s: State, addresses: seq<string>) {
    |s.owners| >= |s.sizes| && Rounds(|addresses|, s.rate) > |addresses| && Free(s.sizes) > |addresses|
  }

  /** Once all owners are set, a request takes as many places as it has rounds, but no
      more than there are and only one beyond its addresses, where it panics. */
  lemma RequestTakes(s: State, addresses: seq<string>, n: nat)
    requires |s.owners| == |s.sizes| && |addresses| >= 1 && Truncates(|addresses|, s.rate, n)
    ensures var (after, taken) := Handle(s, addresses);
            && after.owners == s.owners && after.rate == s.rate
            && |taken| == Min(n, Min(|addresses| + 1, Free(s.sizes)))
            && taken <= Places(s.sizes, s.owners)
            && Free(after.sizes) + |taken| == Free(s.sizes)
    ensures Panics(s, addresses) <==> n > |addresses| && Free(s.sizes) > |addresses|
  {
    RoundsTruncate(|addresses|, s.rate, n);
    var asked := PlacesAsked(|addresses|, s.rate);
    hide Rounds, Trunc, Truncates, Allocate, Places, Free;
    AllocateTakesPrefix(s.sizes, s.owners, asked);
    AllocateConserves(s.sizes, s.owners, asked);
    FreeCountsPlaces(s.sizes, s.owners);
  }

  datatype Reply = Failed | Panicked | Replied(text: string)

  /** The response text: the delegatees, or the sentinel when there is none. */
  function Encode(delegatees: seq<string>): string {
    if delegatees == [] then OK_REPLY else Join(delegatees, COMMA)
  }

  /** What the client of a request receives. */
  function ReplyTo(s: State, addresses: seq<string>): Reply
    requires s.Valid() && |addresses| >= 1
  {
    if Panics(s, addresses) then Panicked else Replied(Encode(Handle(s, addresses).1))
  }

  /** At rate one every address gets a delegatee while places last, in the order of the
      places. */
  lemma OneDelegateeEach(s: State, addresses: seq<string>)
    requires |s.owners| == |s.sizes| && |addresses| >= 1 && s.rate == 1.0
    ensures var places := Places(s.sizes, s.owners);
            var given := places[..Min(|addresses|, |places|)];
            && Handle(s, addresses).1 == given
            && ReplyTo(s, addresses) == Replied(if given == [] then "OK" else Join(given, ','))
  {
    var n := |addresses|;
    assert n as real * 1.0 == n as real;
    FreeCountsPlaces(s.sizes, s.owners);
    hide Places, Free, Allocate, Rounds;
    RequestTakes(s, addresses, n);
    var places, taken := Places(s.sizes, s.owners), Handle(s, addresses).1;
    assert taken == places[..|taken|];
  }

  lemma {:induction false} NoneFreeNoneOpen(sizes: seq<int>)
    ensures Free(sizes) == 0 <==> FirstOpen(sizes).None?
  {
    if sizes != [] {
      NoneFreeNoneOpen(sizes[1..]);
    }
  }

  lemma SuffixIsEmpty(places: seq<string>, i: nat)
    ensures Min(i, |places|) <= |places| && (|places[Min(i, |places|)..]| == 0 <==> |places| <= i)
  {
  }

  /** After i rounds a place is left if and only if there were more than i. */
  lemma OpenAfter(sizes: seq<int>, owners: seq<string>, i: nat)
    requires |sizes| == |owners|
    ensures FirstOpen(Allocate(sizes, owners, i).1).Some? <==> Free(sizes) > i
  {
    hide *;
    AllocateTakesPrefix(sizes, owners, i);
    FreeCountsPlaces(sizes, owners);
    FreeCountsPlaces(Allocate(sizes, owners, i).1, owners);
    NoneFreeNoneOpen(Allocate(sizes, owners, i).1);
    SuffixIsEmpty(Places(sizes, owners), i);
  }

  /** What apiclient makes of it. */
  function Decode(resp: string): seq<string> {
    if resp == OK_REPLY then [] else Split(resp, COMMA)
  }

  class PoolsCtx {
    var poolSizes: seq<int>
    var poolAddresses: seq<string>
    const rate: real

    ghost function Now(): State
      reads this
    {
      State(poolSizes, rate, poolAddresses)
    }

    constructor (sizes: seq<int>, rate: real)
      ensures Now() == State(sizes, rate, [])
    {
      poolSizes := sizes;
      poolAddresses := [];
      this.rate := rate;
    }

    /** createInvites under the mutex, which a panic releases too; invited says whether
        RequestInvites succeeded. */
    method CreateInvites(form: string, invited: bool) returns (reply: Reply)
      requires Now().Valid()
      modifies this
      ensures Now().Valid()
      ensures !invited ==> reply == Failed && Now() == old(Now())
      ensures invited ==>
                && Now() == Handle(old(Now()), Split(form, COMMA)).0
                && reply == ReplyTo(old(Now()), Split(form, COMMA))
      ensures invited && |old(poolAddresses)| < |old(poolSizes)| ==>
                && reply == Replied("OK") && poolSizes == old(poolSizes)
                && poolAddresses == old(poolAddresses) + [Split(form, ',')[0]]
      ensures invited && |old(poolAddresses)| == |old(poolSizes)| ==>
                && poolAddresses == old(poolAddresses)
                && forall n: nat :: Truncates(|Split(form, ',')|, rate, n) ==>
                     && Free(poolSizes) + Min(n, Min(|Split(form, ',')| + 1, Free(old(poolSizes)))) == Free(old(poolSizes))
                     && (reply == Panicked <==> n > |Split(form, ',')| && Free(old(poolSizes)) > |Split(form, ',')|)
    {
      var addresses := Split(form, COMMA);
      if !invited {
        return Failed;
      }
      if |poolAddresses| < |poolSizes| {
        poolAddresses := poolAddresses + [addresses[0]];
        return Replied(OK_REPLY);
      }
      forall n: nat | Truncates(|addresses|, rate, n) {
        RequestTakes(Now(), addresses, n);
      }
      var delegatees := AssignDelegatees(addresses, Rounds(|addresses|, rate));
      return if delegatees.None? then Panicked else Replied(Encode(delegatees.value));
    }

    /** The inner loop: the first pool with a free place, or the number of pools. */
    method FindOpen() returns (idx: nat)
      ensures FirstOpen(poolSizes) == if idx < |poolSizes| then Some(idx) else None
      ensures idx <= |poolSizes|
    {
      idx := 0;
      while idx < |poolSizes| && poolSizes[idx] <= 0
        invariant idx <= |poolSizes|
        invariant forall j :: 0 <= j < idx ==> poolSizes[j] <= 0
      {
        idx := idx + 1;
      }
    }

    /** n rounds over the pools; each delegatee is logged with the address of its round. */
    method AssignDelegatees(addresses: seq<string>, n: int) returns (delegatees: Option<seq<string>>)
      requires |poolSizes| == |poolAddresses|
      modifies this`poolSizes
      ensures delegatees.None? <==> n > |addresses| && Free(old(poolSizes)) > |addresses|
      ensures var (taken, left) := Allocate(old(poolSizes), poolAddresses, if n < 0 then 0 else Min(n, |addresses| + 1));
              poolSizes == left && (delegatees.Some? ==> delegatees.value == taken)
    {
      hide Allocate, Free, FirstOpen, Places;
      NoRounds(poolSizes, poolAddresses);
      var given: seq<string> := [];
      var i := 0;
      while i < n
        invariant 0 <= i && (i <= n || i == 0)
        invariant |poolSizes| == |poolAddresses|
        invariant (given, poolSizes) == Allocate(old(poolSizes), poolAddresses, Min(i, |addresses| + 1))
        invariant i > |addresses| ==> Free(old(poolSizes)) <= |addresses|
      {
        ghost var done := Min(i, |addresses| + 1);
        OpenAfter(old(poolSizes), poolAddresses, done);
        AllocateStep(old(poolSizes), poolAddresses, done + 1);
        assert given + [] == given;
        var idx := FindOpen();
        if idx < |poolSizes| {
          poolSizes := poolSizes[idx := poolSizes[idx] - 1];
          if i >= |addresses| {
            return None;
          }
          given := given + [poolAddresses[idx]];
        }
        i := i + 1;
      }
      return Some(given);
    }
  }

  // ---------- runs ----------

  /** All places taken by these requests, in order, also by those that panic. */
  function Serve(s: State, requests: seq<seq<string>>): (r: (State, seq<string>))
    requires s.Valid() && forall q :: q in requests ==> |q| >= 1
    ensures r.0.Valid()
  {
    if requests == [] then (s, [])
    else
      var (before, given) := Serve(s, requests[..|requests| - 1]);
      var (after, more) := Handle(before, requests[|requests| - 1]);
      (after, given + more)
  }

  /** The first address of each request. */
  function Firsts(requests: seq<seq<string>>): (r: seq<string>)
    requires forall q :: q in requests ==> |q| >= 1
    ensures |r| == |requests|
  {
    if requests == [] then [] else Firsts(requests[..|requests| - 1]) + [requests[|requests| - 1][0]]
  }

  /** Places asked for by these requests. */
  function Asked(requests: seq<seq<string>>, rate: real): nat {
    if requests == [] then 0
    else
      Asked(requests[..|requests| - 1], rate) + PlacesAsked(|requests[|requests| - 1]|, rate)
  }

  /** The requests that come before every owner is set only set owners. */
  lemma {:induction false} OwnersComeFirst(s: State, requests: seq<seq<string>>)
    requires s.owners == [] && |requests| <= |s.sizes|
    requires forall q :: q in requests ==> |q| >= 1
    ensures Serve(s, requests) == (s.(owners := Firsts(requests)), [])
  {
    if requests != [] {
      var init := requests[..|requests| - 1];
      OwnersComeFirst(s, init);
      var none: seq<string> := [];
      assert none + none == none;
      assert Serve(s, requests) == (s.(owners := Firsts(init) + [requests[|requests| - 1][0]]), none);
    } else {
      assert Firsts(requests) == s.owners;
    }
  }

  /** After the first request of each owner, the run took the first k places of the stream
      these owners define and left the rest; k counts the places asked for. */
  ghost predicate HandedOut(s: State, requests: seq<seq<string>>)
    requires s.owners == [] && |requests| >= |s.sizes|
    requires forall q :: q in requests ==> |q| >= 1
  {
    var p := |s.sizes|;
    var owners := Firsts(requests[..p]);
    var places := Places(s.sizes, owners);
    var k := Min(Asked(requests[p..], s.rate), |places|);
    var (end, given) := Serve(s, requests);
    && given == places[..k]
    && end.owners == owners && end.rate == s.rate && |end.sizes| == p == |owners|
    && Places(end.sizes, owners) == places[k..]
    && Free(end.sizes) + |given| == Free(s.sizes)
  }

  lemma PrefixThenPrefix(places: seq<string>, a: nat, b: nat)
    ensures Min(a, |places|) <= Min(a + b, |places|) <= |places|
    ensures var rest := places[Min(a, |places|)..];
            && Min(b, |rest|) <= |rest|
            && places[..Min(a, |places|)] + rest[..Min(b, |rest|)] == places[..Min(a + b, |places|)]
            && rest[Min(b, |rest|)..] == places[Min(a + b, |places|)..]
  {
  }

  lemma ServingExtendsPrefix(places: seq<string>, asked: nat, before: State, owners: seq<string>, n: nat)
    requires |before.sizes| == |owners|
    requires Places(before.sizes, owners) == places[Min(asked, |places|)..]
    ensures var (more, left) := Allocate(before.sizes, owners, n);
            && places[..Min(asked, |places|)] + more == places[..Min(asked + n, |places|)]
            && Places(left, owners) == places[Min(asked + n, |places|)..]
            && Free(left) + |more| == Free(before.sizes)
  {
    hide *;
    AllocateTakesPrefix(before.sizes, owners, n);
    AllocateConserves(before.sizes, owners, n);
    PrefixThenPrefix(places, asked, n);
  }

  lemma AskedStep(requests: seq<seq<string>>, p: nat, rate: real)
    requires p < |requests|
    ensures var n := |requests| - 1;
            Asked(requests[p..], rate) == Asked(requests[..n][p..], rate) + PlacesAsked(|requests[n]|, rate)
  {
    var n := |requests| - 1;
    assert requests[p..][..n - p] == requests[..n][p..];
  }

  lemma ServeStep(s: State, requests: seq<seq<string>>)
    requires s.Valid() && requests != [] && forall q :: q in requests ==> |q| >= 1
    requires var before := Serve(s, requests[..|requests| - 1]).0; |before.owners| == |before.sizes|
    ensures var n := |requests| - 1;
            var (before, given) := Serve(s, requests[..n]);
            var (more, left) := Allocate(before.sizes, before.owners, PlacesAsked(|requests[n]|, before.rate));
            Serve(s, requests) == (before.(sizes := left), given + more)
  {
  }

  lemma OwnersOnly(s: State, requests: seq<seq<string>>)
    requires s.owners == [] && |requests| == |s.sizes|
    requires forall q :: q in requests ==> |q| >= 1
    ensures var owners := Firsts(requests[..|s.sizes|]);
            var places := Places(s.sizes, owners);
            && Serve(s, requests) == (s.(owners := owners), [])
            && Min(Asked(requests[|s.sizes|..], s.rate), |places|) == 0
            && places[..0] == [] && places[0..] == places
  {
    assert requests[..|s.sizes|] == requests && requests[|s.sizes|..] == [];
    OwnersComeFirst(s, requests);
  }

  lemma OneMoreRequest(s: State, requests: seq<seq<string>>)
    requires s.owners == [] && |requests| > |s.sizes|
    requires forall q :: q in requests ==> |q| >= 1
    requires HandedOut(s, requests[..|requests| - 1])
    ensures HandedOut(s, requests)
  {
    hide Serve, Places, Firsts, Asked, PlacesAsked, Free, Allocate, Min;
    var p, n := |s.sizes|, |requests| - 1;
    var init := requests[..n];
    assert init[..p] == requests[..p];
    ServeStep(s, requests);
    AskedStep(requests, p, s.rate);
    var before := Serve(s, init).0;
    ServingExtendsPrefix(Places(s.sizes, Firsts(requests[..p])), Asked(init[p..], s.rate), before, before.owners,
                         PlacesAsked(|requests[n]|, s.rate));
  }

  /** Over a whole run, whatever the rate, the places taken are the first of the stream
      that the sizes and the first owners define: how the addresses were batched into
      requests matters only through the number of places asked for. */
  lemma {:induction false} RunHandsOutPrefix(s: State, requests: seq<seq<string>>)
    requires s.owners == [] && |requests| >= |s.sizes|
    requires forall q :: q in requests ==> |q| >= 1
    ensures HandedOut(s, requests)
    decreases |requests|
  {
    if |requests| == |s.sizes| {
      OwnersOnly(s, requests);
    } else {
      hide *;
      RunHandsOutPrefix(s, requests[..|requests| - 1]);
      OneMoreRequest(s, requests);
    }
  }

  /** Two runs with the same owners that ask for equally many places take the same ones. */
  lemma BatchingDoesNotMatter(s: State, a: seq<seq<string>>, b: seq<seq<string>>)
    requires s.owners == [] && |a| >= |s.sizes| && |b| >= |s.sizes|
    requires forall q :: q in a || q in b ==> |q| >= 1
    requires Firsts(a[..|s.sizes|]) == Firsts(b[..|s.sizes|])
    requires Asked(a[|s.sizes|..], s.rate) == Asked(b[|s.sizes|..], s.rate)
    ensures Serve(s, a).1 == Serve(s, b).1
  {
    RunHandsOutPrefix(s, a);
    RunHandsOutPrefix(s, b);
  }

  // ---------- places lost to a panic ----------

  /** The delegatees that reach the clients: a request that panics returns none. */
  function Returned(s: State, requests: seq<seq<string>>): seq<string>
    requires s.Valid() && forall q :: q in requests ==> |q| >= 1
  {
    if requests == [] then []
    else
      var init, last := requests[..|requests| - 1], requests[|requests| - 1];
      var before := Serve(s, init).0;
      Returned(s, init) + (if Panics(before, last) then [] else Handle(before, last).1)
  }

  /** Request i of the run panics. */
  predicate PanicsAt(s: State, requests: seq<seq<string>>, i: nat)
    requires s.Valid() && (forall q :: q in requests ==> |q| >= 1) && i < |requests|
  {
    Panics(Serve(s, requests[..i]).0, requests[i])
  }

  lemma PanicTakesPlaces(s: State, addresses: seq<string>)
    requires s.Valid() && |addresses| >= 1 && Panics(s, addresses)
    ensures Handle(s, addresses).1 != []
  {
    AllocateTakesPrefix(s.sizes, s.owners, PlacesAsked(|addresses|, s.rate));
    FreeCountsPlaces(s.sizes, s.owners);
    hide Allocate, Places, Free;
  }

  lemma ReturnedStep(s: State, requests: seq<seq<string>>) returns (panics: bool, taken: seq<string>)
    requires s.Valid() && requests != [] && forall q :: q in requests ==> |q| >= 1
    ensures var init := requests[..|requests| - 1];
            && panics == PanicsAt(s, requests, |requests| - 1)
            && (panics ==> taken != [])
            && Returned(s, requests) == Returned(s, init) + (if panics then [] else taken)
            && Serve(s, requests).1 == Serve(s, init).1 + taken
  {
    var n := |requests| - 1;
    var before := Serve(s, requests[..n]).0;
    hide Panics, Handle;
    panics, taken := Panics(before, requests[n]), Handle(before, requests[n]).1;
    if panics {
      PanicTakesPlaces(before, requests[n]);
    }
  }

  lemma PanicsEarlier(s: State, requests: seq<seq<string>>, n: nat)
    requires s.Valid() && n <= |requests| && forall q :: q in requests ==> |q| >= 1
    ensures forall i :: 0 <= i < n ==> (PanicsAt(s, requests[..n], i) <==> PanicsAt(s, requests, i))
  {
    hide Panics, Serve;
    forall i | 0 <= i < n
      ensures PanicsAt(s, requests[..n], i) <==> PanicsAt(s, requests, i)
    {
      assert requests[..n][..i] == requests[..i];
    }
  }

  lemma SameBehind(a: seq<string>, b: seq<string>, more: seq<string>)
    ensures a + more == b + more <==> a == b
  {
    assert (a + more)[..|a|] == a;
    assert (b + more)[..|b|] == b;
    assert a + more == b + more ==> |a + more| == |b + more|;
  }

  lemma {:induction false} ReturnedAreTaken(s: State, requests: seq<seq<string>>)
    requires s.Valid() && forall q :: q in requests ==> |q| >= 1
    ensures |Returned(s, requests)| <= |Serve(s, requests).1|
    ensures Returned(s, requests) == Serve(s, requests).1
       <==> forall i :: 0 <= i < |requests| ==> !PanicsAt(s, requests, i)
  {
    if requests != [] {
      hide *;
      var n := |requests| - 1;
      var init := requests[..n];
      ReturnedAreTaken(s, init);
      PanicsEarlier(s, requests, n);
      var panics, taken := ReturnedStep(s, requests);
      SameBehind(Returned(s, init), Serve(s, init).1, taken);
    }
  }

  lemma RestLength(places: seq<string>, k: nat)
    ensures Min(k, |places|) <= |places|
    ensures |places[Min(k, |places|)..]| == if k < |places| then |places| - k else 0
  {
  }

  lemma PanicsAtExactly(s: State, requests: seq<seq<string>>, i: nat)
    requires s.owners == [] && i < |requests| && forall q :: q in requests ==> |q| >= 1
    ensures PanicsAt(s, requests, i)
       <==> i >= |s.sizes| && Rounds(|requests[i]|, s.rate) > |requests[i]|
            && Free(s.sizes) > Asked(requests[|s.sizes|..i], s.rate) + |requests[i]|
  {
    hide Rounds, Free, Asked, Serve, Places, Firsts, Min;
    var init := requests[..i];
    if i < |s.sizes| {
      OwnersComeFirst(s, init);
    } else {
      RunHandsOutPrefix(s, init);
      assert init[..|s.sizes|] == requests[..|s.sizes|] && init[|s.sizes|..] == requests[|s.sizes|..i];
      var end := Serve(s, init).0;
      FreeCountsPlaces(end.sizes, end.owners);
      FreeCountsPlaces(s.sizes, end.owners);
      RestLength(Places(s.sizes, end.owners), Asked(requests[|s.sizes|..i], s.rate));
    }
  }

  /** The clients get every place taken if and only if no request panics, and a request
      panics if and only if its rate asks for more delegatees than it has addresses while
      the requests before it leave more places than that. */
  lemma PlacesAreLostExactly(s: State, requests: seq<seq<string>>)
    requires s.owners == [] && |requests| >= |s.sizes| && forall q :: q in requests ==> |q| >= 1
    ensures Returned(s, requests) == Serve(s, requests).1
       <==> forall i :: |s.sizes| <= i < |requests| ==>
              !(Rounds(|requests[i]|, s.rate) > |requests[i]|
                && Free(s.sizes) > Asked(requests[|s.sizes|..i], s.rate) + |requests[i]|)
  {
    hide Rounds, Free, Asked, Serve, Returned, PanicsAt;
    forall i | 0 <= i < |requests|
      ensures PanicsAt(s, requests, i)
         <==> i >= |s.sizes| && Rounds(|requests[i]|, s.rate) > |requests[i]|
              && Free(s.sizes) > Asked(requests[|s.sizes|..i], s.rate) + |requests[i]|
    {
      PanicsAtExactly(s, requests, i);
    }
    ReturnedAreTaken(s, requests);
  }

  lemma {:induction false} RateStays(s: State, requests: seq<seq<string>>)
    requires s.Valid() && forall q :: q in requests ==> |q| >= 1
    ensures Serve(s, requests).0.rate == s.rate
  {
    if requests != [] {
      RateStays(s, requests[..|requests| - 1]);
    }
  }

  /** At rates up to one nothing is lost. */
  lemma NothingLostUpToOne(s: State, requests: seq<seq<string>>)
    requires s.Valid() && s.rate <= 1.0 && forall q :: q in requests ==> |q| >= 1
    ensures Returned(s, requests) == Serve(s, requests).1
  {
    ReturnedAreTaken(s, requests);
    forall i | 0 <= i < |requests|
      ensures !PanicsAt(s, requests, i)
    {
      RateStays(s, requests[..i]);
      RoundsAtMostOneEach(|requests[i]|, s.rate);
    }
  }

  // ---------- the wire format ----------

  /** The client reads the delegatees back exactly when none contains a comma and
      they are not the single name of the sentinel. */
  lemma ReplyRoundTrip(delegatees: seq<string>)
    ensures Decode(Encode(delegatees)) == delegatees
       <==> (forall d :: d in delegatees ==> ',' !in d) && delegatees != ["OK"]
  {
    if delegatees != [] {
      SplitJoinRoundTrip(delegatees, COMMA);
      if Join(delegatees, COMMA) == OK_REPLY && |delegatees| >= 2 {
        assert COMMA in Join(delegatees, COMMA);
      }
    }
  }

  /** The server reads a request's addresses back exactly when there is one and
      none contains a comma; an empty request reaches it as one empty address. */
  lemma RequestRoundTrip(addresses: seq<string>)
    ensures Split(Join(addresses, ','), ',') == addresses
       <==> addresses != [] && forall a :: a in addresses ==> ',' !in a
    ensures Split(Join([], ','), ',') == [""]
  {
    if addresses != [] {
      SplitJoinRoundTrip(addresses, COMMA);
    }
  }
}
