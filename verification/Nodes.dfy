/** process/process.go: creating users, their ports, and the allocator that decides
    which nodes run in low-power mode. The rate is an exact real. */
module Nodes {
  import opened Wrappers

  datatype Profile = Default | LowPower | Shared

  /** The three ports a node listens on. */
  datatype Ports = Ports(rpc: int, ipfs: int, p2p: int)

  /** A user with its own node, or one that lives on another user's node. */
  datatype User =
    | OwnNode(index: nat, ports: Ports, profile: Profile)
    | OnNodeOf(index: nat, parent: nat, rpcPort: int)

  datatype Bases = Bases(rpc: int, ipfs: int, p2p: int, offset: int)

  function PortsOf(b: Bases, index: nat): Ports {
    Ports(b.rpc + b.offset + index, b.ipfs + b.offset + index, b.p2p + b.offset + index)
  }

  // ---------- what the allocator counts ----------

  /** Own-node users, those among them with the shared profile, and with low power. */
  datatype Counts = Counts(own: nat, shared: nat, low: nat)

  function CountUser(k: Counts, u: User): Counts {
    match u
    case OnNodeOf(_, _, _) => k
    case OwnNode(_, _, profile) =>
      Counts(k.own + 1, k.shared + (if profile == Shared then 1 else 0),
             k.low + (if profile == LowPower then 1 else 0))
  }

  function CountAll(users: seq<User>): Counts {
    if users == [] then Counts(0, 0, 0)
    else CountUser(CountAll(users[..|users| - 1]), users[|users| - 1])
  }

  predicate RunsOwnNode(u: User) {
    u.OwnNode?
  }

  predicate RunsLowPower(u: User) {
    u.OwnNode? && u.profile == LowPower
  }

  /** The positions of these users. */
  function Own(users: seq<User>): set<int> {
    set i | 0 <= i < |users| && RunsOwnNode(users[i])
  }

  function Low(users: seq<User>): set<int> {
    set i | 0 <= i < |users| && RunsLowPower(users[i])
  }

  lemma OneMoreOwn(users: seq<User>)
    requires users != []
    ensures var n := |users| - 1;
            |Own(users)| == |Own(users[..n])| + (if RunsOwnNode(users[n]) then 1 else 0)
  {
    var n := |users| - 1;
    hide RunsOwnNode;
    assert Own(users) == Own(users[..n]) + (if RunsOwnNode(users[n]) then {n} else {});
  }

  lemma OneMoreLow(users: seq<User>)
    requires users != []
    ensures var n := |users| - 1;
            |Low(users)| == |Low(users[..n])| + (if RunsLowPower(users[n]) then 1 else 0)
  {
    var n := |users| - 1;
    hide RunsLowPower;
    assert Low(users) == Low(users[..n]) + (if RunsLowPower(users[n]) then {n} else {});
  }

  lemma {:induction false} CountsAreSizes(users: seq<User>)
    ensures CountAll(users).own == |Own(users)| && CountAll(users).low == |Low(users)|
  {
    if users == [] {
      assert Own(users) == {} && Low(users) == {};
    } else {
      hide Own, Low;
      CountsAreSizes(users[..|users| - 1]);
      OneMoreOwn(users);
      OneMoreLow(users);
    }
  }

  /** Low power is for a node that is neither the god node nor shared, when the low-power
      nodes do not exceed their share among the users with a node. */
  predicate TakesLowPower(rate: real, users: seq<User>, isGod: bool, isShared: bool) {
    && !isShared && !isGod && rate != 0.0 && |Own(users)| > 0
    && |Low(users)| as real <= rate * |Own(users)| as real
  }

  /** The profile of a node created when these counts hold. */
  function NewProfile(rate: real, k: Counts, isGod: bool, isShared: bool): Profile {
    if isShared || isGod then Shared
    else if rate == 0.0 || k.own == 0 then Default
    else if k.low as real / k.own as real > rate then Default
    else LowPower
  }

  // ---------- the process ----------

  function PopulationAfter(godMode: bool, before: nat, count: nat): nat
    requires count >= 1
  {
    before + count - (if godMode && before == 1 then 1 else 0)
  }

  lemma PopulationIs(godMode: bool, before: nat, count: nat)
    requires count >= 1
    ensures PopulationAfter(godMode, before, count) == if godMode && before == 1 then before + count - 1 else before + count
  {
  }

  function Newcomer(rate: real, bases: Bases, k: Counts, index: nat, sharedNode: Option<nat>, target: bool): User {
    if sharedNode.Some? then OnNodeOf(index, sharedNode.value, PortsOf(bases, sharedNode.value).rpc)
    else OwnNode(index, PortsOf(bases, index), NewProfile(rate, k, false, target))
  }

  /** The share stays within one node of the rate; only nodes with the shared profile
      can hold it below. */
  predicate WithinRate(rate: real, k: Counts) {
    && (k.own == 0 ==> k.low == 0 && k.shared == 0)
    && (k.own >= 1 ==>
          && rate * (k.own - 1) as real - rate * k.shared as real <= k.low as real
          && k.low as real <= rate * (k.own - 1) as real + 1.0)
  }

  /** A creation: a user on another node, or a node, god or shared or neither. */
  datatype Creation = Guest | Node(isGod: bool, isShared: bool)

  function AfterCreation(rate: real, k: Counts, x: Creation): Counts {
    match x
    case Guest => k
    case Node(isGod, isShared) =>
      CountUser(k, OwnNode(0, Ports(0, 0, 0), NewProfile(rate, k, isGod, isShared)))
  }

  lemma FirstNode(rate: real, k: Counts, isGod: bool, isShared: bool)
    requires 0.0 <= rate <= 1.0 && WithinRate(rate, k) && k.own == 0
    ensures WithinRate(rate, AfterCreation(rate, k, Node(isGod, isShared)))
  {
    assert rate * 0.0 == 0.0 && rate * 1.0 == rate;
  }

  lemma RateComparison(low: nat, own: nat, rate: real)
    requires own >= 1
    ensures low as real / own as real > rate <==> low as real > rate * own as real
  {
    var q := low as real / own as real;
    assert q * own as real == low as real;
    if q > rate {
      assert q * own as real > rate * own as real;
    } else {
      assert q * own as real <= rate * own as real;
    }
  }

  lemma ProfileExactly(rate: real, users: seq<User>, isGod: bool, isShared: bool)
    ensures NewProfile(rate, CountAll(users), isGod, isShared) == LowPower <==> TakesLowPower(rate, users, isGod, isShared)
  {
    CountsAreSizes(users);
    hide CountAll, Own, Low;
    if |Own(users)| > 0 {
      RateComparison(|Low(users)|, |Own(users)|, rate);
    }
  }

  lemma OneMoreTimes(rate: real, n: nat)
    requires rate >= 0.0
    ensures rate * (n + 1) as real == rate * n as real + rate && rate * n as real >= 0.0
  {
    assert (n + 1) as real == n as real + 1.0;
  }

  /** x is r(n-1) and y is rs before the creation, l the low-power count. */
  lemma BoundsMove(rate: real, x: real, y: real, l: real)
    requires 0.0 <= rate <= 1.0 && y >= 0.0 && x - y <= l <= x + 1.0
    ensures (x + rate) - (y + rate) <= l <= (x + rate) + 1.0
    ensures l > x + rate || rate == 0.0 ==> (x + rate) - y <= l <= (x + rate) + 1.0
    ensures l <= x + rate ==> (x + rate) - y <= l + 1.0 <= (x + rate) + 1.0
  {
  }

  lemma LaterNode(rate: real, k: Counts, isGod: bool, isShared: bool)
    requires 0.0 <= rate <= 1.0 && WithinRate(rate, k) && k.own >= 1
    ensures WithinRate(rate, AfterCreation(rate, k, Node(isGod, isShared)))
  {
    var x, y, l := rate * (k.own - 1) as real, rate * k.shared as real, k.low as real;
    OneMoreTimes(rate, k.shared);
    OneMoreTimes(rate, k.own - 1);
    RateComparison(k.low, k.own, rate);
    BoundsMove(rate, x, y, l);
    assert rate * k.own as real == x + rate && rate * (k.shared + 1) as real == y + rate;
    assert (k.low + 1) as real == l + 1.0;
  }

  lemma CreationKeepsRate(rate: real, k: Counts, x: Creation)
    requires 0.0 <= rate <= 1.0 && WithinRate(rate, k)
    ensures WithinRate(rate, AfterCreation(rate, k, x))
  {
    if x.Node? {
      hide WithinRate, AfterCreation;
      if k.own == 0 {
        FirstNode(rate, k, x.isGod, x.isShared);
      } else {
        LaterNode(rate, k, x.isGod, x.isShared);
      }
    }
  }

  /** What CreateUser appends is counted as that creation. */
  lemma NewcomerIsACreation(rate: real, bases: Bases, k: Counts, index: nat, sharedNode: Option<nat>, target: bool)
    ensures CountUser(k, Newcomer(rate, bases, k, index, sharedNode, target))
         == AfterCreation(rate, k, if sharedNode.Some? then Guest else Node(false, target))
  {
  }

  class Process {
    const godMode: bool
    const rate: real
    const bases: Bases
    const sharedTargets: set<nat>   // nodes some section places its users on
    var users: seq<User>
    var lowPowerProfileCount: nat

    /** Every user carries its position, a node's ports follow from it, and the
        low-power nodes are counted and within the rate. */
    ghost predicate Valid()
      reads this
    {
      && (0.0 <= rate <= 1.0 ==> WithinRate(rate, CountAll(users)))
      && (forall i :: 0 <= i < |users| ==> UserOk(users[i], i))
      && lowPowerProfileCount == CountAll(users).low
    }

    ghost predicate UserOk(u: User, i: nat) {
      && u.index == i
      && (u.OwnNode? ==> u.ports == Ports(bases.rpc + bases.offset + i, bases.ipfs + bases.offset + i,
                                          bases.p2p + bases.offset + i))
      && (u.OnNodeOf? ==> u.rpcPort == bases.rpc + bases.offset + u.parent && u.parent < i)
    }

    /** The user lives on the node its section names, or on its own when it names none. */
    predicate PlacedOn(u: User, sharedNode: Option<nat>) {
      if sharedNode.Some? then u.OnNodeOf? && u.parent == sharedNode.value else u.OwnNode?
    }

    /** The god bot starts with the god node as its only user. */
    constructor (godMode: bool, rate: real, bases: Bases, sharedTargets: set<nat>)
      ensures Valid() && this.godMode == godMode && this.rate == rate && this.bases == bases
      ensures this.sharedTargets == sharedTargets
      ensures users == if godMode then [OwnNode(0, PortsOf(bases, 0), Shared)] else []
    {
      this.godMode := godMode;
      this.rate := rate;
      this.bases := bases;
      this.sharedTargets := sharedTargets;
      users := if godMode then [OwnNode(0, PortsOf(bases, 0), NewProfile(rate, Counts(0, 0, 0), true, 0 in sharedTargets))] else [];
      lowPowerProfileCount := 0;
      new;
      assert users != [] ==> users[..0] == [];
    }

    method DefineNewNodeProfile(isGod: bool, isShared: bool) returns (profile: Profile)
      requires Valid()
      ensures profile == NewProfile(rate, CountAll(users), isGod, isShared)
      ensures profile == Shared <==> isShared || isGod
      ensures profile == LowPower <==> TakesLowPower(rate, users, isGod, isShared)
    {
      ProfileExactly(rate, users, isGod, isShared);
      hide TakesLowPower;
      if isShared || isGod {
        return Shared;
      }
      var ownNodeUsers := 0;
      for i := 0 to |users|
        invariant ownNodeUsers == CountAll(users[..i]).own
      {
        assert users[..i + 1][..i] == users[..i];
        if !users[i].OnNodeOf? {
          ownNodeUsers := ownNodeUsers + 1;
        }
      }
      assert users[..|users|] == users;
      if rate == 0.0 || ownNodeUsers == 0 {
        return Default;
      }
      if lowPowerProfileCount as real / ownNodeUsers as real > rate {
        return Default;
      }
      return LowPower;
    }

    method CreateUser(index: nat, sharedNode: Option<nat>)
      requires Valid() && index == |users|
      requires sharedNode.Some? ==> sharedNode.value < |users|
      modifies this`users, this`lowPowerProfileCount
      ensures Valid() && |users| == index + 1 && users[..index] == old(users)
      ensures users[index] == Newcomer(rate, bases, CountAll(old(users)), index, sharedNode, index in sharedTargets)
      ensures PlacedOn(users[index], sharedNode)
      ensures users[index].OwnNode? ==>
                (users[index].profile == LowPower <==> TakesLowPower(rate, old(users), false, index in sharedTargets))
    {
      hide TakesLowPower;
      var u;
      if sharedNode.None? {
        var profile := DefineNewNodeProfile(false, index in sharedTargets);
        if profile == LowPower {
          lowPowerProfileCount := lowPowerProfileCount + 1;
        }
        u := OwnNode(index, PortsOf(bases, index), profile);
      } else {
        u := OnNodeOf(index, sharedNode.value, PortsOf(bases, sharedNode.value).rpc);
      }
      ghost var k := CountAll(users);
      users := users + [u];
      assert users[..index] == old(users);
      NewcomerIsACreation(rate, bases, k, index, sharedNode, index in sharedTargets);
      if 0.0 <= rate <= 1.0 {
        CreationKeepsRate(rate, k, if sharedNode.Some? then Guest else Node(false, index in sharedTargets));
      }
    }

    method CreateUsers(count: nat, sharedNode: Option<nat>)
      requires Valid()
      requires sharedNode.Some? ==> sharedNode.value < |users|
      modifies this`users, this`lowPowerProfileCount
      ensures Valid() && |users| == old(|users|) + count && users[..old(|users|)] == old(users)
      ensures forall i :: old(|users|) <= i < |users| ==> PlacedOn(users[i], sharedNode)
    {
      var currentUsersCount := |users|;
      for i := 0 to count
        invariant Valid() && |users| == currentUsersCount + i
        invariant users[..currentUsersCount] == old(users)
        invariant forall j :: currentUsersCount <= j < |users| ==> PlacedOn(users[j], sharedNode)
      {
        ghost var before := users;
        CreateUser(i + currentUsersCount, sharedNode);
        assert users[..|before|] == before;
      }
    }

    /** The population effect of startNewNodesAndSendInvites. The god node stands in
        for one user of the section that finds it alone; the section's users are
        always the last count ones. */
    method StartNewNodes(count: nat, sharedNode: Option<nat>) returns (created: seq<User>)
      requires Valid() && count >= 1
      requires sharedNode.Some? ==> sharedNode.value < |users|
      modifies this`users, this`lowPowerProfileCount
      ensures Valid() && |users| >= old(|users|) && users[..old(|users|)] == old(users)
      ensures |users| == PopulationAfter(godMode, old(|users|), count)
      ensures |created| == count && created == users[|users| - count..]
      ensures forall i :: old(|users|) <= i < |users| ==> PlacedOn(users[i], sharedNode)
    {
      hide *;
      PopulationIs(godMode, |users|, count);
      var excludeGodNode := godMode && |users| == 1;
      var newUsers := count;
      if excludeGodNode {
        newUsers := newUsers - 1;
      }
      var currentUsers := |users|;
      if newUsers > 0 {
        CreateUsers(newUsers, sharedNode);
      }
      assert |users| == currentUsers + newUsers && users[..currentUsers] == old(users);
      if excludeGodNode {
        created := users[currentUsers - 1..currentUsers + newUsers];
      } else {
        created := users[currentUsers..currentUsers + newUsers];
      }
    }
  }

  // ---------- ports ----------

  function Gap(x: int, y: int): nat {
    if x < y then y - x else x - y
  }

  /** Two nodes of a process never share a port within a family, and not across
      families either while there are fewer users than the smallest gap between the
      first ports. */
  lemma PortsAreDistinct(p: Process, i: nat, j: nat)
    requires p.Valid() && i < |p.users| && j < |p.users|
    requires p.users[i].OwnNode? && p.users[j].OwnNode?
    ensures var a, b, n := p.users[i].ports, p.users[j].ports, |p.users|;
            && (i != j ==> a.rpc != b.rpc && a.ipfs != b.ipfs && a.p2p != b.p2p)
            && (Gap(p.bases.rpc, p.bases.ipfs) >= n ==> a.rpc != b.ipfs)
            && (Gap(p.bases.rpc, p.bases.p2p) >= n ==> a.rpc != b.p2p)
            && (Gap(p.bases.ipfs, p.bases.p2p) >= n ==> a.ipfs != b.p2p)
  {
    assert p.UserOk(p.users[i], i) && p.UserOk(p.users[j], j);
  }

  // ---------- the low-power share ----------

  function AfterCreations(rate: real, xs: seq<Creation>): Counts {
    if xs == [] then Counts(0, 0, 0)
    else AfterCreation(rate, AfterCreations(rate, xs[..|xs| - 1]), xs[|xs| - 1])
  }

  predicate MakesNode(x: Creation) {
    x.Node?
  }

  predicate MakesShared(x: Creation) {
    x.Node? && (x.isGod || x.isShared)
  }

  function NodesMade(xs: seq<Creation>): set<int> {
    set i | 0 <= i < |xs| && MakesNode(xs[i])
  }

  function SharedMade(xs: seq<Creation>): set<int> {
    set i | 0 <= i < |xs| && MakesShared(xs[i])
  }

  lemma OneMoreNode(xs: seq<Creation>)
    requires xs != []
    ensures var n := |xs| - 1;
            |NodesMade(xs)| == |NodesMade(xs[..n])| + (if MakesNode(xs[n]) then 1 else 0)
  {
    var n := |xs| - 1;
    hide MakesNode;
    assert NodesMade(xs) == NodesMade(xs[..n]) + (if MakesNode(xs[n]) then {n} else {});
  }

  lemma OneMoreShared(xs: seq<Creation>)
    requires xs != []
    ensures var n := |xs| - 1;
            |SharedMade(xs)| == |SharedMade(xs[..n])| + (if MakesShared(xs[n]) then 1 else 0)
  {
    var n := |xs| - 1;
    hide MakesShared;
    assert SharedMade(xs) == SharedMade(xs[..n]) + (if MakesShared(xs[n]) then {n} else {});
  }

  lemma {:induction false} CreationsAreCounted(rate: real, xs: seq<Creation>)
    ensures AfterCreations(rate, xs).own == |NodesMade(xs)|
    ensures AfterCreations(rate, xs).shared == |SharedMade(xs)|
  {
    if xs == [] {
      assert NodesMade(xs) == {} && SharedMade(xs) == {};
    } else {
      hide NodesMade, SharedMade;
      CreationsAreCounted(rate, xs[..|xs| - 1]);
      OneMoreNode(xs);
      OneMoreShared(xs);
    }
  }

  /** Whatever is created in whatever order, the number of low-power nodes among n
      own-node users, s of them with the shared profile, lies between r(n-1) - rs and
      r(n-1) + 1. */
  lemma {:induction false} LowPowerShare(rate: real, xs: seq<Creation>)
    requires 0.0 <= rate <= 1.0
    ensures WithinRate(rate, AfterCreations(rate, xs))
    ensures var low := AfterCreations(rate, xs).low as real;
            NodesMade(xs) != {} ==>
              && rate * (|NodesMade(xs)| - 1) as real - rate * |SharedMade(xs)| as real <= low
              && low <= rate * (|NodesMade(xs)| - 1) as real + 1.0
  {
    CreationsAreCounted(rate, xs);
    hide NodesMade, SharedMade, AfterCreation;
    if xs != [] {
      LowPowerShare(rate, xs[..|xs| - 1]);
      CreationKeepsRate(rate, AfterCreations(rate, xs[..|xs| - 1]), xs[|xs| - 1]);
    }
  }
}
