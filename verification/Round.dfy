/** process/verification.go and process/process.go: one validation round as a
    concurrent protocol. The WaitGroup is charged in advance for users that
    after-flips sections will create while the round is running. */
module Round {
  import opened Wrappers

  /** An after-flips section; without an inviter it belongs to user 0. */
  datatype Section = Section(count: nat, inviter: Option<nat>)
  {
    function Owner(): nat {
      if inviter.None? then 0 else inviter.value
    }
  }

  /** atomic: whether a created block is taken for testing before the mutex is
      released. The source takes it later, so its own value is false. */
  datatype Config = Config(sections: seq<Section>, initial: nat, godMode: bool, atomic: bool)

  /** Where a testUser goroutine stands. Exclude is what it read about the god node;
      a creation remembers where it began, its size and what is left of it. */
  datatype Phase =
    | Preparing
    | Looping
    | Checked(exclude: bool)
    | Creating(base: nat, total: nat, left: nat)
    | Created
    | Done

  datatype Goroutine = Goroutine(user: nat, next: nat, phase: Phase)

  /** A block of positions that one section appended to process.users. */
  datatype Block = Block(base: nat, size: nat)

  /** users holds the index each created user carries; spawned counts how often
      each section's users were sent to testing; blocks is the creation history. */
  datatype State = State(users: seq<nat>, gs: seq<Goroutine>, wg: int, lock: Option<nat>,
                         spawned: seq<nat>, blocks: seq<Block>)

  datatype Move = Exit | Begin | Skip | Check | Acquire | Create | Release | Spawn | Finish

  datatype Action = Action(g: nat, move: Move)

  // ---------- sums ----------

  function Total(sections: seq<Section>): nat {
    if sections == [] then 0 else Total(sections[..|sections| - 1]) + sections[|sections| - 1].count
  }

  function Running(gs: seq<Goroutine>): nat {
    if gs == [] then 0 else Running(gs[..|gs| - 1]) + (if gs[|gs| - 1].phase.Done? then 0 else 1)
  }

  /** What the WaitGroup still holds for sections, each spawn paying its count once. */
  function Pending(sections: seq<Section>, spawned: seq<nat>): int
    requires |sections| == |spawned|
  {
    if sections == [] then 0
    else
      var n := |sections| - 1;
      var left: int := sections[n].count;
      Pending(sections[..n], spawned[..n]) + left - left * spawned[n]
  }

  function Sizes(blocks: seq<Block>): nat {
    if blocks == [] then 0 else Sizes(blocks[..|blocks| - 1]) + blocks[|blocks| - 1].size
  }

  // ---------- steps ----------

  function Init(c: Config): State {
    State(seq(c.initial, i => i), seq(c.initial, i requires 0 <= i < c.initial => Goroutine(i, 0, Preparing)),
          c.initial + Total(c.sections), None, seq(|c.sections|, i => 0), [])
  }

  predicate Matches(c: Config, t: Goroutine) {
    t.next < |c.sections| && c.sections[t.next].Owner() == t.user
  }

  predicate Enabled(c: Config, s: State, a: Action) {
    && a.g < |s.gs|
    && var t := s.gs[a.g];
       match a.move
       case Exit => t.phase.Preparing?
       case Begin => t.phase.Preparing?
       case Skip => t.phase.Looping? && t.next < |c.sections| && !Matches(c, t)
       case Check => t.phase.Looping? && Matches(c, t)
       case Acquire => t.phase.Checked? && Matches(c, t) && s.lock.None?
                       && c.sections[t.next].count >= (if t.phase.exclude then 1 else 0)
       case Create => t.phase.Creating? && t.phase.left > 0 && t.phase.left <= t.phase.total
       case Release => t.phase.Creating? && t.phase.left == 0 && Matches(c, t)
                       && (c.atomic ==> |s.spawned| == |c.sections| && c.sections[t.next].count <= |s.users|)
       case Spawn => t.phase.Created? && Matches(c, t) && |s.spawned| == |c.sections|
                     && c.sections[t.next].count <= |s.users|
       case Finish => t.phase.Looping? && t.next == |c.sections|
  }

  /** The last count users, each with a goroutine of its own. */
  function Newcomers(users: seq<nat>, count: nat): (gs: seq<Goroutine>)
    requires count <= |users|
    ensures |gs| == count
  {
    seq(count, i requires 0 <= i < count => Goroutine(users[|users| - count + i], 0, Preparing))
  }

  function TakeSuffix(c: Config, s: State, g: nat): State
    requires g < |s.gs| && Matches(c, s.gs[g]) && |s.spawned| == |c.sections|
    requires c.sections[s.gs[g].next].count <= |s.users|
  {
    var t := s.gs[g];
    s.(gs := s.gs[g := Goroutine(t.user, t.next + 1, Looping)]
             + Newcomers(s.users, c.sections[t.next].count),
       spawned := s.spawned[t.next := s.spawned[t.next] + 1])
  }

  function Apply(c: Config, s: State, a: Action): State
    requires Enabled(c, s, a)
  {
    var g, t := a.g, s.gs[a.g];
    match a.move
    case Exit => s.(gs := s.gs[g := t.(phase := Done)], wg := s.wg - 1)
    case Begin => s.(gs := s.gs[g := t.(phase := Looping)])
    case Skip => s.(gs := s.gs[g := t.(next := t.next + 1)])
    case Check => s.(gs := s.gs[g := t.(phase := Checked(c.godMode && |s.users| == 1))])
    case Acquire =>
      var total := c.sections[t.next].count - (if t.phase.exclude then 1 else 0);
      s.(gs := s.gs[g := t.(phase := Creating(|s.users|, total, total))], lock := Some(g))
    case Create =>
      var ph := t.phase;
      s.(users := s.users + [ph.base + ph.total - ph.left],
         gs := s.gs[g := t.(phase := Creating(ph.base, ph.total, ph.left - 1))])
    case Release =>
      var released := s.(gs := s.gs[g := t.(phase := Created)], lock := None,
                         blocks := s.blocks + [Block(t.phase.base, t.phase.total)]);
      if c.atomic then TakeSuffix(c, released, g) else released
    case Spawn => TakeSuffix(c, s, g)
    case Finish => s.(gs := s.gs[g := t.(phase := Done)], wg := s.wg - 1)
  }

  /** The state after these actions, if each is enabled when its turn comes. */
  function Exec(c: Config, s: State, actions: seq<Action>): Option<State> {
    if actions == [] then Some(s)
    else
      var before := Exec(c, s, actions[..|actions| - 1]);
      if before.None? || !Enabled(c, before.value, actions[|actions| - 1]) then None
      else Some(Apply(c, before.value, actions[|actions| - 1]))
  }

  ghost predicate Reachable(c: Config, s: State) {
    exists actions :: Exec(c, Init(c), actions) == Some(s)
  }

  // ---------- what every configuration keeps ----------

  predicate GoroutineOk(c: Config, s: State, g: nat)
    requires g < |s.gs|
  {
    var t := s.gs[g];
    && t.next <= |c.sections|
    && match t.phase
       case Preparing => t.next == 0
       case Looping => true
       case Done => true
       case Checked(exclude) => Matches(c, t) && (exclude ==> |s.users| >= 1)
       case Creating(base, total, left) =>
         && Matches(c, t) && s.lock == Some(g)
         && left <= total && |s.users| == base + total - left
         && (total == c.sections[t.next].count || (total + 1 == c.sections[t.next].count && base >= 1))
       case Created => Matches(c, t) && |s.users| >= c.sections[t.next].count
  }

  /** The part of the current creation that is already in process.users. */
  function Partial(s: State): nat {
    if s.lock.Some? && s.lock.value < |s.gs| && s.gs[s.lock.value].phase.Creating?
       && s.gs[s.lock.value].phase.left <= s.gs[s.lock.value].phase.total then
      s.gs[s.lock.value].phase.total - s.gs[s.lock.value].phase.left
    else 0
  }

  ghost predicate Inv(c: Config, s: State) {
    && (forall i :: 0 <= i < |s.users| ==> s.users[i] == i)
    && (forall g :: 0 <= g < |s.gs| ==> GoroutineOk(c, s, g))
    && (s.lock.Some? ==> s.lock.value < |s.gs| && s.gs[s.lock.value].phase.Creating?)
    && |s.spawned| == |c.sections|
    && s.wg == Running(s.gs) + Pending(c.sections, s.spawned)
    && |s.users| == c.initial + Sizes(s.blocks) + Partial(s)
    && (forall j :: 0 <= j < |s.blocks| ==> s.blocks[j].base == c.initial + Sizes(s.blocks[..j]))
  }

  lemma {:induction false} RunningUpdate(gs: seq<Goroutine>, g: nat, t: Goroutine)
    requires g < |gs|
    ensures Running(gs[g := t])
         == Running(gs) - (if gs[g].phase.Done? then 0 else 1) + (if t.phase.Done? then 0 else 1)
  {
    var n := |gs| - 1;
    if g < n {
      RunningUpdate(gs[..n], g, t);
      assert gs[g := t][..n] == gs[..n][g := t];
    } else {
      assert gs[g := t][..n] == gs[..n];
    }
  }

  lemma {:induction false} RunningAppend(gs: seq<Goroutine>, more: seq<Goroutine>)
    ensures Running(gs + more) == Running(gs) + Running(more)
  {
    if more == [] {
      assert gs + more == gs;
    } else {
      RunningAppend(gs, more[..|more| - 1]);
      assert (gs + more)[..|gs + more| - 1] == gs + more[..|more| - 1];
    }
  }

  lemma {:induction false} NobodyDone(gs: seq<Goroutine>)
    requires forall g :: 0 <= g < |gs| ==> !gs[g].phase.Done?
    ensures Running(gs) == |gs|
  {
    if gs != [] {
      NobodyDone(gs[..|gs| - 1]);
    }
  }

  lemma {:induction false} PendingUpdate(sections: seq<Section>, spawned: seq<nat>, k: nat)
    requires |sections| == |spawned| && k < |sections|
    ensures Pending(sections, spawned[k := spawned[k] + 1]) == Pending(sections, spawned) - sections[k].count
  {
    var n := |sections| - 1;
    var next := spawned[k := spawned[k] + 1];
    if k < n {
      PendingUpdate(sections[..n], spawned[..n], k);
      assert next[..n] == spawned[..n][k := spawned[k] + 1];
    } else {
      assert next[..n] == spawned[..n];
      assert sections[n].count * next[n] == sections[n].count * spawned[n] + sections[n].count;
    }
  }

  lemma {:induction false} PendingAtStart(sections: seq<Section>, spawned: seq<nat>)
    requires |sections| == |spawned| && forall k :: 0 <= k < |spawned| ==> spawned[k] == 0
    ensures Pending(sections, spawned) == Total(sections)
  {
    if sections != [] {
      PendingAtStart(sections[..|sections| - 1], spawned[..|sections| - 1]);
    }
  }

  lemma InvAtStart(c: Config)
    ensures Inv(c, Init(c))
  {
    NobodyDone(Init(c).gs);
    PendingAtStart(c.sections, Init(c).spawned);
  }

  lemma TakeSuffixKeepsCharge(c: Config, s: State, g: nat)
    requires g < |s.gs| && Matches(c, s.gs[g]) && |s.spawned| == |c.sections|
    requires c.sections[s.gs[g].next].count <= |s.users| && !s.gs[g].phase.Done?
    ensures var after := TakeSuffix(c, s, g);
            Running(after.gs) + Pending(c.sections, after.spawned)
            == Running(s.gs) + Pending(c.sections, s.spawned)
  {
    var t := s.gs[g];
    var more := Newcomers(s.users, c.sections[t.next].count);
    hide Running, Pending;
    RunningUpdate(s.gs, g, Goroutine(t.user, t.next + 1, Looping));
    RunningAppend(s.gs[g := Goroutine(t.user, t.next + 1, Looping)], more);
    NobodyDone(more);
    PendingUpdate(c.sections, s.spawned, t.next);
  }

  /** Moves that change one goroutine and perhaps the counter. */
  lemma LocalMoveKeepsInv(c: Config, s: State, a: Action)
    requires Inv(c, s) && Enabled(c, s, a)
    requires a.move in {Exit, Begin, Skip, Check, Finish}
    ensures Inv(c, Apply(c, s, a))
  {
    var after := Apply(c, s, a);
    RunningUpdate(s.gs, a.g, after.gs[a.g]);
    assert GoroutineOk(c, s, a.g);
    forall g | 0 <= g < |after.gs|
      ensures GoroutineOk(c, after, g)
    {
      assert GoroutineOk(c, s, g);
    }
    assert Partial(after) == Partial(s);
  }

  lemma CreationKeepsInv(c: Config, s: State, a: Action)
    requires Inv(c, s) && Enabled(c, s, a)
    requires a.move in {Acquire, Create}
    ensures Inv(c, Apply(c, s, a))
  {
    var after := Apply(c, s, a);
    RunningUpdate(s.gs, a.g, after.gs[a.g]);
    assert GoroutineOk(c, s, a.g);
    forall g | 0 <= g < |after.gs|
      ensures GoroutineOk(c, after, g)
    {
      assert GoroutineOk(c, s, g);
    }
  }

  /** The state between unlocking and taking the suffix. */
  function Released(c: Config, s: State, g: nat): State
    requires g < |s.gs| && s.gs[g].phase.Creating?
  {
    var t := s.gs[g];
    s.(gs := s.gs[g := t.(phase := Created)], lock := None,
       blocks := s.blocks + [Block(t.phase.base, t.phase.total)])
  }

  lemma OkWhenReleased(c: Config, s: State, g: nat, h: nat)
    requires g < |s.gs| && s.gs[g].phase.Creating? && s.gs[g].phase.left == 0 && h < |s.gs|
    requires GoroutineOk(c, s, g) && GoroutineOk(c, s, h)
    ensures GoroutineOk(c, Released(c, s, g), h)
  {
  }

  lemma BlockAppended(initial: nat, blocks: seq<Block>, b: Block)
    requires forall j :: 0 <= j < |blocks| ==> blocks[j].base == initial + Sizes(blocks[..j])
    requires b.base == initial + Sizes(blocks)
    ensures Sizes(blocks + [b]) == Sizes(blocks) + b.size
    ensures forall j :: 0 <= j <= |blocks| ==> (blocks + [b])[j].base == initial + Sizes((blocks + [b])[..j])
  {
    var all := blocks + [b];
    assert all[..|blocks|] == blocks;
    forall j | 0 <= j < |blocks|
      ensures all[j].base == initial + Sizes(all[..j])
    {
      assert all[..j] == blocks[..j];
    }
  }

  lemma ReleasingKeepsInv(c: Config, s: State, g: nat)
    requires Inv(c, s) && g < |s.gs| && s.gs[g].phase.Creating? && s.gs[g].phase.left == 0
    ensures Inv(c, Released(c, s, g))
  {
    var after := Released(c, s, g);
    RunningUpdate(s.gs, g, after.gs[g]);
    assert GoroutineOk(c, s, g);
    BlockAppended(c.initial, s.blocks, after.blocks[|s.blocks|]);
    hide Running, Pending, Sizes, GoroutineOk;
    forall h | 0 <= h < |after.gs|
      ensures GoroutineOk(c, after, h)
    {
      OkWhenReleased(c, s, g, h);
    }
  }

  lemma SpawningKeepsInv(c: Config, s: State, g: nat)
    requires Inv(c, s) && g < |s.gs| && s.gs[g].phase.Created?
    ensures Matches(c, s.gs[g]) && c.sections[s.gs[g].next].count <= |s.users|
    ensures Inv(c, TakeSuffix(c, s, g))
  {
    assert GoroutineOk(c, s, g);
    var after := TakeSuffix(c, s, g);
    TakeSuffixKeepsCharge(c, s, g);
    forall h | 0 <= h < |after.gs|
      ensures GoroutineOk(c, after, h)
    {
      if h < |s.gs| {
        assert GoroutineOk(c, s, h);
      }
    }
  }

  lemma StepKeepsInv(c: Config, s: State, a: Action)
    requires Inv(c, s) && Enabled(c, s, a)
    ensures Inv(c, Apply(c, s, a))
  {
    match a.move
    case Acquire => CreationKeepsInv(c, s, a);
    case Create => CreationKeepsInv(c, s, a);
    case Release =>
      ReleasingKeepsInv(c, s, a.g);
      if c.atomic {
        SpawningKeepsInv(c, Released(c, s, a.g), a.g);
      }
    case Spawn => SpawningKeepsInv(c, s, a.g);
    case _ => LocalMoveKeepsInv(c, s, a);
  }

  lemma {:induction false} ExecKeepsInv(c: Config, actions: seq<Action>)
    requires Exec(c, Init(c), actions).Some?
    ensures Inv(c, Exec(c, Init(c), actions).value)
  {
    if actions == [] {
      InvAtStart(c);
    } else {
      var init := actions[..|actions| - 1];
      ExecKeepsInv(c, init);
      StepKeepsInv(c, Exec(c, Init(c), init).value, actions[|actions| - 1]);
    }
  }
}
