/** The glog handler under concurrency: any number of Log and Vmodule calls,
    interleaved at every atomic load, store and locked section. */
module GlogRace {
  import opened Wrappers
  import opened Glog

  /** Where one goroutine stands. A Log call remembers the level it loaded. */
  datatype Pc =
    | Idle
    | ReadLevel(site: Site, lvl: nat)
    | ReadFlag(site: Site, lvl: nat, seen: nat)
    | Lookup(site: Site, lvl: nat, seen: nat)
    | Compute(site: Site, lvl: nat, seen: nat)
    | Finished(site: Site, lvl: nat, emitted: bool)
    | Swap(rules: seq<Rule>)
    | Publish
    | Panicked

  /** The writer inside Vmodule, between replacing the rules and storing the flag;
      before is what it replaced, kept only to state properties. */
  datatype Writer = Writer(thread: nat, before: seq<Rule>)

  datatype State = State(level: nat, flag: nat, patterns: seq<Rule>, cache: Option<Cache>,
                         writer: Option<Writer>, threads: seq<Pc>)
  {
    /** The rules whose flag is the one on display. */
    function Published(): seq<Rule> {
      if writer.Some? then writer.value.before else patterns
    }
  }

  datatype Action =
    | CallLog(thread: nat, site: Site, lvl: nat)
    | CallVmodule(thread: nat, rules: seq<Rule>)
    | SetLevel(level: nat)
    | Advance(thread: nat)
    | Return(thread: nat)

  function Init(threads: nat): State {
    State(0, 0, [], None, None, seq(threads, i => Idle))
  }

  /** A locked section needs the write lock to be free; nothing else ever waits. */
  predicate Enabled(s: State, a: Action) {
    match a
    case CallLog(t, _, _) => t < |s.threads| && s.threads[t].Idle?
    case CallVmodule(t, _) => t < |s.threads| && s.threads[t].Idle?
    case SetLevel(_) => true
    case Return(t) => t < |s.threads| && s.threads[t].Finished?
    case Advance(t) =>
      && t < |s.threads|
      && match s.threads[t]
         case ReadLevel(_, _) => true
         case ReadFlag(_, _, _) => true
         case Lookup(_, _, _) => s.writer.None?
         case Compute(_, _, _) => s.writer.None?
         case Swap(_) => s.writer.None?
         case Publish => true
         case _ => false
  }

  function Put(s: State, t: nat, pc: Pc): State
    requires t < |s.threads|
  {
    s.(threads := s.threads[t := pc])
  }

  function Step(m: Matcher, s: State, t: nat): State
    requires Enabled(s, Advance(t))
  {
    match s.threads[t]
    case ReadLevel(site, lvl) =>
      if s.level >= lvl then Put(s, t, Finished(site, lvl, true)) else Put(s, t, ReadFlag(site, lvl, s.level))
    case ReadFlag(site, lvl, seen) =>
      if s.flag == 0 then Put(s, t, Finished(site, lvl, false)) else Put(s, t, Lookup(site, lvl, seen))
    case Lookup(site, lvl, seen) =>
      if s.cache.Some? && site in s.cache.value then
        Put(s, t, Finished(site, lvl, s.cache.value[site] >= lvl))
      else Put(s, t, Compute(site, lvl, seen))
    case Compute(site, lvl, seen) =>
      if s.cache.None? then Put(s, t, Panicked)
      else
        var found := FirstMatch(m, s.patterns, site);
        Put(s, t, Finished(site, lvl, found >= lvl)).(cache := Some(s.cache.value[site := found]))
    case Swap(rules) =>
      Put(s, t, Publish).(writer := Some(Writer(t, s.patterns)), patterns := rules, cache := Some(map[]))
    case Publish => Put(s, t, Idle).(writer := None, flag := Flag(s.patterns))
  }

  function Apply(m: Matcher, s: State, a: Action): State
    requires Enabled(s, a)
  {
    match a
    case CallLog(t, site, lvl) => Put(s, t, ReadLevel(site, lvl))
    case CallVmodule(t, rules) => Put(s, t, Swap(rules))
    case SetLevel(level) => s.(level := level)
    case Return(t) => Put(s, t, Idle)
    case Advance(t) => Step(m, s, t)
  }

  /** states[i+1] is states[i] after actions[i]. */
  ghost predicate IsRun(m: Matcher, states: seq<State>, actions: seq<Action>) {
    && |states| == |actions| + 1
    && forall i :: 0 <= i < |actions| ==>
         Enabled(states[i], actions[i]) && states[i + 1] == Apply(m, states[i], actions[i])
  }

  // ---------- the invariant ----------

  predicate ThreadOk(s: State, t: nat)
    requires t < |s.threads|
  {
    match s.threads[t]
    case ReadFlag(_, lvl, seen) => seen < lvl
    case Lookup(_, lvl, seen) => seen < lvl && s.cache.Some?
    case Compute(_, lvl, seen) => seen < lvl && s.cache.Some?
    case Publish => s.writer.Some? && s.writer.value.thread == t
    case Panicked => false
    case _ => true
  }

  ghost predicate Inv(m: Matcher, s: State) {
    && (forall t :: 0 <= t < |s.threads| ==> ThreadOk(s, t))
    && (s.writer.Some? ==> s.writer.value.thread < |s.threads| && s.threads[s.writer.value.thread].Publish?)
    && s.flag == Flag(s.Published())
    && (s.cache.None? ==> s.patterns == [] && s.writer.None?)
    && (s.cache.Some? ==> CacheAgrees(m, s.patterns, s.cache.value))
  }

  lemma StepKeepsInvariant(m: Matcher, s: State, t: nat)
    requires Inv(m, s) && Enabled(s, Advance(t))
    ensures Inv(m, Step(m, s, t))
  {
    var next := Step(m, s, t);
    forall u | 0 <= u < |next.threads|
      ensures ThreadOk(next, u)
    {
      assert ThreadOk(s, u) && ThreadOk(s, t);
    }
  }

  lemma InvariantIsKept(m: Matcher, s: State, a: Action)
    requires Inv(m, s) && Enabled(s, a)
    ensures Inv(m, Apply(m, s, a))
  {
    if a.Advance? {
      StepKeepsInvariant(m, s, a.thread);
    } else {
      var next := Apply(m, s, a);
      forall u | 0 <= u < |next.threads|
        ensures ThreadOk(next, u)
      {
        assert ThreadOk(s, u);
      }
    }
  }

  /** In every state of every run each cached level is the first match of the current
      rules, the flag on display is that of the published rules, and no call has
      written to the nil cache map. */
  lemma {:induction false} CacheIsAlwaysRight(m: Matcher, threads: nat, states: seq<State>,
                                              actions: seq<Action>, i: nat)
    requires IsRun(m, states, actions) && states[0] == Init(threads) && i < |states|
    ensures Inv(m, states[i])
    ensures states[i].cache.Some? ==> CacheAgrees(m, states[i].patterns, states[i].cache.value)
    ensures states[i].cache.Some? ==>
              forall site :: site in states[i].cache.value ==>
                LevelBy(m, states[i].patterns, site, states[i].cache.value[site])
    ensures forall t :: 0 <= t < |states[i].threads| ==> !states[i].threads[t].Panicked?
  {
    if i > 0 {
      CacheIsAlwaysRight(m, threads, states, actions, i - 1);
      InvariantIsKept(m, states[i - 1], actions[i - 1]);
    }
    forall t | 0 <= t < |states[i].threads|
      ensures !states[i].threads[t].Panicked?
    {
      assert ThreadOk(states[i], t);
    }
    if states[i].cache.Some? {
      hide IsRun, Inv;
      forall site | site in states[i].cache.value
        ensures LevelBy(m, states[i].patterns, site, states[i].cache.value[site])
      {
        FirstMatchByPosition(m, states[i].patterns, site);
      }
    }
  }

  // ---------- verdicts ----------

  predicate Logging(pc: Pc) {
    pc.ReadLevel? || pc.ReadFlag? || pc.Lookup? || pc.Compute?
  }

  /** The level a Log call goes by: what it loaded, or what it loads in this step. */
  function LevelUsed(s: State, pc: Pc): nat
    requires Logging(pc)
  {
    if pc.ReadLevel? then s.level else pc.seen
  }

  /** The rules a step goes by: the flag decides before the lookup, the patterns after. */
  function RulesUsed(s: State, pc: Pc): seq<Rule> {
    if pc.ReadLevel? || pc.ReadFlag? then InForce(s.Published()) else s.patterns
  }

  /** The thread decides its record in this step. */
  predicate Decides(m: Matcher, s: State, t: nat) {
    Enabled(s, Advance(t)) && Logging(s.threads[t]) && Step(m, s, t).threads[t].Finished?
  }

  predicate Emits(m: Matcher, s: State, t: nat)
    requires Decides(m, s, t)
  {
    Step(m, s, t).threads[t].emitted
  }

  /** The step that decides a record gives the uncached verdict for the level the
      call loaded and the rules in force at that very step. */
  lemma VerdictIsUncached(m: Matcher, s: State, t: nat)
    requires Inv(m, s) && Decides(m, s, t)
    ensures var pc := s.threads[t];
            Emits(m, s, t) <==> LevelUsed(s, pc) >= pc.lvl || FirstMatch(m, RulesUsed(s, pc), pc.site) >= pc.lvl
    ensures var pc := s.threads[t];
            Emits(m, s, t) <==> LevelUsed(s, pc) >= pc.lvl || Admits(m, RulesUsed(s, pc), pc.site, pc.lvl)
    ensures var pc := s.threads[t];
            pc.Lookup? || pc.Compute? ==> s.Published() == s.patterns
  {
    assert ThreadOk(s, t);
    var pc := s.threads[t];
    if pc.ReadFlag? && s.flag == 0 {
      assert InForce(s.Published()) == [];
    }
    hide Admits;
    if pc.lvl > 0 {
      AdmitsByLevel(m, RulesUsed(s, pc), pc.site, pc.lvl);
    }
  }

  /** A verdict differs from the configuration at its deciding step in two cases only:
      the level was raised to the record's since it was loaded and no rule admits the
      record, or a rule does but the flag of so many rules wraps to zero. */
  lemma VerdictFitsExactly(m: Matcher, s: State, t: nat)
    requires Inv(m, s) && Decides(m, s, t)
    ensures var pc := s.threads[t];
            var used, known := FirstMatch(m, RulesUsed(s, pc), pc.site), FirstMatch(m, InForce(s.Published()), pc.site);
            (Emits(m, s, t) <==> Passes(m, s.level, s.Published(), pc.site, pc.lvl))
            <==> !(LevelUsed(s, pc) < pc.lvl <= s.level && used < pc.lvl)
                 && !(s.level < pc.lvl && known < pc.lvl <= used)
  {
    VerdictIsUncached(m, s, t);
    assert ThreadOk(s, t);
  }

  /** For a rule list whose length does not wrap the flag only the first case is left. */
  lemma VerdictFitsConfiguration(m: Matcher, s: State, t: nat)
    requires Inv(m, s) && Decides(m, s, t)
    requires s.patterns != [] ==> Flag(s.patterns) != 0
    ensures var pc := s.threads[t];
            (Emits(m, s, t) <==> Passes(m, s.level, s.Published(), pc.site, pc.lvl))
            <==> !(LevelUsed(s, pc) < pc.lvl <= s.level && FirstMatch(m, InForce(s.Published()), pc.site) < pc.lvl)
  {
    VerdictIsUncached(m, s, t);
    assert ThreadOk(s, t);
  }

  // ---------- whole calls ----------

  /** One Log call of thread t: it loads the level at step i and decides at step j. */
  ghost predicate IsCall(m: Matcher, states: seq<State>, actions: seq<Action>, t: nat, i: nat, j: nat) {
    && IsRun(m, states, actions) && i <= j < |actions|
    && t < |states[i].threads| && states[i].threads[t].ReadLevel? && actions[i] == Advance(t)
    && (forall k :: i < k <= j ==> t < |states[k].threads| && Logging(states[k].threads[t]) && !states[k].threads[t].ReadLevel?)
    && actions[j] == Advance(t) && Decides(m, states[j], t)
  }

  /** The call still holds the level it loaded, and its own record. */
  predicate Holds(pc: Pc, site: Site, lvl: nat, level: nat) {
    (pc.ReadFlag? || pc.Lookup? || pc.Compute?) && pc.site == site && pc.lvl == lvl && pc.seen == level
  }

  lemma StepHolds(m: Matcher, s: State, a: Action, t: nat, site: Site, lvl: nat, level: nat)
    requires Enabled(s, a) && t < |s.threads| && Holds(s.threads[t], site, lvl, level)
    requires t < |Apply(m, s, a).threads| && Logging(Apply(m, s, a).threads[t])
    ensures Holds(Apply(m, s, a).threads[t], site, lvl, level)
  {
  }

  lemma LoadHolds(m: Matcher, s: State, t: nat)
    requires Enabled(s, Advance(t)) && s.threads[t].ReadLevel? && Logging(Step(m, s, t).threads[t])
    ensures Holds(Step(m, s, t).threads[t], s.threads[t].site, s.threads[t].lvl, s.level)
  {
  }

  lemma CallStep(m: Matcher, states: seq<State>, actions: seq<Action>, t: nat, i: nat, j: nat, k: nat)
    requires IsCall(m, states, actions, t, i, j) && i <= k < j
    ensures j < |actions| && |states| == |actions| + 1
    ensures Enabled(states[k], actions[k]) && states[k + 1] == Apply(m, states[k], actions[k])
    ensures t < |states[k + 1].threads| && Logging(states[k + 1].threads[t])
    ensures k == i ==> t < |states[i].threads| && states[i].threads[t].ReadLevel? && actions[i] == Advance(t)
    ensures k == i ==> states[k + 1] == Step(m, states[i], t)
  {
    hide Enabled, Step, Decides;
  }

  lemma {:induction false} LoadedLevelIsHeld(m: Matcher, states: seq<State>, actions: seq<Action>, t: nat, i: nat, j: nat, k: nat)
    requires IsCall(m, states, actions, t, i, j) && i < k <= j
    ensures t < |states[k].threads|
    ensures Holds(states[k].threads[t], states[i].threads[t].site, states[i].threads[t].lvl, states[i].level)
    decreases k
  {
    hide *;
    CallStep(m, states, actions, t, i, j, i);
    CallStep(m, states, actions, t, i, j, k - 1);
    if k == i + 1 {
      LoadHolds(m, states[i], t);
    } else {
      LoadedLevelIsHeld(m, states, actions, t, i, j, k - 1);
      StepHolds(m, states[k - 1], actions[k - 1], t, states[i].threads[t].site, states[i].threads[t].lvl, states[i].level);
    }
  }

  /** What the configuration of state k says about the record of the call. */
  predicate ConfiguredAt(m: Matcher, s: State, record: Pc)
    requires record.ReadLevel?
  {
    Passes(m, s.level, s.Published(), record.site, record.lvl)
  }

  /** A call gives the verdict of the level at its load and the rules at its decision. */
  lemma CallVerdict(m: Matcher, threads: nat, states: seq<State>, actions: seq<Action>, t: nat, i: nat, j: nat)
    requires IsCall(m, states, actions, t, i, j) && states[0] == Init(threads)
    requires states[j].patterns != [] ==> Flag(states[j].patterns) != 0
    ensures var record := states[i].threads[t];
            Emits(m, states[j], t) <==> Passes(m, states[i].level, states[j].Published(), record.site, record.lvl)
  {
    CacheIsAlwaysRight(m, threads, states, actions, j);
    VerdictIsUncached(m, states[j], t);
    if i < j {
      LoadedLevelIsHeld(m, states, actions, t, i, j, j);
    }
    hide Inv, IsRun, FirstMatch;
  }

  /** A call is atomic whenever only one of Verbosity and Vmodule acts during it: if the
      rules stand, its verdict is that of the configuration at its load; if the level
      stands, that of the configuration at its decision. */
  lemma CallIsAtomicForOneWriter(m: Matcher, threads: nat, states: seq<State>, actions: seq<Action>, t: nat, i: nat, j: nat)
    requires IsCall(m, states, actions, t, i, j) && states[0] == Init(threads)
    requires states[j].patterns != [] ==> Flag(states[j].patterns) != 0
    ensures states[i].Published() == states[j].Published() ==>
              (Emits(m, states[j], t) <==> ConfiguredAt(m, states[i], states[i].threads[t]))
    ensures states[i].level == states[j].level ==>
              (Emits(m, states[j], t) <==> ConfiguredAt(m, states[j], states[i].threads[t]))
  {
    CallVerdict(m, threads, states, actions, t, i, j);
    hide Passes, Emits;
  }

  /** With both at work during the call, its verdict is that of neither configuration if
      and only if the level was raised to the record's and its rules were taken away. A
      record that is emitted is always admitted by one of the two. */
  lemma CallFitsNeitherExactly(m: Matcher, threads: nat, states: seq<State>, actions: seq<Action>, t: nat, i: nat, j: nat)
    requires IsCall(m, states, actions, t, i, j) && states[0] == Init(threads)
    requires states[j].patterns != [] ==> Flag(states[j].patterns) != 0
    ensures var record := states[i].threads[t];
            var emitted, atLoad, atDecision :=
              Emits(m, states[j], t), ConfiguredAt(m, states[i], record), ConfiguredAt(m, states[j], record);
            && (emitted ==> atLoad || atDecision)
            && (emitted != atLoad && emitted != atDecision
                <==> states[i].level < record.lvl <= states[j].level
                     && FirstMatch(m, InForce(states[j].Published()), record.site) < record.lvl
                        <= FirstMatch(m, InForce(states[i].Published()), record.site))
  {
    CallVerdict(m, threads, states, actions, t, i, j);
    hide Emits, IsCall, FirstMatch, InForce;
  }

  /** The configurations of a race between one Log call, SetLevel and Vmodule. */
  function RaceStates(site: Site): (r: seq<State>)
    ensures |r| == 13
  {
    var rules := [Rule("f", 3)];
    var none: seq<Rule> := [];
    [ State(0, 0, none, None, None, [Idle, Idle]),
      State(0, 0, none, None, None, [Idle, Swap(rules)]),
      State(0, 0, rules, Some(map[]), Some(Writer(1, none)), [Idle, Publish]),
      State(0, 1, rules, Some(map[]), None, [Idle, Idle]),
      State(0, 1, rules, Some(map[]), None, [ReadLevel(site, 3), Idle]),
      State(0, 1, rules, Some(map[]), None, [ReadFlag(site, 3, 0), Idle]),
      State(0, 1, rules, Some(map[]), None, [Lookup(site, 3, 0), Idle]),
      State(5, 1, rules, Some(map[]), None, [Lookup(site, 3, 0), Idle]),
      State(5, 1, rules, Some(map[]), None, [Lookup(site, 3, 0), Swap(none)]),
      State(5, 1, none, Some(map[]), Some(Writer(1, rules)), [Lookup(site, 3, 0), Publish]),
      State(5, 0, none, Some(map[]), None, [Lookup(site, 3, 0), Idle]),
      State(5, 0, none, Some(map[]), None, [Compute(site, 3, 0), Idle]),
      State(5, 0, none, Some(map[site := 0]), None, [Finished(site, 3, false), Idle]) ]
  }

  function RaceActions(site: Site): (r: seq<Action>)
    ensures |r| == 12
  {
    [ CallVmodule(1, [Rule("f", 3)]), Advance(1), Advance(1),
      CallLog(0, site, 3), Advance(0), Advance(0),
      SetLevel(5), CallVmodule(1, []), Advance(1), Advance(1),
      Advance(0), Advance(0) ]
  }

  ghost predicate Leads(m: Matcher, s: State, a: Action, next: State) {
    Enabled(s, a) && Apply(m, s, a) == next
  }

  lemma RaceSwaps(m: Matcher, site: Site)
    ensures var r, a := RaceStates(site), RaceActions(site);
            Leads(m, r[0], a[0], r[1]) && Leads(m, r[1], a[1], r[2])
  {
  }

  lemma RacePublishes(m: Matcher, site: Site)
    ensures var r, a := RaceStates(site), RaceActions(site);
            Leads(m, r[2], a[2], r[3]) && Leads(m, r[3], a[3], r[4])
  {
  }

  lemma RaceSetUp(m: Matcher, site: Site)
    ensures var r, a := RaceStates(site), RaceActions(site);
            forall i :: 0 <= i < 4 ==> Leads(m, r[i], a[i], r[i + 1])
  {
    hide *;
    RaceSwaps(m, site);
    RacePublishes(m, site);
  }

  lemma RaceLoads(m: Matcher, site: Site)
    ensures var r, a := RaceStates(site), RaceActions(site);
            forall i :: 4 <= i < 8 ==> Leads(m, r[i], a[i], r[i + 1])
  {
    var r, a := RaceStates(site), RaceActions(site);
    assert Leads(m, r[4], a[4], r[5]);
    assert Leads(m, r[5], a[5], r[6]);
    assert Leads(m, r[6], a[6], r[7]);
    assert Leads(m, r[7], a[7], r[8]);
  }

  lemma RaceEnd(m: Matcher, site: Site)
    ensures var r, a := RaceStates(site), RaceActions(site);
            forall i :: 8 <= i < 12 ==> Leads(m, r[i], a[i], r[i + 1])
  {
    var r, a := RaceStates(site), RaceActions(site);
    assert Leads(m, r[8], a[8], r[9]);
    assert Leads(m, r[9], a[9], r[10]);
    assert Leads(m, r[10], a[10], r[11]);
    assert Leads(m, r[11], a[11], r[12]);
  }

  lemma RaceIsOneCall(m: Matcher, site: Site)
    requires IsRun(m, RaceStates(site), RaceActions(site))
    ensures IsCall(m, RaceStates(site), RaceActions(site), 0, 4, 11)
  {
    var r, a := RaceStates(site), RaceActions(site);
    assert Enabled(r[11], a[11]) && r[12] == Apply(m, r[11], a[11]);
    hide IsRun, Apply, Enabled;
  }

  lemma LeadingStatesAreARun(m: Matcher, states: seq<State>, actions: seq<Action>)
    requires |states| == |actions| + 1
    requires forall i :: 0 <= i < |actions| ==> Leads(m, states[i], actions[i], states[i + 1])
    ensures IsRun(m, states, actions)
  {
    hide Enabled, Apply;
    forall i | 0 <= i < |actions|
      ensures Enabled(states[i], actions[i]) && states[i + 1] == Apply(m, states[i], actions[i])
    {
      assert Leads(m, states[i], actions[i], states[i + 1]);
    }
  }

  lemma RaceVerdicts(m: Matcher, site: Site)
    requires m("f", site)
    ensures RaceStates(site)[0] == Init(2)
    ensures RaceActions(site)[3] == CallLog(0, site, 3)
    ensures forall i :: 4 <= i < 13 ==>
              Passes(m, RaceStates(site)[i].level, RaceStates(site)[i].Published(), site, 3)
    ensures RaceStates(site)[12].threads[0] == Finished(site, 3, false)
  {
    var rules := [Rule("f", 3)];
    assert FirstMatch(m, InForce(rules), site) == 3;
  }

  /** A Log call is not atomic with respect to Verbosity and Vmodule together: raise
      the level, then clear the rules, between the two loads of one call, and a
      record is dropped that every configuration during the call would have kept. */
  lemma LogIsNotAtomic(m: Matcher, site: Site)
    requires m("f", site)
    ensures IsRun(m, RaceStates(site), RaceActions(site)) && RaceStates(site)[0] == Init(2)
    ensures RaceActions(site)[3] == CallLog(0, site, 3) && IsCall(m, RaceStates(site), RaceActions(site), 0, 4, 11)
    ensures forall i :: 4 <= i < 13 ==>
              Passes(m, RaceStates(site)[i].level, RaceStates(site)[i].Published(), site, 3)
    ensures RaceStates(site)[12].threads[0] == Finished(site, 3, false)
  {
    hide *;
    RaceSetUp(m, site);
    RaceLoads(m, site);
    RaceEnd(m, site);
    RaceVerdicts(m, site);
    LeadingStatesAreARun(m, RaceStates(site), RaceActions(site));
    RaceIsOneCall(m, site);
  }
}
