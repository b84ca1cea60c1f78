/** process/verification.go: submitFlips of any number of users around the buffered
    channel that bounds concurrent submissions. */
module FlipGate {
  import opened Wrappers

  /** One user's submitFlips: flips still to submit, whether it is between sending and
      receiving a token, and the tokens it has taken and returned so far. */
  datatype User = User(left: nat, inside: bool, taken: nat, returned: nat)

  /** capacity is None for the nil channel; plain users submit without waiting for
      the flip to be mined (several flips in the very first epoch). */
  datatype Config = Config(capacity: Option<nat>, flips: seq<nat>, plain: seq<bool>)
  {
    predicate Valid() {
      |flips| == |plain| && (capacity.Some? ==> capacity.value >= 1)
    }
  }

  datatype State = State(tokens: nat, users: seq<User>)

  datatype Move = Plain | Enter | Leave

  datatype Action = Action(user: nat, move: Move)

  function Init(c: Config): State {
    State(0, seq(|c.flips|, i requires 0 <= i < |c.flips| => User(c.flips[i], false, 0, 0)))
  }

  predicate Enabled(c: Config, s: State, a: Action) {
    && a.user < |s.users| && a.user < |c.plain|
    && var u := s.users[a.user];
       match a.move
       case Plain => c.plain[a.user] && u.left > 0
       case Enter => !c.plain[a.user] && u.left > 0 && !u.inside
                     && (c.capacity.Some? ==> s.tokens < c.capacity.value)
       case Leave => u.inside && u.left > 0 && (c.capacity.Some? ==> s.tokens > 0)
  }

  function Apply(c: Config, s: State, a: Action): State
    requires Enabled(c, s, a)
  {
    var u := s.users[a.user];
    var token := if c.capacity.Some? then 1 else 0;
    match a.move
    case Plain => s.(users := s.users[a.user := u.(left := u.left - 1)])
    case Enter =>
      State(s.tokens + token, s.users[a.user := u.(inside := true, taken := u.taken + token)])
    case Leave =>
      State(s.tokens - token,
            s.users[a.user := User(u.left - 1, false, u.taken, u.returned + token)])
  }

  ghost predicate IsRun(c: Config, states: seq<State>, actions: seq<Action>) {
    && |states| == |actions| + 1 && states[0] == Init(c)
    && forall i :: 0 <= i < |actions| ==>
         Enabled(c, states[i], actions[i]) && states[i + 1] == Apply(c, states[i], actions[i])
  }

  function Inside(users: seq<User>): nat {
    if users == [] then 0
    else Inside(users[..|users| - 1]) + (if users[|users| - 1].inside then 1 else 0)
  }

  /** Steps still to take: two per guarded flip, one of them gone once inside. */
  function Steps(users: seq<User>): int {
    if users == [] then 0
    else
      var u := users[|users| - 1];
      Steps(users[..|users| - 1]) + 2 * u.left - (if u.inside then 1 else 0)
  }

  lemma {:induction false} UpdateSums(users: seq<User>, k: nat, u: User)
    requires k < |users|
    ensures Inside(users[k := u])
         == Inside(users) - (if users[k].inside then 1 else 0) + (if u.inside then 1 else 0)
    ensures Steps(users[k := u])
         == Steps(users) - (2 * users[k].left - (if users[k].inside then 1 else 0))
            + (2 * u.left - (if u.inside then 1 else 0))
  {
    var n := |users| - 1;
    if k < n {
      UpdateSums(users[..n], k, u);
      assert users[k := u][..n] == users[..n][k := u];
    } else {
      assert users[k := u][..n] == users[..n];
    }
  }

  predicate UserOk(c: Config, u: User, plain: bool) {
    && (u.inside ==> u.left > 0 && !plain)
    && u.taken == u.returned + (if u.inside && c.capacity.Some? then 1 else 0)
  }

  ghost predicate Inv(c: Config, s: State) {
    && |s.users| == |c.flips| == |c.plain|
    && s.tokens == (if c.capacity.Some? then Inside(s.users) else 0)
    && (c.capacity.Some? ==> s.tokens <= c.capacity.value)
    && forall i :: 0 <= i < |s.users| ==> UserOk(c, s.users[i], c.plain[i])
  }

  lemma {:induction false} NobodyInside(users: seq<User>)
    requires forall i :: 0 <= i < |users| ==> !users[i].inside
    ensures Inside(users) == 0
  {
    if users != [] {
      NobodyInside(users[..|users| - 1]);
    }
  }

  lemma StepKeepsInv(c: Config, s: State, a: Action)
    requires Inv(c, s) && Enabled(c, s, a)
    ensures Inv(c, Apply(c, s, a))
    ensures Steps(Apply(c, s, a).users) < Steps(s.users)
  {
    UpdateSums(s.users, a.user, Apply(c, s, a).users[a.user]);
    assert UserOk(c, s.users[a.user], c.plain[a.user]);
  }

  /** In every interleaving the tokens in the channel are the users inside the guarded
      region, never more than its capacity, and each user that is outside has
      returned every token it took. */
  lemma {:induction false} TokensAreUsersInside(c: Config, states: seq<State>, actions: seq<Action>, i: nat)
    requires c.Valid() && IsRun(c, states, actions) && i < |states|
    ensures Inv(c, states[i])
    ensures c.capacity.Some? ==> states[i].tokens == Inside(states[i].users) <= c.capacity.value
    ensures forall u :: u in states[i].users && (u.left == 0 || !u.inside) ==> u.taken == u.returned
    ensures Steps(states[i].users) + i <= Steps(Init(c).users)
  {
    if i == 0 {
      NobodyInside(Init(c).users);
    } else {
      TokensAreUsersInside(c, states, actions, i - 1);
      StepKeepsInv(c, states[i - 1], actions[i - 1]);
    }
    forall u | u in states[i].users && (u.left == 0 || !u.inside)
      ensures u.taken == u.returned
    {
      var k :| 0 <= k < |states[i].users| && states[i].users[k] == u;
      assert UserOk(c, states[i].users[k], c.plain[k]);
    }
  }

  lemma {:induction false} SomebodyInside(users: seq<User>)
    ensures Inside(users) > 0 <==> exists i :: 0 <= i < |users| && users[i].inside
  {
    if users != [] {
      var n := |users| - 1;
      SomebodyInside(users[..n]);
      if i :| 0 <= i < n && users[..n][i].inside {
        assert users[i].inside;
      }
      if i :| 0 <= i < |users| && users[i].inside {
        assert i == n || users[..n][i].inside;
      }
    }
  }

  /** The gate holds back nobody without need: in every reachable state a user outside with
      a flip to guard may enter exactly while fewer than its capacity are inside, and one
      inside may always leave. */
  lemma GateOpensExactly(c: Config, states: seq<State>, actions: seq<Action>, i: nat, k: nat)
    requires c.Valid() && IsRun(c, states, actions) && i < |states| && k < |states[i].users|
    requires k < |c.plain| && !c.plain[k] && states[i].users[k].left > 0
    ensures !states[i].users[k].inside ==>
              (Enabled(c, states[i], Action(k, Enter))
               <==> c.capacity == None || Inside(states[i].users) < c.capacity.value)
    ensures states[i].users[k].inside ==> Enabled(c, states[i], Action(k, Leave))
  {
    TokensAreUsersInside(c, states, actions, i);
    SomebodyInside(states[i].users);
    hide IsRun;
  }

  /** The gate cannot deadlock: while a flip is left to submit, somebody can move. */
  lemma SomebodyCanMove(c: Config, s: State, k: nat)
    requires c.Valid() && Inv(c, s) && k < |s.users| && s.users[k].left > 0
    ensures exists a :: Enabled(c, s, a)
  {
    assert UserOk(c, s.users[k], c.plain[k]);
    SomebodyInside(s.users);
    if c.plain[k] {
      assert Enabled(c, s, Action(k, Plain));
    } else if c.capacity.Some? && s.tokens > 0 {
      var i :| 0 <= i < |s.users| && s.users[i].inside;
      assert UserOk(c, s.users[i], c.plain[i]);
      assert Enabled(c, s, Action(i, Leave));
    } else if s.users[k].inside {
      assert Enabled(c, s, Action(k, Leave));
    } else {
      assert Enabled(c, s, Action(k, Enter));
    }
  }

  lemma {:induction false} NoStepsBelowZero(users: seq<User>)
    requires forall i :: 0 <= i < |users| ==> (users[i].inside ==> users[i].left > 0)
    ensures Steps(users) >= 0
  {
    if users != [] {
      NoStepsBelowZero(users[..|users| - 1]);
    }
  }

  /** Every run is finite, and a run that cannot go on has submitted every flip and
      left the channel empty. */
  lemma EveryRunCompletes(c: Config, states: seq<State>, actions: seq<Action>)
    requires c.Valid() && IsRun(c, states, actions)
    ensures |actions| <= Steps(Init(c).users)
    ensures var end := states[|actions|];
            (forall a :: !Enabled(c, end, a)) ==>
              (forall u :: u in end.users ==> u.left == 0 && u.taken == u.returned) && end.tokens == 0
  {
    var end := states[|actions|];
    TokensAreUsersInside(c, states, actions, |actions|);
    assert forall i :: 0 <= i < |end.users| ==> UserOk(c, end.users[i], c.plain[i]);
    NoStepsBelowZero(end.users);
    if forall a :: !Enabled(c, end, a) {
      forall k | 0 <= k < |end.users|
        ensures end.users[k].left == 0
      {
        if end.users[k].left > 0 {
          SomebodyCanMove(c, end, k);
          assert false;
        }
      }
      NobodyInside(end.users);
    }
  }
}
