/** log/handler.go: which sinks a record reaches, in which order and with what error,
    told by paths in the tree of handlers. */
module LogReach {
  import opened Wrappers
  import opened Text
  import opened LogContext

  // ---------- errors ----------

  /** The handler returns an error: a sink that fails, a failover with handlers all of
      which fail, or what is wrapped around one of these; never a multi handler or a
      filter that blocks. */
  predicate Fails(h: Handler) {
    match h
    case Sink(_, fails) => fails
    case Lazily(g) => Fails(g)
    case Failover(hs) => hs != [] && forall i :: 0 <= i < |hs| ==> Fails(hs[i])
    case Multi(_) => false
    case Caller(_, _, g) => Fails(g)
    case Filter(pass, g) => pass && Fails(g)
  }

  lemma {:induction false} FailoverErrors(eval: Evaluator, h: Handler, i: nat, ctx: seq<Value>, fails: bool)
    requires h.Failover? && i <= |h.hs|
    ensures RunFailover(eval, h, i, ctx, fails).fails
       <==> (if i == |h.hs| then fails else forall j :: i <= j < |h.hs| ==> Fails(h.hs[j]))
    decreases h, 0, |h.hs| - i
  {
    if i < |h.hs| {
      ErrorIsReturned(eval, h.hs[i], ctx);
      FailoverErrors(eval, h, i + 1, Run(eval, h.hs[i], ctx).ctx + [FailoverKey(i), Failure], true);
    }
  }

  lemma {:induction false} MultiErrors(eval: Evaluator, h: Handler, i: nat, ctx: seq<Value>)
    requires h.Multi? && i <= |h.hs|
    ensures !RunMulti(eval, h, i, ctx).fails
    decreases h, 0, |h.hs| - i
  {
    if i < |h.hs| {
      MultiErrors(eval, h, i + 1, Run(eval, h.hs[i], ctx).ctx);
    }
  }

  lemma {:induction false} ErrorIsReturned(eval: Evaluator, h: Handler, ctx: seq<Value>)
    ensures Run(eval, h, ctx).fails <==> Fails(h)
    decreases h, 1, 0
  {
    match h
    case Sink(_, _) =>
    case Lazily(g) => ErrorIsReturned(eval, g, LazyPass(eval, ctx));
    case Failover(hs) => FailoverErrors(eval, h, 0, ctx, false);
    case Multi(hs) => MultiErrors(eval, h, 0, ctx);
    case Caller(key, info, g) =>
      ErrorIsReturned(eval, g, ctx + (if info.Some? then [Str(key), Str(info.value)] else []));
    case Filter(_, g) => ErrorIsReturned(eval, g, ctx);
  }

  // ---------- paths ----------

  type Path = seq<nat>

  function Child(h: Handler, i: nat): Option<Handler> {
    match h
    case Sink(_, _) => None
    case Failover(hs) => if i < |hs| then Some(hs[i]) else None
    case Multi(hs) => if i < |hs| then Some(hs[i]) else None
    case _ => if i == 0 then Some(h.h) else None
  }

  /** The handler at the end of a path. */
  function At(h: Handler, path: Path): Option<Handler> {
    if path == [] then Some(h)
    else
      var c := Child(h, path[0]);
      if c.None? then None else At(c.value, path[1..])
  }

  /** The handler passes the record on to child i: a filter must let it pass, and a
      failover must have had an error from every child before. */
  predicate Lets(h: Handler, i: nat) {
    && (h.Filter? ==> h.pass)
    && (h.Failover? ==> forall j :: 0 <= j < i && j < |h.hs| ==> Fails(h.hs[j]))
  }

  /** The path leads to a sink, and every handler above it passes the record on. */
  predicate Reached(h: Handler, path: Path) {
    && At(h, path).Some? && At(h, path).value.Sink?
    && forall k :: 0 <= k < |path| ==> At(h, path[..k]).Some? && Lets(At(h, path[..k]).value, path[k])
  }

  lemma ReachedFromChild(h: Handler, path: Path)
    requires path != []
    ensures Reached(h, path)
       <==> Child(h, path[0]).Some? && Lets(h, path[0]) && Reached(Child(h, path[0]).value, path[1..])
  {
    hide Lets, Child;
    assert path[..0] == [];
    if Child(h, path[0]).Some? {
      var g, rest := Child(h, path[0]).value, path[1..];
      forall k | 0 <= k < |rest|
        ensures At(h, path[..k + 1]) == At(g, rest[..k]) && rest[k] == path[k + 1]
      {
        assert path[..k + 1][1..] == rest[..k];
      }
      if Reached(h, path) {
        assert Lets(At(h, path[..0]).value, path[0]);
        forall k | 0 <= k < |rest|
          ensures At(g, rest[..k]).Some? && Lets(At(g, rest[..k]).value, rest[k])
        {
          assert At(h, path[..k + 1]).Some? && Lets(At(h, path[..k + 1]).value, path[k + 1]);
        }
      }
      if Lets(h, path[0]) && Reached(g, rest) {
        forall k | 0 <= k < |path|
          ensures At(h, path[..k]).Some? && Lets(At(h, path[..k]).value, path[k])
        {
          if k > 0 {
            assert At(g, rest[..k - 1]).Some? && Lets(At(g, rest[..k - 1]).value, rest[k - 1]);
          }
        }
      }
    }
  }

  /** p comes before q in the order of the tree. */
  predicate Earlier(p: Path, q: Path) {
    exists k :: 0 <= k < |p| && k < |q| && p[..k] == q[..k] && p[k] < q[k]
  }

  function Under(i: nat, paths: seq<Path>): (r: seq<Path>)
    ensures |r| == |paths| && forall k :: 0 <= k < |paths| ==> r[k] == [i] + paths[k]
  {
    seq(|paths|, k requires 0 <= k < |paths| => [i] + paths[k])
  }

  ghost predicate InOrder(paths: seq<Path>) {
    forall j, k :: 0 <= j < k < |paths| ==> Earlier(paths[j], paths[k])
  }

  lemma EarlierUnder(i: nat, p: Path, q: Path)
    requires Earlier(p, q)
    ensures Earlier([i] + p, [i] + q)
  {
    var k :| 0 <= k < |p| && k < |q| && p[..k] == q[..k] && p[k] < q[k];
    assert ([i] + p)[..k + 1] == [i] + p[..k] && ([i] + q)[..k + 1] == [i] + q[..k];
    assert ([i] + p)[k + 1] < ([i] + q)[k + 1];
  }

  lemma UnderInOrder(i: nat, paths: seq<Path>)
    requires InOrder(paths)
    ensures InOrder(Under(i, paths))
  {
    hide Earlier;
    forall j, k | 0 <= j < k < |paths|
      ensures Earlier(Under(i, paths)[j], Under(i, paths)[k])
    {
      EarlierUnder(i, paths[j], paths[k]);
    }
  }

  lemma OrderAt(paths: seq<Path>, j: nat, k: nat)
    requires InOrder(paths) && j < k < |paths|
    ensures Earlier(paths[j], paths[k])
  {
  }

  lemma OrderOf(paths: seq<Path>)
    requires forall j, k :: 0 <= j < k < |paths| ==> Earlier(paths[j], paths[k])
    ensures InOrder(paths)
  {
  }

  lemma InOrderAppended(i: nat, paths: seq<Path>, more: seq<Path>)
    requires InOrder(paths) && InOrder(more)
    requires forall q :: q in more ==> q != [] && q[0] > i
    ensures InOrder(Under(i, paths) + more)
  {
    UnderInOrder(i, paths);
    var all := Under(i, paths) + more;
    hide InOrder;
    assert InOrder(Under(i, paths)) && InOrder(more);
    forall j, k | 0 <= j < k < |all|
      ensures Earlier(all[j], all[k])
    {
      if k < |paths| {
        OrderAt(Under(i, paths), j, k);
      } else if j >= |paths| {
        OrderAt(more, j - |paths|, k - |paths|);
      } else {
        var q := all[k];
        assert q == more[k - |paths|] && q in more;
        assert all[j][..0] == q[..0] && all[j][0] == i;
      }
    }
    OrderOf(all);
  }

  // ---------- what a handler leaves for those below ----------

  ghost predicate HasPair(b: seq<Value>, from: nat, key: Value, value: Value) {
    exists i :: from <= i && i + 1 < |b| && i % 2 == 0 && b[i] == key && b[i + 1] == value
  }

  /** What a sink below child i of g finds in its context, ctx being that of the call:
      the caller's pair, lazy values evaluated, and the errors of earlier children. */
  ghost predicate Left(eval: Evaluator, g: Handler, i: nat, ctx: seq<Value>, b: seq<Value>) {
    && |ctx| <= |b|
    && (g.Caller? && g.info.Some? ==> HasPair(b, |ctx|, Str(g.key), Str(g.info.value)))
    && (g.Lazily? && Plainly(eval) ==>
          forall j :: 0 <= j < |ctx| && j % 2 == 1 && ctx[j].LazyFn? ==>
            b[j] == if eval(ctx[j].id, j).None? then Failure else eval(ctx[j].id, j).value)
    && (g.Failover? ==> forall j :: 0 <= j < i ==> HasPair(b, |ctx|, Str("failover_err_" + Itoa(j)), Failure))
  }

  /** The sink at the path finds what every handler above it leaves. */
  ghost predicate Carries(eval: Evaluator, h: Handler, ctx: seq<Value>, path: Path, b: seq<Value>) {
    forall k :: 0 <= k < |path| && At(h, path[..k]).Some? ==> Left(eval, At(h, path[..k]).value, path[k], ctx, b)
  }

  lemma PairStays(eval: Evaluator, h: Handler, next: seq<Value>, b: seq<Value>, from: nat, key: Value, value: Value)
    requires HasPair(next, from, key, value) && Grown(eval, h, next, b) && !value.LazyFn?
    ensures HasPair(b, from, key, value)
  {
    var i :| from <= i && i + 1 < |next| && i % 2 == 0 && next[i] == key && next[i + 1] == value;
    hide Adds;
    assert Kept(eval, i, next[i], b[i]) && Kept(eval, i + 1, next[i + 1], b[i + 1]);
  }

  lemma PairIsLater(b: seq<Value>, late: nat, from: nat, key: Value, value: Value)
    requires HasPair(b, late, key, value) && from <= late
    ensures HasPair(b, from, key, value)
  {
  }

  lemma EvaluatedStays(eval: Evaluator, id: nat, j: nat, before: Value, after: Value)
    requires Plainly(eval) && before == (if eval(id, j).None? then Failure else eval(id, j).value)
    requires Kept(eval, j, before, after)
    ensures after == before
  {
  }

  lemma LeftStays(eval: Evaluator, g: Handler, h: Handler, i: nat, ctx: seq<Value>, next: seq<Value>, b: seq<Value>)
    requires Left(eval, g, i, ctx, next) && Grown(eval, h, next, b)
    ensures Left(eval, g, i, ctx, b)
  {
    if g.Caller? && g.info.Some? {
      PairStays(eval, h, next, b, |ctx|, Str(g.key), Str(g.info.value));
    }
    if g.Failover? {
      forall j | 0 <= j < i
        ensures HasPair(b, |ctx|, Str("failover_err_" + Itoa(j)), Failure)
      {
        PairStays(eval, h, next, b, |ctx|, Str("failover_err_" + Itoa(j)), Failure);
      }
    }
    if g.Lazily? && Plainly(eval) {
      forall j | 0 <= j < |ctx| && j % 2 == 1 && ctx[j].LazyFn?
        ensures b[j] == next[j]
      {
        EvaluatedStays(eval, ctx[j].id, j, next[j], b[j]);
      }
    }
  }

  /** What holds by the context that a child was given holds by that of the whole tree. */
  lemma LeftFromEarlier(eval: Evaluator, g: Handler, h: Handler, f: Handler, i: nat, ctx: seq<Value>, next: seq<Value>,
                        b: seq<Value>)
    requires Left(eval, g, i, next, b) && Grown(eval, h, ctx, next) && Grown(eval, f, next, b)
    ensures Left(eval, g, i, ctx, b)
  {
    hide Adds, HasPair;
    if g.Caller? && g.info.Some? {
      PairIsLater(b, |next|, |ctx|, Str(g.key), Str(g.info.value));
    }
    if g.Failover? {
      forall j | 0 <= j < i
        ensures HasPair(b, |ctx|, Str("failover_err_" + Itoa(j)), Failure)
      {
        PairIsLater(b, |next|, |ctx|, Str("failover_err_" + Itoa(j)), Failure);
      }
    }
    if g.Lazily? && Plainly(eval) {
      forall j | 0 <= j < |ctx| && j % 2 == 1 && ctx[j].LazyFn?
        ensures b[j] == if eval(ctx[j].id, j).None? then Failure else eval(ctx[j].id, j).value
      {
        assert Kept(eval, j, ctx[j], next[j]) && Kept(eval, j, next[j], b[j]);
      }
    }
  }

  lemma CarriesUnder(eval: Evaluator, h: Handler, i: nat, ctx: seq<Value>, next: seq<Value>, path: Path, b: seq<Value>)
    requires Child(h, i).Some? && Grown(eval, h, ctx, next) && Left(eval, h, i, ctx, next)
    requires Carries(eval, Child(h, i).value, next, path, b) && Grown(eval, Child(h, i).value, next, b)
    ensures Carries(eval, h, ctx, [i] + path, b)
  {
    var g, longer := Child(h, i).value, [i] + path;
    hide Left, Grown, Child;
    forall k | 0 <= k < |longer| && At(h, longer[..k]).Some?
      ensures Left(eval, At(h, longer[..k]).value, longer[k], ctx, b)
    {
      if k == 0 {
        assert longer[..0] == [];
        LeftStays(eval, h, g, i, ctx, next, b);
      } else {
        assert longer[..k][1..] == path[..k - 1] && longer[..k][0] == i;
        assert At(h, longer[..k]) == At(g, path[..k - 1]);
        LeftFromEarlier(eval, At(g, path[..k - 1]).value, h, g, path[k - 1], ctx, next, b);
      }
    }
  }

  lemma CallerLeaves(eval: Evaluator, h: Handler, ctx: seq<Value>)
    requires h.Caller? && Paired(ctx)
    ensures var next := ctx + (if h.info.Some? then [Str(h.key), Str(h.info.value)] else []);
            Left(eval, h, 0, ctx, next) && Grown(eval, h, ctx, next)
  {
    var next := ctx + (if h.info.Some? then [Str(h.key), Str(h.info.value)] else []);
    CallerGrows(eval, h.key, h.info, h.h, ctx);
    hide Grown;
    if h.info.Some? {
      assert next[|ctx|] == Str(h.key) && next[|ctx| + 1] == Str(h.info.value);
    }
  }

  lemma LazilyLeaves(eval: Evaluator, h: Handler, ctx: seq<Value>)
    requires h.Lazily? && Paired(ctx)
    ensures Left(eval, h, 0, ctx, LazyPass(eval, ctx)) && Grown(eval, h, ctx, LazyPass(eval, ctx))
  {
    LazyPassGrows(eval, h.h, ctx);
    hide Grown;
  }

  lemma PairIsKept(b: seq<Value>, more: seq<Value>, from: nat, key: Value, value: Value)
    requires HasPair(b, from, key, value)
    ensures HasPair(b + more, from, key, value)
  {
    var i :| from <= i && i + 1 < |b| && i % 2 == 0 && b[i] == key && b[i + 1] == value;
    assert (b + more)[i] == key && (b + more)[i + 1] == value;
  }

  lemma FailoverLeaves(eval: Evaluator, h: Handler, g: Handler, i: nat, ctx: seq<Value>, next: seq<Value>, after: seq<Value>)
    requires h.Failover? && Paired(ctx) && Left(eval, h, i, ctx, next) && Grown(eval, g, next, after)
    ensures Left(eval, h, i + 1, ctx, after + [FailoverKey(i), Failure])
  {
    var last := after + [FailoverKey(i), Failure];
    LeftStays(eval, h, g, i, ctx, next, after);
    assert |after| % 2 == 0;
    hide Grown;
    assert last[|after|] == Str("failover_err_" + Itoa(i)) && last[|after| + 1] == Failure;
    forall j | 0 <= j <= i
      ensures HasPair(last, |ctx|, Str("failover_err_" + Itoa(j)), Failure)
    {
      if j < i {
        assert HasPair(after, |ctx|, Str("failover_err_" + Itoa(j)), Failure);
        PairIsKept(after, [FailoverKey(i), Failure], |ctx|, Str("failover_err_" + Itoa(j)), Failure);
      }
    }
  }

  lemma NothingLeft(eval: Evaluator, h: Handler, ctx: seq<Value>)
    requires (h.Multi? || h.Filter? || h.Failover?) && Paired(ctx)
    ensures Left(eval, h, 0, ctx, ctx) && Grown(eval, h, ctx, ctx)
  {
  }

  // ---------- the sinks ----------

  /** The sink of this name is at the end of the path, and is reached. */
  predicate ReachesSink(h: Handler, path: Path, name: nat) {
    Reached(h, path) && At(h, path).value.name == name
  }

  /** The delivery is the one to the sink at the path. */
  ghost predicate DeliveredTo(eval: Evaluator, h: Handler, ctx: seq<Value>, path: Path, d: Delivery) {
    ReachesSink(h, path, d.sink) && Carries(eval, h, ctx, path, d.ctx)
  }

  /** The deliveries are those to the sinks at these paths. */
  ghost predicate DeliveredAt(eval: Evaluator, h: Handler, ctx: seq<Value>, paths: seq<Path>, seen: seq<Delivery>) {
    && |seen| == |paths|
    && forall k :: 0 <= k < |paths| ==> DeliveredTo(eval, h, ctx, paths[k], seen[k])
  }

  /** Exactly the sinks that are reached, each once, in the order of the tree. */
  ghost predicate Reaches(eval: Evaluator, h: Handler, ctx: seq<Value>, paths: seq<Path>, seen: seq<Delivery>) {
    && DeliveredAt(eval, h, ctx, paths, seen) && InOrder(paths)
    && forall p :: Reached(h, p) ==> p in paths
  }

  /** The same for the children from i on. */
  ghost predicate ReachesFrom(eval: Evaluator, h: Handler, ctx: seq<Value>, i: nat, paths: seq<Path>,
                              seen: seq<Delivery>)
  {
    && DeliveredAt(eval, h, ctx, paths, seen) && InOrder(paths)
    && (forall p :: p in paths ==> p != [] && p[0] >= i)
    && forall p :: Reached(h, p) && p != [] && p[0] >= i ==> p in paths
  }

  lemma SinkUnder(h: Handler, i: nat, path: Path, name: nat)
    requires Child(h, i).Some? && Lets(h, i) && ReachesSink(Child(h, i).value, path, name)
    ensures ReachesSink(h, [i] + path, name)
  {
    var longer := [i] + path;
    assert longer[0] == i && longer[1..] == path;
    ReachedFromChild(h, longer);
  }

  lemma UnderDelivered(eval: Evaluator, h: Handler, i: nat, ctx: seq<Value>, next: seq<Value>, paths: seq<Path>,
                       seen: seq<Delivery>)
    requires Child(h, i).Some? && Lets(h, i) && DeliveredAt(eval, Child(h, i).value, next, paths, seen)
    requires Grown(eval, h, ctx, next) && Left(eval, h, i, ctx, next) && AllGrown(eval, Child(h, i).value, next, seen)
    ensures DeliveredAt(eval, h, ctx, Under(i, paths), seen)
  {
    var g := Child(h, i).value;
    hide ReachesSink, Lets, Child, Carries, Left, Grown;
    forall k | 0 <= k < |paths|
      ensures DeliveredTo(eval, h, ctx, Under(i, paths)[k], seen[k])
    {
      assert DeliveredTo(eval, g, next, paths[k], seen[k]) && Grown(eval, g, next, seen[k].ctx);
      SinkUnder(h, i, paths[k], seen[k].sink);
      CarriesUnder(eval, h, i, ctx, next, paths[k], seen[k].ctx);
    }
  }

  lemma DeliveredInTwoParts(eval: Evaluator, h: Handler, ctx: seq<Value>, a: seq<Path>, seen: seq<Delivery>,
                            b: seq<Path>, rest: seq<Delivery>)
    requires DeliveredAt(eval, h, ctx, a, seen) && DeliveredAt(eval, h, ctx, b, rest)
    ensures DeliveredAt(eval, h, ctx, a + b, seen + rest)
  {
    hide DeliveredTo;
  }

  lemma AllUnder(h: Handler, i: nat, paths: seq<Path>, p: Path)
    requires p != [] && p[0] == i && Reached(h, p)
    requires Child(h, i).Some? ==> forall q :: Reached(Child(h, i).value, q) ==> q in paths
    ensures p in Under(i, paths)
  {
    ReachedFromChild(h, p);
    hide Reached;
    var k :| 0 <= k < |paths| && paths[k] == p[1..];
    assert p == [i] + p[1..] && Under(i, paths)[k] == p;
  }

  lemma StartsAtChild(h: Handler, p: Path)
    requires !h.Sink? && Reached(h, p)
    ensures p != [] && Child(h, p[0]).Some?
  {
    assert p != [];
    ReachedFromChild(h, p);
  }

  lemma OnlyChild(eval: Evaluator, h: Handler, ctx: seq<Value>, next: seq<Value>, paths: seq<Path>, seen: seq<Delivery>)
    requires h.Lazily? || h.Caller? || (h.Filter? && h.pass)
    requires Reaches(eval, h.h, next, paths, seen) && AllGrown(eval, h.h, next, seen)
    requires Grown(eval, h, ctx, next) && Left(eval, h, 0, ctx, next)
    ensures Reaches(eval, h, ctx, Under(0, paths), seen)
  {
    hide DeliveredAt, InOrder, Grown, AllGrown, Left, Reached;
    UnderDelivered(eval, h, 0, ctx, next, paths, seen);
    UnderInOrder(0, paths);
    forall p | Reached(h, p)
      ensures p in Under(0, paths)
    {
      StartsAtChild(h, p);
      AllUnder(h, 0, paths, p);
    }
  }

  lemma NextChild(eval: Evaluator, h: Handler, i: nat, ctx: seq<Value>, next: seq<Value>, paths: seq<Path>,
                  seen: seq<Delivery>, more: seq<Path>, rest: seq<Delivery>)
    requires (h.Failover? || h.Multi?) && i < |h.hs| && Lets(h, i)
    requires Reaches(eval, h.hs[i], next, paths, seen) && AllGrown(eval, h.hs[i], next, seen)
    requires Grown(eval, h, ctx, next) && Left(eval, h, i, ctx, next) && ReachesFrom(eval, h, ctx, i + 1, more, rest)
    ensures ReachesFrom(eval, h, ctx, i, Under(i, paths) + more, seen + rest)
  {
    hide Reached, InOrder, Lets, DeliveredAt, Grown, AllGrown, Left;
    UnderDelivered(eval, h, i, ctx, next, paths, seen);
    InOrderAppended(i, paths, more);
    DeliveredInTwoParts(eval, h, ctx, Under(i, paths), seen, more, rest);
    var all := Under(i, paths) + more;
    forall p | Reached(h, p) && p != [] && p[0] >= i
      ensures p in all
    {
      if p[0] == i {
        AllUnder(h, i, paths, p);
      } else {
        assert p in more;
      }
    }
  }

  lemma NothingFrom(eval: Evaluator, h: Handler, ctx: seq<Value>, i: nat)
    requires h.Failover? || h.Multi?
    requires i >= |h.hs| || (h.Failover? && i > 0 && !Fails(h.hs[i - 1]))
    ensures ReachesFrom(eval, h, ctx, i, [], [])
  {
    forall p | Reached(h, p) && p != []
      ensures p[0] < i
    {
      ReachedFromChild(h, p);
    }
  }

  lemma PairedGrows(eval: Evaluator, h: Handler, ctx: seq<Value>, next: seq<Value>)
    requires Grown(eval, h, ctx, next)
    ensures Paired(next) && |ctx| <= |next|
  {
  }

  lemma MultiLeaves(eval: Evaluator, h: Handler, g: Handler, i: nat, ctx: seq<Value>, next: seq<Value>, after: seq<Value>)
    requires h.Multi? && Left(eval, h, i, ctx, next) && Grown(eval, g, next, after)
    ensures Left(eval, h, i + 1, ctx, after)
  {
  }

  lemma {:induction false} FailoverReaches(eval: Evaluator, h: Handler, i: nat, ctx: seq<Value>, next: seq<Value>, fails: bool)
    returns (paths: seq<Path>)
    requires h.Failover? && i <= |h.hs| && forall j :: 0 <= j < i ==> Fails(h.hs[j])
    requires Paired(ctx) && Grown(eval, h, ctx, next) && Left(eval, h, i, ctx, next)
    ensures ReachesFrom(eval, h, ctx, i, paths, RunFailover(eval, h, i, next, fails).seen)
    decreases h, 0, |h.hs| - i
  {
    hide ReachesFrom, Reaches, Fails, Grown, Left, AllGrown;
    if i == |h.hs| {
      paths := [];
      NothingFrom(eval, h, ctx, i);
    } else {
      PairedGrows(eval, h, ctx, next);
      var g, o := h.hs[i], Run(eval, h.hs[i], next);
      var first := SinksReached(eval, g, next);
      SinksSeePairs(eval, g, next);
      ErrorIsReturned(eval, g, next);
      PartsAreWithin(h, i);
      GrownTwice(eval, h, g, ctx, next, o.ctx);
      if o.fails {
        var later := o.ctx + [FailoverKey(i), Failure];
        FailoverGrows(eval, h, i, ctx, o.ctx);
        FailoverLeaves(eval, h, g, i, ctx, next, o.ctx);
        var more := FailoverReaches(eval, h, i + 1, ctx, later, true);
        paths := Under(i, first) + more;
        NextChild(eval, h, i, ctx, next, first, o.seen, more, RunFailover(eval, h, i + 1, later, true).seen);
      } else {
        paths := Under(i, first) + [];
        NothingFrom(eval, h, ctx, i + 1);
        NextChild(eval, h, i, ctx, next, first, o.seen, [], []);
        assert o.seen + [] == o.seen;
      }
    }
  }

  lemma AllFromFirst(eval: Evaluator, h: Handler, ctx: seq<Value>, paths: seq<Path>, seen: seq<Delivery>)
    requires (h.Failover? || h.Multi?) && ReachesFrom(eval, h, ctx, 0, paths, seen)
    ensures Reaches(eval, h, ctx, paths, seen)
  {
  }

  lemma {:induction false} ReachesThroughChild(eval: Evaluator, h: Handler, ctx: seq<Value>, next: seq<Value>)
    returns (paths: seq<Path>)
    requires h.Lazily? || h.Caller? || (h.Filter? && h.pass)
    requires Grown(eval, h, ctx, next) && Left(eval, h, 0, ctx, next)
    ensures Reaches(eval, h, ctx, paths, Run(eval, h.h, next).seen)
    decreases h, 0, 0
  {
    hide Reaches, Grown, Left, AllGrown, Run;
    PairedGrows(eval, h, ctx, next);
    SinksSeePairs(eval, h.h, next);
    var sub := SinksReached(eval, h.h, next);
    paths := Under(0, sub);
    OnlyChild(eval, h, ctx, next, sub, Run(eval, h.h, next).seen);
  }

  lemma OnlyItself(eval: Evaluator, h: Handler, ctx: seq<Value>) returns (paths: seq<Path>)
    requires h.Sink?
    ensures Reaches(eval, h, ctx, paths, [Delivery(h.name, ctx)])
  {
    var root: Path := [];
    paths := [root];
    assert Reached(h, root);
    forall p | Reached(h, p)
      ensures p in paths
    {
      if p != [] {
        ReachedFromChild(h, p);
      }
    }
  }

  lemma NothingPasses(eval: Evaluator, h: Handler, ctx: seq<Value>)
    requires h.Filter? && !h.pass
    ensures Reaches(eval, h, ctx, [], [])
  {
    forall p
      ensures !Reached(h, p)
    {
      if p != [] {
        ReachedFromChild(h, p);
      }
    }
  }

  /** A record is delivered to a sink, and then once, if and only if every filter above it
      lets it pass and at every failover above it all earlier children returned an error;
      the deliveries come in the order of the tree, and each finds what the handlers
      above it leave. */
  lemma {:induction false} SinksReached(eval: Evaluator, h: Handler, ctx: seq<Value>) returns (paths: seq<Path>)
    requires Paired(ctx)
    ensures Reaches(eval, h, ctx, paths, Run(eval, h, ctx).seen)
    decreases h, 1, 0
  {
    hide Reaches, ReachesFrom, Grown, Left, AllGrown;
    match h
    case Sink(_, _) => paths := OnlyItself(eval, h, ctx);
    case Lazily(g) =>
      LazilyLeaves(eval, h, ctx);
      paths := ReachesThroughChild(eval, h, ctx, LazyPass(eval, ctx));
    case Failover(hs) =>
      NothingLeft(eval, h, ctx);
      paths := FailoverReaches(eval, h, 0, ctx, ctx, false);
      AllFromFirst(eval, h, ctx, paths, Run(eval, h, ctx).seen);
    case Multi(hs) =>
      NothingLeft(eval, h, ctx);
      paths := MultiReaches(eval, h, 0, ctx, ctx);
      AllFromFirst(eval, h, ctx, paths, Run(eval, h, ctx).seen);
    case Caller(key, info, g) =>
      CallerLeaves(eval, h, ctx);
      paths := ReachesThroughChild(eval, h, ctx, ctx + (if info.Some? then [Str(key), Str(info.value)] else []));
    case Filter(pass, g) =>
      if pass {
        NothingLeft(eval, h, ctx);
        paths := ReachesThroughChild(eval, h, ctx, ctx);
      } else {
        paths := [];
        NothingPasses(eval, h, ctx);
      }
  }

  lemma {:induction false} MultiReaches(eval: Evaluator, h: Handler, i: nat, ctx: seq<Value>, next: seq<Value>)
    returns (paths: seq<Path>)
    requires h.Multi? && i <= |h.hs| && Paired(ctx) && Grown(eval, h, ctx, next) && Left(eval, h, i, ctx, next)
    ensures ReachesFrom(eval, h, ctx, i, paths, RunMulti(eval, h, i, next).seen)
    decreases h, 0, |h.hs| - i
  {
    hide ReachesFrom, Reaches, Grown, Left, AllGrown;
    if i == |h.hs| {
      paths := [];
      NothingFrom(eval, h, ctx, i);
    } else {
      PairedGrows(eval, h, ctx, next);
      var g, o := h.hs[i], Run(eval, h.hs[i], next);
      var first := SinksReached(eval, g, next);
      SinksSeePairs(eval, g, next);
      PartsAreWithin(h, i);
      GrownTwice(eval, h, g, ctx, next, o.ctx);
      MultiLeaves(eval, h, g, i, ctx, next, o.ctx);
      var more := MultiReaches(eval, h, i + 1, ctx, o.ctx);
      paths := Under(i, first) + more;
      NextChild(eval, h, i, ctx, next, first, o.seen, more, RunMulti(eval, h, i + 1, o.ctx).seen);
    }
  }

  // ---------- one record for all ----------

  /** Every delivery finds what the deliveries before it found, and the record ends up with
      what any of them found. */
  ghost predicate GrowsAlong(eval: Evaluator, h: Handler, seen: seq<Delivery>, end: seq<Value>) {
    && (forall k :: 0 <= k < |seen| ==> Grown(eval, h, seen[k].ctx, end) && Paired(seen[k].ctx))
    && forall j, k :: 0 <= j < k < |seen| ==> Grown(eval, h, seen[j].ctx, seen[k].ctx)
  }

  lemma WiderGrown(eval: Evaluator, h: Handler, g: Handler, a: seq<Value>, b: seq<Value>)
    requires Grown(eval, g, a, b) && Within(g, h)
    ensures Grown(eval, h, a, b)
  {
  }

  lemma WiderAlong(eval: Evaluator, h: Handler, g: Handler, seen: seq<Delivery>, end: seq<Value>)
    requires GrowsAlong(eval, g, seen, end) && Within(g, h)
    ensures GrowsAlong(eval, h, seen, end)
  {
    hide Grown, Within;
    forall k | 0 <= k < |seen|
      ensures Grown(eval, h, seen[k].ctx, end)
    {
      WiderGrown(eval, h, g, seen[k].ctx, end);
    }
    forall j, k | 0 <= j < k < |seen|
      ensures Grown(eval, h, seen[j].ctx, seen[k].ctx)
    {
      WiderGrown(eval, h, g, seen[j].ctx, seen[k].ctx);
    }
  }

  lemma GrownWithin(eval: Evaluator, h: Handler, a: seq<Value>, b: seq<Value>, c: seq<Value>)
    requires Paired(a) && Grown(eval, h, a, b) && Grown(eval, h, b, c)
    ensures Grown(eval, h, a, c)
  {
    assert Within(h, h);
    GrownTwice(eval, h, h, a, b, c);
  }

  /** Deliveries that grow to mid, and others that all grow from it. */
  lemma AlongInTwoParts(eval: Evaluator, h: Handler, seen: seq<Delivery>, mid: seq<Value>, rest: seq<Delivery>, end: seq<Value>)
    requires GrowsAlong(eval, h, seen, mid) && GrowsAlong(eval, h, rest, end)
    requires AllGrown(eval, h, mid, rest) && Grown(eval, h, mid, end)
    ensures GrowsAlong(eval, h, seen + rest, end)
  {
    hide Grown;
    var all := seen + rest;
    forall k | 0 <= k < |all|
      ensures Grown(eval, h, all[k].ctx, end) && Paired(all[k].ctx)
    {
      if k < |seen| {
        assert Grown(eval, h, seen[k].ctx, mid) && Paired(seen[k].ctx);
        GrownWithin(eval, h, seen[k].ctx, mid, end);
      } else {
        assert Grown(eval, h, rest[k - |seen|].ctx, end);
      }
    }
    forall j, k | 0 <= j < k < |all|
      ensures Grown(eval, h, all[j].ctx, all[k].ctx)
    {
      if j < |seen| <= k {
        assert Grown(eval, h, seen[j].ctx, mid) && Grown(eval, h, mid, rest[k - |seen|].ctx);
        GrownWithin(eval, h, seen[j].ctx, mid, rest[k - |seen|].ctx);
      } else if k < |seen| {
        assert Grown(eval, h, seen[j].ctx, seen[k].ctx);
      } else {
        assert Grown(eval, h, rest[j - |seen|].ctx, rest[k - |seen|].ctx);
      }
    }
  }

  lemma NoneAlong(eval: Evaluator, h: Handler, ctx: seq<Value>)
    ensures GrowsAlong(eval, h, [], ctx)
  {
  }

  lemma {:induction false} MultiAlong(eval: Evaluator, h: Handler, i: nat, ctx: seq<Value>)
    requires h.Multi? && i <= |h.hs| && Paired(ctx)
    ensures GrowsAlong(eval, h, RunMulti(eval, h, i, ctx).seen, RunMulti(eval, h, i, ctx).ctx)
    decreases h, 0, |h.hs| - i
  {
    hide GrowsAlong, Within, AllGrown, Grown, Adds;
    if i == |h.hs| {
      NoneAlong(eval, h, ctx);
    } else {
      var o := Run(eval, h.hs[i], ctx);
      ContextsGrow(eval, h.hs[i], ctx);
      SinksSeePairs(eval, h.hs[i], ctx);
      PartsAreWithin(h, i);
      WiderAlong(eval, h, h.hs[i], o.seen, o.ctx);
      PairedGrows(eval, h.hs[i], ctx, o.ctx);
      NothingLeft(eval, h, o.ctx);
      MultiAlong(eval, h, i + 1, o.ctx);
      MultiSeesPairs(eval, h, i + 1, o.ctx, o.ctx);
      AlongInTwoParts(eval, h, o.seen, o.ctx, RunMulti(eval, h, i + 1, o.ctx).seen, RunMulti(eval, h, i + 1, o.ctx).ctx);
    }
  }

  lemma OneAlong(eval: Evaluator, h: Handler, ctx: seq<Value>)
    requires h.Sink? && Paired(ctx)
    ensures GrowsAlong(eval, h, [Delivery(h.name, ctx)], ctx)
  {
  }

  lemma ChildIsWithin(h: Handler)
    requires h.Lazily? || h.Caller? || h.Filter?
    ensures Within(h.h, h)
  {
  }

  /** All handlers work on one record: a sink that is reached later finds what earlier
      ones found, and what was added in between. */
  lemma {:induction false} ContextsGrow(eval: Evaluator, h: Handler, ctx: seq<Value>)
    requires Paired(ctx)
    ensures GrowsAlong(eval, h, Run(eval, h, ctx).seen, Run(eval, h, ctx).ctx)
    decreases h, 1, 0
  {
    hide GrowsAlong, Within, Grown, Adds;
    match h
    case Sink(_, _) => OneAlong(eval, h, ctx);
    case Lazily(g) =>
      LazyPassGrows(eval, g, ctx);
      PairedGrows(eval, h, ctx, LazyPass(eval, ctx));
      ContextsGrow(eval, g, LazyPass(eval, ctx));
      ChildIsWithin(h);
      WiderAlong(eval, h, g, Run(eval, h, ctx).seen, Run(eval, h, ctx).ctx);
    case Failover(hs) => FailoverAlong(eval, h, 0, ctx, false);
    case Multi(hs) => MultiAlong(eval, h, 0, ctx);
    case Caller(key, info, g) =>
      ContextsGrow(eval, g, ctx + (if info.Some? then [Str(key), Str(info.value)] else []));
      ChildIsWithin(h);
      WiderAlong(eval, h, g, Run(eval, h, ctx).seen, Run(eval, h, ctx).ctx);
    case Filter(pass, g) =>
      if pass {
        ContextsGrow(eval, g, ctx);
        ChildIsWithin(h);
        WiderAlong(eval, h, g, Run(eval, h, ctx).seen, Run(eval, h, ctx).ctx);
      } else {
        NoneAlong(eval, h, ctx);
      }
  }

  lemma {:induction false} FailoverAlong(eval: Evaluator, h: Handler, i: nat, ctx: seq<Value>, fails: bool)
    requires h.Failover? && i <= |h.hs| && Paired(ctx)
    ensures GrowsAlong(eval, h, RunFailover(eval, h, i, ctx, fails).seen, RunFailover(eval, h, i, ctx, fails).ctx)
    decreases h, 0, |h.hs| - i
  {
    hide GrowsAlong, Within, AllGrown, Grown, Adds;
    if i == |h.hs| {
      NoneAlong(eval, h, ctx);
    } else {
      var o := Run(eval, h.hs[i], ctx);
      ContextsGrow(eval, h.hs[i], ctx);
      SinksSeePairs(eval, h.hs[i], ctx);
      PartsAreWithin(h, i);
      WiderAlong(eval, h, h.hs[i], o.seen, o.ctx);
      if o.fails {
        var later := o.ctx + [FailoverKey(i), Failure];
        PairedGrows(eval, h.hs[i], ctx, o.ctx);
        NothingLeft(eval, h, o.ctx);
        FailoverGrows(eval, h, i, o.ctx, o.ctx);
        PairedGrows(eval, h, o.ctx, later);
        FailoverAlong(eval, h, i + 1, later, true);
        FailoverSeesPairs(eval, h, i + 1, o.ctx, later, true);
        AlongInTwoParts(eval, h, o.seen, o.ctx, RunFailover(eval, h, i + 1, later, true).seen,
                        RunFailover(eval, h, i + 1, later, true).ctx);
      }
    }
  }
}
