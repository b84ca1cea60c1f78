/** log/logger.go and log/handler.go: how a record's context is built and what the
    handlers do to it on the way to the places that format it. */
module LogContext {
  import opened Wrappers
  import opened Text

  /** Ctx lists its pairs in whatever order the map was iterated. */
  datatype Value = Nil | Str(text: string) | Failure | LazyFn(id: nat) | Ctx(pairs: seq<(string, Value)>) | Other(id: nat)

  const ERROR_KEY := Str("LOG15_ERROR")
  const ODD_ARGUMENTS := Str("Normalized odd number of arguments by adding nil")
  const BAD_LAZY := Str("bad lazy")

  predicate Paired(ctx: seq<Value>) {
    |ctx| % 2 == 0
  }

  // ---------- building a context ----------

  function ToArray(pairs: seq<(string, Value)>): (r: seq<Value>)
    ensures Paired(r)
  {
    if pairs == [] then [] else ToArray(pairs[..|pairs| - 1]) + [Str(pairs[|pairs| - 1].0), pairs[|pairs| - 1].1]
  }

  lemma {:induction false} ToArrayPairs(pairs: seq<(string, Value)>, k: nat)
    requires k < |pairs|
    ensures |ToArray(pairs)| == 2 * |pairs|
    ensures ToArray(pairs)[2 * k] == Str(pairs[k].0) && ToArray(pairs)[2 * k + 1] == pairs[k].1
  {
    var n := |pairs| - 1;
    if n > 0 {
      ToArrayPairs(pairs[..n], if k < n then k else 0);
    }
  }

  /** A lone Ctx stands for its pairs. */
  function Expand(args: seq<Value>): seq<Value> {
    if |args| == 1 && args[0].Ctx? then ToArray(args[0].pairs) else args
  }

  function Normalize(args: seq<Value>): (r: seq<Value>)
    ensures Paired(r)
  {
    var ctx := Expand(args);
    if |ctx| % 2 != 0 then ctx + [Nil, ERROR_KEY, ODD_ARGUMENTS] else ctx
  }

  /** A lone Ctx gives its pairs, an even list stays, an odd one is completed. */
  lemma NormalizeCases(args: seq<Value>)
    ensures |args| == 1 && args[0].Ctx? ==> Normalize(args) == ToArray(args[0].pairs)
    ensures |args| % 2 == 0 ==> Normalize(args) == args
    ensures |args| % 2 == 1 && !(|args| == 1 && args[0].Ctx?) ==>
              Normalize(args)
              == args + [Nil, Str("LOG15_ERROR"), Str("Normalized odd number of arguments by adding nil")]
  {
    hide ToArray;
  }

  lemma PairedAppend(a: seq<Value>, b: seq<Value>)
    requires Paired(a) && Paired(b)
    ensures Paired(a + b)
  {
  }

  /** What a logger holds after these calls of New, one after the other. */
  function Chain(calls: seq<seq<Value>>): (r: seq<Value>)
    ensures Paired(r)
  {
    if calls == [] then []
    else
      PairedAppend(Chain(calls[..|calls| - 1]), Normalize(calls[|calls| - 1]));
      Chain(calls[..|calls| - 1]) + Normalize(calls[|calls| - 1])
  }

  /** A Go slice: the first len elements of its backing array, whose length is the
      capacity. */
  datatype Slice = Slice(base: array<Value>, len: nat)
  {
    predicate Valid() {
      len <= base.Length
    }

    function Elems(): seq<Value>
      requires Valid()
      reads base
    {
      base[..len]
    }
  }

  /** Go's append: in place while the capacity suffices, else into a new array. */
  method Append(s: Slice, more: seq<Value>) returns (r: Slice)
    requires s.Valid()
    modifies s.base
    ensures r.Valid() && r.Elems() == old(s.Elems()) + more
    ensures if s.len + |more| <= s.base.Length then
              r.base == s.base && s.base[..] == old(s.Elems()) + more + old(s.base[s.len + |more|..])
            else fresh(r.base) && s.base[..] == old(s.base[..])
  {
    ghost var was := s.base[..];
    var n := s.len + |more|;
    if n <= s.base.Length {
      for i := 0 to |more|
        invariant forall j :: 0 <= j < s.base.Length ==>
                    s.base[j] == if s.len <= j < s.len + i then more[j - s.len] else was[j]
      {
        s.base[s.len + i] := more[i];
      }
      r := Slice(s.base, n);
      assert s.base[..] == was[..s.len] + more + was[n..];
      assert r.Elems() == was[..s.len] + more;
    } else {
      var all := s.base[..s.len] + more;
      var base := new Value[n](i requires 0 <= i < |all| => all[i]);
      r := Slice(base, n);
      assert r.Elems() == all;
    }
  }

  /** An odd number of arguments is completed in the caller's own array when that has
      room for three more. */
  predicate Spills(args: Slice)
    requires args.Valid()
    reads args.base
  {
    |args.Elems()| % 2 != 0 && !(args.len == 1 && args.base[0].Ctx?) && args.len + 3 <= args.base.Length
  }

  /** What a call leaves in its caller's array: everything, but for the three spare
      elements that an odd argument list is completed with. */
  twostate predicate OnlySpills(args: Slice)
    requires args.Valid()
    reads args.base
  {
    args.base[..] == if old(Spills(args)) then
                       old(args.Elems()) + [Nil, Str("LOG15_ERROR"), Str("Normalized odd number of arguments by adding nil")]
                       + old(args.base[args.len + 3..])
                     else old(args.base[..])
  }

  /** Ctx.toArray. */
  method Expanded(pairs: seq<(string, Value)>) returns (r: Slice)
    ensures fresh(r.base) && r.Valid() && r.Elems() == ToArray(pairs) && r.len % 2 == 0
  {
    var elems := ToArray(pairs);
    var base := new Value[|elems|](i requires 0 <= i < |elems| => elems[i]);
    r := Slice(base, |elems|);
    assert r.Elems() == elems;
  }

  method Normalized(args: Slice) returns (r: Slice)
    requires args.Valid()
    modifies args.base
    ensures r.Valid() && r.Elems() == Normalize(old(args.Elems()))
    ensures r.base == args.base || fresh(r.base)
    ensures OnlySpills(args)
  {
    ghost var was := args.Elems();
    hide ToArray;
    r := args;
    if args.len == 1 && args.base[0].Ctx? {
      r := Expanded(args.base[0].pairs);
      assert was == [args.base[0]];
    }
    assert r.Elems() == Expand(was);
    hide Expand;
    if r.len % 2 != 0 {
      r := Append(r, [Nil, ERROR_KEY, ODD_ARGUMENTS]);
    }
  }

  method NewContext(prefix: array<Value>, suffix: Slice) returns (r: array<Value>)
    requires suffix.Valid() && prefix != suffix.base
    modifies suffix.base
    ensures fresh(r) && r[..] == prefix[..] + Normalize(old(suffix.Elems()))
    ensures OnlySpills(suffix)
  {
    hide Normalize;
    var normalized := Normalized(suffix);
    var n := prefix.Length;
    r := new Value[n + normalized.len](_ => Nil);
    for i := 0 to n
      modifies r
      invariant forall j :: 0 <= j < i ==> r[j] == prefix[j]
    {
      r[i] := prefix[i];
    }
    for i := 0 to normalized.len
      modifies r
      invariant forall j :: 0 <= j < n ==> r[j] == prefix[j]
      invariant forall j :: 0 <= j < i ==> r[n + j] == normalized.base[j]
    {
      r[n + i] := normalized.base[i];
    }
    assert r[..] == prefix[..] + normalized.Elems();
  }

  // ---------- handlers ----------

  /** A tree of handlers, with what the world decides for one record: whether a sink
      fails, whether a filter lets the record pass, what a caller handler adds. A sink's
      name tells it from others. */
  datatype Handler =
    | Sink(name: nat, fails: bool)
    | Lazily(h: Handler)
    | Failover(hs: seq<Handler>)
    | Multi(hs: seq<Handler>)
    | Caller(key: string, info: Option<string>, h: Handler)
    | Filter(pass: bool, h: Handler)

  /** A context that one sink formatted. */
  datatype Delivery = Delivery(sink: nat, ctx: seq<Value>)

  /** The context afterwards, the error returned, and what the sinks formatted, in order. */
  datatype Outcome = Outcome(ctx: seq<Value>, fails: bool, seen: seq<Delivery>)

  type Evaluator = (nat, nat) -> Option<Value>

  /** One value of the pass over the context; odd positions hold values. */
  function Evaluated(eval: Evaluator, i: nat, v: Value): Value {
    if i % 2 == 1 && v.LazyFn? then
      var r := eval(v.id, i);
      if r.None? then Failure else r.value
    else v
  }

  predicate Bad(eval: Evaluator, i: nat, v: Value) {
    i % 2 == 1 && v.LazyFn? && eval(v.id, i).None?
  }

  function EvaluateAll(eval: Evaluator, ctx: seq<Value>): (r: seq<Value>)
    ensures |r| == |ctx|
  {
    seq(|ctx|, i requires 0 <= i < |ctx| => Evaluated(eval, i, ctx[i]))
  }

  function LazyPass(eval: Evaluator, ctx: seq<Value>): seq<Value> {
    EvaluateAll(eval, ctx)
    + (if exists i :: 0 <= i < |ctx| && Bad(eval, i, ctx[i]) then [ERROR_KEY, BAD_LAZY] else [])
  }

  function FailoverKey(i: nat): Value {
    Str("failover_err_" + Itoa(i))
  }

  function RunMulti(eval: Evaluator, h: Handler, i: nat, ctx: seq<Value>): Outcome
    requires h.Multi? && i <= |h.hs|
    decreases h, 0, |h.hs| - i
  {
    if i == |h.hs| then Outcome(ctx, false, [])
    else
      var o := Run(eval, h.hs[i], ctx);
      var rest := RunMulti(eval, h, i + 1, o.ctx);
      Outcome(rest.ctx, false, o.seen + rest.seen)
  }

  function Run(eval: Evaluator, h: Handler, ctx: seq<Value>): Outcome
    decreases h, 1, 0
  {
    match h
    case Sink(name, fails) => Outcome(ctx, fails, [Delivery(name, ctx)])
    case Lazily(g) => Run(eval, g, LazyPass(eval, ctx))
    case Failover(_) => RunFailover(eval, h, 0, ctx, false)
    case Multi(_) => RunMulti(eval, h, 0, ctx)
    case Caller(key, info, g) => Run(eval, g, ctx + (if info.Some? then [Str(key), Str(info.value)] else []))
    case Filter(pass, g) => if pass then Run(eval, g, ctx) else Outcome(ctx, false, [])
  }

  /** From handler i on; fails is whether the handler before failed. */
  function RunFailover(eval: Evaluator, h: Handler, i: nat, ctx: seq<Value>, fails: bool): Outcome
    requires h.Failover? && i <= |h.hs|
    decreases h, 0, |h.hs| - i
  {
    if i == |h.hs| then Outcome(ctx, fails, [])
    else
      var o := Run(eval, h.hs[i], ctx);
      if !o.fails then o
      else
        var rest := RunFailover(eval, h, i + 1, o.ctx + [FailoverKey(i), Failure], true);
        Outcome(rest.ctx, rest.fails, o.seen + rest.seen)
  }

  class Record {
    var ctx: array<Value>

    constructor (ctx: array<Value>)
      ensures this.ctx == ctx
    {
      this.ctx := ctx;
    }

    method Append(key: Value, value: Value)
      modifies this`ctx
      ensures fresh(ctx) && ctx[..] == old(ctx[..]) + [key, value]
    {
      var n := ctx.Length;
      var was := ctx[..];
      var all := was + [key, value];
      ctx := new Value[n + 2](i requires 0 <= i < |all| => all[i]);
      assert ctx[..] == all;
    }

    /** The loop of the lazy handler, rewriting values in place. */
    method EvaluateLazies(eval: Evaluator)
      modifies this`ctx, ctx
      ensures ctx == old(ctx) || fresh(ctx)
      ensures ctx[..] == LazyPass(eval, old(ctx[..]))
      ensures var was := old(ctx[..]);
              && ctx.Length >= |was|
              && (forall j :: 0 <= j < |was| && (j % 2 == 0 || !was[j].LazyFn?) ==> ctx[j] == was[j])
              && (forall j :: 0 <= j < |was| && j % 2 == 1 && was[j].LazyFn? ==>
                    ctx[j] == if eval(was[j].id, j).None? then Failure else eval(was[j].id, j).value)
              && (ctx[|was|..] == if exists j :: 0 <= j < |was| && j % 2 == 1 && was[j].LazyFn? && eval(was[j].id, j).None?
                                  then [Str("LOG15_ERROR"), Str("bad lazy")] else [])
    {
      ghost var was := ctx[..];
      var hadErr := false;
      var i := 1;
      while i < ctx.Length
        invariant ctx == old(ctx) && i % 2 == 1 && |was| == ctx.Length
        invariant forall j :: 0 <= j < ctx.Length ==>
                    ctx[j] == if j < i then Evaluated(eval, j, was[j]) else was[j]
        invariant hadErr <==> exists j :: 0 <= j < ctx.Length && j < i && Bad(eval, j, was[j])
      {
        if ctx[i].LazyFn? {
          var r := eval(ctx[i].id, i);
          if r.None? {
            assert Bad(eval, i, was[i]);
            hadErr := true;
            ctx[i] := Failure;
          } else {
            ctx[i] := r.value;
          }
        }
        i := i + 2;
      }
      assert ctx[..] == EvaluateAll(eval, was);
      if hadErr {
        Append(ERROR_KEY, BAD_LAZY);
      }
    }

    method Log(eval: Evaluator, h: Handler) returns (fails: bool, seen: seq<Delivery>)
      modifies this`ctx, ctx
      ensures ctx == old(ctx) || fresh(ctx)
      ensures Outcome(ctx[..], fails, seen) == Run(eval, h, old(ctx[..]))
      decreases h
    {
      match h
      case Sink(name, sinkFails) =>
        fails, seen := sinkFails, [Delivery(name, ctx[..])];
      case Lazily(g) =>
        EvaluateLazies(eval);
        fails, seen := Log(eval, g);
      case Caller(key, info, g) =>
        if info.Some? {
          Append(Str(key), Str(info.value));
        }
        assert ctx[..] == old(ctx[..]) + (if info.Some? then [Str(key), Str(info.value)] else []);
        fails, seen := Log(eval, g);
      case Filter(pass, g) =>
        if pass {
          fails, seen := Log(eval, g);
        } else {
          fails, seen := false, [];
        }
      case Failover(hs) =>
        fails, seen := LogFailover(eval, h);
      case Multi(hs) =>
        fails, seen := LogMulti(eval, h);
    }

    method LogMulti(eval: Evaluator, h: Handler) returns (fails: bool, seen: seq<Delivery>)
      requires h.Multi?
      modifies this`ctx, ctx
      ensures ctx == old(ctx) || fresh(ctx)
      ensures Outcome(ctx[..], fails, seen) == Run(eval, h, old(ctx[..]))
      decreases h, 0
    {
      fails, seen := false, [];
      for i := 0 to |h.hs|
        invariant ctx == old(ctx) || fresh(ctx)
        invariant Run(eval, h, old(ctx[..]))
               == Outcome(RunMulti(eval, h, i, ctx[..]).ctx, false, seen + RunMulti(eval, h, i, ctx[..]).seen)
      {
        ghost var rest := RunMulti(eval, h, i, ctx[..]).seen;
        var failed, more := Log(eval, h.hs[i]);
        assert (seen + more) + RunMulti(eval, h, i + 1, ctx[..]).seen == seen + rest;
        seen := seen + more;
      }
    }

    method LogFailover(eval: Evaluator, h: Handler) returns (fails: bool, seen: seq<Delivery>)
      requires h.Failover?
      modifies this`ctx, ctx
      ensures ctx == old(ctx) || fresh(ctx)
      ensures Outcome(ctx[..], fails, seen) == Run(eval, h, old(ctx[..]))
      decreases h, 0
    {
      fails, seen := false, [];
      for i := 0 to |h.hs|
        invariant ctx == old(ctx) || fresh(ctx)
        invariant Run(eval, h, old(ctx[..]))
               == Outcome(RunFailover(eval, h, i, ctx[..], fails).ctx, RunFailover(eval, h, i, ctx[..], fails).fails,
                          seen + RunFailover(eval, h, i, ctx[..], fails).seen)
      {
        ghost var rest := RunFailover(eval, h, i, ctx[..], fails).seen;
        var failed, more := Log(eval, h.hs[i]);
        if !failed {
          return false, seen + more;
        }
        Append(FailoverKey(i), Failure);
        fails := true;
        assert (seen + more) + RunFailover(eval, h, i + 1, ctx[..], fails).seen == seen + rest;
        seen := seen + more;
      }
    }
  }

  class Logger {
    const ctx: array<Value>
    ghost const calls: seq<seq<Value>>

    ghost predicate Valid()
      reads ctx
    {
      ctx[..] == Chain(calls)
    }

    constructor Root()
      ensures Valid() && calls == [] && fresh(ctx)
    {
      ctx := new Value[0];
      calls := [];
    }

    constructor (ctx: array<Value>, ghost calls: seq<seq<Value>>)
      ensures this.ctx == ctx && this.calls == calls
    {
      this.ctx := ctx;
      this.calls := calls;
    }

    /** Nobody outside holds a logger's array, so arguments never lie in it. */
    method New(args: Slice) returns (child: Logger)
      requires Valid() && args.Valid() && args.base != ctx
      modifies args.base
      ensures fresh(child) && fresh(child.ctx) && child.Valid() && child.calls == calls + [old(args.Elems())]
      ensures child.ctx[..] == ctx[..] + Normalize(old(args.Elems()))
      ensures ctx[..] == old(ctx[..]) && OnlySpills(args)
    {
      ghost var elems := args.Elems();
      var childCtx := NewContext(ctx, args);
      child := new Logger(childCtx, calls + [elems]);
      assert (calls + [elems])[..|calls|] == calls;
    }

    /** Whatever the handlers rewrite is the record's own array: of all that existed
        before the call, only spare elements of the caller's array can change. */
    method Write(args: Slice, eval: Evaluator, h: Handler) returns (fails: bool, seen: seq<Delivery>)
      requires Valid() && args.Valid() && args.base != ctx
      modifies args.base
      ensures ctx[..] == old(ctx[..]) && OnlySpills(args)
      ensures var o := Run(eval, h, Chain(calls + [old(args.Elems())])); fails == o.fails && seen == o.seen
    {
      ghost var elems := args.Elems();
      var recordCtx := NewContext(ctx, args);
      var r := new Record(recordCtx);
      assert (calls + [elems])[..|calls|] == calls;
      fails, seen := r.Log(eval, h);
    }
  }

  // ---------- what the sinks see ----------

  /** A pair that some handler of the tree adds to records. */
  predicate Adds(h: Handler, key: Value, value: Value) {
    match h
    case Sink(_, _) => false
    case Lazily(g) => (key == Str("LOG15_ERROR") && value == Str("bad lazy")) || Adds(g, key, value)
    case Failover(hs) =>
      exists i :: 0 <= i < |hs| &&
                  ((key == Str("failover_err_" + Itoa(i)) && value == Failure) || Adds(hs[i], key, value))
    case Multi(hs) => exists i :: 0 <= i < |hs| && Adds(hs[i], key, value)
    case Caller(k, info, g) => (info.Some? && key == Str(k) && value == Str(info.value)) || Adds(g, key, value)
    case Filter(_, g) => Adds(g, key, value)
  }

  /** Lazy functions do not return lazy values again. */
  ghost predicate Plainly(eval: Evaluator) {
    forall id, i :: eval(id, i).Some? ==> !eval(id, i).value.LazyFn?
  }

  /** The value that stands at position i afterwards: the same, or what a lazy one yields. */
  ghost predicate Kept(eval: Evaluator, i: nat, before: Value, after: Value) {
    after == before || (i % 2 == 1 && before.LazyFn? && (Plainly(eval) ==> after == Evaluated(eval, i, before)))
  }

  /** b is a with lazy values replaced and pairs of the handlers added. */
  ghost predicate Grown(eval: Evaluator, h: Handler, a: seq<Value>, b: seq<Value>) {
    && Paired(b) && |a| <= |b|
    && (forall i :: 0 <= i < |a| ==> Kept(eval, i, a[i], b[i]))
    && (forall i :: |a| <= i < |b| && i % 2 == 0 ==> Adds(h, b[i], b[i + 1]))
  }

  ghost predicate AllGrown(eval: Evaluator, h: Handler, ctx: seq<Value>, seen: seq<Delivery>) {
    forall k :: 0 <= k < |seen| ==> Grown(eval, h, ctx, seen[k].ctx)
  }

  /** Whatever g adds, h adds. */
  ghost predicate Within(g: Handler, h: Handler) {
    forall key, value :: Adds(g, key, value) ==> Adds(h, key, value)
  }

  lemma KeptTwice(eval: Evaluator, i: nat, a: Value, b: Value, c: Value)
    requires Kept(eval, i, a, b) && Kept(eval, i, b, c)
    ensures Kept(eval, i, a, c)
  {
  }

  lemma {:induction false} AddedAreText(h: Handler, key: Value, value: Value)
    requires Adds(h, key, value)
    ensures key.Str? && !value.LazyFn?
    decreases h
  {
    match h
    case Sink(_, _) =>
    case Lazily(g) => if Adds(g, key, value) { AddedAreText(g, key, value); }
    case Failover(hs) =>
      var i :| 0 <= i < |hs|
               && ((key == Str("failover_err_" + Itoa(i)) && value == Failure) || Adds(hs[i], key, value));
      if Adds(hs[i], key, value) { AddedAreText(hs[i], key, value); }
    case Multi(hs) =>
      var i :| 0 <= i < |hs| && Adds(hs[i], key, value);
      AddedAreText(hs[i], key, value);
    case Caller(_, _, g) => if Adds(g, key, value) { AddedAreText(g, key, value); }
    case Filter(_, g) => AddedAreText(g, key, value);
  }

  /** A pair that a handler added is not evaluated any more. */
  lemma AddedStays(eval: Evaluator, h: Handler, b: seq<Value>, c: seq<Value>, i: nat)
    requires i + 1 < |b| <= |c| && i % 2 == 0 && Adds(h, b[i], b[i + 1])
    requires Kept(eval, i, b[i], c[i]) && Kept(eval, i + 1, b[i + 1], c[i + 1])
    ensures c[i] == b[i] && c[i + 1] == b[i + 1]
  {
    AddedAreText(h, b[i], b[i + 1]);
  }

  lemma GrownTwice(eval: Evaluator, h: Handler, g: Handler, a: seq<Value>, b: seq<Value>, c: seq<Value>)
    requires Paired(a) && Grown(eval, h, a, b) && Grown(eval, g, b, c) && Within(g, h)
    ensures Grown(eval, h, a, c)
  {
    hide Adds, Kept;
    forall i | 0 <= i < |a|
      ensures Kept(eval, i, a[i], c[i])
    {
      KeptTwice(eval, i, a[i], b[i], c[i]);
    }
    forall i | |a| <= i < |c| && i % 2 == 0
      ensures Adds(h, c[i], c[i + 1])
    {
      if i < |b| {
        AddedStays(eval, h, b, c, i);
      }
    }
  }

  lemma AllGrownTwice(eval: Evaluator, h: Handler, g: Handler, a: seq<Value>, b: seq<Value>, seen: seq<Delivery>)
    requires Paired(a) && Grown(eval, h, a, b) && AllGrown(eval, g, b, seen) && Within(g, h)
    ensures AllGrown(eval, h, a, seen)
  {
    hide Grown, Within;
    forall k | 0 <= k < |seen|
      ensures Grown(eval, h, a, seen[k].ctx)
    {
      GrownTwice(eval, h, g, a, b, seen[k].ctx);
    }
  }

  lemma LazyPassGrows(eval: Evaluator, g: Handler, ctx: seq<Value>)
    requires Paired(ctx)
    ensures Grown(eval, Lazily(g), ctx, LazyPass(eval, ctx))
  {
  }

  lemma CallerGrows(eval: Evaluator, key: string, info: Option<string>, g: Handler, ctx: seq<Value>)
    requires Paired(ctx)
    ensures Grown(eval, Caller(key, info, g), ctx, ctx + (if info.Some? then [Str(key), Str(info.value)] else []))
  {
  }

  lemma FailoverGrows(eval: Evaluator, h: Handler, i: nat, ctx: seq<Value>, next: seq<Value>)
    requires h.Failover? && i < |h.hs| && Paired(ctx) && Grown(eval, h, ctx, next)
    ensures Grown(eval, h, ctx, next + [FailoverKey(i), Failure])
  {
    assert Adds(h, FailoverKey(i), Failure);
    hide Adds, FailoverKey, Kept;
  }

  lemma PartsAreWithin(h: Handler, i: nat)
    requires (h.Failover? || h.Multi?) && i < |h.hs|
    ensures Within(h.hs[i], h)
  {
  }

  lemma {:induction false} FailoverSeesPairs(eval: Evaluator, h: Handler, i: nat, ctx: seq<Value>, next: seq<Value>, fails: bool)
    requires h.Failover? && i <= |h.hs| && Paired(ctx) && Grown(eval, h, ctx, next)
    ensures Grown(eval, h, ctx, RunFailover(eval, h, i, next, fails).ctx)
    ensures AllGrown(eval, h, ctx, RunFailover(eval, h, i, next, fails).seen)
    decreases h, 0, |h.hs| - i
  {
    hide Grown, Within;
    if i < |h.hs| {
      PartsAreWithin(h, i);
      SinksSeePairsAfter(eval, h, h.hs[i], ctx, next);
      var o := Run(eval, h.hs[i], next);
      FailoverGrows(eval, h, i, ctx, o.ctx);
      FailoverSeesPairs(eval, h, i + 1, ctx, o.ctx + [FailoverKey(i), Failure], true);
    }
  }

  lemma {:induction false} MultiSeesPairs(eval: Evaluator, h: Handler, i: nat, ctx: seq<Value>, next: seq<Value>)
    requires h.Multi? && i <= |h.hs| && Paired(ctx) && Grown(eval, h, ctx, next)
    ensures Grown(eval, h, ctx, RunMulti(eval, h, i, next).ctx) && AllGrown(eval, h, ctx, RunMulti(eval, h, i, next).seen)
    decreases h, 0, |h.hs| - i
  {
    hide Grown, Within;
    if i < |h.hs| {
      PartsAreWithin(h, i);
      SinksSeePairsAfter(eval, h, h.hs[i], ctx, next);
      MultiSeesPairs(eval, h, i + 1, ctx, Run(eval, h.hs[i], next).ctx);
    }
  }

  /** Through any tree of handlers a paired context stays paired, keeps its keys and its
      values except lazy ones, and gains only pairs under keys the handlers add; so
      formatting may read it pair by pair. */
  lemma {:induction false} SinksSeePairs(eval: Evaluator, h: Handler, ctx: seq<Value>)
    requires Paired(ctx)
    ensures Grown(eval, h, ctx, Run(eval, h, ctx).ctx) && AllGrown(eval, h, ctx, Run(eval, h, ctx).seen)
    decreases h, 1, 0
  {
    match h
    case Sink(_, _) =>
    case Lazily(g) =>
      LazyPassGrows(eval, g, ctx);
      SinksSeePairsAfter(eval, h, g, ctx, LazyPass(eval, ctx));
    case Failover(hs) =>
      hide Adds;
      FailoverSeesPairs(eval, h, 0, ctx, ctx, false);
    case Multi(hs) =>
      hide Adds;
      MultiSeesPairs(eval, h, 0, ctx, ctx);
    case Caller(key, info, g) =>
      CallerGrows(eval, key, info, g, ctx);
      SinksSeePairsAfter(eval, h, g, ctx, ctx + (if info.Some? then [Str(key), Str(info.value)] else []));
    case Filter(pass, g) =>
      if pass {
        SinksSeePairsAfter(eval, h, g, ctx, ctx);
      }
  }

  /** The same for a part g of h, on a context that h has grown before. */
  lemma {:induction false} SinksSeePairsAfter(eval: Evaluator, h: Handler, g: Handler, ctx: seq<Value>, next: seq<Value>)
    requires Paired(ctx) && Grown(eval, h, ctx, next) && Within(g, h)
    ensures Grown(eval, h, ctx, Run(eval, g, next).ctx) && AllGrown(eval, h, ctx, Run(eval, g, next).seen)
    decreases g, 2, 0
  {
    SinksSeePairs(eval, g, next);
    hide Run, Grown, Within;
    GrownTwice(eval, h, g, ctx, next, Run(eval, g, next).ctx);
    AllGrownTwice(eval, h, g, ctx, next, Run(eval, g, next).seen);
  }
}
