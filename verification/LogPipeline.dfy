/** From a log call to the lines of its sinks: the logger's context, the handlers and the
    printer together. */
module LogPipeline {
  import opened Wrappers
  import opened Text
  import opened Lines
  import C = LogContext
  import R = LogReach
  import opened Logfmt
  import opened LogfmtDecoder

  /** What the printer makes of values that are neither nil nor text. */
  type Rendering = C.Value -> Value

  function Shown(show: Rendering, v: C.Value): Value {
    match v
    case Nil => Nil
    case Str(text) => Str(text)
    case _ => if show(v).Str? then Other(show(v).text) else show(v)
  }

  function ShownAll(show: Rendering, ctx: seq<C.Value>): (r: seq<Value>)
    ensures |r| == |ctx|
  {
    seq(|ctx|, i requires 0 <= i < |ctx| => Shown(show, ctx[i]))
  }

  /** What all sinks of one log call print besides the context. */
  datatype Header = Header(time: AtomText, lvl: Lvl, msg: string)

  function RecordOf(show: Rendering, header: Header, ctx: seq<C.Value>): Record {
    Record(header.time, header.lvl, header.msg, ShownAll(show, ctx))
  }

  /** The records of the contexts that reached a sink. */
  function Records(show: Rendering, header: Header, seen: seq<C.Delivery>): (rs: seq<Record>)
    ensures |rs| == |seen|
  {
    seq(|seen|, k requires 0 <= k < |seen| => RecordOf(show, header, seen[k].ctx))
  }

  // ---------- pairs ----------

  lemma {:induction false} FieldsOfPairs(ctx: seq<Value>, term: bool, j: nat)
    requires |ctx| % 2 == 0 && 2 * j < |ctx|
    ensures j < |FieldsOf(ctx, term)| && FieldsOf(ctx, term)[j] == FieldOf(ctx[2 * j], ctx[2 * j + 1], term)
  {
    if j > 0 {
      FieldsOfPairs(ctx[2..], term, j - 1);
      assert ctx[2..][2 * (j - 1)] == ctx[2 * j] && ctx[2..][2 * (j - 1) + 1] == ctx[2 * j + 1];
    }
  }

  // ---------- keys ----------

  predicate CleanKey(key: string) {
    KeyOk(key) && '\n' !in key
  }

  ghost predicate CleanContext(ctx: seq<C.Value>) {
    forall i :: 0 <= i < |ctx| && i % 2 == 0 && ctx[i].Str? ==> CleanKey(ctx[i].text)
  }

  /** The keys that caller handlers of the tree add are clean. */
  predicate CleanCallers(h: C.Handler) {
    match h
    case Sink(_, _) => true
    case Lazily(g) => CleanCallers(g)
    case Failover(hs) => forall i :: 0 <= i < |hs| ==> CleanCallers(hs[i])
    case Multi(hs) => forall i :: 0 <= i < |hs| ==> CleanCallers(hs[i])
    case Caller(key, _, g) => CleanKey(key) && CleanCallers(g)
    case Filter(_, g) => CleanCallers(g)
  }

  lemma FailoverKeysAreClean(i: nat)
    ensures CleanKey(C.FailoverKey(i).text)
  {
    var digits := Itoa(i);
    assert forall k :: 0 <= k < |digits| ==> digits[k] != '=' && digits[k] != '\n';
    hide Itoa;
    var key := "failover_err_" + digits;
    assert key[0] == 'f';
  }

  /** With clean caller keys every key the handlers add is clean. */
  lemma {:induction false} HandlersAddCleanKeys(h: C.Handler, key: C.Value, value: C.Value)
    requires CleanCallers(h) && C.Adds(h, key, value)
    ensures key.Str? && CleanKey(key.text)
    decreases h
  {
    match h
    case Sink(_, _) =>
    case Lazily(g) =>
      if C.Adds(g, key, value) {
        HandlersAddCleanKeys(g, key, value);
      }
    case Failover(hs) =>
      var i :| 0 <= i < |hs|
               && ((key == C.Str("failover_err_" + Itoa(i)) && value == C.Failure) || C.Adds(hs[i], key, value));
      FailoverKeysAreClean(i);
      if C.Adds(hs[i], key, value) {
        HandlersAddCleanKeys(hs[i], key, value);
      }
    case Multi(hs) =>
      var i :| 0 <= i < |hs| && C.Adds(hs[i], key, value);
      HandlersAddCleanKeys(hs[i], key, value);
    case Caller(k, info, g) =>
      if C.Adds(g, key, value) {
        HandlersAddCleanKeys(g, key, value);
      }
    case Filter(_, g) => HandlersAddCleanKeys(g, key, value);
  }

  lemma GrownIsClean(eval: C.Evaluator, show: Rendering, h: C.Handler, ctx: seq<C.Value>, seen: seq<C.Value>)
    requires CleanContext(ctx) && CleanCallers(h) && C.Grown(eval, h, ctx, seen)
    ensures CleanKeys(ShownAll(show, seen))
  {
    hide CleanCallers, C.Adds, KeyOk;
    forall i | 0 <= i < |seen| && i % 2 == 0 && Shown(show, seen[i]).Str?
      ensures KeyOk(Shown(show, seen[i]).text) && '\n' !in Shown(show, seen[i]).text
    {
      assert seen[i].Str?;
      if i >= |ctx| {
        HandlersAddCleanKeys(h, seen[i], seen[i + 1]);
      }
    }
  }

  // ---------- the lines of one call ----------

  /** The line decodes to the header and then, pair by pair, to the context of the call;
      only lazy values may read differently, and only handlers' pairs follow. */
  ghost predicate TellsCall(show: Rendering, header: Header, ctx: seq<C.Value>, line: string) {
    var fields := DecodeLine(line);
    && fields.Some? && |fields.value| >= 3 + |ctx| / 2
    && fields.value[..3]
       == [Field("t", header.time), Field("lvl", header.lvl.Name()), Field("msg", header.msg)]
    && forall j :: 0 <= j < |ctx| / 2 && !ctx[2 * j + 1].LazyFn? ==>
         fields.value[3 + j] == FieldOf(Shown(show, ctx[2 * j]), Shown(show, ctx[2 * j + 1]), false)
  }

  lemma LineTellsCall(eval: C.Evaluator, show: Rendering, header: Header, h: C.Handler, ctx: seq<C.Value>,
                      seen: seq<C.Value>, line: string)
    requires C.Paired(ctx) && C.Grown(eval, h, ctx, seen)
    requires DecodeLine(line) == Some(RecordFields(RecordOf(show, header, seen)))
    ensures TellsCall(show, header, ctx, line)
  {
    var shown := ShownAll(show, seen);
    HeaderFields(RecordOf(show, header, seen));
    var fields := FieldsOf(shown, false);
    hide FieldsOf, DecodeLine, C.Adds, RecordFields, FieldOf;
    assert |fields| >= |ctx| / 2 by {
      if |ctx| > 0 {
        FieldsOfPairs(shown, false, |ctx| / 2 - 1);
      }
    }
    forall j | 0 <= j < |ctx| / 2 && !ctx[2 * j + 1].LazyFn?
      ensures fields[j] == FieldOf(Shown(show, ctx[2 * j]), Shown(show, ctx[2 * j + 1]), false)
    {
      FieldsOfPairs(shown, false, j);
      assert seen[2 * j] == ctx[2 * j] && seen[2 * j + 1] == ctx[2 * j + 1];
    }
  }

  lemma SeenIsGrown(eval: C.Evaluator, h: C.Handler, ctx: seq<C.Value>, seen: seq<C.Delivery>, k: nat)
    requires k < |seen| && C.AllGrown(eval, h, ctx, seen)
    ensures C.Grown(eval, h, ctx, seen[k].ctx)
  {
  }

  lemma RecordAt(show: Rendering, header: Header, seen: seq<C.Delivery>, k: nat)
    requires k < |seen|
    ensures Records(show, header, seen)[k] == RecordOf(show, header, seen[k].ctx)
    ensures RecordOf(show, header, seen[k].ctx).ctx == ShownAll(show, seen[k].ctx)
  {
  }

  /** Through any tree of handlers, however lazy values and sinks behave, every line that a
      sink prints is one physical line and tells what the call logged. */
  lemma EveryLineTellsItsCall(padding: Padding, show: Rendering, header: Header, eval: C.Evaluator, h: C.Handler,
                              ctx: seq<C.Value>)
    requires C.Paired(ctx) && CleanContext(ctx) && CleanCallers(h)
    ensures var lines := Session(padding, Records(show, header, C.Run(eval, h, ctx).seen));
            && |lines| == |C.Run(eval, h, ctx).seen|
            && forall k :: 0 <= k < |lines| ==> OneLine(lines[k]) && TellsCall(show, header, ctx, lines[k])
  {
    hide *;
    var seen := C.Run(eval, h, ctx).seen;
    var records := Records(show, header, seen);
    C.SinksSeePairs(eval, h, ctx);
    forall k | 0 <= k < |seen|
      ensures C.Grown(eval, h, ctx, seen[k].ctx) && records[k] == RecordOf(show, header, seen[k].ctx)
      ensures CleanKeys(records[k].ctx)
    {
      SeenIsGrown(eval, h, ctx, seen, k);
      GrownIsClean(eval, show, h, ctx, seen[k].ctx);
      RecordAt(show, header, seen, k);
    }
    SessionRoundTrip(padding, records);
    var lines := Session(padding, records);
    forall k | 0 <= k < |lines|
      ensures OneLine(lines[k]) && TellsCall(show, header, ctx, lines[k])
    {
      assert lines[k] in lines;
      LineTellsCall(eval, show, header, h, ctx, seen[k].ctx, lines[k]);
    }
  }

  lemma PairedIsEven(ctx: seq<C.Value>)
    requires C.Paired(ctx)
    ensures |ctx| % 2 == 0
  {
  }

  lemma SessionFrom(padding: Padding, records: seq<Record>, k: nat)
    requires k < |records|
    ensures var fields := RecordFields(records[k]);
            Session(padding, records[k..]) == [Line(fields, Pads(padding, fields), true)]
                                              + Session(PaddingAfter(padding, fields), records[k + 1..])
  {
    hide *;
    assert records[k..][0] == records[k] && records[k..][1..] == records[k + 1..];
    SessionStep(padding, records[k..]);
  }

  lemma NoRecords(padding: Padding, records: seq<Record>)
    requires records == []
    ensures Session(padding, records) == []
  {
  }

  /** The sinks print one after the other through the printer they share. */
  method PrintSeen(p: Printer, show: Rendering, header: Header, seen: seq<C.Delivery>) returns (lines: seq<string>)
    requires forall k :: 0 <= k < |seen| ==> C.Paired(seen[k].ctx)
    modifies p
    ensures lines == Session(old(p.fieldPadding), Records(show, header, seen))
  {
    hide *;
    lines := [];
    ghost var padding, all := p.fieldPadding, Records(show, header, seen);
    for k := 0 to |seen|
      invariant |all| == |seen| && Session(padding, all) == lines + Session(p.fieldPadding, all[k..])
    {
      SessionFrom(p.fieldPadding, all, k);
      RecordAt(show, header, seen, k);
      PairedIsEven(seen[k].ctx);
      var line := p.LogfmtFormat(RecordOf(show, header, seen[k].ctx));
      lines := lines + [line];
    }
    NoRecords(p.fieldPadding, all[|seen|..]);
  }

  lemma ReachesEach(eval: C.Evaluator, h: C.Handler, ctx: seq<C.Value>, paths: seq<R.Path>, seen: seq<C.Delivery>)
    requires R.Reaches(eval, h, ctx, paths, seen)
    ensures |paths| == |seen| && R.InOrder(paths) && forall q :: R.Reached(h, q) ==> q in paths
    ensures forall k :: 0 <= k < |paths| ==> R.ReachesSink(h, paths[k], seen[k].sink)
  {
    hide R.Reached, R.ReachesSink, R.InOrder, R.Carries;
    forall k | 0 <= k < |paths|
      ensures R.ReachesSink(h, paths[k], seen[k].sink)
    {
      assert R.DeliveredTo(eval, h, ctx, paths[k], seen[k]);
    }
  }

  lemma AllPaired(eval: C.Evaluator, h: C.Handler, ctx: seq<C.Value>, seen: seq<C.Delivery>)
    requires C.AllGrown(eval, h, ctx, seen)
    ensures forall k :: 0 <= k < |seen| ==> C.Paired(seen[k].ctx)
  {
    hide C.Adds;
    forall k | 0 <= k < |seen|
      ensures C.Paired(seen[k].ctx)
    {
      assert C.Grown(eval, h, ctx, seen[k].ctx);
    }
  }

  /** One log call: the sinks that are reached print, in the order of the tree, one line
      each, which tells what the chain of loggers and the call itself logged; the
      logger's context stays. */
  method Emit(logger: C.Logger, args: C.Slice, eval: C.Evaluator, h: C.Handler, p: Printer, show: Rendering, header: Header)
    returns (fails: bool, sinks: seq<nat>, lines: seq<string>, ghost paths: seq<R.Path>)
    requires logger.Valid() && args.Valid() && args.base != logger.ctx
    requires CleanContext(C.Chain(logger.calls + [args.Elems()])) && CleanCallers(h)
    modifies args.base, p
    ensures logger.Valid()
    ensures fails == R.Fails(h) && |paths| == |sinks| == |lines| && R.InOrder(paths)
    ensures forall q :: R.Reached(h, q) ==> q in paths
    ensures forall k :: 0 <= k < |paths| ==> R.ReachesSink(h, paths[k], sinks[k])
    ensures var ctx := C.Chain(logger.calls + [old(args.Elems())]);
            forall k :: 0 <= k < |lines| ==> OneLine(lines[k]) && TellsCall(show, header, ctx, lines[k])
  {
    hide *;
    ghost var ctx, padding := C.Chain(logger.calls + [args.Elems()]), p.fieldPadding;
    var seen;
    fails, seen := logger.Write(args, eval, h);
    R.ErrorIsReturned(eval, h, ctx);
    paths := R.SinksReached(eval, h, ctx);
    C.SinksSeePairs(eval, h, ctx);
    AllPaired(eval, h, ctx, seen);
    lines := PrintSeen(p, show, header, seen);
    sinks := seq(|seen|, k requires 0 <= k < |seen| => seen[k].sink);
    ReachesEach(eval, h, ctx, paths, seen);
    EveryLineTellsItsCall(padding, show, header, eval, h, ctx);
  }

  // ---------- the bot's own handler ----------

  const STDOUT := 0
  const FILE := 1

  /** The place of a level in the order of log.Lvl. */
  function Severity(lvl: Lvl): nat {
    match lvl
    case Crit => 0
    case Error => 1
    case Warn => 2
    case Info => 3
    case Debug => 4
    case Trace => 5
  }

  /** What the bot installs: records up to a verbosity go to the console and to a file. */
  function RootHandler(verbosity: int, lvl: Lvl, stdoutFails: bool, fileFails: bool): C.Handler {
    C.Filter(Severity(lvl) <= verbosity,
             C.Multi([C.Lazily(C.Sink(STDOUT, stdoutFails)), C.Lazily(C.Sink(FILE, fileFails))]))
  }

  /** A record up to the verbosity is printed on the console and then in the file, even if
      the console fails; any other nowhere. Neither case is an error. */
  lemma BotLogs(eval: C.Evaluator, verbosity: int, lvl: Lvl, stdoutFails: bool, fileFails: bool, ctx: seq<C.Value>)
    ensures var o := C.Run(eval, RootHandler(verbosity, lvl, stdoutFails, fileFails), ctx);
            && !o.fails
            && |o.seen| == (if Severity(lvl) <= verbosity then 2 else 0)
            && (Severity(lvl) <= verbosity ==> o.seen[0].sink == 0 && o.seen[1].sink == 1)
    ensures Severity(Crit) < Severity(Error) < Severity(Warn) < Severity(Info) < Severity(Debug) < Severity(Trace)
  {
    var h := RootHandler(verbosity, lvl, stdoutFails, fileFails);
    var multi := h.h;
    if h.pass {
      var first := C.Run(eval, multi.hs[0], ctx);
      var second := C.Run(eval, multi.hs[1], first.ctx);
      hide C.LazyPass;
      assert C.RunMulti(eval, multi, 2, second.ctx).seen == [];
      assert C.RunMulti(eval, multi, 1, first.ctx).seen == second.seen + [];
      assert C.RunMulti(eval, multi, 0, ctx).seen == first.seen + C.RunMulti(eval, multi, 1, first.ctx).seen;
      assert C.Run(eval, h, ctx) == C.Run(eval, multi, ctx) == C.RunMulti(eval, multi, 0, ctx);
      assert first.seen == [C.Delivery(STDOUT, C.LazyPass(eval, ctx))];
    }
  }
}
