/** A decoder for the lines that log/format.go prints, and the proof that it
    undoes the printer for every padding. */
module LogfmtDecoder {
  import opened Wrappers
  import opened Lines
  import opened Logfmt

  // ---------- the decoder ----------

  function Unescape(c: char): Option<char> {
    match c
    case '\\' => Some('\\')
    case '"' => Some('"')
    case 'n' => Some('\n')
    case 'r' => Some('\r')
    case 't' => Some('\t')
    case _ => None
  }

  datatype Read = Failed | Read(text: string, rest: string)
  {
    function Prepend(c: char): Read {
      if Failed? then Failed else Read([c] + text, rest)
    }
  }

  /** Up to the first character for which stop holds, unescaping on the way; the
      stopping character is left in place. */
  function ReadEscaped(s: string, quoted: bool): (r: Read)
    ensures r.Read? ==> |r.rest| <= |s|
  {
    if s == "" then Failed
    else if (if quoted then s[0] == '"' else s[0] == ' ' || s[0] == '\n') then Read("", s)
    else if s[0] == '\\' then
      if |s| < 2 || Unescape(s[1]).None? then Failed
      else ReadEscaped(s[2..], quoted).Prepend(Unescape(s[1]).value)
    else ReadEscaped(s[1..], quoted).Prepend(s[0])
  }

  function ReadValue(s: string): (r: Read)
    ensures r.Read? ==> |r.rest| <= |s|
  {
    if s != "" && s[0] == '"' then
      var r := ReadEscaped(s[1..], true);
      if r.Failed? || r.rest == "" then Failed else Read(r.text, r.rest[1..])
    else ReadEscaped(s, false)
  }

  function ReadKey(s: string): (r: Read)
    ensures r.Read? ==> |r.rest| < |s| && '=' !in r.text
    ensures r.Read? && r.text != "" ==> r.text[0] == s[0]
  {
    if s == "" then Failed
    else if s[0] == '=' then Read("", s[1..])
    else ReadKey(s[1..]).Prepend(s[0])
  }

  function SkipSpaces(s: string): (r: string)
    ensures |r| <= |s| && (r != "" ==> r[0] != ' ')
  {
    if s != "" && s[0] == ' ' then SkipSpaces(s[1..]) else s
  }

  /** The keys a decoder can find again. */
  predicate KeyOk(key: string) {
    '=' !in key && (key == "" || key[0] != ' ')
  }

  function DecodeLine(line: string): (r: Option<seq<Field>>)
    ensures r.Some? ==> forall f :: f in r.value ==> KeyOk(f.key)
    decreases |line|
  {
    var s := SkipSpaces(line);
    if s == "\n" then Some([])
    else
      var key := ReadKey(s);
      if key.Failed? then None
      else
        var value := ReadValue(key.rest);
        if value.Failed? then None
        else
          var others := DecodeLine(value.rest);
          if others.None? then None else Some([Field(key.text, value.text)] + others.value)
  }

  // ---------- values ----------

  lemma EscapedCharReadsBack(c: char, quoted: bool, after: string)
    requires quoted || !Quotes(c)
    ensures ReadEscaped(EscapeChar(c) + after, quoted) == ReadEscaped(after, quoted).Prepend(c)
  {
    var s := EscapeChar(c) + after;
    assert s[0] == EscapeChar(c)[0];
    if Escapes(c) {
      assert s[1] == EscapeChar(c)[1] && s[2..] == after;
    } else {
      assert s[1..] == after;
    }
  }

  lemma BareAfterFirst(s: string, quoted: bool)
    requires s != "" && (quoted || !NeedsQuotes(s))
    ensures quoted || (!Quotes(s[0]) && !NeedsQuotes(s[1..]))
  {
    assert forall i :: 0 <= i < |s[1..]| ==> s[1..][i] == s[i + 1];
  }

  lemma NothingEscaped(quoted: bool, tail: string)
    requires tail != "" && if quoted then tail[0] == '"' else tail[0] == ' ' || tail[0] == '\n'
    ensures ReadEscaped(EscapeAll("") + tail, quoted) == Read("", tail)
  {
    assert EscapeAll("") + tail == tail;
  }

  lemma EscapedFront(s: string)
    requires s != ""
    ensures EscapeAll(s) == EscapeChar(s[0]) + EscapeAll(s[1..])
  {
  }

  lemma Prepended(c: char, text: string, rest: string)
    ensures Read(text, rest).Prepend(c) == Read([c] + text, rest)
  {
  }

  lemma {:induction false} EscapedTextReadsBack(s: string, quoted: bool, tail: string)
    requires quoted || !NeedsQuotes(s)
    requires tail != "" && if quoted then tail[0] == '"' else tail[0] == ' ' || tail[0] == '\n'
    ensures ReadEscaped(EscapeAll(s) + tail, quoted) == Read(s, tail)
  {
    hide *;
    if s == "" {
      NothingEscaped(quoted, tail);
    } else {
      BareAfterFirst(s, quoted);
      EscapedFront(s);
      EscapedTextReadsBack(s[1..], quoted, tail);
      EscapedCharReadsBack(s[0], quoted, EscapeAll(s[1..]) + tail);
      Assoc(EscapeChar(s[0]), EscapeAll(s[1..]), tail);
      Prepended(s[0], s[1..], tail);
      assert [s[0]] + s[1..] == s;
    }
  }

  lemma {:induction false} PlainTextNeedsNoEscape(s: string)
    requires !NeedsEscape(s)
    ensures EscapeAll(s) == s
  {
    if s != "" {
      assert !Escapes(s[0]);
      assert forall i :: 0 <= i < |s[1..]| ==> s[1..][i] == s[i + 1];
      PlainTextNeedsNoEscape(s[1..]);
    }
  }

  lemma ReadQuoted(text: string)
    ensures ReadValue("\"" + text) == var r := ReadEscaped(text, true);
              if r.Failed? || r.rest == "" then Failed else Read(r.text, r.rest[1..])
  {
    assert ("\"" + text)[1..] == text;
    hide ReadEscaped;
  }

  lemma QuotedReadsBack(s: string, tail: string)
    ensures ReadValue("\"" + EscapeAll(s) + "\"" + tail) == Read(s, tail)
  {
    hide *;
    var rest := "\"" + tail;
    EscapedTextReadsBack(s, true, rest);
    Assoc("\"" + EscapeAll(s), "\"", tail);
    Assoc("\"", EscapeAll(s), rest);
    ReadQuoted(EscapeAll(s) + rest);
    assert rest[1..] == tail;
  }

  lemma FirstIsBare(s: string, tail: string)
    requires s != "" && !NeedsQuotes(s)
    ensures EscapeAll(s) != "" && (EscapeAll(s) + tail)[0] != '"'
  {
    assert !Quotes(s[0]);
    assert (EscapeAll(s) + tail)[0] == EscapeChar(s[0])[0];
  }

  lemma BareReadsBack(s: string, tail: string)
    requires !NeedsQuotes(s) && tail != "" && (tail[0] == ' ' || tail[0] == '\n')
    ensures ReadValue(EscapeAll(s) + tail) == Read(s, tail)
  {
    EscapedTextReadsBack(s, false, tail);
    if s != "" {
      FirstIsBare(s, tail);
    }
    hide ReadEscaped, EscapeAll, NeedsQuotes;
  }

  /** Whichever of its three forms escapeString chose, the value reads back. */
  lemma ValueReadsBack(s: string, tail: string)
    requires tail != "" && (tail[0] == ' ' || tail[0] == '\n')
    ensures ReadValue(Escaped(s) + tail) == Read(s, tail)
  {
    if NeedsQuotes(s) {
      QuotedReadsBack(s, tail);
    } else {
      if Plain(s) {
        PlainTextNeedsNoEscape(s);
      }
      BareReadsBack(s, tail);
    }
  }

  /** escapeString is injective across its three forms. */
  lemma EscapedIsInjective(a: string, b: string)
    requires Escaped(a) == Escaped(b)
    ensures a == b
  {
    ValueReadsBack(a, "\n");
    ValueReadsBack(b, "\n");
  }

  // ---------- lines ----------

  lemma {:induction false} KeyReadsBack(key: string, tail: string)
    requires '=' !in key
    ensures ReadKey(key + "=" + tail) == Read(key, tail)
  {
    var s := key + "=" + tail;
    if key == "" {
      assert s == "=" + tail;
    } else {
      assert key[0] in key;
      KeyReadsBack(key[1..], tail);
      assert s[1..] == key[1..] + "=" + tail;
    }
  }

  lemma {:induction false} SpacesAreSkipped(n: nat, s: string)
    requires s != "" && s[0] != ' '
    ensures SkipSpaces(Spaces(n) + s) == s
  {
    if n == 0 {
      assert Spaces(n) + s == s;
    } else {
      SpacesAreSkipped(n - 1, s);
      assert (Spaces(n) + s)[1..] == Spaces(n - 1) + s;
    }
  }

  lemma LineStartsWithSeparator(fields: seq<Field>, pads: seq<nat>)
    requires |fields| == |pads|
    ensures Line(fields, pads, false) != ""
    ensures Line(fields, pads, false)[0] == ' ' || Line(fields, pads, false)[0] == '\n'
  {
  }

  lemma CellThenRest(gap: nat, first: bool, f: Field, pad: nat, others: string)
    ensures Spaces(gap) + (CellText(first, f.key, Escaped(f.text), pad) + others)
         == Spaces(if first then gap else gap + 1)
            + (f.key + "=" + (Escaped(f.text) + (Spaces(pad) + others)))
  {
    var named := f.key + "=" + Escaped(f.text);
    hide Escaped;
    assert f.key + "=" + (Escaped(f.text) + (Spaces(pad) + others)) == named + (Spaces(pad) + others);
    if first {
      assert CellText(true, f.key, Escaped(f.text), pad) == named + Spaces(pad);
    } else {
      assert Spaces(gap) + " " == Spaces(gap + 1);
      assert CellText(false, f.key, Escaped(f.text), pad) == " " + (named + Spaces(pad));
    }
  }

  lemma {:induction false} LineReadsBack(fields: seq<Field>, pads: seq<nat>, first: bool, gap: nat)
    requires |fields| == |pads| && forall f :: f in fields ==> KeyOk(f.key)
    ensures DecodeLine(Spaces(gap) + Line(fields, pads, first)) == Some(fields)
    decreases |fields|
  {
    if fields == [] {
      SpacesAreSkipped(gap, "\n");
    } else {
      var f := fields[0];
      assert f in fields;
      var pad := if |fields| == 1 then 0 else pads[0];
      var others := Line(fields[1..], pads[1..], false);
      LineReadsBack(fields[1..], pads[1..], false, pad);
      LineStartsWithSeparator(fields[1..], pads[1..]);
      var tail := Spaces(pad) + others;
      var body := f.key + "=" + (Escaped(f.text) + tail);
      CellThenRest(gap, first, f, pad, others);
      SpacesAreSkipped(if first then gap else gap + 1, body);
      KeyReadsBack(f.key, Escaped(f.text) + tail);
      ValueReadsBack(f.text, tail);
      assert fields == [f] + fields[1..];
    }
  }

  /** Whatever the padding, the decoder recovers the fields of a line exactly when
      every key is free of '=' and of a leading blank. */
  lemma LineRoundTrip(fields: seq<Field>, pads: seq<nat>)
    requires |fields| == |pads|
    ensures DecodeLine(Line(fields, pads, true)) == Some(fields)
       <==> forall f :: f in fields ==> KeyOk(f.key)
  {
    if forall f :: f in fields ==> KeyOk(f.key) {
      LineReadsBack(fields, pads, true, 0);
      assert Spaces(0) + Line(fields, pads, true) == Line(fields, pads, true);
    }
  }

  // ---------- newlines ----------

  lemma {:induction false} EscapeAllHidesNewlines(s: string)
    ensures '\n' !in EscapeAll(s)
  {
    if s != "" {
      EscapeAllHidesNewlines(s[1..]);
      assert '\n' !in EscapeChar(s[0]);
    }
  }

  lemma EscapedHidesNewlines(s: string)
    ensures '\n' !in Escaped(s)
  {
    EscapeAllHidesNewlines(s);
    if Plain(s) {
      forall i | 0 <= i < |s|
        ensures s[i] != '\n'
      {
        assert !Quotes(s[i]);
      }
    }
  }

  lemma CellNewlines(first: bool, f: Field, gap: nat)
    ensures '\n' in CellText(first, f.key, Escaped(f.text), gap) <==> '\n' in f.key
  {
    EscapedHidesNewlines(f.text);
  }

  lemma OneLineAfter(cell: string, others: string)
    requires others != ""
    ensures OneLine(cell + others) <==> '\n' !in cell && OneLine(others)
  {
    var line := cell + others;
    assert line[..|line| - 1] == cell + others[..|others| - 1];
  }

  ghost predicate NoKeyBreaks(fields: seq<Field>) {
    forall f :: f in fields ==> '\n' !in f.key
  }

  lemma NoKeyBreaksStep(fields: seq<Field>)
    requires fields != []
    ensures NoKeyBreaks(fields) <==> '\n' !in fields[0].key && NoKeyBreaks(fields[1..])
  {
    assert fields == [fields[0]] + fields[1..];
  }

  lemma NoKeyBreaksIn(fields: seq<Field>)
    requires forall f :: f in fields ==> '\n' !in f.key
    ensures NoKeyBreaks(fields)
  {
  }

  /** A printed line is one physical line exactly when no key smuggles a newline in. */
  lemma {:induction false} LineIsOneLine(fields: seq<Field>, pads: seq<nat>, first: bool)
    requires |fields| == |pads|
    ensures OneLine(Line(fields, pads, first)) <==> NoKeyBreaks(fields)
    decreases |fields|
  {
    if fields != [] {
      NoKeyBreaksStep(fields);
      hide NoKeyBreaks;
      hide OneLine, CellText, Escaped;
      var f, rest := fields[0], fields[1..];
      var gap := if |fields| == 1 then 0 else pads[0];
      CellNewlines(first, f, gap);
      LineIsOneLine(rest, pads[1..], false);
      LineStartsWithSeparator(rest, pads[1..]);
      OneLineAfter(CellText(first, f.key, Escaped(f.text), gap), Line(rest, pads[1..], false));
    }
  }

  // ---------- records ----------

  /** Every string key of a context survives the printer, and stays on its line. */
  predicate CleanKeys(ctx: seq<Value>) {
    forall i :: 0 <= i < |ctx| && i % 2 == 0 && ctx[i].Str? ==>
      KeyOk(ctx[i].text) && '\n' !in ctx[i].text
  }

  lemma LvlNameRoundTrip(lvl: Lvl)
    ensures LvlFromString(lvl.Name()) == Some(lvl)
    ensures [Crit.Name(), Error.Name(), Warn.Name(), Info.Name(), Debug.Name(), Trace.Name()]
         == ["crit", "eror", "warn", "info", "dbug", "trce"]
  {
  }

  lemma {:induction false} CleanContextFields(ctx: seq<Value>, term: bool)
    requires CleanKeys(ctx)
    ensures forall f :: f in FieldsOf(ctx, term) ==> KeyOk(f.key) && '\n' !in f.key
  {
    if |ctx| >= 2 {
      forall i | 0 <= i < |ctx[2..]| && i % 2 == 0 && ctx[2..][i].Str?
        ensures KeyOk(ctx[2..][i].text) && '\n' !in ctx[2..][i].text
      {
        assert ctx[2..][i] == ctx[i + 2] && (i + 2) % 2 == 0;
      }
      CleanContextFields(ctx[2..], term);
      assert ctx[0].Str? ==> KeyOk(ctx[0].text) && '\n' !in ctx[0].text;
    }
  }

  lemma HeaderFields(r: Record)
    ensures RecordFields(r)
         == [Field("t", r.time), Field("lvl", r.lvl.Name()), Field("msg", r.msg)]
            + FieldsOf(r.ctx, false)
  {
    var ctx := FullContext(r);
    FieldsStep(ctx, 0, false);
    FieldsStep(ctx, 2, false);
    FieldsStep(ctx, 4, false);
    assert ctx[0..] == ctx && ctx[6..] == r.ctx;
  }

  lemma RecordKeysAreClean(r: Record)
    requires CleanKeys(r.ctx)
    ensures forall f :: f in RecordFields(r) ==> KeyOk(f.key) && '\n' !in f.key
  {
    hide FieldsOf;
    CleanContextFields(r.ctx, false);
    HeaderFields(r);
  }

  /** A printed record is one physical line from which time, level, message and
      every pair of the context are read back, whatever the padding. */
  lemma RecordRoundTrip(r: Record, pads: seq<nat>)
    requires CleanKeys(r.ctx) && |pads| == |RecordFields(r)|
    ensures OneLine(Line(RecordFields(r), pads, true))
    ensures DecodeLine(Line(RecordFields(r), pads, true))
         == Some([Field("t", r.time), Field("lvl", r.lvl.Name()), Field("msg", r.msg)]
                 + FieldsOf(r.ctx, false))
  {
    hide *;
    RecordKeysAreClean(r);
    HeaderFields(r);
    LineRoundTrip(RecordFields(r), pads);
    NoKeyBreaksIn(RecordFields(r));
    LineIsOneLine(RecordFields(r), pads, true);
  }

  lemma SessionStep(padding: Padding, records: seq<Record>)
    requires records != []
    ensures var fields := RecordFields(records[0]);
            Session(padding, records) == [Line(fields, Pads(padding, fields), true)]
                                         + Session(PaddingAfter(padding, fields), records[1..])
  {
    hide RecordFields, Line, Pads, PaddingAfter;
  }

  /** Line i of a session is one physical line and decodes to record i, although
      every line is laid out with the padding its predecessors left behind. */
  lemma {:induction false} SessionRoundTrip(padding: Padding, records: seq<Record>)
    requires forall r :: r in records ==> CleanKeys(r.ctx)
    ensures forall l :: l in Session(padding, records) ==> OneLine(l)
    ensures forall i :: 0 <= i < |records| ==>
              DecodeLine(Session(padding, records)[i]) == Some(RecordFields(records[i]))
    decreases |records|
  {
    hide *;
    if records != [] {
      var r := records[0];
      var fields := RecordFields(r);
      var first, rest := Line(fields, Pads(padding, fields), true), Session(PaddingAfter(padding, fields), records[1..]);
      SessionStep(padding, records);
      RecordRoundTrip(r, Pads(padding, fields));
      HeaderFields(r);
      SessionRoundTrip(PaddingAfter(padding, fields), records[1..]);
      forall i | 0 <= i < |records|
        ensures DecodeLine(([first] + rest)[i]) == Some(RecordFields(records[i]))
      {
        if i > 0 {
          assert records[i] == records[1..][i - 1];
        }
      }
    }
  }
}
