/** log/format.go: the logfmt printer with its escaping, optional quoting and
    remembered per-key padding, and a decoder that undoes it. Strings are
    sequences of valid runes. */
module Logfmt {
  import opened Lines
  import opened Wrappers

  const ERROR_KEY := "LOG15_ERROR"

  // ---------- values ----------

  predicate Quotes(c: char) {
    c <= ' ' || c == '=' || c == '"'
  }

  predicate NeedsQuotes(s: string) {
    exists i :: 0 <= i < |s| && Quotes(s[i])
  }

  predicate Escapes(c: char) {
    c == '\\' || c == '"' || c == '\n' || c == '\r' || c == '\t'
  }

  predicate NeedsEscape(s: string) {
    exists i :: 0 <= i < |s| && Escapes(s[i])
  }

  /** Nothing escapeString would touch. */
  predicate Plain(s: string) {
    !NeedsQuotes(s) && !NeedsEscape(s)
  }

  type AtomText = s: string | Plain(s) witness ""

  /** An interface{} value, by the branch of formatLogfmtValue that renders it. */
  datatype Value =
    | Nil
    | Atom(atom: AtomText)                     // bool, number, time.Time: written as they are
    | Str(text: string)                        // a Go string
    | Styled(text: string, terminal: string)   // has its own terminal form
    | Other(text: string)                      // error, Stringer, anything through %+v
  {
    /** The text the value stands for, before any escaping. */
    function PlainText(term: bool): string {
      match this
      case Nil => "nil"
      case Atom(atom) => atom
      case Str(text) => text
      case Styled(text, terminal) => if term then terminal else text
      case Other(text) => text
    }
  }

  // ---------- escaping ----------

  function EscapeChar(c: char): string {
    match c
    case '\\' => "\\\\"
    case '"' => "\\\""
    case '\n' => "\\n"
    case '\r' => "\\r"
    case '\t' => "\\t"
    case _ => [c]
  }

  function EscapeAll(s: string): string {
    if s == "" then "" else EscapeChar(s[0]) + EscapeAll(s[1..])
  }

  /** escapeString: verbatim, escaped only, or escaped inside quotes. */
  function Escaped(s: string): string {
    if Plain(s) then s
    else if NeedsQuotes(s) then "\"" + EscapeAll(s) + "\""
    else EscapeAll(s)
  }

  lemma EscapeAllStep(s: string, i: nat)
    requires i < |s|
    ensures EscapeAll(s[i..]) == EscapeChar(s[i]) + EscapeAll(s[i + 1..])
  {
    assert s[i..][0] == s[i] && s[i..][1..] == s[i + 1..];
  }

  lemma NothingToEscape(s: string)
    ensures EscapeAll(s[|s|..]) == ""
  {
  }

  lemma OneCharacter(s: string)
    requires |s| == 1
    ensures Escaped(s) == if Quotes(s[0]) then "\"" + EscapeChar(s[0]) + "\"" else EscapeChar(s[0])
  {
    assert s[1..] == "" && EscapeAll("") == "";
    assert EscapeChar(s[0]) + "" == EscapeChar(s[0]);
    assert Escapes(s[0]) ==> NeedsEscape(s);
    assert Quotes(s[0]) ==> NeedsQuotes(s);
  }

  /** One-character strings show what the escapes are. */
  lemma EscapeTable()
    ensures Escaped("\\") == "\\\\" && Escaped("\"") == "\"\\\"\""
    ensures Escaped("\n") == "\"\\n\"" && Escaped("\r") == "\"\\r\"" && Escaped("\t") == "\"\\t\""
    ensures Escaped(" ") == "\" \"" && Escaped("=") == "\"=\""
  {
    OneCharacter("\\");
    OneCharacter("\"");
    OneCharacter("\n");
    OneCharacter("\r");
    OneCharacter("\t");
    OneCharacter(" ");
    OneCharacter("=");
    hide Escaped;
  }

  /** A character that forces quotes. */
  predicate Separates(c: char) {
    c <= ' ' || c == '=' || c == '"'
  }

  lemma EscapeAllStarts(s: string)
    requires s != ""
    ensures EscapeAll(s) != "" && (EscapeAll(s)[0] == '"' ==> s[0] == '"')
  {
  }

  /** Quotes stand around a text with a separating character and nowhere else; a text with
      none of these and no backslash is written as it is. */
  lemma EscapedForm(s: string)
    ensures Escaped(s) != "" && Escaped(s)[0] == '"' <==> exists i :: 0 <= i < |s| && Separates(s[i])
    ensures (forall i :: 0 <= i < |s| ==> !Separates(s[i]) && s[i] != '\\') ==> Escaped(s) == s
  {
    if s != "" {
      EscapeAllStarts(s);
    }
    assert NeedsQuotes(s) <==> exists i :: 0 <= i < |s| && Separates(s[i]);
    hide EscapeAll, NeedsQuotes;
  }

  method WriteRune(r: char) returns (written: string)
    ensures written == EscapeChar(r)
  {
    match r {
      case '\\' => written := "\\\\";
      case '"' => written := "\\\"";
      case '\n' => written := "\\n";
      case '\r' => written := "\\r";
      case '\t' => written := "\\t";
      case _ => written := [r];
    }
  }

  method EscapeString(s: string) returns (ret: string)
    ensures ret == Escaped(s)
  {
    var needsQuotes, needsEscape := false, false;
    for i := 0 to |s|
      invariant needsQuotes <==> exists j :: 0 <= j < i && Quotes(s[j])
      invariant needsEscape <==> exists j :: 0 <= j < i && Escapes(s[j])
    {
      var r := s[i];
      if r <= ' ' || r == '=' || r == '"' {
        needsQuotes := true;
      }
      if r == '\\' || r == '"' || r == '\n' || r == '\r' || r == '\t' {
        needsEscape := true;
      }
    }
    if !needsEscape && !needsQuotes {
      return s;
    }
    var e := "\"";
    assert s[0..] == s;
    hide EscapeAll, EscapeChar;
    for i := 0 to |s|
      invariant |e| >= 1 && e + EscapeAll(s[i..]) == "\"" + EscapeAll(s)
    {
      EscapeAllStep(s, i);
      Assoc(e, EscapeChar(s[i]), EscapeAll(s[i + 1..]));
      var written := WriteRune(s[i]);
      e := e + written;
    }
    NothingToEscape(s);
    assert e + "" == e;
    e := e + "\"";
    if needsQuotes {
      ret := e;
    } else {
      ret := e[1..|e| - 1];
      assert ret == EscapeAll(s);
    }
  }

  // ---------- records ----------

  datatype Lvl = Crit | Error | Warn | Info | Debug | Trace
  {
    /** Lvl.String, which LogfmtFormat prints. */
    function Name(): string {
      match this
      case Trace => "trce"
      case Debug => "dbug"
      case Info => "info"
      case Warn => "warn"
      case Error => "eror"
      case Crit => "crit"
    }
  }

  /** LvlFromString. */
  function LvlFromString(s: string): Option<Lvl> {
    if s == "trace" || s == "trce" then Some(Trace)
    else if s == "debug" || s == "dbug" then Some(Debug)
    else if s == "info" then Some(Info)
    else if s == "warn" then Some(Warn)
    else if s == "error" || s == "eror" then Some(Error)
    else if s == "crit" then Some(Crit)
    else None
  }

  /** A log record; its time is already in the fixed time format. */
  datatype Record = Record(time: AtomText, lvl: Lvl, msg: string, ctx: seq<Value>)

  const TIME_KEY := "t"
  const LVL_KEY := "lvl"
  const MSG_KEY := "msg"

  /** The context LogfmtFormat prints: time, level and message, then the record's own. */
  function FullContext(r: Record): seq<Value> {
    [Str(TIME_KEY), Atom(r.time), Str(LVL_KEY), Other(r.lvl.Name()), Str(MSG_KEY), Str(r.msg)] + r.ctx
  }

  /** A key with the text of its value. */
  datatype Field = Field(key: string, text: string)

  function FieldOf(key: Value, value: Value, term: bool): Field {
    if key.Str? then Field(key.text, value.PlainText(term)) else Field(ERROR_KEY, "")
  }

  /** The pairs of a context; a key that is not a string is replaced by the
      error key, and its value by the rendering of the empty string. */
  function FieldsOf(ctx: seq<Value>, term: bool): seq<Field> {
    if |ctx| < 2 then []
    else [FieldOf(ctx[0], ctx[1], term)] + FieldsOf(ctx[2..], term)
  }

  function RecordFields(r: Record): seq<Field> {
    FieldsOf(FullContext(r), false)
  }

  // ---------- one line ----------

  function Spaces(n: nat): (s: string)
    ensures |s| == n && forall i :: 0 <= i < n ==> s[i] == ' '
  {
    seq(n, i => ' ')
  }

  function CellText(first: bool, key: string, rendered: string, gap: nat): string {
    (if first then "" else " ") + key + "=" + rendered + Spaces(gap)
  }

  /** The line for these fields when field i is followed by pads[i] spaces (the
      last field is never padded); a separating blank precedes all but the first. */
  function Line(fields: seq<Field>, pads: seq<nat>, first: bool): string
    requires |fields| == |pads|
    decreases |fields|
  {
    if fields == [] then "\n"
    else
      CellText(first, fields[0].key, Escaped(fields[0].text), if |fields| == 1 then 0 else pads[0])
      + Line(fields[1..], pads[1..], false)
  }

  type Padding = map<string, nat>

  function WidthSeen(padding: Padding, key: string): nat {
    if key in padding then padding[key] else 0
  }

  function WidenTo(padding: Padding, key: string, length: nat): (p: Padding)
    ensures WidthSeen(p, key) >= length
  {
    if WidthSeen(padding, key) < length then padding[key := length] else padding
  }

  function Widen(padding: Padding, f: Field): Padding {
    WidenTo(padding, f.key, |Escaped(f.text)|)
  }

  function PaddingAfter(padding: Padding, fields: seq<Field>): Padding
    decreases |fields|
  {
    if fields == [] then padding else PaddingAfter(Widen(padding, fields[0]), fields[1..])
  }

  /** The spaces each field gets when the padding map starts as given. */
  function Pads(padding: Padding, fields: seq<Field>): (pads: seq<nat>)
    ensures |pads| == |fields|
    decreases |fields|
  {
    if fields == [] then []
    else
      var next := Widen(padding, fields[0]);
      [WidthSeen(next, fields[0].key) - |Escaped(fields[0].text)|] + Pads(next, fields[1..])
  }

  /** The cell of one field, once the padding map is at least as wide as its value. */
  function CellIn(padding: Padding, f: Field, first: bool, last: bool): string
    requires WidthSeen(padding, f.key) >= |Escaped(f.text)|
  {
    CellText(first, f.key, Escaped(f.text),
             if last then 0 else WidthSeen(padding, f.key) - |Escaped(f.text)|)
  }

  /** The loop invariant of logfmt: once out is written and padding reached, the
      fields still to come complete the intended line and padding map. */
  ghost predicate OnTrack(start: Padding, buf: string, fields: seq<Field>,
                          padding: Padding, out: string, rest: seq<Field>, first: bool)
  {
    && out + Line(rest, Pads(padding, rest), first) == buf + Line(fields, Pads(start, fields), true)
    && PaddingAfter(padding, rest) == PaddingAfter(start, fields)
  }

  lemma StartsOnTrack(start: Padding, buf: string, ctx: seq<Value>, term: bool)
    ensures OnTrack(start, buf, FieldsOf(ctx, term), start, buf, FieldsOf(ctx[0..], term), true)
  {
    assert ctx[0..] == ctx;
  }

  lemma EndsOnTrack(start: Padding, buf: string, fields: seq<Field>, padding: Padding, out: string,
                    ctx: seq<Value>, term: bool)
    requires OnTrack(start, buf, fields, padding, out, FieldsOf(ctx[|ctx|..], term), ctx == [])
    ensures padding == PaddingAfter(start, fields)
    ensures out + "\n" == buf + Line(fields, Pads(start, fields), true)
  {
  }

  lemma FieldsStep(ctx: seq<Value>, i: nat, term: bool)
    requires i + 2 <= |ctx|
    ensures FieldsOf(ctx[i..], term)
         == [FieldOf(ctx[i], ctx[i + 1], term)] + FieldsOf(ctx[i + 2..], term)
    ensures FieldsOf(ctx[i + 2..], term) == [] <==> i + 4 > |ctx|
  {
    assert ctx[i..][2..] == ctx[i + 2..];
  }

  lemma WritingOneField(start: Padding, buf: string, fields: seq<Field>, padding: Padding,
                        out: string, f: Field, rest: seq<Field>, first: bool, cell: string)
    requires OnTrack(start, buf, fields, padding, out, [f] + rest, first)
    requires cell == CellIn(Widen(padding, f), f, first, rest == [])
    ensures OnTrack(start, buf, fields, Widen(padding, f), out + cell, rest, false)
  {
    var next := Widen(padding, f);
    assert ([f] + rest)[1..] == rest;
    assert Pads(padding, [f] + rest)[1..] == Pads(next, rest);
    Assoc(out, cell, Line(rest, Pads(next, rest), false));
  }

  /** Whatever the branch, the rendering is the escaped form of the text the value stands
      for; nil, numbers, booleans and times are written as they are and need no escape. */
  method FormatLogfmtValue(value: Value, term: bool) returns (s: string)
    ensures s == Escaped(value.PlainText(term))
    ensures value.Nil? ==> s == "nil"
    ensures value.Atom? ==> s == value.atom
    ensures value.Str? || value.Other? ==> s == Escaped(value.text)
    ensures value.Styled? ==> s == Escaped(if term then value.terminal else value.text)
  {
    match value {
      case Nil => s := "nil";
      case Atom(atom) => s := atom;
      case Str(text) => s := EscapeString(text);
      case Styled(text, terminal) => s := EscapeString(if term then terminal else text);
      case Other(text) => s := EscapeString(text);
    }
  }

  method FormatPair(key: Value, value: Value, term: bool) returns (k: string, v: string)
    ensures k == FieldOf(key, value, term).key
    ensures v == Escaped(FieldOf(key, value, term).text)
    ensures key.Str? ==> k == key.text && v == Escaped(value.PlainText(term))
    ensures !key.Str? ==> k == "LOG15_ERROR" && v == ""
  {
    v := FormatLogfmtValue(value, term);
    if key.Str? {
      k := key.text;
    } else {
      k := ERROR_KEY;
      v := FormatLogfmtValue(Str(""), term);
    }
  }

  class Printer {
    var fieldPadding: Padding

    constructor ()
      ensures fieldPadding == map[]
    {
      fieldPadding := map[];
    }

    /** The padding map is consulted and widened before the field is written. */
    method WriteField(buf: string, ghost f: Field, k: string, v: string, first: bool, last: bool)
      returns (out: string, ghost cell: string)
      requires k == f.key && v == Escaped(f.text)
      modifies this
      ensures fieldPadding == Widen(old(fieldPadding), f)
      ensures cell == CellIn(fieldPadding, f, first, last)
      ensures out == buf + cell
    {
      var padding := WidthSeen(fieldPadding, k);
      var length := |v|;
      if padding < length {
        padding := length;
        fieldPadding := fieldPadding[k := padding];
      }
      var gap := if last then 0 else padding - length;
      cell := CellText(first, k, v, gap);
      out := WriteText(buf, k, v, first, gap);
    }

    method WriteText(buf: string, k: string, v: string, first: bool, gap: nat) returns (out: string)
      ensures out == buf + CellText(first, k, v, gap)
    {
      out := buf;
      if !first {
        out := out + " ";
      }
      out := out + k + "=" + v + Spaces(gap);
    }

    method Logfmt(buf: string, ctx: seq<Value>, term: bool) returns (out: string)
      requires |ctx| % 2 == 0
      modifies this
      ensures out == buf + Line(FieldsOf(ctx, term),
                                Pads(old(fieldPadding), FieldsOf(ctx, term)), true)
      ensures fieldPadding == PaddingAfter(old(fieldPadding), FieldsOf(ctx, term))
    {
      hide *;
      ghost var fields, start := FieldsOf(ctx, term), fieldPadding;
      out := buf;
      StartsOnTrack(start, buf, ctx, term);
      var i := 0;
      ghost var n, pairs := 0, |ctx| / 2;
      while i < |ctx|
        invariant 0 <= n <= pairs && i == 2 * n && |ctx| == 2 * pairs
        invariant OnTrack(start, buf, fields, fieldPadding, out, FieldsOf(ctx[i..], term), i == 0)
      {
        ghost var padding, written := fieldPadding, out;
        ghost var f, rest := FieldOf(ctx[i], ctx[i + 1], term), FieldsOf(ctx[i + 2..], term);
        FieldsStep(ctx, i, term);
        var k, v := FormatPair(ctx[i], ctx[i + 1], term);
        ghost var cell;
        out, cell := WriteField(out, f, k, v, i == 0, i == |ctx| - 2);
        WritingOneField(start, buf, fields, padding, written, f, rest, i == 0, cell);
        i := i + 2;
        n := n + 1;
      }
      EndsOnTrack(start, buf, fields, fieldPadding, out, ctx, term);
      out := out + "\n";
    }

    method LogfmtFormat(r: Record) returns (out: string)
      requires |r.ctx| % 2 == 0
      modifies this
      ensures out == Line(RecordFields(r), Pads(old(fieldPadding), RecordFields(r)), true)
      ensures fieldPadding == PaddingAfter(old(fieldPadding), RecordFields(r))
    {
      out := Logfmt("", FullContext(r), false);
      assert "" + Line(RecordFields(r), Pads(old(fieldPadding), RecordFields(r)), true)
          == Line(RecordFields(r), Pads(old(fieldPadding), RecordFields(r)), true);
    }
  }

  /** Printing records one after the other through one printer; what comes out, line by line. */
  function Session(padding: Padding, records: seq<Record>): (lines: seq<string>)
    ensures |lines| == |records|
    decreases |records|
  {
    if records == [] then []
    else
      var fields := RecordFields(records[0]);
      [Line(fields, Pads(padding, fields), true)]
      + Session(PaddingAfter(padding, fields), records[1..])
  }
}
