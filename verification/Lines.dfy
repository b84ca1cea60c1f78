/** Text made of newline-terminated lines, with a possibly torn last one. */
module Lines {
  /** The newline ends the line and occurs nowhere else. */
  ghost predicate OneLine(line: string) {
    && line != "" && line[|line| - 1] == '\n'
    && '\n' !in line[..|line| - 1]
  }

  function Concat(parts: seq<string>): string {
    if parts == [] then "" else Concat(parts[..|parts| - 1]) + parts[|parts| - 1]
  }

  /** The longest prefix that ends in a newline ("" when there is none). */
  function CompletePart(text: string): (r: string)
    ensures r <= text
    ensures r == "" || r[|r| - 1] == '\n'
    ensures '\n' !in text[|r|..]
  {
    if text == "" || text[|text| - 1] == '\n' then text
    else
      var r := CompletePart(text[..|text| - 1]);
      assert text[|r|..] == text[..|text| - 1][|r|..] + [text[|text| - 1]];
      r
  }

  function FirstNewline(text: string): (i: nat)
    requires '\n' in text
    ensures i < |text| && text[i] == '\n'
    ensures forall j :: 0 <= j < i ==> text[j] != '\n'
  {
    if text[0] == '\n' then 0 else 1 + FirstNewline(text[1..])
  }

  /** The lines of a text and the torn rest behind the last newline. */
  function SplitLines(text: string): (r: (seq<string>, string))
    decreases |text|
  {
    if '\n' !in text then ([], text)
    else
      var cut := FirstNewline(text) + 1;
      var (lines, torn) := SplitLines(text[cut..]);
      ([text[..cut]] + lines, torn)
  }

  lemma Assoc(a: string, b: string, c: string)
    ensures (a + b) + c == a + (b + c)
  {
  }

  lemma {:induction false} ConcatFront(part: string, parts: seq<string>)
    ensures Concat([part] + parts) == part + Concat(parts)
  {
    var all := [part] + parts;
    if parts != [] {
      ConcatFront(part, parts[..|parts| - 1]);
      assert all[..|all| - 1] == [part] + parts[..|parts| - 1];
    } else {
      assert all[..0] == parts;
    }
  }

  lemma {:induction false} ConcatAppend(a: seq<string>, b: seq<string>)
    ensures Concat(a + b) == Concat(a) + Concat(b)
  {
    if b == [] {
      assert a + b == a;
    } else {
      var init := b[..|b| - 1];
      ConcatAppend(a, init);
      assert (a + b)[..|a + b| - 1] == a + init;
    }
  }

  lemma FirstNewlineOfLine(line: string, tail: string)
    requires OneLine(line)
    ensures '\n' in line + tail && FirstNewline(line + tail) == |line| - 1
  {
    var text := line + tail;
    assert text[|line| - 1] == '\n';
    assert forall j :: 0 <= j < |line| - 1 ==> text[j] == line[..|line| - 1][j];
  }

  lemma SplitFirstLine(line: string, tail: string)
    requires OneLine(line)
    ensures SplitLines(line + tail) == ([line] + SplitLines(tail).0, SplitLines(tail).1)
  {
    FirstNewlineOfLine(line, tail);
    assert (line + tail)[..|line|] == line && (line + tail)[|line|..] == tail;
  }

  /** Lines written one after the other are read back as they were, together with the torn rest. */
  lemma {:induction false} SplitLinesRoundTrip(lines: seq<string>, torn: string)
    requires forall l :: l in lines ==> OneLine(l)
    requires '\n' !in torn
    ensures SplitLines(Concat(lines) + torn) == (lines, torn)
  {
    if lines == [] {
      assert Concat(lines) + torn == torn;
    } else {
      hide *;
      var line, rest := lines[0], lines[1..];
      assert lines == [line] + rest;
      SplitLinesRoundTrip(rest, torn);
      ConcatFront(line, rest);
      Assoc(line, Concat(rest), torn);
      SplitFirstLine(line, Concat(rest) + torn);
    }
  }

  lemma {:induction false} ConcatEndsInNewline(lines: seq<string>)
    requires forall l :: l in lines ==> OneLine(l)
    ensures Concat(lines) == "" <==> lines == []
    ensures lines != [] ==> Concat(lines)[|Concat(lines)| - 1] == '\n'
  {
    if lines != [] {
      assert lines[|lines| - 1] in lines;
    }
  }

  lemma {:induction false} CompletePartIsUnique(text: string, r: string)
    requires r <= text && (r == "" || r[|r| - 1] == '\n')
    requires '\n' !in text[|r|..]
    ensures CompletePart(text) == r
  {
    if text != "" {
      var n := |text| - 1;
      assert |r| <= n ==> text[|r|..][n - |r|] == text[n];
      if text[n] != '\n' {
        assert forall c :: c in text[..n][|r|..] ==> c in text[|r|..];
        CompletePartIsUnique(text[..n], r);
      }
    }
  }

  /** Cutting the torn rest off leaves exactly the complete lines. */
  lemma CompletePartOfLines(lines: seq<string>, torn: string)
    requires forall l :: l in lines ==> OneLine(l)
    requires '\n' !in torn
    ensures CompletePart(Concat(lines) + torn) == Concat(lines)
  {
    ConcatEndsInNewline(lines);
    assert (Concat(lines) + torn)[|Concat(lines)|..] == torn;
    CompletePartIsUnique(Concat(lines) + torn, Concat(lines));
  }

  /** Where a write of these lines was interrupted: k complete lines and a torn one. */
  lemma {:induction false} PrefixOfLines(lines: seq<string>, written: string) returns (k: nat, torn: string)
    requires forall l :: l in lines ==> OneLine(l)
    requires written <= Concat(lines)
    ensures k <= |lines| && written == Concat(lines[..k]) + torn
    ensures torn == "" || (k < |lines| && torn < lines[k])
    ensures '\n' !in torn
  {
    if lines == [] {
      k, torn := 0, "";
    } else {
      var n := |lines| - 1;
      var before := Concat(lines[..n]);
      if |written| <= |before| {
        assert written <= before;
        k, torn := PrefixOfLines(lines[..n], written);
        assert lines[..n][..k] == lines[..k];
      } else if written == Concat(lines) {
        assert lines[..n + 1] == lines;
        k, torn := n + 1, "";
      } else {
        k, torn := n, written[|before|..];
        assert lines[n] in lines;
        assert written[..|before|] == before && written == before + torn;
        assert forall j :: 0 <= j < |torn| ==> torn[j] == lines[n][..|lines[n]| - 1][j];
      }
    }
  }
}
