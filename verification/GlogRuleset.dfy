/** log/handler_glog.go: the grammar of the rule sets that Vmodule accepts, apart from
    the way they are parsed. */
module GlogRuleset {
  import opened Wrappers
  import opened Text
  import opened Glog

  // ---------- blanks ----------

  predicate Blank(s: string) {
    forall i :: 0 <= i < |s| ==> IsSpace(s[i])
  }

  /** Nothing to trim, and something left. */
  predicate Trimmed(s: string) {
    s != "" && !IsSpace(s[0]) && !IsSpace(s[|s| - 1])
  }

  lemma {:induction false} TrimSpaceFinds(before: string, s: string, after: string)
    requires Blank(before) && Blank(after) && Trimmed(s)
    ensures TrimSpace(before + s + after) == s
    decreases |before| + |after|
  {
    var text := before + s + after;
    hide IsSpace;
    if before != "" {
      assert text[0] == before[0] && text[1..] == before[1..] + s + after;
      TrimSpaceFinds(before[1..], s, after);
    } else if after != "" {
      var n := |after| - 1;
      assert text[0] == s[0] && text[|text| - 1] == after[n] && text[..|text| - 1] == before + s + after[..n];
      TrimSpaceFinds(before, s, after[..n]);
    } else {
      assert text == s;
    }
  }

  lemma {:induction false} TrimSpaceOfBlank(s: string)
    requires Blank(s)
    ensures TrimSpace(s) == ""
    decreases |s|
  {
    hide IsSpace;
    if s != "" {
      TrimSpaceOfBlank(s[1..]);
    }
  }

  // ---------- one rule ----------

  /** A piece that is a pattern, one equals sign and a number. */
  predicate Separated(piece: string, pattern: string, number: string) {
    piece == pattern + ['='] + number && '=' !in pattern && '=' !in number
  }

  predicate WellFormed(pattern: string, number: string) {
    TrimSpace(pattern) != "" && TrimSpace(number) != "" && Atoi(TrimSpace(number)).Ok?
  }

  /** What a separated piece stands for: a syntax error, nothing at levels up to zero, or
      the rule. */
  lemma SeparatedPiece(piece: string, pattern: string, number: string)
    requires Separated(piece, pattern, number)
    ensures ParseRule(piece).Ok? <==> WellFormed(pattern, number)
    ensures WellFormed(pattern, number) ==>
              var level := Atoi(TrimSpace(number)).value;
              ParseRule(piece).value == if level > 0 then [Rule(TrimSpace(pattern), level)] else []
  {
    hide Split, TrimSpace, Atoi;
    SplitAfterCleanPrefix(pattern, number, '=');
    SplitAfterCleanPrefix(number, "", '=');
    assert Split(piece, '=') == [pattern] + [number];
  }

  lemma {:induction false} JoinOfSplit(s: string, sep: char)
    ensures Join(Split(s, sep), sep) == s
  {
    if s != "" {
      JoinOfSplit(s[1..], sep);
      var rest, pieces := Split(s[1..], sep), Split(s, sep);
      if s[0] == sep {
        assert pieces[1..] == rest;
      } else {
        assert pieces[1..] == rest[1..];
        assert s == [s[0]] + s[1..];
      }
    }
  }

  lemma TwoPieces(piece: string)
    ensures |Split(piece, '=')| == 2 ==> Separated(piece, Split(piece, '=')[0], Split(piece, '=')[1])
  {
    var parts := Split(piece, '=');
    SplitPiecesAreClean(piece, '=');
    JoinOfSplit(piece, '=');
    hide Split;
    if |parts| == 2 {
      assert parts[0] in parts && parts[1] in parts;
      assert parts == [parts[0]] + [parts[1]];
      assert Join(parts[1..], '=') == parts[1];
    }
  }

  lemma NotEmpty(piece: string, pattern: string, number: string)
    requires Separated(piece, pattern, number)
    ensures piece != ""
  {
  }

  /** A piece is a syntax error if and only if it is neither empty nor a pattern, an equals
      sign and a number. */
  lemma RuleFailsExactly(piece: string)
    ensures ParseRule(piece).Err?
       <==> piece != "" && !(exists pattern, number :: Separated(piece, pattern, number) && WellFormed(pattern, number))
    ensures piece == "" ==> ParseRule(piece) == Ok([])
  {
    TwoPieces(piece);
    hide Separated, WellFormed, TrimSpace, Atoi, Split;
    forall pattern, number | Separated(piece, pattern, number)
      ensures piece != "" && (ParseRule(piece).Ok? <==> WellFormed(pattern, number))
    {
      NotEmpty(piece, pattern, number);
      SeparatedPiece(piece, pattern, number);
    }
  }

  // ---------- rule sets ----------

  lemma {:induction false} AllPiecesParse(pieces: seq<string>)
    ensures ParseRules(pieces).Ok? <==> forall k :: 0 <= k < |pieces| ==> ParseRule(pieces[k]).Ok?
  {
    hide ParseRule;
    if pieces != [] {
      var n := |pieces| - 1;
      AllPiecesParse(pieces[..n]);
      assert forall k :: 0 <= k < n ==> pieces[..n][k] == pieces[k];
    }
  }

  /** A rule set is accepted if and only if none of its comma pieces is a syntax error. */
  lemma RulesetParsesExactly(ruleset: string)
    ensures ParseRuleset(ruleset).Ok? <==> forall piece :: piece in Split(ruleset, ',') ==> ParseRule(piece).Ok?
  {
    hide ParseRule, Split;
    AllPiecesParse(Split(ruleset, ','));
  }

  function RuleText(r: Rule): string {
    r.pattern + ['='] + Itoa(r.level)
  }

  function RuleTexts(rules: seq<Rule>): (texts: seq<string>)
    ensures |texts| == |rules|
    ensures forall k :: 0 <= k < |rules| ==> texts[k] == RuleText(rules[k])
  {
    seq(|rules|, k requires 0 <= k < |rules| => RuleText(rules[k]))
  }

  predicate Writable(r: Rule) {
    Trimmed(r.pattern) && '=' !in r.pattern && ',' !in r.pattern && 0 < r.level <= MAX_INT64
  }

  lemma NumberIsTrimmed(n: nat)
    ensures Trimmed(Itoa(n)) && '=' !in Itoa(n) && ',' !in Itoa(n)
  {
    var number := Itoa(n);
    hide Itoa;
    assert forall i :: 0 <= i < |number| ==> IsDigit(number[i]);
  }

  lemma TrimmedIsNotEmpty(s: string)
    requires Trimmed(s)
    ensures s != ""
  {
  }

  lemma TrimmedStays(s: string)
    requires Trimmed(s)
    ensures TrimSpace(s) == s
  {
    TrimSpaceFinds("", s, "");
    hide TrimSpace, Trimmed;
    assert "" + s + "" == s;
  }

  lemma RuleReadsBack(r: Rule)
    requires Writable(r)
    ensures ParseRule(RuleText(r)) == Ok([r]) && ',' !in RuleText(r)
  {
    hide Itoa, TrimSpace, Atoi, Trimmed, ParseRule;
    var number := Itoa(r.level);
    AtoiOfItoa(r.level);
    NumberIsTrimmed(r.level);
    TrimmedStays(r.pattern);
    TrimmedStays(number);
    TrimmedIsNotEmpty(r.pattern);
    TrimmedIsNotEmpty(number);
    SeparatedPiece(RuleText(r), r.pattern, number);
  }

  lemma {:induction false} TextsReadBack(rules: seq<Rule>)
    requires forall k :: 0 <= k < |rules| ==> Writable(rules[k])
    ensures ParseRules(RuleTexts(rules)) == Ok(rules)
  {
    hide Writable, RuleText, ParseRule;
    if rules != [] {
      var n := |rules| - 1;
      TextsReadBack(rules[..n]);
      assert RuleTexts(rules)[..n] == RuleTexts(rules[..n]);
      RuleReadsBack(rules[n]);
      assert rules == rules[..n] + [rules[n]];
    }
  }

  /** Rules written one after the other, separated by commas, are read back in order. */
  lemma RulesetReadsBack(rules: seq<Rule>)
    requires rules != [] && forall k :: 0 <= k < |rules| ==> Writable(rules[k])
    ensures ParseRuleset(Join(RuleTexts(rules), ',')) == Ok(rules)
  {
    var texts := RuleTexts(rules);
    TextsReadBack(rules);
    hide Writable, RuleText, ParseRules, Split, Join;
    forall text | text in texts
      ensures ',' !in text
    {
      var k :| 0 <= k < |texts| && texts[k] == text;
      RuleReadsBack(rules[k]);
    }
    SplitJoinRoundTrip(texts, ',');
  }
}
