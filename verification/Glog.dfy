/** log/handler_glog.go: verbosity rules and the call-site cache of GlogHandler.
    Whether a rule's pattern matches a call site is an abstract predicate. */
module Glog {
  import opened Wrappers
  import opened Text

  /** A program counter; it determines the source location that rules match. */
  type Site = nat

  /** A rule admits records up to its level at the sites its pattern matches. */
  datatype Rule = Rule(pattern: string, level: nat)

  type Matcher = (string, Site) -> bool

  // ---------- the uncached meaning of a rule list ----------

  /** The level of the first matching rule, 0 when there is none. */
  function FirstMatch(m: Matcher, rules: seq<Rule>, site: Site): nat {
    if rules == [] then 0
    else if m(rules[0].pattern, site) then rules[0].level
    else FirstMatch(m, rules[1..], site)
  }

  /** Rule k matches the site and no rule before it does. */
  predicate FirstAt(m: Matcher, rules: seq<Rule>, site: Site, k: nat) {
    && k < |rules| && m(rules[k].pattern, site)
    && forall j :: 0 <= j < k ==> !m(rules[j].pattern, site)
  }

  /** The level is that of the first rule that matches, by position, or 0. */
  ghost predicate LevelBy(m: Matcher, rules: seq<Rule>, site: Site, level: nat) {
    && (forall k: nat :: FirstAt(m, rules, site, k) ==> level == rules[k].level)
    && ((forall k :: 0 <= k < |rules| ==> !m(rules[k].pattern, site)) ==> level == 0)
  }

  /** The first rule that matches lets records of this level through. */
  ghost predicate Admits(m: Matcher, rules: seq<Rule>, site: Site, lvl: nat) {
    exists k: nat :: FirstAt(m, rules, site, k) && rules[k].level >= lvl
  }

  lemma {:induction false} FindFirst(m: Matcher, rules: seq<Rule>, site: Site, i: nat) returns (k: Option<nat>)
    requires i <= |rules| && forall j :: 0 <= j < i ==> !m(rules[j].pattern, site)
    ensures k.None? ==> FirstMatch(m, rules[i..], site) == 0 && forall j :: 0 <= j < |rules| ==> !m(rules[j].pattern, site)
    ensures k.Some? ==> FirstAt(m, rules, site, k.value) && FirstMatch(m, rules[i..], site) == rules[k.value].level
    decreases |rules| - i
  {
    if i == |rules| {
      k := None;
    } else if m(rules[i].pattern, site) {
      k := Some(i);
    } else {
      k := FindFirst(m, rules, site, i + 1);
      assert rules[i..][1..] == rules[i + 1..];
    }
  }

  lemma OnlyOneIsFirst(m: Matcher, rules: seq<Rule>, site: Site, k: nat)
    requires FirstAt(m, rules, site, k)
    ensures forall l: nat :: FirstAt(m, rules, site, l) ==> l == k
  {
  }

  lemma FirstMatchByPosition(m: Matcher, rules: seq<Rule>, site: Site)
    ensures LevelBy(m, rules, site, FirstMatch(m, rules, site))
  {
    var k := FindFirst(m, rules, site, 0);
    assert rules[0..] == rules;
    hide FirstMatch;
    if k.Some? {
      OnlyOneIsFirst(m, rules, site, k.value);
      assert m(rules[k.value].pattern, site);
    }
  }

  lemma AdmitsByLevel(m: Matcher, rules: seq<Rule>, site: Site, lvl: nat)
    requires lvl > 0
    ensures FirstMatch(m, rules, site) >= lvl <==> Admits(m, rules, site, lvl)
  {
    var k := FindFirst(m, rules, site, 0);
    assert rules[0..] == rules;
    hide FirstMatch;
    if k.Some? {
      OnlyOneIsFirst(m, rules, site, k.value);
    }
  }

  /** The override flag is the rule count as a uint32. */
  function Flag(rules: seq<Rule>): nat {
    |rules| % 0x1_0000_0000
  }

  /** The rules that can take effect: none when the flag reads zero. */
  function InForce(rules: seq<Rule>): seq<Rule> {
    if Flag(rules) == 0 then [] else rules
  }

  /** Whether a record passes, computed without any cache. */
  predicate Passes(m: Matcher, level: nat, rules: seq<Rule>, site: Site, lvl: nat) {
    level >= lvl || FirstMatch(m, InForce(rules), site) >= lvl
  }

  /** Rules appended behind one that matches change no verdict at that site. */
  lemma RulesBehindDoNotMatter(m: Matcher, level: nat, rules: seq<Rule>, more: seq<Rule>, site: Site, k: nat, lvl: nat)
    requires FirstAt(m, rules, site, k)
    ensures FirstMatch(m, rules + more, site) == FirstMatch(m, rules, site) == rules[k].level
    ensures Flag(rules) != 0 && Flag(rules + more) != 0 ==>
              (Passes(m, level, rules + more, site, lvl) <==> Passes(m, level, rules, site, lvl))
  {
    FirstMatchByPosition(m, rules, site);
    FirstMatchByPosition(m, rules + more, site);
    assert FirstAt(m, rules + more, site, k);
  }

  type Cache = map<Site, nat>

  /** Every cached level is the first match of the rules, or 0. */
  ghost predicate CacheAgrees(m: Matcher, rules: seq<Rule>, cache: Cache) {
    forall site :: site in cache ==> cache[site] == FirstMatch(m, rules, site)
  }

  // ---------- parsing a ruleset ----------

  /** unicode.IsSpace. */
  predicate IsSpace(c: char) {
    var n := c as int;
    || 9 <= n <= 13 || n == 0x20 || n == 0x85 || n == 0xA0 || n == 0x1680
    || 0x2000 <= n <= 0x200a || n == 0x2028 || n == 0x2029 || n == 0x202f || n == 0x205f || n == 0x3000
  }

  function TrimSpace(s: string): (r: string)
    ensures r != "" ==> !IsSpace(r[0]) && !IsSpace(r[|r| - 1])
  {
    if s == "" then ""
    else if IsSpace(s[0]) then TrimSpace(s[1..])
    else if IsSpace(s[|s| - 1]) then TrimSpace(s[..|s| - 1])
    else s
  }

  /** One comma piece: nothing, a rule, or a syntax error. */
  function ParseRule(piece: string): Result<seq<Rule>> {
    if piece == "" then Ok([])
    else
      var parts := Split(piece, '=');
      if |parts| != 2 then Err
      else
        var pattern, number := TrimSpace(parts[0]), TrimSpace(parts[1]);
        if pattern == "" || number == "" then Err
        else
          var level := Atoi(number);
          if level.Err? then Err
          else if level.value <= 0 then Ok([])
          else Ok([Rule(pattern, level.value)])
  }

  function ParseRules(pieces: seq<string>): Result<seq<Rule>> {
    if pieces == [] then Ok([])
    else
      var init := ParseRules(pieces[..|pieces| - 1]);
      var last := ParseRule(pieces[|pieces| - 1]);
      if init.Err? || last.Err? then Err else Ok(init.value + last.value)
  }

  function ParseRuleset(ruleset: string): Result<seq<Rule>> {
    ParseRules(Split(ruleset, ','))
  }

  lemma {:induction false} RuleErrorPersists(pieces: seq<string>, k: nat)
    requires k <= |pieces| && ParseRules(pieces[..k]).Err?
    ensures ParseRules(pieces).Err?
    decreases |pieces| - k
  {
    if k < |pieces| {
      assert pieces[..k + 1][..k] == pieces[..k];
      RuleErrorPersists(pieces, k + 1);
    } else {
      assert pieces[..k] == pieces;
    }
  }

  lemma {:induction false} ParsedRulesArePositive(pieces: seq<string>)
    requires ParseRules(pieces).Ok?
    ensures forall r :: r in ParseRules(pieces).value ==> r.level > 0 && r.pattern != ""
  {
    if pieces != [] {
      ParsedRulesArePositive(pieces[..|pieces| - 1]);
    }
  }

  // ---------- the handler ----------

  class GlogHandler {
    const m: Matcher
    var level: nat
    var override: nat
    var patterns: seq<Rule>
    var siteCache: Option<Cache>

    ghost predicate Valid()
      reads this
    {
      && override == Flag(patterns)
      && (siteCache.None? ==> patterns == [])
      && (siteCache.Some? ==> CacheAgrees(m, patterns, siteCache.value))
    }

    constructor (m: Matcher)
      ensures Valid() && this.m == m && level == 0 && patterns == [] && siteCache == None
    {
      this.m := m;
      level, override, patterns, siteCache := 0, 0, [], None;
    }

    method Verbosity(l: nat)
      requires Valid()
      modifies this`level
      ensures Valid() && level == l
    {
      level := l;
    }

    /** A syntax error anywhere leaves the handler as it was. */
    method Vmodule(ruleset: string) returns (ok: bool)
      requires Valid()
      modifies this
      ensures Valid() && level == old(level)
      ensures ok <==> ParseRuleset(ruleset).Ok?
      ensures ok ==> patterns == ParseRuleset(ruleset).value && siteCache == Some(map[])
      ensures !ok ==> patterns == old(patterns) && siteCache == old(siteCache)
    {
      var filter: seq<Rule> := [];
      var pieces := Split(ruleset, ',');
      for k := 0 to |pieces|
        invariant Valid() && level == old(level)
        invariant patterns == old(patterns) && siteCache == old(siteCache)
        invariant ParseRules(pieces[..k]) == Ok(filter)
      {
        assert pieces[..k + 1][..k] == pieces[..k];
        var rule := ParseRule(pieces[k]);
        if rule.Err? {
          RuleErrorPersists(pieces, k + 1);
          return false;
        }
        filter := filter + rule.value;
      }
      assert pieces[..|pieces|] == pieces;
      patterns := filter;
      siteCache := Some(map[]);
      override := |filter| % 0x1_0000_0000;
      return true;
    }

    /** The section of Log under the write lock. */
    method ComputeAndStore(site: Site) returns (lvl: nat)
      requires siteCache.Some?
      modifies this`siteCache
      ensures lvl == FirstMatch(m, patterns, site) && LevelBy(m, patterns, site, lvl)
      ensures siteCache == Some(old(siteCache).value[site := lvl])
    {
      FirstMatchByPosition(m, patterns, site);
      hide LevelBy;
      lvl := 0;
      var i := 0;
      while i < |patterns|
        invariant 0 <= i <= |patterns| && lvl == 0 && siteCache == old(siteCache)
        invariant FirstMatch(m, patterns, site) == FirstMatch(m, patterns[i..], site)
      {
        assert patterns[i..][1..] == patterns[i + 1..];
        if m(patterns[i].pattern, site) {
          siteCache := Some(siteCache.value[site := patterns[i].level]);
          return patterns[i].level;
        }
        i := i + 1;
      }
      siteCache := Some(siteCache.value[site := 0]);
    }

    /** Whether the record is handed on; alone, the cache is never observable. */
    method Log(site: Site, lvl: nat) returns (emitted: bool)
      requires Valid()
      modifies this`siteCache
      ensures Valid()
      ensures emitted <==> Passes(m, level, patterns, site, lvl)
      ensures emitted <==> level >= lvl || (|patterns| % 0x1_0000_0000 != 0 && Admits(m, patterns, site, lvl))
    {
      hide Admits;
      if lvl > 0 {
        AdmitsByLevel(m, patterns, site, lvl);
      }
      if level >= lvl {
        return true;
      }
      if override == 0 {
        return false;
      }
      var cached := 0;
      if site in siteCache.value {
        cached := siteCache.value[site];
      } else {
        cached := ComputeAndStore(site);
      }
      return cached >= lvl;
    }
  }
}
