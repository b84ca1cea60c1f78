/** The string primitives the repository relies on: comma splitting and joining
    (strings.Split, strings.Join) and decimal conversion (strconv.Atoi). */
module Text {
  import opened Wrappers

  /** strings.Split for a one-character separator: never empty. */
  function Split(s: string, sep: char): (pieces: seq<string>)
    ensures |pieces| >= 1
  {
    if s == "" then [""]
    else
      var rest := Split(s[1..], sep);
      if s[0] == sep then [""] + rest else [[s[0]] + rest[0]] + rest[1..]
  }

  /** strings.Join for a one-character separator. */
  function Join(pieces: seq<string>, sep: char): string {
    if |pieces| == 0 then ""
    else if |pieces| == 1 then pieces[0]
    else pieces[0] + [sep] + Join(pieces[1..], sep)
  }

  lemma {:induction false} SplitPiecesAreClean(s: string, sep: char)
    ensures forall p :: p in Split(s, sep) ==> sep !in p
  {
    if s != "" {
      SplitPiecesAreClean(s[1..], sep);
      var rest := Split(s[1..], sep);
      assert rest[0] in rest;
      forall p | p in Split(s, sep)
        ensures sep !in p
      {
        if s[0] != sep && p == [s[0]] + rest[0] {
        } else if p != "" {
          assert p in rest;
        }
      }
    }
  }

  lemma {:induction false} SplitAfterCleanPrefix(p: string, tail: string, sep: char)
    requires sep !in p
    ensures Split(p + [sep] + tail, sep) == [p] + Split(tail, sep)
    ensures Split(p, sep) == [p]
  {
    if p == "" {
      assert p + [sep] + tail == [sep] + tail;
      assert ([sep] + tail)[1..] == tail;
    } else {
      assert sep !in p[1..];
      SplitAfterCleanPrefix(p[1..], tail, sep);
      assert (p + [sep] + tail)[1..] == p[1..] + [sep] + tail;
      assert [p[0]] + p[1..] == p;
      assert p[0] in p;
    }
  }

  lemma {:induction false} SplitOfCleanJoin(pieces: seq<string>, sep: char)
    requires |pieces| >= 1
    requires forall p :: p in pieces ==> sep !in p
    ensures Split(Join(pieces, sep), sep) == pieces
  {
    assert pieces[0] in pieces;
    if |pieces| == 1 {
      SplitAfterCleanPrefix(pieces[0], "", sep);
      assert pieces == [pieces[0]];
    } else {
      SplitAfterCleanPrefix(pieces[0], Join(pieces[1..], sep), sep);
      SplitOfCleanJoin(pieces[1..], sep);
      assert pieces == [pieces[0]] + pieces[1..];
    }
  }

  /** A joined list splits back to itself exactly when no piece contains the separator. */
  lemma SplitJoinRoundTrip(pieces: seq<string>, sep: char)
    requires |pieces| >= 1
    ensures Split(Join(pieces, sep), sep) == pieces <==> forall p :: p in pieces ==> sep !in p
  {
    if forall p :: p in pieces ==> sep !in p {
      SplitOfCleanJoin(pieces, sep);
    } else {
      SplitPiecesAreClean(Join(pieces, sep), sep);
    }
  }

  // ---------- decimal numbers ----------

  const MAX_INT64: int := 0x7fff_ffff_ffff_ffff

  predicate IsDigit(c: char) {
    '0' <= c <= '9'
  }

  predicate AllDigits(s: string) {
    forall i :: 0 <= i < |s| ==> IsDigit(s[i])
  }

  function DigitValue(c: char): (d: nat)
    requires IsDigit(c)
    ensures d < 10
  {
    (c as int) - ('0' as int)
  }

  function DigitChar(d: nat): (c: char)
    requires d < 10
    ensures IsDigit(c) && DigitValue(c) == d
  {
    (d + ('0' as int)) as char
  }

  function DecimalValue(s: string): nat
    requires AllDigits(s)
  {
    if s == "" then 0 else DecimalValue(s[..|s| - 1]) * 10 + DigitValue(s[|s| - 1])
  }

  /** strconv.Atoi on a 64-bit platform: an optional sign, at least one digit, no
      other character, and a value that fits. */
  function Atoi(s: string): (r: Result<int>) {
    var signed := |s| > 0 && (s[0] == '-' || s[0] == '+');
    var digits := if signed then s[1..] else s;
    if digits == "" || !AllDigits(digits) then Err
    else
      var n: int := DecimalValue(digits);
      if signed && s[0] == '-' then if n <= MAX_INT64 + 1 then Ok(-n) else Err
      else if n <= MAX_INT64 then Ok(n) else Err
  }

  /** Decimal rendering of a non-negative number (strconv.Itoa). */
  function Itoa(n: nat): (s: string)
    ensures |s| > 0 && AllDigits(s)
  {
    if n < 10 then [DigitChar(n)] else Itoa(n / 10) + [DigitChar(n % 10)]
  }

  lemma {:induction false} DecimalValueOfItoa(n: nat)
    ensures DecimalValue(Itoa(n)) == n
  {
    var s := Itoa(n);
    if n >= 10 {
      DecimalValueOfItoa(n / 10);
      assert s[..|s| - 1] == Itoa(n / 10);
    } else {
      assert s[..|s| - 1] == "";
    }
  }

  lemma AtoiOfItoa(n: nat)
    requires n <= MAX_INT64
    ensures Atoi(Itoa(n)) == Ok(n)
  {
    DecimalValueOfItoa(n);
    var s := Itoa(n);
    assert IsDigit(s[0]);
  }

  /** Go's decimal integers: an optional sign and digits, leading zeros allowed, within 64
      bits; anything else is an error. */
  lemma AtoiGrammar(digits: string)
    requires digits != "" && AllDigits(digits)
    ensures var n: int := DecimalValue(digits);
            && Atoi(digits) == (if n <= 0x7fff_ffff_ffff_ffff then Ok(n) else Err)
            && Atoi("+" + digits) == Atoi(digits)
            && Atoi("-" + digits) == (if n <= 0x8000_0000_0000_0000 then Ok(-n) else Err)
  {
    assert IsDigit(digits[0]);
    assert ("+" + digits)[1..] == digits && ("-" + digits)[1..] == digits;
  }

  lemma AtoiErrors(s: string)
    requires Atoi(s).Ok?
    ensures s != "" && (AllDigits(s) || (s[0] in {'+', '-'} && s[1..] != "" && AllDigits(s[1..])))
  {
  }

  lemma {:induction false} LeadingZeros(digits: string)
    requires AllDigits(digits)
    ensures AllDigits("0" + digits) && DecimalValue("0" + digits) == DecimalValue(digits)
  {
    var all := "0" + digits;
    if digits == "" {
      assert all[..0] == "";
    } else {
      var n := |digits| - 1;
      assert all[..n + 1] == "0" + digits[..n];
      LeadingZeros(digits[..n]);
    }
  }

  lemma AtoiWithoutMinus(s: string)
    requires '-' !in s && Atoi(s).Ok?
    ensures Atoi(s).value >= 0
  {
  }
}
