/** scenario/utils.go: number lists such as "1,3-5,8". */
module Nums {
  import opened Wrappers
  import opened Text

  const ROWS_SEPARATOR := ','
  const RANGE_SEPARATOR := '-'

  /** The numbers first, first+1, ..., last; none when last < first. */
  function Range(first: int, last: int): (r: seq<int>)
    ensures |r| == if last < first then 0 else last - first + 1
    ensures forall i :: 0 <= i < |r| ==> r[i] == first + i
  {
    seq(if last < first then 0 else last - first + 1, i => first + i)
  }

  function FirstIndex(s: string, c: char): (i: nat)
    requires c in s
    ensures i < |s| && s[i] == c
    ensures forall j :: 0 <= j < i ==> s[j] != c
  {
    if s[0] == c then 0 else 1 + FirstIndex(s[1..], c)
  }

  /** One comma piece: a range when it holds a dash, otherwise a number. */
  function ParsePiece(s: string): Result<seq<int>> {
    if RANGE_SEPARATOR in s then
      var cut := FirstIndex(s, RANGE_SEPARATOR);
      var first := Atoi(s[..cut]);
      var last := Atoi(s[cut + 1..]);
      if first.Err? || last.Err? then Err else Ok(Range(first.value, last.value))
    else
      var number := Atoi(s);
      if number.Err? then Err else Ok([number.value])
  }

  function ParsePieces(pieces: seq<string>): Result<seq<int>> {
    if pieces == [] then Ok([])
    else
      var init := ParsePieces(pieces[..|pieces| - 1]);
      var last := ParsePiece(pieces[|pieces| - 1]);
      if init.Err? || last.Err? then Err else Ok(init.value + last.value)
  }

  /** What parseNums returns. */
  function Parse(s: string): Result<seq<int>> {
    ParsePieces(Split(s, ROWS_SEPARATOR))
  }

  /** The list used by callers that drop the error: parseNums returns an empty list with it. */
  function ParsedOrEmpty(s: string): seq<int> {
    var r := Parse(s);
    if r.Ok? then r.value else []
  }

  /** The inner loop of parseNums. */
  method AppendRange(users: seq<int>, first: int, last: int) returns (r: seq<int>)
    ensures r == users + Range(first, last)
  {
    r := users;
    var user := first;
    while user <= last
      invariant first <= user
      invariant user <= last + 1 || user == first
      invariant r == users + Range(first, user - 1)
    {
      assert Range(first, user) == Range(first, user - 1) + [user];
      r := r + [user];
      user := user + 1;
    }
    assert Range(first, user - 1) == Range(first, last);
  }

  lemma {:induction false} ErrorPersists(pieces: seq<string>, k: nat)
    requires k <= |pieces| && ParsePieces(pieces[..k]).Err?
    ensures ParsePieces(pieces).Err?
    decreases |pieces| - k
  {
    if k < |pieces| {
      assert pieces[..k + 1][..k] == pieces[..k];
      ErrorPersists(pieces, k + 1);
    } else {
      assert pieces[..k] == pieces;
    }
  }

  /** Reading one more piece: its error is the error of the whole list, its numbers are appended. */
  lemma PieceStep(pieces: seq<string>, k: nat)
    requires k < |pieces| && ParsePieces(pieces[..k]).Ok?
    ensures ParsePiece(pieces[k]).Err? ==> ParsePieces(pieces).Err?
    ensures ParsePiece(pieces[k]).Ok? ==>
              ParsePieces(pieces[..k + 1]) ==
              Ok(ParsePieces(pieces[..k]).value + ParsePiece(pieces[k]).value)
  {
    assert pieces[..k + 1][..k] == pieces[..k];
    if ParsePiece(pieces[k]).Err? {
      ErrorPersists(pieces, k + 1);
    }
  }

  method ParseNums(usersStr: string) returns (r: Result<seq<int>>)
    ensures r == Parse(usersStr)
  {
    var arr := Split(usersStr, ROWS_SEPARATOR);
    var users: seq<int> := [];
    for k := 0 to |arr|
      invariant ParsePieces(arr[..k]) == Ok(users)
    {
      var s := arr[k];
      PieceStep(arr, k);
      if RANGE_SEPARATOR in s {
        var cut := FirstIndex(s, RANGE_SEPARATOR);
        var first := Atoi(s[..cut]);
        if first.Err? {
          return Err;
        }
        var last := Atoi(s[cut + 1..]);
        if last.Err? {
          return Err;
        }
        users := AppendRange(users, first.value, last.value);
      } else {
        var user := Atoi(s);
        if user.Err? {
          return Err;
        }
        users := users + [user.value];
      }
    }
    assert arr[..|arr|] == arr;
    return Ok(users);
  }

  // ---------- the accepted grammar ----------

  /** A number without a dash ("7", "+7"). */
  predicate IsNumber(piece: string) {
    RANGE_SEPARATOR !in piece && Atoi(piece).Ok?
  }

  predicate SplitsInto(piece: string, first: string, last: string) {
    && piece == first + [RANGE_SEPARATOR] + last
    && IsNumber(first) && Atoi(last).Ok?
  }

  /** Two numbers split at the first dash; the second may itself be negative ("2--3"). */
  ghost predicate IsRange(piece: string) {
    exists first: string, last: string :: SplitsInto(piece, first, last)
  }

  lemma FirstDashIsUnique(piece: string, first: string, last: string)
    requires piece == first + [RANGE_SEPARATOR] + last && RANGE_SEPARATOR !in first
    ensures RANGE_SEPARATOR in piece && FirstIndex(piece, RANGE_SEPARATOR) == |first|
    ensures piece[..|first|] == first && piece[|first| + 1..] == last
  {
    assert piece[|first|] == RANGE_SEPARATOR;
    assert forall j :: 0 <= j < |first| ==> piece[j] == first[j];
  }

  lemma PieceGrammar(piece: string)
    ensures ParsePiece(piece).Ok? <==> IsNumber(piece) || IsRange(piece)
  {
    hide Atoi, IsDigit;
    if IsRange(piece) {
      var first: string, last: string :| SplitsInto(piece, first, last);
      FirstDashIsUnique(piece, first, last);
    } else if RANGE_SEPARATOR in piece {
      var cut := FirstIndex(piece, RANGE_SEPARATOR);
      assert piece == piece[..cut] + [RANGE_SEPARATOR] + piece[cut + 1..];
      assert !SplitsInto(piece, piece[..cut], piece[cut + 1..]);
    }
  }

  ghost predicate SomePieceFails(pieces: seq<string>) {
    exists p :: p in pieces && ParsePiece(p).Err?
  }

  lemma LastPieceMayFail(pieces: seq<string>)
    requires pieces != []
    ensures SomePieceFails(pieces)
       <==> SomePieceFails(pieces[..|pieces| - 1]) || ParsePiece(pieces[|pieces| - 1]).Err?
  {
    hide ParsePiece;
    assert pieces == pieces[..|pieces| - 1] + [pieces[|pieces| - 1]];
    assert pieces[|pieces| - 1] in pieces;
  }

  lemma {:induction false} ParsePiecesFails(pieces: seq<string>)
    ensures ParsePieces(pieces).Err? <==> SomePieceFails(pieces)
  {
    if pieces != [] {
      LastPieceMayFail(pieces);
      hide ParsePiece, SomePieceFails;
      ParsePiecesFails(pieces[..|pieces| - 1]);
    }
  }

  /** Parsing fails exactly when some comma piece is outside the grammar. */
  lemma ParseFailsExactly(s: string)
    ensures Parse(s).Err? <==>
            exists p :: p in Split(s, ROWS_SEPARATOR) && !IsNumber(p) && !IsRange(p)
  {
    var pieces := Split(s, ROWS_SEPARATOR);
    ParsePiecesFails(pieces);
    if p :| p in pieces && ParsePiece(p).Err? {
      PieceGrammar(p);
      assert p in pieces && !IsNumber(p) && !IsRange(p);
    }
    if p :| p in pieces && !IsNumber(p) && !IsRange(p) {
      PieceGrammar(p);
      assert p in pieces && ParsePiece(p).Err?;
    }
  }

  lemma {:induction false} PiecesAreNotNegative(pieces: seq<string>)
    requires ParsePieces(pieces).Ok?
    ensures forall n :: n in ParsePieces(pieces).value ==> n >= 0
  {
    if pieces != [] {
      PiecesAreNotNegative(pieces[..|pieces| - 1]);
      var last := pieces[|pieces| - 1];
      if RANGE_SEPARATOR in last {
        AtoiWithoutMinus(last[..FirstIndex(last, RANGE_SEPARATOR)]);
      } else {
        AtoiWithoutMinus(last);
      }
    }
  }

  /** No negative number ever comes out of a successful parse. */
  lemma ParsedNumbersAreNotNegative(s: string)
    requires Parse(s).Ok?
    ensures forall n :: n in Parse(s).value ==> n >= 0
  {
    PiecesAreNotNegative(Split(s, ROWS_SEPARATOR));
  }

  // ---------- rendering ----------

  datatype Item = Single(n: nat) | Span(first: nat, last: nat)
  {
    predicate Fits() {
      match this
      case Single(n) => n <= MAX_INT64
      case Span(first, last) => first <= MAX_INT64 && last <= MAX_INT64
    }

    function Text(): string {
      match this
      case Single(n) => Itoa(n)
      case Span(first, last) => Itoa(first) + [RANGE_SEPARATOR] + Itoa(last)
    }

    function Numbers(): seq<int> {
      match this
      case Single(n) => [n]
      case Span(first, last) => Range(first, last)
    }
  }

  function Texts(items: seq<Item>): (texts: seq<string>)
    ensures |texts| == |items|
    ensures forall i :: 0 <= i < |items| ==> texts[i] == items[i].Text()
  {
    seq(|items|, i requires 0 <= i < |items| => items[i].Text())
  }

  function AllNumbers(items: seq<Item>): seq<int> {
    if items == [] then []
    else AllNumbers(items[..|items| - 1]) + items[|items| - 1].Numbers()
  }

  function Render(items: seq<Item>): string {
    Join(Texts(items), ROWS_SEPARATOR)
  }

  lemma DigitsHoldNoSeparator(s: string, c: char)
    requires AllDigits(s) && !IsDigit(c)
    ensures c !in s
  {
  }

  lemma PieceRoundTrip(item: Item)
    requires item.Fits()
    ensures ParsePiece(item.Text()) == Ok(item.Numbers())
    ensures ROWS_SEPARATOR !in item.Text()
  {
    match item
    case Single(n) =>
      AtoiOfItoa(n);
      DigitsHoldNoSeparator(Itoa(n), RANGE_SEPARATOR);
    case Span(first, last) =>
      AtoiOfItoa(first);
      AtoiOfItoa(last);
      DigitsHoldNoSeparator(Itoa(first), RANGE_SEPARATOR);
      FirstDashIsUnique(item.Text(), Itoa(first), Itoa(last));
  }

  lemma {:induction false} PiecesRoundTrip(items: seq<Item>)
    requires forall i :: 0 <= i < |items| ==> items[i].Fits()
    ensures ParsePieces(Texts(items)) == Ok(AllNumbers(items))
  {
    if items != [] {
      var k := |items| - 1;
      PiecesRoundTrip(items[..k]);
      assert Texts(items)[..k] == Texts(items[..k]);
      PieceRoundTrip(items[k]);
    }
  }

  /** Rendering singletons and ranges and parsing the text back gives their concatenation in order. */
  lemma RenderParseRoundTrip(items: seq<Item>)
    requires items != [] && forall i :: 0 <= i < |items| ==> items[i].Fits()
    ensures Parse(Render(items)) == Ok(AllNumbers(items))
  {
    forall p | p in Texts(items)
      ensures ROWS_SEPARATOR !in p
    {
      var i :| 0 <= i < |items| && p == items[i].Text();
      PieceRoundTrip(items[i]);
    }
    SplitOfCleanJoin(Texts(items), ROWS_SEPARATOR);
    PiecesRoundTrip(items);
  }

  /** A parse can succeed with no number at all: a descending range such as "5-3" is accepted. */
  lemma DescendingRangeParsesToNothing(first: nat, last: nat)
    requires last < first <= MAX_INT64
    ensures Parse(Itoa(first) + [RANGE_SEPARATOR] + Itoa(last)) == Ok([])
  {
    var items := [Span(first, last)];
    RenderParseRoundTrip(items);
    assert Render(items) == items[0].Text();
    assert AllNumbers(items) == AllNumbers(items[..0]) + Range(first, last);
    var nothing: seq<int> := [];
    assert AllNumbers(items) == nothing;
  }

  lemma OneDigit(n: nat)
    requires n < 10
    ensures Parse([DigitChar(n)]) == Ok([n])
  {
    hide Parse;
    var items := [Single(n)];
    RenderParseRoundTrip(items);
    assert Render(items) == items[0].Text() == [DigitChar(n)];
    assert items[..0] == [];
    assert AllNumbers(items[..0]) == [];
    assert AllNumbers(items) == [n];
  }

  lemma TwoDigits(m: nat, n: nat)
    requires m < 10 && n < 10
    ensures Parse([DigitChar(m)] + [ROWS_SEPARATOR] + [DigitChar(n)]) == Ok([m, n])
  {
    hide Parse;
    var items := [Single(m), Single(n)];
    RenderParseRoundTrip(items);
    var texts := Texts(items);
    assert texts[1..] == [items[1].Text()];
    assert Join(texts[1..], ROWS_SEPARATOR) == [DigitChar(n)];
    assert texts[0] == [DigitChar(m)];
    assert Render(items) == [DigitChar(m)] + [ROWS_SEPARATOR] + [DigitChar(n)];
    var one := items[..1];
    assert one[..0] == [];
    assert AllNumbers(one[..0]) == [];
    assert AllNumbers(one) == [m];
    assert AllNumbers(items) == [m, n];
  }
}
