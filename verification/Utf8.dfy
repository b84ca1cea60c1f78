/** How Go writes strings into files: every rune as one to four bytes (RFC 3629,
    section 3). A byte is a character below 256. */
module Utf8 {
  import opened Wrappers
  import opened Lines

  function Byte(n: nat): char
    requires n < 256
  {
    n as char
  }

  function EncodeRune(c: char): (r: string)
    ensures r != ""
  {
    var n := c as int;
    if n < 0x80 then [c]
    else if n < 0x800 then [Byte(0xC0 + n / 0x40), Byte(0x80 + n % 0x40)]
    else if n < 0x1_0000 then [Byte(0xE0 + n / 0x1000), Byte(0x80 + n / 0x40 % 0x40), Byte(0x80 + n % 0x40)]
    else [Byte(0xF0 + n / 0x4_0000), Byte(0x80 + n / 0x1000 % 0x40), Byte(0x80 + n / 0x40 % 0x40), Byte(0x80 + n % 0x40)]
  }

  function Encode(s: string): string {
    if s == "" then "" else EncodeRune(s[0]) + Encode(s[1..])
  }

  /** Characters of the examples in section 7 of RFC 3629. */
  lemma KnownEncodings()
    ensures Encode("A") == [0x41 as char]
    ensures Encode([0x2262 as char]) == [0xE2 as char, 0x89 as char, 0xA2 as char]
    ensures Encode([0x391 as char]) == [0xCE as char, 0x91 as char]
    ensures Encode([0xD55C as char]) == [0xED as char, 0x95 as char, 0x9C as char]
    ensures Encode([0x2_33B4 as char]) == [0xF0 as char, 0xA3 as char, 0x8E as char, 0xB4 as char]
  {
    var texts := ["A", [0x2262 as char], [0x391 as char], [0xD55C as char], [0x2_33B4 as char]];
    forall i | 0 <= i < |texts|
      ensures Encode(texts[i]) == EncodeRune(texts[i][0])
    {
      assert texts[i][1..] == "" && Encode("") == "";
      assert EncodeRune(texts[i][0]) + "" == EncodeRune(texts[i][0]);
    }
  }

  /** The low six bits of the byte at position i, if there is one. */
  function Bits(b: string, i: nat): nat {
    if i < |b| && b[i] as int >= 0x80 then (b[i] as int - 0x80) % 0x40 else 0
  }

  /** The number of bytes the first one announces, and the number they spell. */
  function Width(b: string): nat
    requires b != ""
    ensures Width(b) >= 1
  {
    if b[0] as int < 0x80 then 1 else if b[0] as int < 0xE0 then 2 else if b[0] as int < 0xF0 then 3 else 4
  }

  function Spelled(b: string): int
    requires b != ""
  {
    var n := b[0] as int;
    match Width(b)
    case 1 => n
    case 2 => (n - 0xC0) * 0x40 + Bits(b, 1)
    case 3 => (n - 0xE0) * 0x1000 + Bits(b, 1) * 0x40 + Bits(b, 2)
    case _ => (n - 0xF0) * 0x4_0000 + Bits(b, 1) * 0x1000 + Bits(b, 2) * 0x40 + Bits(b, 3)
  }

  predicate IsRune(n: int) {
    0 <= n < 0xD800 || 0xE000 <= n < 0x11_0000
  }

  function Decode(b: string): Option<string> {
    if b == "" then Some("")
    else if Width(b) > |b| || !IsRune(Spelled(b)) then None
    else
      var rest := Decode(b[Width(b)..]);
      if rest.None? then None else Some([Spelled(b) as char] + rest.value)
  }

  lemma SixBits(n: nat)
    ensures n == n / 0x40 * 0x40 + n % 0x40
    ensures n / 0x40 == n / 0x1000 * 0x40 + n / 0x40 % 0x40
    ensures n / 0x1000 == n / 0x4_0000 * 0x40 + n / 0x1000 % 0x40
  {
  }

  lemma BitsOf(b: string, i: nat, x: nat)
    requires i < |b| && x < 0x40 && b[i] == Byte(0x80 + x)
    ensures Bits(b, i) == x
  {
  }

  lemma RuneReadsBack(c: char, tail: string)
    ensures var b := EncodeRune(c) + tail;
            b != "" && Width(b) == |EncodeRune(c)| && Spelled(b) == c as int && b[Width(b)..] == tail
  {
    var n := c as int;
    var rune := EncodeRune(c);
    var b := rune + tail;
    assert b[|rune|..] == tail;
    hide Bits;
    if n >= 0x80 {
      BitsOf(b, |rune| - 1, n % 0x40);
    }
    if n >= 0x800 {
      BitsOf(b, |rune| - 2, n / 0x40 % 0x40);
    }
    if n >= 0x1_0000 {
      BitsOf(b, 1, n / 0x1000 % 0x40);
    }
    SixBits(n);
  }

  lemma {:induction false} DecodeOfEncode(s: string)
    ensures Decode(Encode(s)) == Some(s)
  {
    if s != "" {
      DecodeOfEncode(s[1..]);
      RuneReadsBack(s[0], Encode(s[1..]));
      hide EncodeRune, Width, Spelled;
      assert s == [s[0]] + s[1..];
    }
  }

  lemma {:induction false} EncodeAppend(a: string, b: string)
    ensures Encode(a + b) == Encode(a) + Encode(b)
  {
    hide EncodeRune;
    if a == "" {
      assert a + b == b;
    } else {
      EncodeAppend(a[1..], b);
      assert (a + b)[1..] == a[1..] + b;
      Assoc(EncodeRune(a[0]), Encode(a[1..]), Encode(b));
    }
  }

  lemma {:induction false} NewlinesStay(s: string)
    ensures '\n' in Encode(s) <==> '\n' in s
  {
    if s != "" {
      NewlinesStay(s[1..]);
      assert '\n' in EncodeRune(s[0]) <==> s[0] == '\n';
      hide EncodeRune;
      assert s == [s[0]] + s[1..];
    }
  }

  /** No byte of a longer rune is a newline, so lines stay lines. */
  lemma LinesStay(line: string)
    requires OneLine(line)
    ensures OneLine(Encode(line))
  {
    var body := line[..|line| - 1];
    assert line == body + "\n";
    EncodeAppend(body, "\n");
    assert Encode("\n") == "\n";
    NewlinesStay(body);
    assert Encode(line)[..|Encode(line)| - 1] == Encode(body);
  }

  function EncodeAll(lines: seq<string>): (r: seq<string>)
    ensures |r| == |lines| && forall i :: 0 <= i < |r| ==> r[i] == Encode(lines[i])
  {
    seq(|lines|, i requires 0 <= i < |lines| => Encode(lines[i]))
  }

  lemma {:induction false} EncodeOfConcat(lines: seq<string>)
    ensures Encode(Concat(lines)) == Concat(EncodeAll(lines))
  {
    if lines != [] {
      var n := |lines| - 1;
      EncodeOfConcat(lines[..n]);
      EncodeAppend(Concat(lines[..n]), lines[n]);
      assert EncodeAll(lines)[..n] == EncodeAll(lines[..n]);
    }
  }
}
