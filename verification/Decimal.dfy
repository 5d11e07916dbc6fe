/** Decimal numbers as Python writes them and as its `int` reads them back. */
module Decimal {
  import opened Outcomes

  predicate IsSpace(c: char) {
    c in {' ', '\t', '\n', '\r', '\U{0B}', '\U{0C}'}
  }

  predicate IsDigit(c: char) {
    '0' <= c <= '9'
  }

  function StripLeft(text: string): string {
    if text != [] && IsSpace(text[0]) then StripLeft(text[1..]) else text
  }

  function StripRight(text: string): string {
    if text != [] && IsSpace(text[|text| - 1]) then StripRight(text[..|text| - 1]) else text
  }

  /** Digits, with single underscores allowed between them. */
  function ParseDigits(text: string): Option<nat> {
    if text == [] || !IsDigit(text[|text| - 1]) then None else
      var digit := text[|text| - 1] as nat - '0' as nat;
      var rest := text[..|text| - 1];
      if rest == [] then Some(digit) else
        var front := if rest[|rest| - 1] == '_' then rest[..|rest| - 1] else rest;
        match ParseDigits(front)
        case None => None
        case Some(value) => Some(10 * value + digit)
  }

  /** Digits after at most one sign. */
  function ParseSigned(text: string): Option<int> {
    var signed := text != [] && (text[0] == '+' || text[0] == '-');
    match ParseDigits(if signed then text[1..] else text)
    case None => None
    case Some(value) =>
      var sign: int := if signed && text[0] == '-' then -1 else 1;
      Some(sign * value)
  }

  /** Surrounding spaces and one sign are accepted. */
  function ParseInt(text: string): Option<int> {
    ParseSigned(StripRight(StripLeft(text)))
  }

  function Digits(n: nat): (text: string)
    ensures text != [] && forall i :: 0 <= i < |text| ==> IsDigit(text[i])
  {
    var last := [('0' as nat + n % 10) as char];
    if n < 10 then last else Digits(n / 10) + last
  }

  function FormatInt(n: int): string {
    if n < 0 then "-" + Digits(-n) else Digits(n)
  }

  lemma {:induction false} ParseDigitsInverts(n: nat)
    ensures ParseDigits(Digits(n)) == Some(n)
  {
    var text := Digits(n);
    if n < 10 {
      assert text[..|text| - 1] == [];
    } else {
      assert text[..|text| - 1] == Digits(n / 10);
      ParseDigitsInverts(n / 10);
    }
  }

  lemma {:induction false} NothingToStrip(text: string)
    requires text != [] && !IsSpace(text[0]) && !IsSpace(text[|text| - 1])
    ensures StripRight(StripLeft(text)) == text
  {
  }

  lemma {:induction false} FormatEnds(n: int)
    ensures var text := FormatInt(n);
            text != [] && !IsSpace(text[0]) && !IsSpace(text[|text| - 1])
    ensures n < 0 ==> FormatInt(n)[0] == '-' && FormatInt(n)[1..] == Digits(-n)
    ensures n >= 0 ==> IsDigit(FormatInt(n)[0])
  {
    if n < 0 {
      var digits := Digits(-n);
      assert FormatInt(n)[|digits|] == digits[|digits| - 1];
    }
  }

  lemma {:induction false} ReadSigned(text: string, value: nat)
    requires text != []
    ensures text[0] == '-' && ParseDigits(text[1..]) == Some(value) ==> ParseSigned(text) == Some(-(value as int))
    ensures text[0] !in {'+', '-'} && ParseDigits(text) == Some(value) ==> ParseSigned(text) == Some(value as int)
  {
  }

  lemma {:induction false} SignedInverts(n: int)
    ensures ParseSigned(FormatInt(n)) == Some(n)
  {
    var value: nat := if n < 0 then -n else n;
    FormatEnds(n);
    ParseDigitsInverts(value);
    ReadSigned(FormatInt(n), value);
  }

  /** Reading back what was written gives the number, for every integer. */
  lemma {:induction false} ParseInverts(n: int)
    ensures ParseInt(FormatInt(n)) == Some(n)
  {
    FormatEnds(n);
    NothingToStrip(FormatInt(n));
    SignedInverts(n);
  }

  // ---- Which texts are read as numbers ----------------------------------

  /** Digits, with single underscores between digits. */
  ghost predicate Numeral(s: string) {
    && s != [] && IsDigit(s[0]) && IsDigit(s[|s| - 1])
    && (forall i :: 0 <= i < |s| ==> IsDigit(s[i]) || s[i] == '_')
    && forall i :: 0 < i < |s| && s[i] == '_' ==> s[i - 1] != '_'
  }

  /** The number the digits write; underscores do not count. */
  ghost function ValueOf(s: string): int {
    if s == [] then 0
    else
      var front, last := s[..|s| - 1], s[|s| - 1];
      if last == '_' then ValueOf(front) else 10 * ValueOf(front) + (last as int - '0' as int)
  }

  lemma {:induction false} NumeralFront(s: string)
    requires |s| >= 2 && IsDigit(s[|s| - 1])
    ensures var rest := s[..|s| - 1];
            var front := if rest[|rest| - 1] == '_' then rest[..|rest| - 1] else rest;
            && (Numeral(s) <==> Numeral(front))
            && ValueOf(s) == 10 * ValueOf(front) + (s[|s| - 1] as int - '0' as int)
  {
    var rest := s[..|s| - 1];
    var front := if rest[|rest| - 1] == '_' then rest[..|rest| - 1] else rest;
    assert forall i :: 0 <= i < |front| ==> front[i] == s[i];
    if Numeral(front) {
      forall i | 0 <= i < |s| ensures IsDigit(s[i]) || s[i] == '_' {
        if i < |front| { assert front[i] == s[i]; }
      }
      forall i | 0 < i < |s| && s[i] == '_' ensures s[i - 1] != '_' {
        if i < |front| { assert front[i] == s[i] && front[i - 1] == s[i - 1]; }
      }
    }
  }

  lemma {:induction false} DigitsReadExactly(s: string)
    ensures ParseDigits(s).Some? <==> Numeral(s)
    ensures ParseDigits(s).Some? ==> ParseDigits(s).value == ValueOf(s)
    decreases |s|
  {
    if |s| >= 2 && IsDigit(s[|s| - 1]) {
      var rest := s[..|s| - 1];
      NumeralFront(s);
      DigitsReadExactly(if rest[|rest| - 1] == '_' then rest[..|rest| - 1] else rest);
    } else if |s| == 1 {
      assert s[..0] == [];
      assert ValueOf(s) == 10 * ValueOf([]) + (if s[0] == '_' then 0 else s[0] as int - '0' as int) || s[0] == '_';
    }
  }

  /** A numeral, with at most one sign in front. */
  ghost predicate Signed(s: string, n: int) {
    || (Numeral(s) && n == ValueOf(s))
    || (s != [] && s[0] == '+' && Numeral(s[1..]) && n == ValueOf(s[1..]))
    || (s != [] && s[0] == '-' && Numeral(s[1..]) && n == -ValueOf(s[1..]))
  }

  lemma {:induction false} SignedReadExactly(s: string, n: int)
    ensures ParseSigned(s) == Some(n) <==> Signed(s, n)
  {
    DigitsReadExactly(s);
    if s != [] { DigitsReadExactly(s[1..]); }
  }

  ghost predicate Blank(s: string) {
    forall i :: 0 <= i < |s| ==> IsSpace(s[i])
  }

  lemma {:induction false} LeftStripped(text: string) returns (lead: string)
    ensures Blank(lead) && text == lead + StripLeft(text)
    ensures StripLeft(text) != [] ==> !IsSpace(StripLeft(text)[0])
    decreases |text|
  {
    if text != [] && IsSpace(text[0]) {
      var later := LeftStripped(text[1..]);
      lead := [text[0]] + later;
      var rest := StripLeft(text[1..]);
      assert text == [text[0]] + (later + rest) == lead + rest;
    } else {
      lead := [];
    }
  }

  lemma {:induction false} RightStripped(text: string) returns (trail: string)
    ensures Blank(trail) && text == StripRight(text) + trail
    decreases |text|
  {
    if text != [] && IsSpace(text[|text| - 1]) {
      var earlier := RightStripped(text[..|text| - 1]);
      trail := earlier + [text[|text| - 1]];
      assert text == text[..|text| - 1] + [text[|text| - 1]];
    } else {
      trail := [];
    }
  }

  lemma {:induction false} StripLeftOf(lead: string, s: string)
    requires Blank(lead) && s != [] && !IsSpace(s[0])
    ensures StripLeft(lead + s) == s
    decreases |lead|
  {
    if lead == [] {
      assert lead + s == s;
    } else {
      assert (lead + s)[1..] == lead[1..] + s;
      StripLeftOf(lead[1..], s);
    }
  }

  lemma {:induction false} StripRightOf(s: string, trail: string)
    requires Blank(trail) && s != [] && !IsSpace(s[|s| - 1])
    ensures StripRight(s + trail) == s
    decreases |trail|
  {
    if trail == [] {
      assert s + trail == s;
    } else {
      assert (s + trail)[..|s + trail| - 1] == s + trail[..|trail| - 1];
      StripRightOf(s, trail[..|trail| - 1]);
    }
  }

  lemma {:induction false} SignedEnds(s: string, n: int)
    requires Signed(s, n)
    ensures s != [] && !IsSpace(s[0]) && !IsSpace(s[|s| - 1])
  {
    if !Numeral(s) { assert s[1..][|s| - 2] == s[|s| - 1]; }
  }

  /** A text is read as a number exactly when it is that number's digits, perhaps with single underscores
      between them, a sign in front and white space around. */
  lemma {:induction false} ParsesExactly(text: string, n: int)
    ensures ParseInt(text) == Some(n) <==>
              exists lead, s, trail :: text == lead + s + trail && Blank(lead) && Blank(trail) && Signed(s, n)
  {
    var lead := LeftStripped(text);
    var trail := RightStripped(StripLeft(text));
    var core := StripRight(StripLeft(text));
    SignedReadExactly(core, n);
    assert text == lead + core + trail;
    forall x, s, y | text == x + s + y && Blank(x) && Blank(y) && Signed(s, n) ensures core == s {
      SignedEnds(s, n);
      StripLeftOf(x, s + y);
      StripRightOf(s, y);
      assert x + s + y == x + (s + y);
    }
  }
}
