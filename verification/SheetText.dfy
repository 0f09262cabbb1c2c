/**
 * Names and texts inside the spreadsheet (src/export/xlsx.ts:26-62): column letters,
 * sheet names, and XML text.
 */
module SheetText {
  import opened Wrappers

  // ----- Columns: 0 is A, 25 is Z, 26 is AA -----

  predicate Letter(c: char) { 'A' <= c <= 'Z' }

  predicate Letters(name: string) {
    forall i :: 0 <= i < |name| ==> Letter(name[i])
  }

  function LetterOf(k: nat): char
    requires k < 26
  {
    'A' + (k as char)
  }

  /** The letters of the n-th column, counted from 1; none for 0. */
  function ColumnOf(n: nat): string {
    if n == 0 then [] else ColumnOf((n - 1) / 26) + [LetterOf((n - 1) % 26)]
  }

  /** What a reader makes of the letters. */
  function ColumnNumber(name: string): nat
    requires Letters(name)
  {
    if name == [] then 0
    else ColumnNumber(name[..|name| - 1]) * 26 + (name[|name| - 1] - 'A') as nat + 1
  }

  method ColumnName(index: nat) returns (name: string)
    ensures name == ColumnOf(index + 1)
  {
    name := "";
    var n: nat := index + 1;
    assert ColumnOf(index + 1) == ColumnOf(n) + name;
    while n > 0
      invariant ColumnOf(index + 1) == ColumnOf(n) + name
    {
      name := [LetterOf((n - 1) % 26)] + name;
      n := (n - 1) / 26;
    }
    assert ColumnOf(0) + name == name;
  }

  lemma {:induction false} ColumnNumbered(n: nat)
    ensures Letters(ColumnOf(n)) && ColumnNumber(ColumnOf(n)) == n
  {
    if n > 0 {
      ColumnNumbered((n - 1) / 26);
      var name := ColumnOf(n);
      assert name[..|name| - 1] == ColumnOf((n - 1) / 26);
    }
  }

  lemma {:induction false} NumberedColumn(name: string)
    requires Letters(name)
    ensures ColumnOf(ColumnNumber(name)) == name
    decreases |name|
  {
    if name != [] {
      var n := |name| - 1;
      NumberedColumn(name[..n]);
      var k := (name[n] - 'A') as nat;
      assert (ColumnNumber(name) - 1) / 26 == ColumnNumber(name[..n]) && (ColumnNumber(name) - 1) % 26 == k;
      assert name == name[..n] + [name[n]];
    }
  }

  /** Column names and column numbers are one to one, and every string of letters names a column. */
  lemma ColumnsOneToOne(n: nat, name: string)
    requires Letters(name)
    ensures ColumnOf(n) == name <==> ColumnNumber(name) == n
  {
    ColumnNumbered(n);
    NumberedColumn(name);
  }

  // ----- Sheet names -----

  const MAX_SHEET_NAME := 31

  predicate Forbidden(c: char) {
    c in {'[', ']', ':', '*', '?', '/', '\\'}
  }

  /** toLowerCase, whatever it does to letters. */
  type Lowering = string -> string

  predicate AllDigits(text: string) {
    forall i :: 0 <= i < |text| ==> '0' <= text[i] <= '9'
  }

  /** A space and a number stay as they are, and change nothing about the text before them. */
  ghost predicate KeepsNumbers(lower: Lowering) {
    forall text, digits :: AllDigits(digits) ==> lower(text + [' '] + digits) == lower(text) + [' '] + digits
  }

  function Cleaned(name: string): (r: string)
    ensures |r| == |name| && forall i :: 0 <= i < |r| ==> r[i] == if Forbidden(name[i]) then ' ' else name[i]
  {
    seq(|name|, i requires 0 <= i < |name| => if Forbidden(name[i]) then ' ' else name[i])
  }

  function Start(text: string, n: nat): string {
    if |text| <= n then text else text[..n]
  }

  function Base(name: string): string {
    var base := Start(Cleaned(name), MAX_SHEET_NAME);
    if base == "" then "Sheet" else base
  }

  function Digits(n: nat): string {
    (if n < 10 then [] else Digits(n / 10)) + ['0' + (n % 10) as char]
  }

  function Pow10(k: nat): nat { if k == 0 then 1 else 10 * Pow10(k - 1) }

  /** The i-th name tried; the numbers tried here have far fewer digits than a name has room for. */
  function Candidate(base: string, i: nat): string {
    if i < 2 then base
    else
      var digits := Digits(i);
      Start(base, if |digits| < MAX_SHEET_NAME then MAX_SHEET_NAME - |digits| - 1 else 0) + [' '] + digits
  }

  lemma {:induction false} DigitsShort(n: nat, k: nat)
    requires 1 <= k && n < Pow10(k)
    ensures 1 <= |Digits(n)| <= k
    decreases k
  {
    assert Pow10(1) == 10 * Pow10(0) == 10;
    if n >= 10 {
      assert k > 1;
      DigitsShort(n / 10, k - 1);
    }
  }

  lemma {:induction false} DigitsOnly(n: nat)
    ensures AllDigits(Digits(n))
  {
    if n >= 10 { DigitsOnly(n / 10); }
  }

  lemma {:induction false} DigitsUnique(a: nat, b: nat)
    requires Digits(a) == Digits(b)
    ensures a == b
    decreases a
  {
    var x, y := Digits(a), Digits(b);
    assert x[|x| - 1] == '0' + (a % 10) as char && y[|y| - 1] == '0' + (b % 10) as char;
    assert a % 10 == b % 10;
    assert x[..|x| - 1] == (if a < 10 then [] else Digits(a / 10));
    assert y[..|y| - 1] == (if b < 10 then [] else Digits(b / 10));
    if a >= 10 {
      DigitsUnique(a / 10, b / 10);
    }
  }

  /** A text up to its last space tells the rest: names tried with different numbers differ, in lower case too. */
  lemma AfterLastSpace(a: string, b: string, x: string, y: string)
    requires ' ' !in x && ' ' !in y && a + [' '] + x == b + [' '] + y
    ensures x == y
  {
    var s, t := a + [' '] + x, b + [' '] + y;
    assert s[|a|] == ' ' && forall i :: |a| < i < |s| ==> s[i] == x[i - |a| - 1];
    assert t[|b|] == ' ' && forall i :: |b| < i < |t| ==> t[i] == y[i - |b| - 1];
    assert |a| == |b|;
    assert x == s[|a| + 1..] && y == t[|b| + 1..];
  }

  lemma CandidatesDiffer(lower: Lowering, base: string, i: nat, j: nat)
    requires KeepsNumbers(lower) && 2 <= i && 2 <= j && lower(Candidate(base, i)) == lower(Candidate(base, j))
    ensures i == j
  {
    var x, y := Digits(i), Digits(j);
    DigitsOnly(i);
    DigitsOnly(j);
    var a := Start(base, if |x| < MAX_SHEET_NAME then MAX_SHEET_NAME - |x| - 1 else 0);
    var b := Start(base, if |y| < MAX_SHEET_NAME then MAX_SHEET_NAME - |y| - 1 else 0);
    hide Digits, Start;
    assert lower(a + [' '] + x) == lower(a) + [' '] + x && lower(b + [' '] + y) == lower(b) + [' '] + y;
    AfterLastSpace(lower(a), lower(b), x, y);
    DigitsUnique(i, j);
  }

  ghost predicate GoodSheetName(name: string) {
    1 <= |name| <= 31 && forall i :: 0 <= i < |name| ==> name[i] !in "[]:*?/\\"
  }

  lemma ForbiddenListed(c: char)
    ensures Forbidden(c) <==> c in "[]:*?/\\"
  {
    assert forall i :: 0 <= i < 7 ==> Forbidden("[]:*?/\\"[i]);
    var k := if c == '[' then 0 else if c == ']' then 1 else if c == ':' then 2 else if c == '*' then 3
             else if c == '?' then 4 else if c == '/' then 5 else 6;
    assert Forbidden(c) ==> "[]:*?/\\"[k] == c;
  }

  /** The first 31 characters of the name with a space for each that Excel forbids, or Sheet for none. */
  lemma BaseIs(name: string)
    ensures if name == "" then Base(name) == "Sheet"
            else
              && |Base(name)| == (if |name| <= 31 then |name| else 31)
              && forall i :: 0 <= i < |Base(name)| ==> Base(name)[i] == if name[i] in "[]:*?/\\" then ' ' else name[i]
  {
    hide Forbidden;
    forall i | 0 <= i < |Base(name)| && name != ""
      ensures Base(name)[i] == if name[i] in "[]:*?/\\" then ' ' else name[i]
    {
      ForbiddenListed(name[i]);
    }
  }

  lemma BaseGood(name: string)
    ensures GoodSheetName(Base(name))
  {
    hide Base;
    BaseIs(name);
  }

  /** The number that decimal digits stand for. */
  function NumberOf(digits: string): nat
    requires AllDigits(digits)
  {
    if digits == [] then 0 else 10 * NumberOf(digits[..|digits| - 1]) + (digits[|digits| - 1] - '0') as nat
  }

  lemma {:induction false} DigitsRead(n: nat)
    ensures AllDigits(Digits(n)) && NumberOf(Digits(n)) == n
    ensures Digits(n) != [] && (n > 0 ==> Digits(n)[0] != '0')
  {
    if n >= 10 {
      DigitsRead(n / 10);
      assert Digits(n)[..|Digits(n)| - 1] == Digits(n / 10);
      assert Digits(n)[0] == Digits(n / 10)[0];
    } else {
      assert Digits(n)[..0] == [];
    }
  }

  /** The i-th name tried: as much of the wanted one as 31 characters leave room for, a space and i in decimal. */
  ghost predicate Numbered(base: string, i: nat, candidate: string) {
    exists k: nat, digits: string ::
      && k <= |base| && candidate == base[..k] + [' '] + digits
      && AllDigits(digits) && NumberOf(digits) == i && digits != [] && digits[0] != '0'
      && (k == |base| || |candidate| == 31)
  }

  lemma CandidateNumbered(base: string, i: nat)
    requires 2 <= i < Pow10(29)
    ensures Numbered(base, i, Candidate(base, i))
  {
    hide Digits, Pow10, NumberOf, AllDigits;
    DigitsShort(i, 29);
    DigitsRead(i);
    var digits := Digits(i);
    var room := MAX_SHEET_NAME - |digits| - 1;
    var k := if |base| <= room then |base| else room;
    assert Start(base, room) == base[..k];
  }

  lemma CandidateGood(name: string, i: nat)
    requires i < Pow10(29)
    ensures GoodSheetName(Candidate(Base(name), i))
  {
    BaseGood(name);
    hide Base, Digits, Pow10;
    if i >= 2 {
      DigitsShort(i, 29);
      DigitsOnly(i);
    }
  }

  lemma {:induction false} Pow10Grows(k: nat)
    ensures Pow10(k + 9) >= 1_000_000_000
  {
    if k == 0 {
      assert Pow10(3) == 1000;
      assert Pow10(6) == 1000 * Pow10(3);
      assert Pow10(9) == 1000 * Pow10(6);
    } else {
      Pow10Grows(k - 1);
    }
  }

  /** The names tried from 2 on. */
  function Tried(lower: Lowering, base: string, n: nat): set<string> {
    if n < 2 then {} else Tried(lower, base, n - 1) + {lower(Candidate(base, n))}
  }

  lemma {:induction false} TriedIs(lower: Lowering, base: string, n: nat, text: string)
    ensures text in Tried(lower, base, n) <==> exists i :: 2 <= i <= n && lower(Candidate(base, i)) == text
  {
    hide Candidate;
    if n >= 2 { TriedIs(lower, base, n - 1, text); }
  }

  lemma {:induction false} TriedCount(lower: Lowering, base: string, n: nat)
    requires KeepsNumbers(lower)
    ensures |Tried(lower, base, n)| == if n < 2 then 0 else n - 1
  {
    if n >= 2 {
      TriedCount(lower, base, n - 1);
      TriedIs(lower, base, n - 1, lower(Candidate(base, n)));
      if lower(Candidate(base, n)) in Tried(lower, base, n - 1) {
        var i :| 2 <= i <= n - 1 && lower(Candidate(base, i)) == lower(Candidate(base, n));
        CandidatesDiffer(lower, base, i, n);
      }
    }
  }

  /**
   * A name for the next sheet: allowed, and different from the names before it whatever the
   * case. The search ends because the names tried differ from one another. A JavaScript Set
   * holds at most 2^24 names.
   */
  method SheetName(lower: Lowering, name: string, used: set<string>) returns (candidate: string, usedAfter: set<string>)
    requires KeepsNumbers(lower) && |used| <= 0x100_0000
    ensures GoodSheetName(candidate)
    ensures lower(candidate) !in used && usedAfter == used + {lower(candidate)}
    ensures lower(Base(name)) !in used ==> candidate == Base(name)
    ensures lower(Base(name)) in used ==>
              exists i :: 2 <= i && Numbered(Base(name), i, candidate) && Tried(lower, Base(name), i - 1) <= used
  {
    hide Candidate, Tried, Base, Numbered, Pow10;
    var base := Base(name);
    candidate := base;
    var i := 2;
    assert candidate == Candidate(base, 0) && Tried(lower, base, 1) == {} by { FirstCandidate(lower, base); }
    ghost var tried := 0;
    Pow10Grows(20);
    while lower(candidate) in used
      invariant i >= 2 && candidate == Candidate(base, tried) && (tried == 0 || tried == i - 1) && (i == 2 ==> tried == 0)
      invariant Tried(lower, base, i - 1) <= used || tried == i - 1
      invariant tried == i - 1 ==> Tried(lower, base, i - 2) <= used
      invariant i > 2 ==> tried == i - 1 && lower(base) in used
      invariant i <= |used| + 3
      decreases |used| + 3 - i
    {
      if tried != 0 {
        NextTried(lower, base, i - 1);
      }
      assert Tried(lower, base, i - 1) <= used;
      SubsetNoLarger(Tried(lower, base, i - 1), used);
      TriedCount(lower, base, i - 1);
      candidate := Candidate(base, i);
      tried := i;
      i := i + 1;
    }
    assert tried < Pow10(29) by { assert Pow10(20 + 9) >= 1_000_000_000; }
    CandidateGood(name, tried);
    if tried != 0 { CandidateNumbered(base, tried); }
    usedAfter := used + {lower(candidate)};
  }

  lemma FirstCandidate(lower: Lowering, base: string)
    ensures Candidate(base, 0) == base && Tried(lower, base, 0) == {} && Tried(lower, base, 1) == {}
  {
  }

  lemma NextTried(lower: Lowering, base: string, n: nat)
    requires n >= 2
    ensures Tried(lower, base, n) == Tried(lower, base, n - 1) + {lower(Candidate(base, n))}
  {
  }

  // ----- XML text -----

  /** The characters a cell keeps: of those below space, only the three that XML text may hold (section 2.2 of XML 1.0). */
  predicate Allowed(c: char) {
    c >= ' ' || c == '\t' || c == '\n' || c == '\r'
  }

  function WithoutControlCharacters(text: string): string {
    if text == [] then [] else (if Allowed(text[0]) then [text[0]] else []) + WithoutControlCharacters(text[1..])
  }

  /** Of each character, in order, it is kept unless it is a control character other than tab, line feed and carriage return. */
  lemma {:induction false} KeptCharacters(text: string, last: char)
    ensures WithoutControlCharacters("") == ""
    ensures WithoutControlCharacters(text + [last])
            == WithoutControlCharacters(text) + if last >= ' ' || last == '\t' || last == '\n' || last == '\r' then [last] else []
  {
    if text == [] {
      assert text + [last] == [last] && [last][1..] == [];
    } else {
      KeptCharacters(text[1..], last);
      assert (text + [last])[1..] == text[1..] + [last];
    }
  }

  function Replace(text: string, c: char, replacement: string): string {
    if text == [] then [] else (if text[0] == c then replacement else [text[0]]) + Replace(text[1..], c, replacement)
  }

  function EscapeXml(text: string): string {
    Replace(Replace(Replace(Replace(WithoutControlCharacters(text), '&', "&amp;"), '<', "&lt;"), '>', "&gt;"), '"', "&quot;")
  }

  function Entity(c: char): string {
    if c == '&' then "&amp;" else if c == '<' then "&lt;" else if c == '>' then "&gt;" else if c == '"' then "&quot;" else [c]
  }

  /** What an XML reader makes of a text: entities stand for their characters. */
  function Unescape(text: string): string
    decreases |text|
  {
    if text == [] then []
    else if text[0] == '&' && |text| >= 5 && text[1] == 'a' && text[2] == 'm' && text[3] == 'p' && text[4] == ';' then
      ['&'] + Unescape(text[5..])
    else if text[0] == '&' && |text| >= 4 && text[1] == 'l' && text[2] == 't' && text[3] == ';' then ['<'] + Unescape(text[4..])
    else if text[0] == '&' && |text| >= 4 && text[1] == 'g' && text[2] == 't' && text[3] == ';' then ['>'] + Unescape(text[4..])
    else if text[0] == '&' && |text| >= 6 && text[1] == 'q' && text[2] == 'u' && text[3] == 'o' && text[4] == 't' && text[5] == ';' then
      ['"'] + Unescape(text[6..])
    else [text[0]] + Unescape(text[1..])
  }

  lemma {:induction false} ReplaceJoined(a: string, b: string, c: char, replacement: string)
    ensures Replace(a + b, c, replacement) == Replace(a, c, replacement) + Replace(b, c, replacement)
  {
    if a == [] {
      assert a + b == b;
    } else {
      assert (a + b)[1..] == a[1..] + b;
      ReplaceJoined(a[1..], b, c, replacement);
    }
  }

  function Escaped(text: string): string {
    Replace(Replace(Replace(Replace(text, '&', "&amp;"), '<', "&lt;"), '>', "&gt;"), '"', "&quot;")
  }

  lemma EscapedJoined(a: string, b: string)
    ensures Escaped(a + b) == Escaped(a) + Escaped(b)
  {
    hide Replace;
    var a1, b1 := Replace(a, '&', "&amp;"), Replace(b, '&', "&amp;");
    ReplaceJoined(a, b, '&', "&amp;");
    var a2, b2 := Replace(a1, '<', "&lt;"), Replace(b1, '<', "&lt;");
    ReplaceJoined(a1, b1, '<', "&lt;");
    var a3, b3 := Replace(a2, '>', "&gt;"), Replace(b2, '>', "&gt;");
    ReplaceJoined(a2, b2, '>', "&gt;");
    ReplaceJoined(a3, b3, '"', "&quot;");
  }

  lemma {:induction false} ReplaceNone(text: string, c: char, replacement: string)
    requires c !in text
    ensures Replace(text, c, replacement) == text
  {
    if text != [] {
      ReplaceNone(text[1..], c, replacement);
      assert text == [text[0]] + text[1..];
    }
  }

  lemma ReplaceOne(c: char, replacement: string)
    ensures Replace([c], c, replacement) == replacement
  {
    assert [c][1..] == [];
  }

  /** The order of the replacements matters: the ampersand first, or its own entities would be escaped again. */
  lemma EscapedOne(c: char)
    ensures Escaped([c]) == Entity(c)
  {
    hide Replace;
    if c == '&' {
      ReplaceOne(c, "&amp;");
      ReplaceNone("&amp;", '<', "&lt;");
      ReplaceNone("&amp;", '>', "&gt;");
      ReplaceNone("&amp;", '"', "&quot;");
    } else {
      ReplaceNone([c], '&', "&amp;");
      if c == '<' {
        ReplaceOne(c, "&lt;");
        ReplaceNone("&lt;", '>', "&gt;");
        ReplaceNone("&lt;", '"', "&quot;");
      } else {
        ReplaceNone([c], '<', "&lt;");
        if c == '>' {
          ReplaceOne(c, "&gt;");
          ReplaceNone("&gt;", '"', "&quot;");
        } else {
          ReplaceNone([c], '>', "&gt;");
          if c == '"' { ReplaceOne(c, "&quot;"); } else { ReplaceNone([c], '"', "&quot;"); }
        }
      }
    }
  }

  lemma {:induction false} EscapedReadsBack(text: string)
    ensures Unescape(Escaped(text)) == text
  {
    hide Replace;
    if text == [] {
      assert Escaped([]) == [] by { NothingEscaped(); }
    } else {
      EscapedReadsBack(text[1..]);
      assert text == [text[0]] + text[1..];
      EscapedJoined([text[0]], text[1..]);
      EscapedOne(text[0]);
    }
  }

  lemma NothingEscaped()
    ensures Escaped([]) == []
  {
  }

  predicate Safe(text: string) {
    '<' !in text && '>' !in text && '"' !in text
  }

  lemma {:induction false} EscapedIsSafe(text: string)
    ensures Safe(Escaped(text))
  {
    hide Replace;
    if text == [] {
      NothingEscaped();
    } else {
      EscapedIsSafe(text[1..]);
      assert text == [text[0]] + text[1..];
      EscapedJoined([text[0]], text[1..]);
      EscapedOne(text[0]);
    }
  }

  /** A reader turns every line end into a line feed before anything else (section 2.11 of XML 1.0). */
  function LineEnds(text: string): string
    decreases |text|
  {
    if text == [] then []
    else if text[0] == '\r' then ['\n'] + LineEnds(if |text| > 1 && text[1] == '\n' then text[2..] else text[1..])
    else [text[0]] + LineEnds(text[1..])
  }

  function XmlRead(text: string): string {
    Unescape(LineEnds(text))
  }

  lemma {:induction false} NoLineEnds(text: string, rest: string)
    requires '\r' !in text
    ensures LineEnds(text + rest) == text + LineEnds(rest)
  {
    if text == [] {
      assert text + rest == rest;
    } else {
      assert (text + rest)[1..] == text[1..] + rest;
      NoLineEnds(text[1..], rest);
      assert text == [text[0]] + text[1..];
      assert LineEnds(text + rest) == [text[0]] + LineEnds((text + rest)[1..]);
    }
  }

  lemma EscapedFirst(c: char, rest: string)
    ensures Escaped([c] + rest) == Entity(c) + Escaped(rest)
  {
    hide Replace, Escaped;
    EscapedJoined([c], rest);
    EscapedOne(c);
  }

  /** Escaping changes no line ends. */
  lemma {:induction false} LineEndsOfEscaped(text: string)
    ensures LineEnds(Escaped(text)) == Escaped(LineEnds(text))
    decreases |text|
  {
    hide Escaped;
    if text == [] {
      NothingEscaped();
    } else if text[0] == '\r' {
      var rest := text[1..];
      assert text == [text[0]] + rest;
      EscapedFirst('\r', rest);
      if rest != [] && rest[0] == '\n' {
        assert rest == ['\n'] + text[2..];
        EscapedFirst('\n', text[2..]);
        assert Escaped(text) == ['\r', '\n'] + Escaped(text[2..]);
        assert Escaped(text)[2..] == Escaped(text[2..]);
        LineEndsOfEscaped(text[2..]);
        EscapedFirst('\n', LineEnds(text[2..]));
      } else {
        if rest == [] {
          NothingEscaped();
        } else {
          assert rest == [rest[0]] + rest[1..];
          EscapedFirst(rest[0], rest[1..]);
        }
        assert Escaped(text)[1..] == Escaped(rest);
        LineEndsOfEscaped(rest);
        EscapedFirst('\n', LineEnds(rest));
      }
    } else {
      assert text == [text[0]] + text[1..];
      EscapedFirst(text[0], text[1..]);
      NoLineEnds(Entity(text[0]), Escaped(text[1..]));
      LineEndsOfEscaped(text[1..]);
      EscapedFirst(text[0], LineEnds(text[1..]));
    }
  }

  /** What can be kept: no control characters and no carriage returns. */
  predicate Keepable(text: string) {
    forall i :: 0 <= i < |text| ==> text[i] >= ' ' || text[i] == '\t' || text[i] == '\n'
  }

  lemma {:induction false} OnlyAllowedStay(text: string)
    ensures forall i :: 0 <= i < |WithoutControlCharacters(text)| ==> Allowed(WithoutControlCharacters(text)[i])
    ensures Keepable(text) ==> WithoutControlCharacters(text) == text
  {
    if text != [] {
      OnlyAllowedStay(text[1..]);
      assert text == [text[0]] + text[1..];
      if Keepable(text) {
        assert Allowed(text[0]);
        assert forall i :: 0 <= i < |text[1..]| ==> text[1..][i] == text[i + 1];
      }
    }
  }

  lemma {:induction false} LineEndsKeep(text: string)
    requires forall i :: 0 <= i < |text| ==> Allowed(text[i])
    ensures Keepable(LineEnds(text))
    ensures Keepable(text) ==> LineEnds(text) == text
    decreases |text|
  {
    if text != [] {
      var rest := if text[0] == '\r' && |text| > 1 && text[1] == '\n' then text[2..] else text[1..];
      LineEndsKeep(rest);
      assert text == [text[0]] + text[1..];
    }
  }

  /**
   * A cell's text reads back without its control characters and with line feeds for its line
   * ends, so as it was exactly when it has neither control characters nor carriage returns; no
   * character of it can end the element or attribute it is in.
   */
  lemma XmlTextReadsBack(text: string)
    ensures XmlRead(EscapeXml(text)) == LineEnds(WithoutControlCharacters(text))
    ensures XmlRead(EscapeXml(text)) == text <==> Keepable(text)
    ensures Safe(EscapeXml(text))
  {
    hide Replace, WithoutControlCharacters, LineEnds, Unescape, Allowed;
    var kept := WithoutControlCharacters(text);
    LineEndsOfEscaped(kept);
    EscapedReadsBack(LineEnds(kept));
    EscapedIsSafe(kept);
    assert EscapeXml(text) == Escaped(kept);
    OnlyAllowedStay(text);
    LineEndsKeep(kept);
  }
}
