/**
 * Strings and localized texts as the JSON values the diff compares: a string is its UTF-16
 * code units, a localized text an object from languages to texts.
 */
module JsonTexts {
  import opened Wrappers
  import opened StableJson
  import L = LanguageText

  // ----- Strings as UTF-16 -----

  function UnitsOf(c: char): Text {
    var u := c as int;
    if u < 0x1_0000 then [u] else [0xD800 + (u - 0x1_0000) / 0x400, 0xDC00 + (u - 0x1_0000) % 0x400]
  }

  function Units(s: string): Text {
    if s == [] then [] else UnitsOf(s[0]) + Units(s[1..])
  }

  lemma {:induction false} UnitsInjective(a: string, b: string)
    requires Units(a) == Units(b)
    ensures a == b
  {
    if a == [] || b == [] {
      assert a == b == [];
    } else {
      assert Units(a)[0] == Units(b)[0];
      assert |UnitsOf(a[0])| == |UnitsOf(b[0])|;
      assert UnitsOf(a[0]) == Units(a)[..|UnitsOf(a[0])|] == Units(b)[..|UnitsOf(b[0])|] == UnitsOf(b[0]);
      assert Units(a[1..]) == Units(a)[|UnitsOf(a[0])|..];
      assert Units(b[1..]) == Units(b)[|UnitsOf(b[0])|..];
      SameChar(a[0], b[0]);
      UnitsInjective(a[1..], b[1..]);
      assert a == [a[0]] + a[1..] && b == [b[0]] + b[1..];
    }
  }

  lemma SameChar(c: char, d: char)
    requires UnitsOf(c) == UnitsOf(d)
    ensures c == d
  {
    if c as int >= 0x1_0000 {
      assert (c as int - 0x1_0000) / 0x400 == (d as int - 0x1_0000) / 0x400;
      assert (c as int - 0x1_0000) % 0x400 == (d as int - 0x1_0000) % 0x400;
    }
  }

  // ----- Values -----

  function TextValue(s: string): Json {
    Str(Units(s))
  }

  function Optional(s: Option<string>): Json {
    if s.Some? then TextValue(s.value) else Undefined
  }

  function LocalizedValue(text: L.Text): (r: Json)
    ensures r.Obj?
  {
    Obj(seq(|text|, i requires 0 <= i < |text| => Member(Units(text[i].language), TextValue(text[i].value))))
  }

  lemma TextInjective(a: string, b: string)
    ensures TextValue(a) == TextValue(b) ==> a == b
  {
    if TextValue(a) == TextValue(b) { UnitsInjective(a, b); }
  }

  lemma LocalizedInjective(a: L.Text, b: L.Text)
    requires LocalizedValue(a) == LocalizedValue(b)
    ensures a == b
  {
    hide Units, TextValue;
    assert |a| == |LocalizedValue(a).members| == |b|;
    forall i | 0 <= i < |a|
      ensures a[i] == b[i]
    {
      assert LocalizedValue(a).members[i] == LocalizedValue(b).members[i];
      UnitsInjective(a[i].language, b[i].language);
      TextInjective(a[i].value, b[i].value);
    }
  }

  lemma LocalizedWellFormed(text: L.Text)
    requires L.IsText(text)
    ensures WellFormed(LocalizedValue(text))
  {
    forall i, j | 0 <= i < j < |text|
      ensures Units(text[i].language) != Units(text[j].language)
    {
      if Units(text[i].language) == Units(text[j].language) { UnitsInjective(text[i].language, text[j].language); }
    }
  }
}
