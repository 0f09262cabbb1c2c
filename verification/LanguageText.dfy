/**
 * Localized texts and PTV's language lists (src/ptv/v11/channelFields.ts:120-136).
 * A localized text is a JavaScript object: an ordered list of languages, none
 * twice, each with its text. A language list may repeat and may hold empty texts.
 */
module LanguageText {
  import opened Wrappers

  datatype Item = Item(language: string, value: string)

  type Text = seq<Item>

  ghost predicate IsText(text: Text) {
    forall i, j :: 0 <= i < j < |text| ==> text[i].language != text[j].language
  }

  ghost predicate AllFilled(text: Text) {
    forall i :: 0 <= i < |text| ==> text[i].value != ""
  }

  /** The value of a language, if there is one; an empty one is one. */
  function Find(text: Text, language: string): Option<string> {
    if text == [] then None
    else if text[0].language == language then Some(text[0].value)
    else Find(text[1..], language)
  }

  /** The value of a language, '' for none: what is written of it, as empty values are not. */
  function Value(text: Text, language: string): string {
    if text == [] then ""
    else if text[0].language == language then text[0].value
    else Value(text[1..], language)
  }

  /** textToLanguageItems: the non-empty texts, in order. */
  function TextToItems(text: Text): seq<Item> {
    if text == [] then []
    else (if text[0].value != "" then [text[0]] else []) + TextToItems(text[1..])
  }

  predicate Has(text: Text, language: string) {
    exists i :: 0 <= i < |text| && text[i].language == language
  }

  /** languageItemsToText, one item at a time. */
  function ItemsToText(items: seq<Item>): Text {
    if items == [] then []
    else
      var last := items[|items| - 1];
      var text := ItemsToText(items[..|items| - 1]);
      if last.value != "" && !Has(text, last.language) then text + [last] else text
  }

  method LanguageItemsToText(items: seq<Item>) returns (text: Text)
    ensures text == ItemsToText(items)
  {
    text := [];
    for i := 0 to |items|
      invariant text == ItemsToText(items[..i])
    {
      assert items[..i + 1][..i] == items[..i];
      if items[i].value != "" && !Has(text, items[i].language) {
        text := text + [items[i]];
      }
    }
    assert items[..|items|] == items;
  }

  lemma {:induction false} FoundValue(text: Text, language: string)
    ensures Value(text, language) == if Find(text, language).Some? then Find(text, language).value else ""
  {
    if text != [] { FoundValue(text[1..], language); }
  }

  lemma {:induction false} FoundAt(text: Text, i: nat)
    requires IsText(text) && i < |text|
    ensures Find(text, text[i].language) == Some(text[i].value)
  {
    if i > 0 { FoundAt(text[1..], i - 1); }
  }

  lemma {:induction false} FoundIn(text: Text, language: string)
    ensures Find(text, language).Some? ==> Item(language, Find(text, language).value) in text
  {
    if text != [] { FoundIn(text[1..], language); }
  }

  /** A text is filled exactly when no language is found empty. */
  lemma FilledExactly(text: Text)
    requires IsText(text)
    ensures AllFilled(text) <==> forall language :: Find(text, language) != Some("")
  {
    if AllFilled(text) {
      forall language
        ensures Find(text, language) != Some("")
      {
        FoundIn(text, language);
      }
    } else {
      var i :| 0 <= i < |text| && text[i].value == "";
      FoundAt(text, i);
      assert Find(text, text[i].language) == Some("");
    }
  }

  // ----- What reading a list gives -----

  /** The first non-empty text of a language in a list. */
  function FirstValue(items: seq<Item>, language: string): string {
    if items == [] then ""
    else if items[0].language == language && items[0].value != "" then items[0].value
    else FirstValue(items[1..], language)
  }

  lemma {:induction false} ValueOfAppended(text: Text, item: Item, language: string)
    ensures Value(text + [item], language) ==
            if Has(text, language) then Value(text, language)
            else if item.language == language then item.value else ""
  {
    if text == [] {
      assert text + [item] == [item];
    } else {
      assert (text + [item])[1..] == text[1..] + [item];
      ValueOfAppended(text[1..], item, language);
      if Has(text, language) && text[0].language != language {
        var i :| 0 <= i < |text| && text[i].language == language;
        assert text[1..][i - 1].language == language;
      }
      if Has(text[1..], language) {
        var i :| 0 <= i < |text[1..]| && text[1..][i].language == language;
        assert text[i + 1].language == language;
      }
    }
  }

  lemma {:induction false} FirstOfAppended(items: seq<Item>, item: Item, language: string)
    ensures FirstValue(items + [item], language) ==
            if FirstValue(items, language) != "" then FirstValue(items, language)
            else if item.language == language then item.value else ""
  {
    if items == [] {
      assert items + [item] == [item];
    } else {
      assert (items + [item])[1..] == items[1..] + [item];
      FirstOfAppended(items[1..], item, language);
    }
  }

  lemma HasOfAppended(text: Text, item: Item, language: string)
    ensures Has(text + [item], language) <==> Has(text, language) || item.language == language
  {
    if Has(text, language) {
      var i :| 0 <= i < |text| && text[i].language == language;
      assert (text + [item])[i].language == language;
    }
    assert (text + [item])[|text|] == item;
  }

  /** What is read is a text without empty values, and each language reads as its first non-empty item. */
  lemma {:induction false} ReadsFirst(items: seq<Item>, language: string)
    ensures IsText(ItemsToText(items))
    ensures AllFilled(ItemsToText(items))
    ensures Value(ItemsToText(items), language) == FirstValue(items, language)
    ensures Has(ItemsToText(items), language) <==> FirstValue(items, language) != ""
    decreases |items|
  {
    if items != [] {
      var n := |items| - 1;
      var text := ItemsToText(items[..n]);
      assert items == items[..n] + [items[n]];
      ReadsFirst(items[..n], language);
      FirstOfAppended(items[..n], items[n], language);
      ValueOfAppended(text, items[n], language);
      HasOfAppended(text, items[n], language);
    }
  }

  // ----- Writing and reading back -----

  lemma {:induction false} ReadKeepsText(text: Text)
    requires IsText(text) && AllFilled(text)
    ensures ItemsToText(text) == text
    decreases |text|
  {
    if text != [] {
      ReadKeepsText(text[..|text| - 1]);
      assert text == text[..|text| - 1] + [text[|text| - 1]];
    }
  }

  lemma {:induction false} ItemsFromText(text: Text, item: Item)
    requires item in TextToItems(text)
    ensures item in text && item.value != ""
  {
    if text != [] && !(text[0].value != "" && item == text[0]) {
      ItemsFromText(text[1..], item);
    }
  }

  lemma {:induction false} ItemsAreText(text: Text)
    requires IsText(text)
    ensures IsText(TextToItems(text)) && AllFilled(TextToItems(text))
  {
    if text != [] {
      ItemsAreText(text[1..]);
      var rest := TextToItems(text[1..]);
      forall i | 0 <= i < |rest|
        ensures rest[i].language != text[0].language
      {
        ItemsFromText(text[1..], rest[i]);
        var j :| 0 <= j < |text| - 1 && text[1..][j] == rest[i];
        assert text[j + 1] == rest[i];
      }
    }
  }

  lemma {:induction false} ItemsOfFilled(text: Text)
    ensures TextToItems(text) == text <==> AllFilled(text)
    ensures |TextToItems(text)| <= |text|
  {
    if text != [] {
      ItemsOfFilled(text[1..]);
      assert text == [text[0]] + text[1..];
      assert forall i :: 0 <= i < |text[1..]| ==> text[1..][i] == text[i + 1];
      if text[0].value != "" {
        assert TextToItems(text)[1..] == TextToItems(text[1..]);
      }
    }
  }

  /** A text read back is the text without its empty values; it is the same text exactly when it has none. */
  lemma TextReadBack(text: Text)
    requires IsText(text)
    ensures ItemsToText(TextToItems(text)) == TextToItems(text)
    ensures ItemsToText(TextToItems(text)) == text <==> AllFilled(text)
  {
    hide ItemsToText, TextToItems;
    ItemsAreText(text);
    ItemsOfFilled(text);
    ReadKeepsText(TextToItems(text));
  }
}
