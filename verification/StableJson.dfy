/**
 * The comparison key of the diff (src/mcp/proposeChanges.ts:193-213): two JSON
 * values get the same text exactly when they are equal up to the order of
 * object members and members that are undefined.
 */
module StableJson {

  /** A UTF-16 code unit; JavaScript strings and object keys are sequences of them. */
  type unit = u: int | 0 <= u < 0x1_0000
  type Text = seq<unit>

  /**
   * A value as the diff meets it. A number is given by the text JSON.stringify
   * writes for it. `Undefined` is not JSON, but object members can hold it.
   */
  datatype Json =
    | Undefined
    | Null
    | Bool(b: bool)
    | Num(digits: Text)
    | Str(s: Text)
    | Arr(items: seq<Json>)
    | Obj(members: seq<Member>)

  datatype Member = Member(key: Text, value: Json)

  /** The collation that sorts the keys: le(a, b) when a.localeCompare(b) <= 0. */
  type Order = (Text, Text) -> bool

  const QUOTE: unit := 0x22
  const COMMA: unit := 0x2C
  const COLON: unit := 0x3A
  const BACKSLASH: unit := 0x5C
  const OPEN_LIST: unit := 0x5B
  const CLOSE_LIST: unit := 0x5D
  const OPEN_OBJECT: unit := 0x7B
  const CLOSE_OBJECT: unit := 0x7D
  const LOWER_U: unit := 0x75
  const MINUS: unit := 0x2D
  const NULL_TEXT: Text := [0x6E, 0x75, 0x6C, 0x6C]
  const TRUE_TEXT: Text := [0x74, 0x72, 0x75, 0x65]
  const FALSE_TEXT: Text := [0x66, 0x61, 0x6C, 0x73, 0x65]

  // ----- JSON.stringify of a string -----

  predicate High(u: unit) {
    0xD800 <= u < 0xDC00
  }

  predicate Low(u: unit) {
    0xDC00 <= u < 0xE000
  }

  /** A surrogate pair is written as it is; a lone surrogate is escaped. */
  predicate Paired(s: Text) {
    |s| >= 2 && High(s[0]) && Low(s[1])
  }

  function HexDigit(d: nat): unit
    requires d < 16
  {
    if d < 10 then 0x30 + d else 0x61 + d - 10
  }

  /** The letter after the backslash in a short escape, or 0. */
  function ShortEscape(u: unit): unit {
    if u == 0x08 then 0x62 else if u == 0x09 then 0x74 else if u == 0x0A then 0x6E
    else if u == 0x0C then 0x66 else if u == 0x0D then 0x72
    else if u == QUOTE || u == BACKSLASH then u else 0
  }

  /** A code unit that is not half of a pair. */
  function EscapeUnit(u: unit): Text {
    if ShortEscape(u) != 0 then [BACKSLASH, ShortEscape(u)]
    else if u < 0x20 || High(u) || Low(u) then
      [BACKSLASH, LOWER_U, HexDigit(u / 4096), HexDigit(u / 256 % 16), HexDigit(u / 16 % 16), HexDigit(u % 16)]
    else [u]
  }

  /** How many code units are written together: a whole pair, or one. */
  function Step(s: Text): (n: nat)
    requires s != []
    ensures 1 <= n <= |s|
  {
    if Paired(s) then 2 else 1
  }

  function Escape(s: Text): Text
    decreases |s|
  {
    if s == [] then []
    else (if Paired(s) then s[..2] else EscapeUnit(s[0])) + Escape(s[Step(s)..])
  }

  function Quote(s: Text): Text {
    [QUOTE] + Escape(s) + [QUOTE]
  }

  // ----- The key -----

  function Defined(members: seq<Member>): seq<Member> {
    if members == [] then []
    else if members[0].value.Undefined? then Defined(members[1..])
    else [members[0]] + Defined(members[1..])
  }

  function Insert(le: Order, m: Member, sorted: seq<Member>): seq<Member> {
    if sorted == [] then [m]
    else if le(m.key, sorted[0].key) then [m] + sorted
    else [sorted[0]] + Insert(le, m, sorted[1..])
  }

  /** The members sorted by key; members whose keys compare equal keep their order. */
  function Sort(le: Order, members: seq<Member>): (sorted: seq<Member>)
    ensures forall m :: m in sorted <==> m in members
  {
    if members == [] then []
    else
      var rest := Sort(le, members[1..]);
      InsertKeeps(le, members[0], rest);
      Insert(le, members[0], rest)
  }

  lemma {:induction false} InsertKeeps(le: Order, m: Member, sorted: seq<Member>)
    ensures forall x :: x in Insert(le, m, sorted) <==> x == m || x in sorted
  {
    if sorted != [] && !le(m.key, sorted[0].key) {
      InsertKeeps(le, m, sorted[1..]);
    }
  }

  lemma DefinedKeeps(members: seq<Member>)
    ensures forall m :: m in Defined(members) <==> m in members && !m.value.Undefined?
  {
  }

  lemma ItemSmaller(v: Json, x: Json)
    requires v.Arr? && x in v.items
    ensures x < v
  {
    var i :| 0 <= i < |v.items| && v.items[i] == x;
    assert v.items[i] < v;
  }

  lemma MemberSmaller(v: Json, m: Member)
    requires v.Obj? && m in v.members
    ensures m.value < v
  {
    var i :| 0 <= i < |v.members| && v.members[i] == m;
    assert v.members[i].value < v;
  }

  /** stableStringify; undefined itself has no text. */
  function Stable(le: Order, v: Json): Text
    decreases v, 1, 0
  {
    match v
    case Undefined => []
    case Null => NULL_TEXT
    case Bool(b) => if b then TRUE_TEXT else FALSE_TEXT
    case Num(digits) => digits
    case Str(s) => Quote(s)
    case Arr(items) => [OPEN_LIST] + StableItems(le, items, v) + [CLOSE_LIST]
    case Obj(members) =>
      var entries := Sort(le, Defined(members));
      DefinedKeeps(members);
      [OPEN_OBJECT] + StableEntries(le, entries, v) + [CLOSE_OBJECT]
  }

  function StableItems(le: Order, items: seq<Json>, ghost of: Json): Text
    requires of.Arr? && forall x :: x in items ==> x in of.items
    decreases of, 0, |items|
  {
    if items == [] then []
    else
      ItemSmaller(of, items[0]);
      if |items| == 1 then Stable(le, items[0])
      else Stable(le, items[0]) + [COMMA] + StableItems(le, items[1..], of)
  }

  function StableEntries(le: Order, entries: seq<Member>, ghost of: Json): Text
    requires of.Obj? && forall m :: m in entries ==> m in of.members
    decreases of, 0, |entries|
  {
    if entries == [] then []
    else
      MemberSmaller(of, entries[0]);
      var first := Quote(entries[0].key) + [COLON] + Stable(le, entries[0].value);
      if |entries| == 1 then first else first + [COMMA] + StableEntries(le, entries[1..], of)
  }

  // ----- Meaning: which values the diff should call equal -----

  /** Object keys are distinct, arrays have no holes, and a number's text is one. */
  ghost predicate WellFormed(v: Json) {
    match v
    case Undefined => false
    case Num(digits) => IsNumber(digits)
    case Arr(items) => forall i :: 0 <= i < |items| ==> WellFormed(items[i])
    case Obj(members) =>
      && DistinctKeys(members)
      && forall i :: 0 <= i < |members| ==> members[i].value.Undefined? || WellFormed(members[i].value)
    case _ => true
  }

  predicate NumberUnit(u: unit) {
    0x30 <= u <= 0x39 || u == 0x2B || u == MINUS || u == 0x2E || u == 0x65
  }

  ghost predicate IsNumber(digits: Text) {
    && digits != []
    && (0x30 <= digits[0] <= 0x39 || digits[0] == MINUS)
    && forall i :: 0 <= i < |digits| ==> NumberUnit(digits[i])
  }

  ghost predicate DistinctKeys(members: seq<Member>) {
    forall i, j :: 0 <= i < j < |members| ==> members[i].key != members[j].key
  }

  /** Equal up to the order of object members and undefined members. */
  ghost predicate Equal(v: Json, w: Json)
    decreases v
  {
    match (v, w)
    case (Arr(a), Arr(b)) => |a| == |b| && forall i :: 0 <= i < |a| ==> Equal(a[i], b[i])
    case (Obj(a), Obj(b)) =>
      && (forall i :: 0 <= i < |a| && Present(a[i]) ==> HasEqual(a[i], b))
      && (forall j :: 0 <= j < |b| && Present(b[j]) ==> HasKey(a, b[j].key))
    case _ => v == w
  }

  ghost predicate HasEqual(m: Member, members: seq<Member>)
    decreases m, 1
  {
    exists j :: 0 <= j < |members| && SameMember(m, members[j])
  }

  ghost predicate HasKey(members: seq<Member>, key: Text) {
    exists i :: 0 <= i < |members| && Present(members[i]) && members[i].key == key
  }

  ghost predicate Present(m: Member) {
    !m.value.Undefined?
  }

  ghost predicate SameMember(m: Member, n: Member)
    decreases m, 0
  {
    Present(m) && Present(n) && m.key == n.key && Equal(m.value, n.value)
  }

  ghost predicate TotalPreorder(le: Order) {
    && (forall a, b :: le(a, b) || le(b, a))
    && (forall a, b, c :: le(a, b) && le(b, c) ==> le(a, c))
  }

  ghost predicate Antisymmetric(le: Order) {
    forall a, b :: le(a, b) && le(b, a) ==> a == b
  }

  /** The collation ties no two different keys of one object in the value. */
  ghost predicate Untied(le: Order, v: Json) {
    match v
    case Arr(items) => forall i :: 0 <= i < |items| ==> Untied(le, items[i])
    case Obj(members) =>
      && UntiedKeys(le, members)
      && forall i :: 0 <= i < |members| && Present(members[i]) ==> Untied(le, members[i].value)
    case _ => true
  }

  ghost predicate Tied(le: Order, a: Text, b: Text) {
    le(a, b) && le(b, a)
  }

  ghost predicate UntiedKeys(le: Order, members: seq<Member>) {
    forall i, j :: 0 <= i < j < |members| && Present(members[i]) && Present(members[j]) ==> !Tied(le, members[i].key, members[j].key)
  }

  // ----- Normal form: the value whose plain text the key is -----

  function Normal(le: Order, v: Json): Json
    decreases v, 1, 0
  {
    match v
    case Arr(items) => Arr(NormalItems(le, items, v))
    case Obj(members) =>
      DefinedKeeps(members);
      Obj(Sort(le, NormalMembers(le, Defined(members), v)))
    case _ => v
  }

  function NormalItems(le: Order, items: seq<Json>, ghost of: Json): (r: seq<Json>)
    requires of.Arr? && forall x :: x in items ==> x in of.items
    decreases of, 0, |items|
  {
    if items == [] then []
    else
      ItemSmaller(of, items[0]);
      [Normal(le, items[0])] + NormalItems(le, items[1..], of)
  }

  function NormalMembers(le: Order, members: seq<Member>, ghost of: Json): (r: seq<Member>)
    requires of.Obj? && forall m :: m in members ==> m in of.members
    decreases of, 0, |members|
  {
    if members == [] then []
    else
      MemberSmaller(of, members[0]);
      [Member(members[0].key, Normal(le, members[0].value))] + NormalMembers(le, members[1..], of)
  }

  lemma {:induction false} NormalItemsAre(le: Order, items: seq<Json>, v: Json)
    requires v.Arr? && forall x :: x in items ==> x in v.items
    ensures var r := NormalItems(le, items, v);
            |r| == |items| && forall i :: 0 <= i < |items| ==> r[i] == Normal(le, items[i])
    decreases |items|
  {
    hide Normal;
    if items != [] {
      NormalItemsAre(le, items[1..], v);
    }
  }

  lemma {:induction false} NormalMembersAre(le: Order, members: seq<Member>, v: Json)
    requires v.Obj? && forall m :: m in members ==> m in v.members
    ensures Image(le, members, NormalMembers(le, members, v))
    decreases |members|
  {
    hide Normal;
    if members != [] {
      NormalMembersAre(le, members[1..], v);
    }
  }

  ghost predicate Image(le: Order, members: seq<Member>, images: seq<Member>) {
    |images| == |members|
    && forall i :: 0 <= i < |members| ==> images[i] == Member(members[i].key, Normal(le, members[i].value))
  }

  /** The text of a value as it stands, nothing sorted or left out. */
  function Plain(v: Json): Text {
    match v
    case Undefined => []
    case Null => NULL_TEXT
    case Bool(b) => if b then TRUE_TEXT else FALSE_TEXT
    case Num(digits) => digits
    case Str(s) => Quote(s)
    case Arr(items) => [OPEN_LIST] + PlainItems(items) + [CLOSE_LIST]
    case Obj(members) => [OPEN_OBJECT] + PlainEntries(members) + [CLOSE_OBJECT]
  }

  function PlainItems(items: seq<Json>): Text {
    if items == [] then []
    else if |items| == 1 then Plain(items[0])
    else Plain(items[0]) + [COMMA] + PlainItems(items[1..])
  }

  function PlainEntries(entries: seq<Member>): Text {
    if entries == [] then []
    else
      var first := Quote(entries[0].key) + [COLON] + Plain(entries[0].value);
      if |entries| == 1 then first else first + [COMMA] + PlainEntries(entries[1..])
  }

  lemma {:induction false} InsertImage(le: Order, m: Member, n: Member, sorted: seq<Member>, images: seq<Member>)
    requires Image(le, sorted, images) && n == Member(m.key, Normal(le, m.value))
    ensures Image(le, Insert(le, m, sorted), Insert(le, n, images))
  {
    hide Normal;
    if sorted != [] && !le(m.key, sorted[0].key) {
      InsertImage(le, m, n, sorted[1..], images[1..]);
    }
  }

  lemma {:induction false} SortImage(le: Order, members: seq<Member>, images: seq<Member>)
    requires Image(le, members, images)
    ensures Image(le, Sort(le, members), Sort(le, images))
  {
    hide Normal;
    if members != [] {
      SortImage(le, members[1..], images[1..]);
      InsertImage(le, members[0], images[0], Sort(le, members[1..]), Sort(le, images[1..]));
    }
  }

  lemma {:induction false} StableIsPlain(le: Order, v: Json)
    ensures Stable(le, v) == Plain(Normal(le, v))
    decreases v, 1, 0
  {
    match v
    case Arr(items) => StableItemsArePlain(le, items, v);
    case Obj(members) =>
      DefinedKeeps(members);
      var images := NormalMembers(le, Defined(members), v);
      NormalMembersAre(le, Defined(members), v);
      SortImage(le, Defined(members), images);
      StableEntriesArePlain(le, Sort(le, Defined(members)), Sort(le, images), v);
    case _ =>
  }

  lemma {:induction false} StableItemsArePlain(le: Order, items: seq<Json>, v: Json)
    requires v.Arr? && forall x :: x in items ==> x in v.items
    ensures StableItems(le, items, v) == PlainItems(NormalItems(le, items, v))
    decreases v, 0, |items|
  {
    if items != [] {
      ItemSmaller(v, items[0]);
      StableIsPlain(le, items[0]);
      StableItemsArePlain(le, items[1..], v);
      assert NormalItems(le, items, v)[1..] == NormalItems(le, items[1..], v);
    }
  }

  lemma {:induction false} StableEntriesArePlain(le: Order, entries: seq<Member>, images: seq<Member>, v: Json)
    requires v.Obj? && forall m :: m in entries ==> m in v.members
    requires Image(le, entries, images)
    ensures StableEntries(le, entries, v) == PlainEntries(images)
    decreases v, 0, |entries|
  {
    if entries != [] {
      MemberSmaller(v, entries[0]);
      StableIsPlain(le, entries[0].value);
      StableEntriesArePlain(le, entries[1..], images[1..], v);
    }
  }

  // ----- Plain text is uniquely readable -----

  /** No undefined anywhere, and every number's text is one. */
  ghost predicate Proper(v: Json) {
    match v
    case Undefined => false
    case Num(digits) => IsNumber(digits)
    case Arr(items) => forall i :: 0 <= i < |items| ==> Proper(items[i])
    case Obj(members) => forall i :: 0 <= i < |members| ==> Proper(members[i].value)
    case _ => true
  }

  /** What may follow a value inside a text: nothing, a comma or a closing bracket. */
  predicate Ends(rest: Text) {
    rest == [] || rest[0] == COMMA || rest[0] == CLOSE_LIST || rest[0] == CLOSE_OBJECT
  }

  lemma HexDigits(u: unit)
    ensures u == 4096 * (u / 4096) + 256 * (u / 256 % 16) + 16 * (u / 16 % 16) + u % 16
  {
    assert u / 16 / 16 == u / 256 && u / 256 / 16 == u / 4096;
  }

  /** Two texts whose first parts are equally long are equal part by part. */
  lemma SameParts(p: Text, q: Text, x: Text, y: Text)
    requires p + x == q + y && |p| == |q|
    ensures p == q && x == y
  {
    assert p == (p + x)[..|p|] && q == (q + y)[..|q|];
    assert x == (p + x)[|p|..] && y == (q + y)[|q|..];
  }

  lemma EscapeUnitInjective(a: unit, b: unit)
    requires EscapeUnit(a) == EscapeUnit(b)
    ensures a == b
  {
    var e, f := EscapeUnit(a), EscapeUnit(b);
    if |e| == 6 {
      assert e[2] == f[2] && e[3] == f[3] && e[4] == f[4] && e[5] == f[5];
      HexInjective(a, b);
    } else {
      assert e[0] == f[0] && (|e| == 2 ==> e[1] == f[1]);
    }
  }

  lemma HexInjective(a: unit, b: unit)
    requires HexDigit(a / 4096) == HexDigit(b / 4096) && HexDigit(a / 256 % 16) == HexDigit(b / 256 % 16)
    requires HexDigit(a / 16 % 16) == HexDigit(b / 16 % 16) && HexDigit(a % 16) == HexDigit(b % 16)
    ensures a == b
  {
    HexDigits(a);
    HexDigits(b);
    SameDigit(a / 4096, b / 4096);
    SameDigit(a / 256 % 16, b / 256 % 16);
    SameDigit(a / 16 % 16, b / 16 % 16);
    SameDigit(a % 16, b % 16);
    hide HexDigit;
  }

  lemma SameDigit(d: nat, e: nat)
    requires d < 16 && e < 16 && HexDigit(d) == HexDigit(e)
    ensures d == e
  {
  }

  /** The first two units of an escape tell its length. */
  lemma EscapeUnitLength(a: unit)
    ensures var e := EscapeUnit(a);
            |e| == if e[0] != BACKSLASH then 1 else if e[1] != LOWER_U then 2 else 6
  {
  }

  lemma EscapeUnitUnique(a: unit, b: unit, x: Text, y: Text)
    requires EscapeUnit(a) + x == EscapeUnit(b) + y
    ensures a == b && x == y
  {
    EscapeUnitLength(a);
    EscapeUnitLength(b);
    var e, f := EscapeUnit(a), EscapeUnit(b);
    hide *;
    assert (e + x)[0] == e[0] && (f + y)[0] == f[0];
    assert e[0] == BACKSLASH ==> (e + x)[1] == e[1] && (f + y)[1] == f[1];
    SameParts(e, f, x, y);
    EscapeUnitInjective(a, b);
  }

  /** What is written for the first step of a string. */
  function Head(s: Text): (h: Text)
    requires s != []
    ensures h != [] && h[0] != QUOTE
  {
    if Paired(s) then s[..2] else EscapeUnit(s[0])
  }

  lemma HeadUnique(s: Text, t: Text, x: Text, y: Text)
    requires s != [] && t != [] && Head(s) + x == Head(t) + y
    ensures Step(s) == Step(t) && s[..Step(s)] == t[..Step(t)] && x == y
  {
    assert (Head(s) + x)[0] == Head(s)[0] && (Head(t) + y)[0] == Head(t)[0];
    if Paired(s) && Paired(t) {
      SameParts(s[..2], t[..2], x, y);
    } else if !Paired(s) && !Paired(t) {
      EscapeUnitUnique(s[0], t[0], x, y);
    } else {
      assert false;
    }
  }

  lemma EscapeStep(s: Text, x: Text)
    requires s != []
    ensures Escape(s) + [QUOTE] + x == Head(s) + (Escape(s[Step(s)..]) + [QUOTE] + x)
  {
    hide EscapeUnit, Paired, Step;
    var rest := Escape(s[Step(s)..]);
    assert Escape(s) == Head(s) + rest;
  }

  lemma EscapeEmpty(x: Text)
    ensures Escape([]) + [QUOTE] + x == [QUOTE] + x
  {
    assert Escape([]) == [];
  }

  lemma {:induction false} EscapeUnique(s: Text, t: Text, x: Text, y: Text)
    requires Escape(s) + [QUOTE] + x == Escape(t) + [QUOTE] + y
    ensures s == t && x == y
    decreases |s|
  {
    hide *;
    if s == [] { EscapeEmpty(x); } else { EscapeStep(s, x); }
    if t == [] { EscapeEmpty(y); } else { EscapeStep(t, y); }
    if s == [] && t == [] {
      SameParts([QUOTE], [QUOTE], x, y);
    } else if s == [] || t == [] {
      EscapeFirst(s, x);
      EscapeFirst(t, y);
      assert false;
    } else {
      var n, m := Step(s), Step(t);
      HeadUnique(s, t, Escape(s[n..]) + [QUOTE] + x, Escape(t[m..]) + [QUOTE] + y);
      EscapeUnique(s[n..], t[m..], x, y);
      assert s == s[..n] + s[n..] && t == t[..m] + t[m..];
    }
  }

  lemma EscapeFirst(s: Text, x: Text)
    ensures var text := Escape(s) + [QUOTE] + x;
            text != [] && (text[0] == QUOTE <==> s == [])
  {
    if s == [] { EscapeEmpty(x); } else { EscapeStep(s, x); }
    hide Escape;
  }

  lemma QuoteUnique(s: Text, t: Text, x: Text, y: Text)
    requires Quote(s) + x == Quote(t) + y
    ensures s == t && x == y
  {
    hide Escape;
    assert Escape(s) + [QUOTE] + x == (Quote(s) + x)[1..];
    assert Escape(t) + [QUOTE] + y == (Quote(t) + y)[1..];
    EscapeUnique(s, t, x, y);
  }

  lemma NumberUnique(a: Text, b: Text, x: Text, y: Text)
    requires IsNumber(a) && IsNumber(b) && Ends(x) && Ends(y)
    requires a + x == b + y
    ensures a == b && x == y
  {
    NumberEnds(a, b, x, y);
    NumberEnds(b, a, y, x);
    SameParts(a, b, x, y);
  }

  lemma NumberEnds(a: Text, b: Text, x: Text, y: Text)
    requires IsNumber(b) && Ends(x) && a + x == b + y
    ensures |a| >= |b|
  {
    assert forall i :: 0 <= i < |b| ==> (b + y)[i] == b[i];
    assert x != [] ==> (a + x)[|a|] == x[0];
  }

  /** The first code unit tells what kind of value follows. */
  function FirstUnit(v: Json): unit {
    match v
    case Undefined => 0
    case Null => 0x6E
    case Bool(b) => if b then 0x74 else 0x66
    case Num(digits) => if digits == [] then 0 else digits[0]
    case Str(s) => QUOTE
    case Arr(items) => OPEN_LIST
    case Obj(members) => OPEN_OBJECT
  }

  lemma PlainFirst(v: Json)
    requires Proper(v)
    ensures Plain(v) != [] && Plain(v)[0] == FirstUnit(v)
    ensures FirstUnit(v) != CLOSE_LIST && FirstUnit(v) != CLOSE_OBJECT && FirstUnit(v) != COMMA
  {
    hide PlainItems, PlainEntries, Escape;
  }

  /** The text between the brackets of an array, the bracket and what follows. */
  function ItemsText(items: seq<Json>, x: Text): Text {
    PlainItems(items) + [CLOSE_LIST] + x
  }

  function EntriesText(entries: seq<Member>, x: Text): Text {
    PlainEntries(entries) + [CLOSE_OBJECT] + x
  }

  /** What stands after the first item. */
  function AfterItem(items: seq<Json>, x: Text): Text
    requires items != []
  {
    if |items| == 1 then [CLOSE_LIST] + x else [COMMA] + ItemsText(items[1..], x)
  }

  function AfterEntry(entries: seq<Member>, x: Text): Text
    requires entries != []
  {
    if |entries| == 1 then [CLOSE_OBJECT] + x else [COMMA] + EntriesText(entries[1..], x)
  }

  /** What stands after the first key. */
  function EntryRest(entries: seq<Member>, x: Text): Text
    requires entries != []
  {
    [COLON] + (Plain(entries[0].value) + AfterEntry(entries, x))
  }

  lemma ItemsStep(items: seq<Json>, x: Text)
    ensures items == [] ==> ItemsText(items, x) == [CLOSE_LIST] + x
    ensures items != [] ==> ItemsText(items, x) == Plain(items[0]) + AfterItem(items, x)
  {
    hide Plain;
  }

  lemma EntriesStep(entries: seq<Member>, x: Text)
    ensures entries == [] ==> EntriesText(entries, x) == [CLOSE_OBJECT] + x
    ensures entries != [] ==> EntriesText(entries, x) == Quote(entries[0].key) + EntryRest(entries, x)
  {
    hide Plain, Quote;
    if entries != [] {
      var q, p := Quote(entries[0].key), Plain(entries[0].value);
      if |entries| == 1 {
        assert EntriesText(entries, x) == q + [COLON] + p + [CLOSE_OBJECT] + x;
      } else {
        var rest := PlainEntries(entries[1..]);
        assert PlainEntries(entries) == q + [COLON] + p + [COMMA] + rest;
        Regroup(q, p, rest, x);
      }
    }
  }

  lemma Regroup(q: Text, p: Text, rest: Text, x: Text)
    ensures q + [COLON] + p + [COMMA] + rest + [CLOSE_OBJECT] + x
         == q + ([COLON] + (p + ([COMMA] + (rest + [CLOSE_OBJECT] + x))))
  {
  }

  lemma PlainArr(v: Json, x: Text)
    requires v.Arr? || v.Obj?
    ensures v.Arr? ==> Plain(v) + x == [OPEN_LIST] + ItemsText(v.items, x)
    ensures v.Obj? ==> Plain(v) + x == [OPEN_OBJECT] + EntriesText(v.members, x)
  {
    hide PlainItems, PlainEntries;
  }

  lemma {:induction false} PlainUnique(v: Json, w: Json, x: Text, y: Text)
    requires Proper(v) && Proper(w) && Ends(x) && Ends(y)
    requires Plain(v) + x == Plain(w) + y
    ensures v == w && x == y
    decreases v, 1, 0
  {
    PlainFirst(v);
    PlainFirst(w);
    assert (Plain(v) + x)[0] == FirstUnit(v) && (Plain(w) + y)[0] == FirstUnit(w);
    match v {
      case Num(a) => NumberUnique(a, w.digits, x, y);
      case Str(a) => QuoteUnique(a, w.s, x, y);
      case Arr(a) =>
        hide Plain, ItemsText;
        PlainArr(v, x);
        PlainArr(w, y);
        SameParts([OPEN_LIST], [OPEN_LIST], ItemsText(a, x), ItemsText(w.items, y));
        ItemsUnique(a, w.items, x, y, v);
      case Obj(a) =>
        hide Plain, EntriesText;
        PlainArr(v, x);
        PlainArr(w, y);
        SameParts([OPEN_OBJECT], [OPEN_OBJECT], EntriesText(a, x), EntriesText(w.members, y));
        EntriesUnique(a, w.members, x, y, v);
      case _ =>
        SameParts(Plain(v), Plain(w), x, y);
    }
  }

  lemma ItemsFirst(items: seq<Json>, x: Text)
    requires forall i :: 0 <= i < |items| ==> Proper(items[i])
    ensures ItemsText(items, x) != [] && (ItemsText(items, x)[0] == CLOSE_LIST <==> items == [])
  {
    ItemsStep(items, x);
    hide ItemsText, Plain, Proper, FirstUnit;
    if items != [] {
      PlainFirst(items[0]);
    }
  }

  lemma EntriesFirst(entries: seq<Member>, x: Text)
    ensures EntriesText(entries, x) != [] && (EntriesText(entries, x)[0] == CLOSE_OBJECT <==> entries == [])
  {
    EntriesStep(entries, x);
    hide EntriesText, EntryRest, Escape;
  }

  lemma {:induction false} ItemsUnique(a: seq<Json>, b: seq<Json>, x: Text, y: Text, of: Json)
    requires of.Arr? && forall i :: 0 <= i < |a| ==> a[i] in of.items && Proper(a[i])
    requires forall i :: 0 <= i < |b| ==> Proper(b[i])
    requires ItemsText(a, x) == ItemsText(b, y)
    ensures a == b && x == y
    decreases of, 0, |a|
  {
    hide Plain, ItemsText, Proper, FirstUnit;
    ItemsStep(a, x);
    ItemsStep(b, y);
    ItemsFirst(a, x);
    ItemsFirst(b, y);
    if a == [] && b == [] {
      SameParts([CLOSE_LIST], [CLOSE_LIST], x, y);
    } else if a == [] || b == [] {
      assert false;
    } else {
      ItemSmaller(of, a[0]);
      PlainUnique(a[0], b[0], AfterItem(a, x), AfterItem(b, y));
      assert AfterItem(a, x)[0] == AfterItem(b, y)[0];
      if |a| == 1 {
        SameParts([CLOSE_LIST], [CLOSE_LIST], x, y);
      } else {
        SameParts([COMMA], [COMMA], ItemsText(a[1..], x), ItemsText(b[1..], y));
        ItemsUnique(a[1..], b[1..], x, y, of);
        assert a == [a[0]] + a[1..] && b == [b[0]] + b[1..];
      }
    }
  }

  lemma {:induction false} EntriesUnique(a: seq<Member>, b: seq<Member>, x: Text, y: Text, of: Json)
    requires of.Obj? && forall i :: 0 <= i < |a| ==> a[i] in of.members && Proper(a[i].value)
    requires forall i :: 0 <= i < |b| ==> Proper(b[i].value)
    requires EntriesText(a, x) == EntriesText(b, y)
    ensures a == b && x == y
    decreases of, 0, |a|
  {
    hide Plain, EntriesText, Proper, Escape;
    EntriesStep(a, x);
    EntriesStep(b, y);
    EntriesFirst(a, x);
    EntriesFirst(b, y);
    if a == [] && b == [] {
      SameParts([CLOSE_OBJECT], [CLOSE_OBJECT], x, y);
    } else if a == [] || b == [] {
      assert false;
    } else {
      hide Quote;
      MemberSmaller(of, a[0]);
      var valueA, valueB := Plain(a[0].value) + AfterEntry(a, x), Plain(b[0].value) + AfterEntry(b, y);
      QuoteUnique(a[0].key, b[0].key, [COLON] + valueA, [COLON] + valueB);
      SameParts([COLON], [COLON], valueA, valueB);
      PlainUnique(a[0].value, b[0].value, AfterEntry(a, x), AfterEntry(b, y));
      assert AfterEntry(a, x)[0] == AfterEntry(b, y)[0];
      if |a| == 1 {
        SameParts([CLOSE_OBJECT], [CLOSE_OBJECT], x, y);
      } else {
        SameParts([COMMA], [COMMA], EntriesText(a[1..], x), EntriesText(b[1..], y));
        EntriesUnique(a[1..], b[1..], x, y, of);
        assert a == [a[0]] + a[1..] && b == [b[0]] + b[1..];
      }
    }
  }

  // ----- Sorting by distinct keys under a total order -----

  ghost predicate Sorted(le: Order, members: seq<Member>) {
    forall i, j :: 0 <= i < j < |members| ==> le(members[i].key, members[j].key)
  }

  /** Keys that tie are the same key. */
  ghost predicate TiesAreSame(le: Order, members: seq<Member>) {
    forall m, n :: m in members && n in members && Tied(le, m.key, n.key) ==> m.key == n.key
  }

  lemma {:induction false} InsertSorted(le: Order, m: Member, sorted: seq<Member>)
    requires TotalPreorder(le) && Sorted(le, sorted)
    ensures Sorted(le, Insert(le, m, sorted))
  {
    if sorted == [] || le(m.key, sorted[0].key) {
    } else {
      InsertSorted(le, m, sorted[1..]);
      InsertKeeps(le, m, sorted[1..]);
      var rest := Insert(le, m, sorted[1..]);
      forall j | 0 <= j < |rest|
        ensures le(sorted[0].key, rest[j].key)
      {
        assert rest[j] in rest;
      }
    }
  }

  lemma {:induction false} InsertDistinct(le: Order, m: Member, sorted: seq<Member>)
    requires DistinctKeys(sorted) && forall x :: x in sorted ==> x.key != m.key
    ensures DistinctKeys(Insert(le, m, sorted))
  {
    if sorted != [] && !le(m.key, sorted[0].key) {
      var rest := Insert(le, m, sorted[1..]);
      InsertDistinct(le, m, sorted[1..]);
      InsertKeeps(le, m, sorted[1..]);
      assert forall j :: 0 <= j < |rest| ==> rest[j] in rest;
    }
  }

  lemma {:induction false} SortDistinct(le: Order, members: seq<Member>)
    requires DistinctKeys(members)
    ensures DistinctKeys(Sort(le, members))
  {
    if members != [] {
      SortDistinct(le, members[1..]);
      InsertDistinct(le, members[0], Sort(le, members[1..]));
    }
  }

  lemma {:induction false} SortSorted(le: Order, members: seq<Member>)
    requires TotalPreorder(le)
    ensures Sorted(le, Sort(le, members))
  {
    hide TotalPreorder;
    if members != [] {
      SortSorted(le, members[1..]);
      InsertSorted(le, members[0], Sort(le, members[1..]));
    }
  }

  /** A sorted list without ties is determined by what is in it. */
  lemma {:induction false} SortedUnique(le: Order, a: seq<Member>, b: seq<Member>)
    requires TiesAreSame(le, a) && Sorted(le, a) && Sorted(le, b) && DistinctKeys(a) && DistinctKeys(b)
    requires forall m :: m in a <==> m in b
    ensures a == b
  {
    if a == [] {
      assert forall i :: 0 <= i < |b| ==> b[i] in b;
    } else {
      assert a[0] in a && a[0] in b;
      assert b[0] in b && b[0] in a;
      FirstsTie(le, a, b);
      SameKeySame(a, a[0], b[0]);
      forall m
        ensures m in a[1..] <==> m in b[1..]
      {
        assert m in a <==> m in b;
      }
      SortedUnique(le, a[1..], b[1..]);
      assert a == [a[0]] + a[1..] && b == [b[0]] + b[1..];
    }
  }

  lemma FirstsTie(le: Order, a: seq<Member>, b: seq<Member>)
    requires Sorted(le, a) && Sorted(le, b) && a != [] && b != [] && a[0] in b && b[0] in a
    ensures a[0] == b[0] || Tied(le, a[0].key, b[0].key)
  {
    var i :| 0 <= i < |b| && b[i] == a[0];
    var j :| 0 <= j < |a| && a[j] == b[0];
    assert i > 0 ==> le(b[0].key, b[i].key);
    assert j > 0 ==> le(a[0].key, a[j].key);
  }

  lemma SameKeySame(a: seq<Member>, m: Member, n: Member)
    requires DistinctKeys(a) && m in a && n in a && m.key == n.key
    ensures m == n
  {
  }

  lemma {:induction false} DefinedDistinct(members: seq<Member>)
    requires DistinctKeys(members)
    ensures DistinctKeys(Defined(members))
  {
    if members != [] {
      DefinedDistinct(members[1..]);
      DefinedKeeps(members[1..]);
      var rest := Defined(members[1..]);
      forall j | 0 <= j < |rest|
        ensures rest[j].key != members[0].key
      {
        assert rest[j] in rest;
      }
    }
  }

  // ----- Normal forms are equal exactly when the values are -----

  ghost predicate NormalOf(le: Order, m: Member, n: Member) {
    Present(m) && n == Member(m.key, Normal(le, m.value))
  }

  /** The members of a normal form are the defined members, each value in normal form. */
  lemma NormalMember(le: Order, v: Json, n: Member)
    requires v.Obj?
    ensures Normal(le, v).Obj?
    ensures n in Normal(le, v).members <==> exists i :: 0 <= i < |v.members| && NormalOf(le, v.members[i], n)
  {
    var defined := Defined(v.members);
    DefinedKeeps(v.members);
    var images := NormalMembers(le, defined, v);
    NormalMembersAre(le, defined, v);
    assert Normal(le, v).members == Sort(le, images);
    hide Normal, Sort, NormalMembers, Defined;
    assert n in Sort(le, images) <==> n in images;
    if n in images {
      var k :| 0 <= k < |images| && images[k] == n;
      assert defined[k] in defined;
      var i :| 0 <= i < |v.members| && v.members[i] == defined[k];
      assert NormalOf(le, v.members[i], n);
    }
    if i :| 0 <= i < |v.members| && NormalOf(le, v.members[i], n) {
      assert v.members[i] in defined;
      var k :| 0 <= k < |defined| && defined[k] == v.members[i];
      assert images[k] == n;
    }
  }

  lemma NormalArr(le: Order, v: Json)
    requires v.Arr?
    ensures Normal(le, v).Arr? && |Normal(le, v).items| == |v.items|
    ensures forall i :: 0 <= i < |v.items| ==> Normal(le, v).items[i] == Normal(le, v.items[i])
  {
    NormalItemsAre(le, v.items, v);
  }

  lemma {:induction false} NormalProper(le: Order, v: Json)
    requires WellFormed(v)
    ensures Proper(Normal(le, v))
    decreases v
  {
    match v {
      case Arr(items) =>
        NormalArr(le, v);
        forall i | 0 <= i < |items|
          ensures Proper(Normal(le, v).items[i])
        {
          NormalProper(le, items[i]);
        }
      case Obj(members) =>
        var out := Normal(le, v).members;
        forall j | 0 <= j < |out|
          ensures Proper(out[j].value)
        {
          assert out[j] in out;
          NormalMember(le, v, out[j]);
          var i :| 0 <= i < |members| && NormalOf(le, members[i], out[j]);
          NormalProper(le, members[i].value);
        }
      case _ =>
    }
  }

  /** Objects with one normal form have corresponding members. */
  lemma Counterpart(le: Order, v: Json, w: Json, i: nat) returns (j: nat)
    requires v.Obj? && w.Obj? && Normal(le, v) == Normal(le, w)
    requires i < |v.members| && Present(v.members[i])
    ensures j < |w.members| && Present(w.members[j]) && w.members[j].key == v.members[i].key
    ensures Normal(le, w.members[j].value) == Normal(le, v.members[i].value)
  {
    hide Normal;
    var n := Member(v.members[i].key, Normal(le, v.members[i].value));
    assert NormalOf(le, v.members[i], n);
    NormalMember(le, v, n);
    NormalMember(le, w, n);
    j :| 0 <= j < |w.members| && NormalOf(le, w.members[j], n);
  }

  lemma {:induction false} SameNormalEqual(le: Order, v: Json, w: Json)
    requires WellFormed(v) && WellFormed(w) && Normal(le, v) == Normal(le, w)
    ensures Equal(v, w)
    decreases v, 1
  {
    if v.Arr? {
      hide *;
      SameNormalEqualItems(le, v, w);
    } else if v.Obj? {
      hide *;
      SameNormalEqualMembers(le, v, w);
    }
  }

  lemma {:induction false} SameNormalEqualItems(le: Order, v: Json, w: Json)
    requires v.Arr? && WellFormed(v) && WellFormed(w) && Normal(le, v) == Normal(le, w)
    ensures Equal(v, w)
    decreases v, 0
  {
    NormalArr(le, v);
    assert w.Arr?;
    NormalArr(le, w);
    hide Normal, NormalItems;
    forall i | 0 <= i < |v.items|
      ensures Equal(v.items[i], w.items[i])
    {
      SameNormalEqual(le, v.items[i], w.items[i]);
    }
  }

  lemma {:induction false} SameNormalEqualMembers(le: Order, v: Json, w: Json)
    requires v.Obj? && WellFormed(v) && WellFormed(w) && Normal(le, v) == Normal(le, w)
    ensures Equal(v, w)
    decreases v, 0
  {
    assert w.Obj?;
    var a, b := v.members, w.members;
    hide Normal, WellFormed, Equal, HasEqual, HasKey;
    forall i | 0 <= i < |a| && Present(a[i])
      ensures HasEqual(a[i], b)
    {
      var j := Counterpart(le, v, w, i);
      SameNormalEqual(le, a[i].value, b[j].value);
      FoundEqual(a[i], b, j);
    }
    forall j | 0 <= j < |b| && Present(b[j])
      ensures HasKey(a, b[j].key)
    {
      var i := Counterpart(le, w, v, j);
      FoundKey(a, i);
    }
    MembersEqual(v, w);
  }

  lemma FoundEqual(m: Member, members: seq<Member>, j: nat)
    requires j < |members| && SameMember(m, members[j])
    ensures HasEqual(m, members)
  {
    hide SameMember;
  }

  lemma FoundKey(members: seq<Member>, i: nat)
    requires i < |members| && Present(members[i])
    ensures HasKey(members, members[i].key)
  {
  }

  lemma MembersEqual(v: Json, w: Json)
    requires v.Obj? && w.Obj?
    requires forall i :: 0 <= i < |v.members| && Present(v.members[i]) ==> HasEqual(v.members[i], w.members)
    requires forall j :: 0 <= j < |w.members| && Present(w.members[j]) ==> HasKey(v.members, w.members[j].key)
    ensures Equal(v, w)
  {
    hide HasEqual, HasKey;
  }

  lemma {:induction false} EqualSameNormal(le: Order, v: Json, w: Json)
    requires TotalPreorder(le) && Untied(le, v) && WellFormed(v) && WellFormed(w) && Equal(v, w)
    ensures Normal(le, v) == Normal(le, w)
    decreases v, 1
  {
    if v.Arr? {
      EqualSameNormalItems(le, v, w);
    } else if v.Obj? {
      hide *;
      EqualSameNormalMembers(le, v, w);
    }
  }

  lemma {:induction false} EqualSameNormalItems(le: Order, v: Json, w: Json)
    requires v.Arr? && TotalPreorder(le) && Untied(le, v) && WellFormed(v) && WellFormed(w) && Equal(v, w)
    ensures Normal(le, v) == Normal(le, w)
    decreases v, 0
  {
    hide TotalPreorder;
    NormalArr(le, v);
    NormalArr(le, w);
    hide Normal, NormalItems;
    forall i | 0 <= i < |v.items|
      ensures Normal(le, v.items[i]) == Normal(le, w.items[i])
    {
      EqualSameNormal(le, v.items[i], w.items[i]);
    }
    assert Normal(le, v).items == Normal(le, w).items;
  }

  lemma {:induction false} EqualSameNormalMembers(le: Order, v: Json, w: Json)
    requires v.Obj? && TotalPreorder(le) && Untied(le, v) && WellFormed(v) && WellFormed(w) && Equal(v, w)
    ensures Normal(le, v) == Normal(le, w)
    decreases v, 0
  {
    EqualObjects(v, w);
    UntiedMembers(le, v);
    var a, b := v.members, w.members;
    hide *;
    forall i | 0 <= i < |a| && Present(a[i])
      ensures HasNormal(le, a[i], b)
    {
      var j := EqualAt(a[i], b);
      EqualSameNormal(le, a[i].value, b[j].value);
      FoundNormal(le, a[i], b, j);
    }
    SameNormalMembers(le, v, w);
  }

  lemma UntiedMembers(le: Order, v: Json)
    requires v.Obj? && Untied(le, v)
    ensures UntiedKeys(le, v.members)
    ensures forall i :: 0 <= i < |v.members| && Present(v.members[i]) ==> Untied(le, v.members[i].value)
  {
  }

  lemma EqualObjects(v: Json, w: Json)
    requires v.Obj? && Equal(v, w)
    ensures w.Obj?
    ensures forall i :: 0 <= i < |v.members| && Present(v.members[i]) ==> HasEqual(v.members[i], w.members)
    ensures forall j :: 0 <= j < |w.members| && Present(w.members[j]) ==> HasKey(v.members, w.members[j].key)
  {
    hide HasEqual, HasKey;
  }

  lemma EqualAt(m: Member, members: seq<Member>) returns (j: nat)
    requires HasEqual(m, members)
    ensures j < |members| && Present(m) && Present(members[j]) && m.key == members[j].key
    ensures Equal(m.value, members[j].value)
  {
    hide Equal;
    j :| 0 <= j < |members| && SameMember(m, members[j]);
  }

  ghost predicate SameNormals(le: Order, m: Member, n: Member) {
    Present(m) && Present(n) && m.key == n.key && Normal(le, m.value) == Normal(le, n.value)
  }

  ghost predicate HasNormal(le: Order, m: Member, members: seq<Member>) {
    exists j :: 0 <= j < |members| && SameNormals(le, m, members[j])
  }

  lemma FoundNormal(le: Order, m: Member, members: seq<Member>, j: nat)
    requires j < |members| && Present(m) && Present(members[j]) && m.key == members[j].key
    requires Normal(le, m.value) == Normal(le, members[j].value)
    ensures HasNormal(le, m, members)
  {
    hide Normal;
    assert SameNormals(le, m, members[j]);
  }

  lemma SameNormalMembers(le: Order, v: Json, w: Json)
    requires TotalPreorder(le) && v.Obj? && w.Obj? && DistinctKeys(v.members) && DistinctKeys(w.members) && UntiedKeys(le, v.members)
    requires forall i :: 0 <= i < |v.members| && Present(v.members[i]) ==> HasNormal(le, v.members[i], w.members)
    requires forall j :: 0 <= j < |w.members| && Present(w.members[j]) ==> HasKey(v.members, w.members[j].key)
    ensures Normal(le, v) == Normal(le, w)
  {
    NormalSorted(le, v);
    NormalSorted(le, w);
    NormalUntied(le, v);
    hide *;
    forall m
      ensures m in Normal(le, v).members <==> m in Normal(le, w).members
    {
      if m in Normal(le, v).members {
        NormalMovesForward(le, v, w, m);
      }
      if m in Normal(le, w).members {
        NormalMovesBack(le, v, w, m);
      }
    }
    SortedUnique(le, Normal(le, v).members, Normal(le, w).members);
  }

  lemma NormalMovesForward(le: Order, v: Json, w: Json, m: Member)
    requires v.Obj? && w.Obj? && Normal(le, v).Obj? && m in Normal(le, v).members
    requires forall i :: 0 <= i < |v.members| && Present(v.members[i]) ==> HasNormal(le, v.members[i], w.members)
    ensures Normal(le, w).Obj? && m in Normal(le, w).members
  {
    hide Normal;
    NormalMember(le, v, m);
    NormalMember(le, w, m);
    var i :| 0 <= i < |v.members| && NormalOf(le, v.members[i], m);
    var j :| 0 <= j < |w.members| && SameNormals(le, v.members[i], w.members[j]);
    assert NormalOf(le, w.members[j], m);
  }

  lemma NormalMovesBack(le: Order, v: Json, w: Json, m: Member)
    requires v.Obj? && w.Obj? && Normal(le, w).Obj? && m in Normal(le, w).members && DistinctKeys(w.members)
    requires forall i :: 0 <= i < |v.members| && Present(v.members[i]) ==> HasNormal(le, v.members[i], w.members)
    requires forall j :: 0 <= j < |w.members| && Present(w.members[j]) ==> HasKey(v.members, w.members[j].key)
    ensures Normal(le, v).Obj? && m in Normal(le, v).members
  {
    hide Normal;
    NormalMember(le, v, m);
    NormalMember(le, w, m);
    var j :| 0 <= j < |w.members| && NormalOf(le, w.members[j], m);
    var i :| 0 <= i < |v.members| && Present(v.members[i]) && v.members[i].key == w.members[j].key;
    var k :| 0 <= k < |w.members| && SameNormals(le, v.members[i], w.members[k]);
    assert k == j;
    assert NormalOf(le, v.members[i], m);
  }

  lemma NormalSorted(le: Order, v: Json)
    requires v.Obj? && DistinctKeys(v.members)
    ensures Normal(le, v).Obj? && DistinctKeys(Normal(le, v).members)
    ensures TotalPreorder(le) ==> Sorted(le, Normal(le, v).members)
  {
    DefinedKeeps(v.members);
    DefinedDistinct(v.members);
    var images := NormalMembers(le, Defined(v.members), v);
    NormalMembersAre(le, Defined(v.members), v);
    hide TotalPreorder;
    if TotalPreorder(le) { SortSorted(le, images); }
    SortDistinct(le, images);
  }

  lemma NormalUntied(le: Order, v: Json)
    requires v.Obj? && UntiedKeys(le, v.members)
    ensures Normal(le, v).Obj? && TiesAreSame(le, Normal(le, v).members)
  {
    assert Normal(le, v).Obj?;
    hide Normal, Tied;
    var out := Normal(le, v).members;
    forall m, n | m in out && n in out && Tied(le, m.key, n.key)
      ensures m.key == n.key
    {
      NormalMember(le, v, m);
      NormalMember(le, v, n);
      var i :| 0 <= i < |v.members| && NormalOf(le, v.members[i], m);
      var j :| 0 <= j < |v.members| && NormalOf(le, v.members[j], n);
      TiedBothWays(le, m.key, n.key);
      assert !(i < j) && !(j < i);
    }
  }

  lemma TiedBothWays(le: Order, a: Text, b: Text)
    ensures Tied(le, a, b) == Tied(le, b, a)
  {
  }

  // ----- The comparison key -----

  /** One key means one normal form, whatever the collation. */
  lemma SameKeySameNormal(le: Order, v: Json, w: Json)
    requires WellFormed(v) && WellFormed(w)
    ensures Stable(le, v) == Stable(le, w) <==> Normal(le, v) == Normal(le, w)
  {
    hide *;
    StableIsPlain(le, v);
    StableIsPlain(le, w);
    if Stable(le, v) == Stable(le, w) {
      NormalProper(le, v);
      NormalProper(le, w);
      NothingEnds();
      assert Plain(Normal(le, v)) + [] == Plain(Normal(le, w)) + [];
      PlainUnique(Normal(le, v), Normal(le, w), [], []);
    }
  }

  /** Values with the same key are equal, whatever the collation. */
  lemma SameKeyEqual(le: Order, v: Json, w: Json)
    requires WellFormed(v) && WellFormed(w) && Stable(le, v) == Stable(le, w)
    ensures Equal(v, w)
  {
    hide *;
    SameKeySameNormal(le, v, w);
    SameNormalEqual(le, v, w);
  }

  lemma NothingEnds()
    ensures Ends([])
  {
  }

  /** The key of a value without ties is exact: another value has the same text exactly when it is equal. */
  lemma KeyIsExact(le: Order, v: Json, w: Json)
    requires TotalPreorder(le) && Untied(le, v) && WellFormed(v) && WellFormed(w)
    ensures Stable(le, v) == Stable(le, w) <==> Equal(v, w)
  {
    hide *;
    if Stable(le, v) == Stable(le, w) {
      SameKeyEqual(le, v, w);
    }
    if Equal(v, w) {
      EqualSameNormal(le, v, w);
      SameKeySameNormal(le, v, w);
    }
  }

  // ----- A value with ties has an equal value with another key -----

  /** The first is listed before the second. */
  predicate Ahead(s: seq<Member>, a: Member, b: Member) {
    s != [] && ((s[0] == a && b in s[1..]) || Ahead(s[1..], a, b))
  }

  lemma {:induction false} AheadAt(s: seq<Member>, i: nat, j: nat)
    requires i < j < |s|
    ensures Ahead(s, s[i], s[j])
  {
    if i == 0 {
      assert s[1..][j - 1] == s[j];
    } else {
      AheadAt(s[1..], i - 1, j - 1);
    }
  }

  lemma {:induction false} NotBothWays(s: seq<Member>, a: Member, b: Member)
    requires DistinctKeys(s) && a.key != b.key && Ahead(s, a, b)
    ensures a in s && b in s && !Ahead(s, b, a)
  {
    if s[0] == a && b in s[1..] {
      if Ahead(s[1..], b, a) { AheadListed(s[1..], b, a); }
    } else {
      NotBothWays(s[1..], a, b);
    }
  }

  lemma {:induction false} AheadListed(s: seq<Member>, a: Member, b: Member)
    requires Ahead(s, a, b)
    ensures a in s && b in s
  {
    if !(s[0] == a && b in s[1..]) { AheadListed(s[1..], a, b); }
  }

  lemma {:induction false} DefinedAhead(members: seq<Member>, a: Member, b: Member)
    requires Ahead(members, a, b) && Present(a) && Present(b)
    ensures Ahead(Defined(members), a, b)
  {
    DefinedKeeps(members[1..]);
    if !(members[0] == a && b in members[1..]) {
      DefinedAhead(members[1..], a, b);
    }
    if Present(members[0]) {
      assert Defined(members)[1..] == Defined(members[1..]);
    }
  }

  lemma {:induction false} ImagesAhead(le: Order, members: seq<Member>, images: seq<Member>, a: Member, b: Member)
    requires Image(le, members, images) && Ahead(members, a, b)
    ensures Ahead(images, Member(a.key, Normal(le, a.value)), Member(b.key, Normal(le, b.value)))
  {
    hide Normal;
    if members[0] == a && b in members[1..] {
      var j :| 0 <= j < |members| - 1 && members[1..][j] == b;
      assert images[1..][j] == images[j + 1];
    } else {
      ImagesAhead(le, members[1..], images[1..], a, b);
    }
  }

  lemma {:induction false} InsertAhead(le: Order, m: Member, sorted: seq<Member>, b: Member)
    requires b in sorted && le(m.key, b.key)
    ensures Ahead(Insert(le, m, sorted), m, b)
  {
    if le(m.key, sorted[0].key) {
      assert ([m] + sorted)[1..] == sorted;
    } else {
      InsertAhead(le, m, sorted[1..], b);
      assert Insert(le, m, sorted)[1..] == Insert(le, m, sorted[1..]);
    }
  }

  lemma {:induction false} InsertKeepsAhead(le: Order, m: Member, sorted: seq<Member>, a: Member, b: Member)
    requires Ahead(sorted, a, b)
    ensures Ahead(Insert(le, m, sorted), a, b)
  {
    if le(m.key, sorted[0].key) {
      assert ([m] + sorted)[1..] == sorted;
    } else {
      assert Insert(le, m, sorted)[1..] == Insert(le, m, sorted[1..]);
      InsertKeeps(le, m, sorted[1..]);
      if !(sorted[0] == a && b in sorted[1..]) {
        InsertKeepsAhead(le, m, sorted[1..], a, b);
      }
    }
  }

  /** The sort is stable: what ties stays in order. */
  lemma {:induction false} SortKeepsTies(le: Order, members: seq<Member>, a: Member, b: Member)
    requires Ahead(members, a, b) && le(a.key, b.key)
    ensures Ahead(Sort(le, members), a, b)
  {
    var rest := Sort(le, members[1..]);
    if members[0] == a && b in members[1..] {
      InsertAhead(le, a, rest, b);
    } else {
      SortKeepsTies(le, members[1..], a, b);
      InsertKeepsAhead(le, members[0], rest, a, b);
    }
  }

  lemma TiesStayInOrder(le: Order, v: Json, i: nat, j: nat)
    requires v.Obj? && i < j < |v.members| && Present(v.members[i]) && Present(v.members[j])
    requires le(v.members[i].key, v.members[j].key)
    ensures Normal(le, v).Obj?
    ensures Ahead(Normal(le, v).members, Member(v.members[i].key, Normal(le, v.members[i].value)),
                  Member(v.members[j].key, Normal(le, v.members[j].value)))
  {
    var a, b := v.members[i], v.members[j];
    DefinedKeeps(v.members);
    var images := NormalMembers(le, Defined(v.members), v);
    NormalMembersAre(le, Defined(v.members), v);
    assert Normal(le, v) == Obj(Sort(le, images));
    hide Normal, NormalMembers, Sort, Defined, Ahead, Image;
    AheadAt(v.members, i, j);
    DefinedAhead(v.members, a, b);
    ImagesAhead(le, Defined(v.members), images, a, b);
    SortKeepsTies(le, images, Member(a.key, Normal(le, a.value)), Member(b.key, Normal(le, b.value)));
  }

  lemma {:induction false} EqualItself(v: Json)
    requires WellFormed(v)
    ensures Equal(v, v)
    decreases v
  {
    match v
    case Arr(items) =>
      forall i | 0 <= i < |items|
        ensures Equal(items[i], items[i])
      {
        EqualItself(items[i]);
      }
    case Obj(members) =>
      forall i | 0 <= i < |members| && Present(members[i])
        ensures HasEqual(members[i], members) && HasKey(members, members[i].key)
      {
        EqualItself(members[i].value);
        FoundEqual(members[i], members, i);
        FoundKey(members, i);
      }
      hide HasEqual, HasKey;
    case _ =>
  }

  /** The same members in another order: two of them exchanged. */
  lemma ExchangedEqual(members: seq<Member>, i: nat, j: nat)
    requires WellFormed(Obj(members)) && i < j < |members|
    ensures var others := members[i := members[j]][j := members[i]];
            WellFormed(Obj(others)) && Equal(Obj(members), Obj(others))
  {
    var others := members[i := members[j]][j := members[i]];
    forall k | 0 <= k < |members|
      ensures Present(members[k]) ==> HasEqual(members[k], others)
      ensures Present(others[k]) ==> HasKey(members, others[k].key)
      ensures others[k].value.Undefined? || WellFormed(others[k].value)
    {
      var l := if k == i then j else if k == j then i else k;
      assert others[l] == members[k] && others[k] == members[l];
      if Present(members[k]) {
        EqualItself(members[k].value);
        FoundEqual(members[k], others, l);
      }
      if Present(members[l]) { FoundKey(members, l); }
    }
    hide HasEqual, HasKey, Equal;
    MembersEqual(Obj(members), Obj(others));
  }

  lemma ExchangedDiffers(le: Order, members: seq<Member>, i: nat, j: nat)
    requires WellFormed(Obj(members)) && i < j < |members|
    requires Present(members[i]) && Present(members[j]) && Tied(le, members[i].key, members[j].key)
    ensures Normal(le, Obj(members)) != Normal(le, Obj(members[i := members[j]][j := members[i]]))
  {
    var others := members[i := members[j]][j := members[i]];
    var v, w := Obj(members), Obj(others);
    TiesStayInOrder(le, v, i, j);
    TiesStayInOrder(le, w, i, j);
    NormalSorted(le, v);
    hide Normal, TotalPreorder, WellFormed, Sorted, Ahead;
    NotBothWays(Normal(le, v).members, Member(members[i].key, Normal(le, members[i].value)),
                Member(members[j].key, Normal(le, members[j].value)));
  }

  /** A member's value replaced by an equal one. */
  lemma ReplacedMember(le: Order, members: seq<Member>, i: nat, value: Json)
    requires WellFormed(Obj(members)) && i < |members| && Present(members[i])
    requires WellFormed(value) && Equal(members[i].value, value) && Normal(le, members[i].value) != Normal(le, value)
    ensures var w := Obj(members[i := Member(members[i].key, value)]);
            WellFormed(w) && Equal(Obj(members), w) && Normal(le, Obj(members)) != Normal(le, w)
  {
    var others := members[i := Member(members[i].key, value)];
    var v, w := Obj(members), Obj(others);
    assert !value.Undefined?;
    forall k | 0 <= k < |members|
      ensures Present(members[k]) ==> HasEqual(members[k], others)
      ensures Present(others[k]) ==> HasKey(members, others[k].key)
    {
      if Present(members[k]) {
        if k != i { EqualItself(members[k].value); }
        FoundEqual(members[k], others, k);
        FoundKey(members, k);
      }
    }
    assert WellFormed(w);
    hide HasEqual, HasKey, Equal, Normal;
    MembersEqual(v, w);
    if Normal(le, v) == Normal(le, w) {
      var k := Counterpart(le, v, w, i);
    }
  }

  lemma ReplacedItem(le: Order, items: seq<Json>, i: nat, value: Json)
    requires WellFormed(Arr(items)) && i < |items|
    requires WellFormed(value) && Equal(items[i], value) && Normal(le, items[i]) != Normal(le, value)
    ensures var w := Arr(items[i := value]);
            WellFormed(w) && Equal(Arr(items), w) && Normal(le, Arr(items)) != Normal(le, w)
  {
    var others := items[i := value];
    forall k | 0 <= k < |items|
      ensures Equal(items[k], others[k])
    {
      if k != i { EqualItself(items[k]); }
    }
    NormalArr(le, Arr(items));
    NormalArr(le, Arr(others));
    hide Normal;
    assert Normal(le, Arr(items)).items[i] != Normal(le, Arr(others)).items[i];
  }

  lemma {:induction false} Twin(le: Order, v: Json) returns (w: Json)
    requires WellFormed(v) && !Untied(le, v)
    ensures WellFormed(w) && Equal(v, w) && Normal(le, v) != Normal(le, w)
    decreases v
  {
    match v
    case Arr(items) =>
      var i :| 0 <= i < |items| && !Untied(le, items[i]);
      hide Normal, Equal;
      var value := Twin(le, items[i]);
      ReplacedItem(le, items, i, value);
      w := Arr(items[i := value]);
    case Obj(members) =>
      if !UntiedKeys(le, members) {
        var i, j :| 0 <= i < j < |members| && Present(members[i]) && Present(members[j])
                    && Tied(le, members[i].key, members[j].key);
        hide Normal, Equal, Tied;
        ExchangedEqual(members, i, j);
        ExchangedDiffers(le, members, i, j);
        w := Obj(members[i := members[j]][j := members[i]]);
      } else {
        var i :| 0 <= i < |members| && Present(members[i]) && !Untied(le, members[i].value);
        hide Normal, Equal;
        var value := Twin(le, members[i].value);
        ReplacedMember(le, members, i, value);
        w := Obj(members[i := Member(members[i].key, value)]);
      }
  }

  /**
   * All values equal to v share its key exactly when the collation ties no two keys of an object in v.
   * Members are in any order here; JavaScript puts keys like "7" first, in numeric order, so with
   * such a key in a tied pair the value that tells the keys apart is not one a program can build.
   */
  lemma ExactExactlyWithoutTies(le: Order, v: Json)
    requires TotalPreorder(le) && WellFormed(v)
    ensures (forall w :: WellFormed(w) && Equal(v, w) ==> Stable(le, v) == Stable(le, w)) <==> Untied(le, v)
  {
    hide *;
    if Untied(le, v) {
      forall w | WellFormed(w) && Equal(v, w)
        ensures Stable(le, v) == Stable(le, w)
      {
        KeyIsExact(le, v, w);
      }
    } else {
      var w := Twin(le, v);
      SameKeySameNormal(le, v, w);
    }
  }

  /** Two equal objects whose two keys tie in the collation, written in either order. */
  lemma TiesBreakTheKey(le: Order, a: Text, b: Text)
    requires a != b && le(a, b) && le(b, a)
    ensures var v, w := Obj([Member(a, Null), Member(b, Null)]), Obj([Member(b, Null), Member(a, Null)]);
            WellFormed(v) && WellFormed(w) && Equal(v, w) && Stable(le, v) != Stable(le, w)
  {
    var members := [Member(a, Null), Member(b, Null)];
    assert WellFormed(Null) && Tied(le, a, b) && WellFormed(Obj(members));
    assert members[0 := members[1]][1 := members[0]] == [Member(b, Null), Member(a, Null)];
    hide *;
    ExchangedEqual(members, 0, 1);
    assert Present(members[0]) && Present(members[1]) by { NullIsPresent(a); NullIsPresent(b); }
    ExchangedDiffers(le, members, 0, 1);
    SameKeySameNormal(le, Obj(members), Obj([Member(b, Null), Member(a, Null)]));
  }

  lemma NullIsPresent(key: Text)
    ensures Present(Member(key, Null))
  {
  }

  lemma {:induction false} AntisymmetricUntied(le: Order, v: Json)
    requires Antisymmetric(le) && WellFormed(v)
    ensures Untied(le, v)
    decreases v
  {
    match v
    case Arr(items) =>
      forall i | 0 <= i < |items|
        ensures Untied(le, items[i])
      {
        AntisymmetricUntied(le, items[i]);
      }
    case Obj(members) =>
      forall i | 0 <= i < |members| && Present(members[i])
        ensures Untied(le, members[i].value)
      {
        AntisymmetricUntied(le, members[i].value);
      }
    case _ =>
  }

  /** Among collations that rank every two keys, exactly those that tie no two keys give all equal values one key. */
  lemma KeyNeedsAntisymmetry(le: Order)
    requires TotalPreorder(le)
    ensures (forall v, w :: WellFormed(v) && WellFormed(w) && Equal(v, w) ==> Stable(le, v) == Stable(le, w))
            <==> Antisymmetric(le)
  {
    if Antisymmetric(le) {
      forall v, w | WellFormed(v) && WellFormed(w) && Equal(v, w)
        ensures Stable(le, v) == Stable(le, w)
      {
        AntisymmetricUntied(le, v);
        hide *;
        KeyIsExact(le, v, w);
      }
    } else {
      var a, b :| le(a, b) && le(b, a) && a != b;
      TiesBreakTheKey(le, a, b);
    }
  }

  /** An array hole is no JSON value, and the key cannot see it: [undefined] has the key of []. */
  lemma HolesAreInvisible(le: Order)
    ensures Stable(le, Arr([Undefined])) == Stable(le, Arr([]))
    ensures !Equal(Arr([Undefined]), Arr([]))
  {
  }
}
