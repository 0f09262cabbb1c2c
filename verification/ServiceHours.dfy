/**
 * Service hours: day ranges written out, the canonical form that is compared,
 * PTV's wire form and back (src/ptv/serviceHours.ts:19-60,
 * src/ptv/v11/channelFields.ts:197-268), and the day ranges of the printed
 * form (src/format/ptvFormat.ts:228-246).
 */
module ServiceHours {
  import opened Wrappers
  import opened LanguageText

  // ----- Domain form -----

  datatype Weekday = Monday | Tuesday | Wednesday | Thursday | Friday | Saturday | Sunday

  const WEEKDAYS: seq<Weekday> := [Monday, Tuesday, Wednesday, Thursday, Friday, Saturday, Sunday]

  function IndexOf(day: Weekday): (i: nat)
    ensures i < 7
  {
    match day
    case Monday => 0 case Tuesday => 1 case Wednesday => 2 case Thursday => 3
    case Friday => 4 case Saturday => 5 case Sunday => 6
  }

  datatype OpeningTime = OpeningTime(dayFrom: Weekday, dayTo: Option<Weekday>, from: string, to: string)

  datatype HourType = DaysOfTheWeek | Exceptional | OverMidnight

  datatype ServiceHour = ServiceHour(
    hourType: HourType,
    validFrom: Option<string>,
    validTo: Option<string>,
    validForNow: Option<bool>,
    isClosed: Option<bool>,
    isAlwaysOpen: Option<bool>,
    isReservation: Option<bool>,
    additionalInformation: Option<Text>,
    openingTimes: Option<seq<OpeningTime>>)

  /** A collation of times: localeCompare(a, b) <= 0. */
  type Order = (string, string) -> bool

  function Times(hour: ServiceHour): seq<OpeningTime> {
    if hour.openingTimes.Some? then hour.openingTimes.value else []
  }

  /** The days of a range, in order; a range may run over the end of the week. */
  function Days(first: Weekday, last: Weekday): seq<Weekday> {
    Cycle(WEEKDAYS, IndexOf(first), IndexOf(last))
  }

  function Cycle(week: seq<Weekday>, start: nat, end: nat): seq<Weekday>
    requires start < |week| && end < |week|
  {
    if end >= start then week[start..end + 1] else week[start..] + week[..end + 1]
  }

  function OnDays(days: seq<Weekday>, from: string, to: string): (r: seq<OpeningTime>)
    ensures |r| == |days|
    ensures forall i :: 0 <= i < |r| ==> r[i] == OpeningTime(days[i], None, from, to)
  {
    seq(|days|, i requires 0 <= i < |days| => OpeningTime(days[i], None, from, to))
  }

  function ExpandOne(time: OpeningTime): seq<OpeningTime> {
    if time.dayTo.None? || time.dayTo.value == time.dayFrom then
      [OpeningTime(time.dayFrom, None, time.from, time.to)]
    else OnDays(Days(time.dayFrom, time.dayTo.value), time.from, time.to)
  }

  function ExpandAll(times: seq<OpeningTime>): seq<OpeningTime> {
    if times == [] then [] else ExpandOne(times[0]) + ExpandAll(times[1..])
  }

  function Expand(hour: ServiceHour): seq<OpeningTime> {
    if hour.hourType == OverMidnight then Times(hour) else ExpandAll(Times(hour))
  }

  // ----- Canonical form -----

  predicate Before(le: Order, a: OpeningTime, b: OpeningTime) {
    IndexOf(a.dayFrom) < IndexOf(b.dayFrom) || (a.dayFrom == b.dayFrom && le(a.from, b.from))
  }

  function InsertTime(le: Order, time: OpeningTime, sorted: seq<OpeningTime>): (r: seq<OpeningTime>)
    ensures multiset(r) == multiset([time]) + multiset(sorted)
  {
    if sorted == [] then [time]
    else if Before(le, time, sorted[0]) then [time] + sorted
    else
      assert sorted == [sorted[0]] + sorted[1..];
      [sorted[0]] + InsertTime(le, time, sorted[1..])
  }

  /** The stable sort by weekday, then by opening time. */
  function SortTimes(le: Order, times: seq<OpeningTime>): (r: seq<OpeningTime>)
    ensures multiset(r) == multiset(times)
  {
    if times == [] then []
    else
      assert times == [times[0]] + times[1..];
      InsertTime(le, times[0], SortTimes(le, times[1..]))
  }

  datatype CanonicalHour = CanonicalHour(
    hourType: HourType,
    validFrom: Option<string>,
    validTo: Option<string>,
    isClosed: bool,
    isAlwaysOpen: bool,
    isReservation: bool,
    additionalInformation: Option<Text>,
    openingTimes: seq<OpeningTime>)

  /** An optional text that is only kept when it is not empty. */
  function Truthy(value: Option<string>): Option<string> {
    if value == Some("") then None else value
  }

  function Canonical(le: Order, hour: ServiceHour): CanonicalHour {
    CanonicalHour(hour.hourType, Truthy(hour.validFrom), Truthy(hour.validTo), hour.isClosed == Some(true),
                  hour.isAlwaysOpen == Some(true), hour.isReservation == Some(true),
                  hour.additionalInformation, SortTimes(le, Expand(hour)))
  }

  // ----- Wire form -----

  datatype WireTime = WireTime(dayFrom: Option<string>, dayTo: Option<string>, from: string, to: string)

  datatype WireHour = WireHour(
    serviceHourType: string,
    validFrom: Option<string>,
    validTo: Option<string>,
    validForNow: bool,
    isClosed: bool,
    isAlwaysOpen: bool,
    isReservation: bool,
    additionalInformation: Option<seq<Item>>,
    openingHour: seq<WireTime>)

  function DayName(day: Weekday): string {
    match day
    case Monday => "Monday" case Tuesday => "Tuesday" case Wednesday => "Wednesday" case Thursday => "Thursday"
    case Friday => "Friday" case Saturday => "Saturday" case Sunday => "Sunday"
  }

  function ReadDay(name: Option<string>): Option<Weekday> {
    match name
    case None => None
    case Some(n) =>
      if n == "Monday" then Some(Monday) else if n == "Tuesday" then Some(Tuesday)
      else if n == "Wednesday" then Some(Wednesday) else if n == "Thursday" then Some(Thursday)
      else if n == "Friday" then Some(Friday) else if n == "Saturday" then Some(Saturday)
      else if n == "Sunday" then Some(Sunday) else None
  }

  function TypeName(hourType: HourType): string {
    match hourType
    case DaysOfTheWeek => "DaysOfTheWeek" case Exceptional => "Exceptional" case OverMidnight => "OverMidnight"
  }

  function ReadType(name: string): HourType {
    if name == "Exceptional" || name == "Exception" then Exceptional
    else if name == "OverMidnight" || name == "Special" then OverMidnight
    else DaysOfTheWeek
  }

  function DayToWire(day: Option<Weekday>): Option<string> {
    match day case None => None case Some(d) => Some(DayName(d))
  }

  function TimeToWire(time: OpeningTime): WireTime {
    WireTime(Some(DayName(time.dayFrom)), DayToWire(time.dayTo), time.from, time.to)
  }

  function TimesToWire(times: seq<OpeningTime>): (r: seq<WireTime>)
    ensures |r| == |times| && forall i :: 0 <= i < |r| ==> r[i] == TimeToWire(times[i])
  {
    seq(|times|, i requires 0 <= i < |times| => TimeToWire(times[i]))
  }

  function ToWire(hour: ServiceHour): WireHour {
    WireHour(TypeName(hour.hourType), Truthy(hour.validFrom), Truthy(hour.validTo),
             if hour.validForNow.Some? then hour.validForNow.value else Truthy(hour.validTo).None?,
             hour.isClosed == Some(true), hour.isAlwaysOpen == Some(true), hour.isReservation == Some(true),
             match hour.additionalInformation case None => None case Some(text) => Some(TextToItems(text)),
             TimesToWire(Expand(hour)))
  }

  predicate Digit(c: char) { '0' <= c <= '9' }

  /** How many digits the hour has when the text starts like a clock time: one or two digits, a colon, two digits. */
  function HourDigits(time: string): nat {
    if |time| >= 5 && Digit(time[0]) && Digit(time[1]) && time[2] == ':' && Digit(time[3]) && Digit(time[4]) then 2
    else if |time| >= 4 && Digit(time[0]) && time[1] == ':' && Digit(time[2]) && Digit(time[3]) then 1
    else 0
  }

  function ShortTime(time: string): string {
    match HourDigits(time)
    case 0 => time
    case 1 => "0" + time[..4]
    case _ => time[..5]
  }

  function IsoDate(value: Option<string>): Option<string> {
    match Truthy(value)
    case None => None
    case Some(date) => Some(if |date| > 10 then date[..10] else date)
  }

  function TimeToDomain(time: WireTime): Option<OpeningTime> {
    var dayFrom := ReadDay(time.dayFrom);
    if dayFrom.None? then None
    else Some(OpeningTime(dayFrom.value, ReadDay(time.dayTo), ShortTime(time.from), ShortTime(time.to)))
  }

  function TimesToDomain(times: seq<WireTime>): seq<OpeningTime> {
    if times == [] then []
    else
      (match TimeToDomain(times[0]) case None => [] case Some(time) => [time]) + TimesToDomain(times[1..])
  }

  function OnlyTrue(flag: bool): Option<bool> {
    if flag then Some(true) else None
  }

  function ToDomain(wire: WireHour): ServiceHour {
    var text := match wire.additionalInformation case None => [] case Some(items) => ItemsToText(items);
    var times := TimesToDomain(wire.openingHour);
    ServiceHour(ReadType(wire.serviceHourType), IsoDate(wire.validFrom), IsoDate(wire.validTo),
                OnlyTrue(wire.validForNow), OnlyTrue(wire.isClosed), OnlyTrue(wire.isAlwaysOpen),
                OnlyTrue(wire.isReservation), if text == [] then None else Some(text),
                if times == [] then None else Some(times))
  }

  // ----- Ranges written out -----

  predicate InRange(day: Weekday, first: Weekday, last: Weekday) {
    if IndexOf(first) <= IndexOf(last) then IndexOf(first) <= IndexOf(day) <= IndexOf(last)
    else IndexOf(first) <= IndexOf(day) || IndexOf(day) <= IndexOf(last)
  }

  lemma IndexOfWeekday(k: nat)
    requires k < 7
    ensures IndexOf(WEEKDAYS[k]) == k
  {
  }

  lemma CycleAt(week: seq<Weekday>, start: nat, end: nat, k: nat)
    requires |week| == 7 && start < 7 && end < 7
    ensures |Cycle(week, start, end)| == if end >= start then end + 1 - start else end + 8 - start
    ensures k < |Cycle(week, start, end)| ==>
              Cycle(week, start, end)[k] == week[if start + k < 7 then start + k else start + k - 7]
  {
  }

  /** The k-th day of a range, counted on from its first day around the week. */
  lemma DayOfRange(first: Weekday, last: Weekday, k: nat)
    ensures |Days(first, last)| == if IndexOf(last) >= IndexOf(first) then IndexOf(last) + 1 - IndexOf(first)
                                   else IndexOf(last) + 8 - IndexOf(first)
    ensures k < |Days(first, last)| ==>
              IndexOf(Days(first, last)[k]) == if IndexOf(first) + k < 7 then IndexOf(first) + k else IndexOf(first) + k - 7
  {
    hide IndexOf, Cycle;
    CycleAt(WEEKDAYS, IndexOf(first), IndexOf(last), k);
    if k < |Days(first, last)| {
      IndexOfWeekday(if IndexOf(first) + k < 7 then IndexOf(first) + k else IndexOf(first) + k - 7);
    }
  }

  lemma SameIndex(a: Weekday, b: Weekday)
    requires IndexOf(a) == IndexOf(b)
    ensures a == b
  {
  }

  lemma ListedIsInRange(first: Weekday, last: Weekday, k: nat)
    requires k < |Days(first, last)|
    ensures InRange(Days(first, last)[k], first, last)
  {
    hide IndexOf, Days;
    DayOfRange(first, last, k);
  }

  lemma InRangeIsListed(first: Weekday, last: Weekday, day: Weekday)
    requires InRange(day, first, last)
    ensures day in Days(first, last)
  {
    hide IndexOf, Days;
    var k := if IndexOf(day) >= IndexOf(first) then IndexOf(day) - IndexOf(first)
             else IndexOf(day) + 7 - IndexOf(first);
    DayOfRange(first, last, k);
    SameIndex(Days(first, last)[k], day);
  }

  lemma DaysAreTheRange(first: Weekday, last: Weekday, day: Weekday)
    ensures day in Days(first, last) <==> InRange(day, first, last)
  {
    hide IndexOf, Days, InRange;
    if InRange(day, first, last) {
      InRangeIsListed(first, last, day);
    }
    if day in Days(first, last) {
      var k :| 0 <= k < |Days(first, last)| && Days(first, last)[k] == day;
      ListedIsInRange(first, last, k);
    }
  }

  lemma NoDayTwice(first: Weekday, last: Weekday, i: nat, j: nat)
    requires i < j < |Days(first, last)|
    ensures Days(first, last)[i] != Days(first, last)[j]
  {
    hide IndexOf, Days;
    DayOfRange(first, last, i);
    DayOfRange(first, last, j);
  }

  function LastDay(time: OpeningTime): Weekday {
    if time.dayTo.Some? then time.dayTo.value else time.dayFrom
  }

  predicate Covers(time: OpeningTime, day: Weekday, from: string, to: string) {
    time.from == from && time.to == to && InRange(day, time.dayFrom, LastDay(time))
  }

  lemma SingleDayExactly(time: OpeningTime, day: Weekday)
    requires LastDay(time) == time.dayFrom
    ensures InRange(day, time.dayFrom, LastDay(time)) <==> day == time.dayFrom
  {
    hide IndexOf;
    if IndexOf(day) == IndexOf(time.dayFrom) { SameIndex(day, time.dayFrom); }
  }

  lemma ExpandOneExactly(time: OpeningTime, x: OpeningTime)
    ensures x in ExpandOne(time) <==> x.dayTo == None && Covers(time, x.dayFrom, x.from, x.to)
  {
    hide IndexOf, Days, InRange, OnDays;
    if time.dayTo.None? || time.dayTo.value == time.dayFrom {
      SingleDayExactly(time, x.dayFrom);
    } else {
      DaysAreTheRange(time.dayFrom, time.dayTo.value, x.dayFrom);
    }
  }

  /** Written-out times are exactly the days of the ranges, each with its range's times. */
  lemma {:induction false} ExpandedExactly(times: seq<OpeningTime>, x: OpeningTime)
    ensures x in ExpandAll(times) <==>
            x.dayTo == None && exists i :: 0 <= i < |times| && Covers(times[i], x.dayFrom, x.from, x.to)
  {
    hide Covers, ExpandOne;
    if times != [] {
      ExpandedExactly(times[1..], x);
      ExpandOneExactly(times[0], x);
      assert forall i :: 0 <= i < |times[1..]| ==> times[1..][i] == times[i + 1];
      assert x in ExpandAll(times) <==> x in ExpandOne(times[0]) || x in ExpandAll(times[1..]);
      if i :| 0 <= i < |times| && Covers(times[i], x.dayFrom, x.from, x.to) {
        assert i > 0 ==> Covers(times[1..][i - 1], x.dayFrom, x.from, x.to);
      }
    }
  }

  lemma {:induction false} ExpandAgain(times: seq<OpeningTime>)
    requires forall i :: 0 <= i < |times| ==> times[i].dayTo == None
    ensures ExpandAll(times) == times
  {
    if times != [] {
      ExpandAgain(times[1..]);
      assert times[0] == OpeningTime(times[0].dayFrom, None, times[0].from, times[0].to);
      assert times == [times[0]] + times[1..];
    }
  }

  // ----- The order opening times are listed in -----

  /** localeCompare orders all texts, but may rank different texts alike. */
  ghost predicate TotalPreorder(le: Order) {
    && (forall a, b :: le(a, b) || le(b, a))
    && (forall a, b, c :: le(a, b) && le(b, c) ==> le(a, c))
  }

  ghost predicate SortedTimes(le: Order, times: seq<OpeningTime>) {
    forall i, j :: 0 <= i < j < |times| ==> Before(le, times[i], times[j])
  }

  lemma BeforeIsPreorder(le: Order, a: OpeningTime, b: OpeningTime, c: OpeningTime)
    requires TotalPreorder(le)
    ensures Before(le, a, b) || Before(le, b, a)
    ensures Before(le, a, b) && Before(le, b, c) ==> Before(le, a, c)
  {
    hide IndexOf;
    if IndexOf(a.dayFrom) == IndexOf(b.dayFrom) { SameIndex(a.dayFrom, b.dayFrom); }
  }

  lemma {:induction false} InsertSorted(le: Order, time: OpeningTime, sorted: seq<OpeningTime>)
    requires TotalPreorder(le) && SortedTimes(le, sorted)
    ensures SortedTimes(le, InsertTime(le, time, sorted))
  {
    hide Before;
    if sorted != [] {
      BeforeIsPreorder(le, time, sorted[0], time);
      if Before(le, time, sorted[0]) {
        forall j | 0 <= j < |sorted|
          ensures Before(le, time, sorted[j])
        {
          BeforeIsPreorder(le, time, sorted[0], sorted[j]);
        }
      } else {
        InsertSorted(le, time, sorted[1..]);
        var rest := InsertTime(le, time, sorted[1..]);
        forall j | 0 <= j < |rest|
          ensures Before(le, sorted[0], rest[j])
        {
          assert rest[j] in multiset(rest);
          assert rest[j] == time || rest[j] in sorted[1..];
        }
      }
    }
  }

  /** Canonical opening times are in weekday order, and by opening time within a day. */
  lemma {:induction false} SortTimesSorts(le: Order, times: seq<OpeningTime>)
    requires TotalPreorder(le)
    ensures SortedTimes(le, SortTimes(le, times))
    ensures var sorted := SortTimes(le, times);
            forall i, j :: 0 <= i < j < |sorted| ==>
              IndexOf(sorted[i].dayFrom) < IndexOf(sorted[j].dayFrom)
              || (sorted[i].dayFrom == sorted[j].dayFrom && le(sorted[i].from, sorted[j].from))
  {
    if times != [] {
      SortTimesSorts(le, times[1..]);
      InsertSorted(le, times[0], SortTimes(le, times[1..]));
    }
  }

  ghost predicate Tie(le: Order, a: OpeningTime, b: OpeningTime) {
    a != b && Before(le, a, b) && Before(le, b, a)
  }

  /** No two different times start on the same day at times the collation ranks alike. */
  ghost predicate NoTies(le: Order, times: seq<OpeningTime>) {
    forall a, b :: a in times && b in times ==> !Tie(le, a, b)
  }

  lemma LeastFirst(le: Order, times: seq<OpeningTime>, time: OpeningTime)
    requires SortedTimes(le, times) && time in times
    ensures times[0] == time || Before(le, times[0], time)
  {
    hide Before;
    var i :| 0 <= i < |times| && times[i] == time;
  }

  lemma SameElements(a: seq<OpeningTime>, b: seq<OpeningTime>)
    requires multiset(a) == multiset(b)
    ensures |a| == |b| && forall t :: t in a <==> t in b
  {
    hide *;
    assert |multiset(a)| == |a| && |multiset(b)| == |b|;
    forall t
      ensures t in a <==> t in b
    {
      assert t in a <==> t in multiset(a);
      assert t in b <==> t in multiset(b);
    }
  }

  lemma SameFirst(le: Order, a: seq<OpeningTime>, b: seq<OpeningTime>)
    requires SortedTimes(le, a) && SortedTimes(le, b) && multiset(a) == multiset(b) && NoTies(le, a) && a != []
    ensures b != [] && a[0] == b[0]
  {
    hide Before, SortedTimes;
    SameElements(a, b);
    assert a[0] in a && b[0] in b;
    LeastFirst(le, a, b[0]);
    LeastFirst(le, b, a[0]);
    assert !Tie(le, a[0], b[0]);
  }

  lemma {:induction false} SortedOnce(le: Order, a: seq<OpeningTime>, b: seq<OpeningTime>)
    requires SortedTimes(le, a) && SortedTimes(le, b) && multiset(a) == multiset(b) && NoTies(le, a)
    ensures a == b
  {
    hide Before, Tie;
    SameElements(a, b);
    if a != [] {
      SameFirst(le, a, b);
      WithoutFirst(a);
      WithoutFirst(b);
      SortedOnce(le, a[1..], b[1..]);
      assert a == [a[0]] + a[1..] && b == [b[0]] + b[1..];
    }
  }

  lemma InsertFirst(le: Order, time: OpeningTime, sorted: seq<OpeningTime>)
    requires sorted == [] || Before(le, time, sorted[0])
    ensures InsertTime(le, time, sorted) == [time] + sorted
  {
  }

  lemma InsertLater(le: Order, time: OpeningTime, sorted: seq<OpeningTime>)
    requires sorted != [] && !Before(le, time, sorted[0])
    ensures InsertTime(le, time, sorted) == [sorted[0]] + InsertTime(le, time, sorted[1..])
  {
  }

  lemma InsertPast(le: Order, a: OpeningTime, b: OpeningTime, sorted: seq<OpeningTime>)
    requires sorted != [] && !Before(le, a, sorted[0]) && !Before(le, b, sorted[0])
    ensures InsertTime(le, a, InsertTime(le, b, sorted))
            == [sorted[0]] + InsertTime(le, a, InsertTime(le, b, sorted[1..]))
  {
    hide Before, InsertTime;
    InsertLater(le, b, sorted);
    InsertLater(le, a, InsertTime(le, b, sorted));
    assert ([sorted[0]] + InsertTime(le, b, sorted[1..]))[1..] == InsertTime(le, b, sorted[1..]);
  }

  lemma InsertBothFirst(le: Order, a: OpeningTime, b: OpeningTime, sorted: seq<OpeningTime>)
    requires Before(le, a, b) && (sorted == [] || Before(le, b, sorted[0]))
    ensures InsertTime(le, a, InsertTime(le, b, sorted)) == [a] + ([b] + sorted)
  {
    hide Before, InsertTime;
    InsertFirst(le, b, sorted);
    InsertFirst(le, a, [b] + sorted);
  }

  lemma {:induction false} TiesKeepTheirOrder(le: Order, a: OpeningTime, b: OpeningTime, sorted: seq<OpeningTime>)
    requires TotalPreorder(le) && Tie(le, a, b)
    ensures InsertTime(le, a, InsertTime(le, b, sorted)) != InsertTime(le, b, InsertTime(le, a, sorted))
  {
    hide Before, InsertTime, TotalPreorder;
    if sorted != [] {
      BeforeIsPreorder(le, a, b, sorted[0]);
      BeforeIsPreorder(le, b, a, sorted[0]);
    }
    if sorted == [] || Before(le, a, sorted[0]) {
      InsertBothFirst(le, a, b, sorted);
      InsertBothFirst(le, b, a, sorted);
      assert ([a] + ([b] + sorted))[0] == a && ([b] + ([a] + sorted))[0] == b;
    } else {
      InsertPast(le, a, b, sorted);
      InsertPast(le, b, a, sorted);
      TiesKeepTheirOrder(le, a, b, sorted[1..]);
      var x, y := InsertTime(le, a, InsertTime(le, b, sorted[1..])), InsertTime(le, b, InsertTime(le, a, sorted[1..]));
      assert ([sorted[0]] + x)[1..] == x && ([sorted[0]] + y)[1..] == y;
    }
  }

  lemma PullOut(times: seq<OpeningTime>, a: OpeningTime) returns (rest: seq<OpeningTime>)
    requires a in times
    ensures multiset(times) == multiset([a] + rest)
    ensures forall t :: t in times && t != a ==> t in rest
  {
    hide *;
    var i :| 0 <= i < |times| && times[i] == a;
    rest := times[..i] + times[i + 1..];
    assert times == times[..i] + [a] + times[i + 1..];
  }

  ghost predicate OrderIgnored(le: Order, times: seq<OpeningTime>) {
    forall other: seq<OpeningTime> :: multiset(other) == multiset(times) ==> SortTimes(le, other) == SortTimes(le, times)
  }

  /** The order times are listed in never matters exactly when there are no ties; a tie is compared in the listed order. */
  lemma ListedOrderIgnored(le: Order, times: seq<OpeningTime>)
    requires TotalPreorder(le)
    ensures OrderIgnored(le, times) <==> NoTies(le, times)
  {
    hide Before, SortTimes, SortedTimes;
    if NoTies(le, times) {
      forall other: seq<OpeningTime> | multiset(other) == multiset(times)
        ensures SortTimes(le, other) == SortTimes(le, times)
      {
        SortTimesSorts(le, times);
        SortTimesSorts(le, other);
        forall t | t in SortTimes(le, times)
          ensures t in times
        {
          assert t in multiset(SortTimes(le, times));
        }
        SortedOnce(le, SortTimes(le, times), SortTimes(le, other));
      }
    } else {
      var a, b :| a in times && b in times && Tie(le, a, b);
      TieIsListed(le, times, a, b);
    }
  }

  lemma OrderIgnoredFor(le: Order, times: seq<OpeningTime>, other: seq<OpeningTime>)
    requires OrderIgnored(le, times) && multiset(other) == multiset(times)
    ensures SortTimes(le, other) == SortTimes(le, times)
  {
    hide SortTimes;
  }

  lemma PullOutTwo(times: seq<OpeningTime>, a: OpeningTime, b: OpeningTime) returns (rest: seq<OpeningTime>)
    requires a in times && b in times && a != b
    ensures multiset([a] + ([b] + rest)) == multiset(times)
    ensures multiset([b] + ([a] + rest)) == multiset(times)
  {
    hide *;
    var others := PullOut(times, a);
    rest := PullOut(others, b);
  }

  lemma TieIsListed(le: Order, times: seq<OpeningTime>, a: OpeningTime, b: OpeningTime)
    requires TotalPreorder(le) && a in times && b in times && Tie(le, a, b)
    ensures !OrderIgnored(le, times)
  {
    assert a != b;
    hide *;
    var rest := PullOutTwo(times, a, b);
    TiesKeepTheirOrder(le, a, b, SortTimes(le, rest));
    if OrderIgnored(le, times) {
      OrderIgnoredFor(le, times, [a] + ([b] + rest));
      OrderIgnoredFor(le, times, [b] + ([a] + rest));
    }
  }

  // ----- Written hours read back -----

  /** A time that reading does not touch: either no clock time at all, or HH:mm and nothing more. */
  predicate Settled(time: string) {
    HourDigits(time) == 0 || (HourDigits(time) == 2 && |time| == 5)
  }

  lemma SettledUnchanged(time: string)
    ensures ShortTime(time) == time <==> Settled(time)
    ensures Settled(ShortTime(time))
  {
    if HourDigits(time) == 1 {
      var short := ShortTime(time);
      assert short[0] == '0' && short[1] == time[0] && short[2] == ':' && short[3] == time[2] && short[4] == time[3];
    }
  }

  /** The text starts like a clock time: one or two digits, a colon, two digits. */
  predicate StartsAsClock(time: string, hour: string, minute: string, rest: string) {
    && time == hour + ":" + minute + rest && 1 <= |hour| <= 2 && |minute| == 2
    && (forall i :: 0 <= i < |hour| ==> hour[i] in "0123456789") && (forall i :: 0 <= i < |minute| ==> minute[i] in "0123456789")
  }

  lemma DigitListed(c: char)
    ensures Digit(c) <==> c in "0123456789"
  {
    if Digit(c) {
      var k := c as int - '0' as int;
      assert "0123456789"[k] == c;
    }
  }

  lemma ClockSplit(time: string)
    requires HourDigits(time) > 0
    ensures var n := HourDigits(time);
            && |time| >= n + 3
            && StartsAsClock(time, time[..n], time[n + 1..n + 3], time[n + 3..])
  {
    var n := HourDigits(time);
    assert time == time[..n] + ":" + time[n + 1..n + 3] + time[n + 3..];
    hide Digit;
    DigitListed(time[0]);
    DigitListed(time[n - 1]);
    DigitListed(time[n + 1]);
    DigitListed(time[n + 2]);
  }

  lemma ClockDigits(time: string, hour: string, minute: string, rest: string)
    requires StartsAsClock(time, hour, minute, rest)
    ensures HourDigits(time) == |hour|
  {
    hide Digit;
    var n := |hour|;
    assert time[0] == hour[0] && time[n - 1] == hour[n - 1] && time[n] == ':' && time[n + 1] == minute[0] && time[n + 2] == minute[1];
    DigitListed(hour[0]);
    DigitListed(hour[n - 1]);
    DigitListed(minute[0]);
    DigitListed(minute[1]);
    DigitListed(':');
  }

  /** A text that starts like a clock time reads as HH:mm, its hour padded to two digits; any other reads as it is. */
  lemma ShortTimeExactly(time: string, hour: string, minute: string, rest: string)
    ensures StartsAsClock(time, hour, minute, rest) ==> ShortTime(time) == (if |hour| == 1 then "0" + hour else hour) + ":" + minute
    ensures ShortTime(time) == time || exists h, m, r :: StartsAsClock(time, h, m, r)
  {
    hide HourDigits;
    if HourDigits(time) > 0 { ClockSplit(time); }
    if StartsAsClock(time, hour, minute, rest) {
      ClockDigits(time, hour, minute, rest);
      assert time == hour + ":" + minute + rest;
      if |hour| == 1 {
        assert time[..4] == hour + ":" + minute;
        assert "0" + (hour + ":" + minute) == "0" + hour + ":" + minute;
      } else {
        assert time[..5] == hour + ":" + minute;
      }
    }
  }

  predicate ShortDate(date: Option<string>) {
    date.Some? ==> |date.value| <= 10
  }

  ghost predicate SettledTimes(times: seq<OpeningTime>) {
    forall i :: 0 <= i < |times| ==> Settled(times[i].from) && Settled(times[i].to)
  }

  ghost predicate SettledTitle(title: Option<Text>) {
    title.Some? ==> title.value != [] && AllFilled(title.value)
  }

  /** Hours in domain form: dates of at most ten characters, titles absent or filled, times HH:mm. */
  ghost predicate InDomainForm(hour: ServiceHour) {
    ShortDate(hour.validFrom) && ShortDate(hour.validTo) && SettledTitle(hour.additionalInformation)
    && SettledTimes(Expand(hour))
  }

  ghost predicate IsHour(hour: ServiceHour) {
    hour.additionalInformation.Some? ==> IsText(hour.additionalInformation.value)
  }

  function ReadTime(time: OpeningTime): OpeningTime {
    time.(from := ShortTime(time.from), to := ShortTime(time.to))
  }

  function ReadTimes(times: seq<OpeningTime>): (r: seq<OpeningTime>)
    ensures |r| == |times| && forall i :: 0 <= i < |r| ==> r[i] == ReadTime(times[i])
  {
    seq(|times|, i requires 0 <= i < |times| => ReadTime(times[i]))
  }

  lemma DayReadBack(day: Option<Weekday>)
    ensures ReadDay(DayToWire(day)) == day
  {
  }

  /** A day is read from its own name only. */
  lemma DayReadExactly(name: string, day: Weekday)
    ensures ReadDay(Some(name)) == Some(day) <==> name == DayName(day)
  {
    var d := ReadDay(Some(name));
    if d.Some? {
      assert DayName(d.value) == name;
      DayReadBack(Some(day));
    }
    DayReadBack(Some(day));
  }

  lemma TimeReadBack(time: OpeningTime)
    ensures TimeToDomain(TimeToWire(time)) == Some(ReadTime(time))
  {
    hide ShortTime, ReadDay, DayName;
    DayReadBack(Some(time.dayFrom));
    DayReadBack(time.dayTo);
  }

  lemma {:induction false} TimesReadBack(times: seq<OpeningTime>)
    ensures TimesToDomain(TimesToWire(times)) == ReadTimes(times)
  {
    hide TimeToDomain, TimeToWire, ReadTime;
    if times != [] {
      TimesReadBack(times[1..]);
      TimeReadBack(times[0]);
      assert TimesToWire(times)[1..] == TimesToWire(times[1..]);
      assert ReadTimes(times) == [ReadTime(times[0])] + ReadTimes(times[1..]);
    }
  }

  lemma ExpandedHaveNoRange(times: seq<OpeningTime>)
    ensures forall i :: 0 <= i < |ExpandAll(times)| ==> ExpandAll(times)[i].dayTo == None
  {
    forall i | 0 <= i < |ExpandAll(times)|
      ensures ExpandAll(times)[i].dayTo == None
    {
      assert ExpandAll(times)[i] in ExpandAll(times);
      ExpandedExactly(times, ExpandAll(times)[i]);
    }
  }

  /** The times read back are the written-out times, each as PTV's text reads. */
  lemma ExpandReadBack(hour: ServiceHour)
    ensures Expand(ToDomain(ToWire(hour))) == ReadTimes(Expand(hour))
  {
    hide TimesToDomain, TimesToWire, ExpandAll, ReadTime;
    var times := Expand(hour);
    TimesReadBack(times);
    TypeReadBack(hour.hourType);
    assert Times(ToDomain(ToWire(hour))) == ReadTimes(times);
    if hour.hourType != OverMidnight {
      ExpandedHaveNoRange(Times(hour));
      ReadKeepsDays(times);
      ExpandAgain(ReadTimes(times));
    }
  }

  lemma ReadKeepsDays(times: seq<OpeningTime>)
    ensures forall i :: 0 <= i < |times| ==> ReadTimes(times)[i].dayTo == times[i].dayTo
  {
    hide ShortTime;
  }

  lemma TypeReadBack(hourType: HourType)
    ensures ReadType(TypeName(hourType)) == hourType
  {
  }

  lemma {:induction false} ReadAmong(times: seq<OpeningTime>, time: OpeningTime)
    requires time in multiset(ReadTimes(times))
    ensures Settled(time.from) && Settled(time.to)
  {
    hide ShortTime, Settled;
    assert time in ReadTimes(times);
    var i :| 0 <= i < |times| && ReadTimes(times)[i] == time;
    SettledUnchanged(times[i].from);
    SettledUnchanged(times[i].to);
  }

  /** Sorted, the times read back are the times written exactly when reading touches none of them. */
  lemma SortedReadBack(le: Order, times: seq<OpeningTime>)
    ensures SortTimes(le, ReadTimes(times)) == SortTimes(le, times) <==> SettledTimes(times)
  {
    hide SortTimes, ShortTime, Settled;
    if SortTimes(le, ReadTimes(times)) == SortTimes(le, times) {
      forall i | 0 <= i < |times|
        ensures Settled(times[i].from) && Settled(times[i].to)
      {
        assert times[i] in multiset(times);
        ReadAmong(times, times[i]);
      }
    }
    if SettledTimes(times) {
      forall i | 0 <= i < |times|
        ensures ReadTimes(times)[i] == times[i]
      {
        SettledUnchanged(times[i].from);
        SettledUnchanged(times[i].to);
      }
      assert ReadTimes(times) == times;
    }
  }

  lemma TitleReadBack(title: Text)
    requires IsText(title)
    ensures ItemsToText(TextToItems(title)) == title && title != [] <==> SettledTitle(Some(title))
    ensures ItemsToText(TextToItems(title)) == [] && title != [] ==> !SettledTitle(Some(title))
  {
    hide ItemsToText, TextToItems;
    TextReadBack(title);
  }

  /**
   * What becomes of any hours: the type and what is set among the flags stay, dates keep their first ten
   * characters, titles their filled texts; hours without an end date are valid for now unless they say otherwise.
   */
  lemma HoursReadAs(hour: ServiceHour)
    requires IsHour(hour)
    ensures var read := ToDomain(ToWire(hour));
            && read.hourType == hour.hourType
            && read.validFrom == DateRead(hour.validFrom) && read.validTo == DateRead(hour.validTo)
            && (read.validForNow == Some(true) <==>
                  if hour.validForNow.None? then DateRead(hour.validTo).None? else hour.validForNow == Some(true))
            && (read.isClosed == Some(true) <==> hour.isClosed == Some(true))
            && (read.isAlwaysOpen == Some(true) <==> hour.isAlwaysOpen == Some(true))
            && (read.isReservation == Some(true) <==> hour.isReservation == Some(true))
            && read.additionalInformation == (if hour.additionalInformation.None? || TextToItems(hour.additionalInformation.value) == [] then None
                                              else Some(TextToItems(hour.additionalInformation.value)))
            && Times(read) == ReadTimes(Expand(hour))
  {
    hide ItemsToText, TextToItems, Expand, TimesToDomain, TimesToWire, ReadTimes;
    TimesReadBack(Expand(hour));
    TypeReadBack(hour.hourType);
    if hour.additionalInformation.Some? { TextReadBack(hour.additionalInformation.value); }
  }

  function DateRead(date: Option<string>): Option<string> {
    if date.None? || date.value == "" then None else if |date.value| <= 10 then date else Some(date.value[..10])
  }

  /** Hours compare equal exactly when they agree in type, dates, set flags, titles and sorted written-out times; a missing flag counts as not set. */
  lemma SameCanonicalExactly(le: Order, a: ServiceHour, b: ServiceHour)
    ensures Canonical(le, a) == Canonical(le, b) <==>
            && a.hourType == b.hourType && a.additionalInformation == b.additionalInformation
            && (a.validFrom == b.validFrom || {a.validFrom, b.validFrom} == {None, Some("")})
            && (a.validTo == b.validTo || {a.validTo, b.validTo} == {None, Some("")})
            && (a.isClosed == Some(true) <==> b.isClosed == Some(true))
            && (a.isAlwaysOpen == Some(true) <==> b.isAlwaysOpen == Some(true))
            && (a.isReservation == Some(true) <==> b.isReservation == Some(true))
            && SortTimes(le, Expand(a)) == SortTimes(le, Expand(b))
  {
    hide SortTimes, Expand;
    DatesAlike(a.validFrom, b.validFrom);
    DatesAlike(a.validTo, b.validTo);
  }

  lemma DatesAlike(a: Option<string>, b: Option<string>)
    ensures Truthy(a) == Truthy(b) <==> a == b || {a, b} == {None, Some("")}
  {
    if Truthy(a) == Truthy(b) && a != b {
      assert {a, b} == {None, Some("")};
    }
    if {a, b} == {None, Some("")} {
      assert a in {None, Some("")} && b in {None, Some("")};
    }
  }

  /** Hours written to PTV and read back compare equal exactly when they are in domain form. */
  lemma HoursReadBack(le: Order, hour: ServiceHour)
    requires IsHour(hour)
    ensures Canonical(le, ToDomain(ToWire(hour))) == Canonical(le, hour) <==> InDomainForm(hour)
  {
    hide ItemsToText, TextToItems, Expand, SortTimes, SettledTimes, SettledTitle, TimesToDomain, TimesToWire, ReadTimes;
    ExpandReadBack(hour);
    SortedReadBack(le, Expand(hour));
    TypeReadBack(hour.hourType);
    TitleMatters(hour);
  }

  lemma TitleMatters(hour: ServiceHour)
    requires IsHour(hour)
    ensures ToDomain(ToWire(hour)).additionalInformation == hour.additionalInformation
            <==> SettledTitle(hour.additionalInformation)
  {
    hide ItemsToText, TextToItems, Expand, TimesToDomain, TimesToWire;
    if hour.additionalInformation.Some? {
      TitleReadBack(hour.additionalInformation.value);
    }
  }

  function CanonicalAll(le: Order, hours: seq<ServiceHour>): (r: seq<CanonicalHour>)
    ensures |r| == |hours| && forall i :: 0 <= i < |r| ==> r[i] == Canonical(le, hours[i])
  {
    seq(|hours|, i requires 0 <= i < |hours| => Canonical(le, hours[i]))
  }

  function ReadBack(hours: seq<ServiceHour>): (r: seq<ServiceHour>)
    ensures |r| == |hours| && forall i :: 0 <= i < |r| ==> r[i] == ToDomain(ToWire(hours[i]))
  {
    seq(|hours|, i requires 0 <= i < |hours| => ToDomain(ToWire(hours[i])))
  }

  /** Written hours read back compare equal, hour by hour, exactly when all of them are in domain form. */
  lemma WrittenHoursShowNoChange(le: Order, hours: seq<ServiceHour>)
    requires forall i :: 0 <= i < |hours| ==> IsHour(hours[i])
    ensures CanonicalAll(le, ReadBack(hours)) == CanonicalAll(le, hours)
            <==> forall i :: 0 <= i < |hours| ==> InDomainForm(hours[i])
  {
    hide IsHour, Canonical, ToDomain, ToWire, InDomainForm;
    forall i | 0 <= i < |hours|
      ensures CanonicalAll(le, ReadBack(hours))[i] == CanonicalAll(le, hours)[i] <==> InDomainForm(hours[i])
    {
      HoursReadBack(le, hours[i]);
    }
  }

  // ----- PTV's own rendering of written hours -----

  /** The date or time came back with something appended: "T00:00:00", ":00". */
  predicate Extends(sent: string, read: string) {
    |sent| <= |read| && read[..|sent|] == sent
  }

  predicate DateEchoed(sent: Option<string>, read: Option<string>) {
    if sent.None? then read.None? else read.Some? && Extends(sent.value, read.value)
  }

  predicate TimeEchoed(sent: WireTime, read: WireTime) {
    sent.dayFrom == read.dayFrom && sent.dayTo == read.dayTo && Extends(sent.from, read.from) && Extends(sent.to, read.to)
  }

  /** What PTV may return for hours it was sent: old type names, longer dates and times, its own validForNow. */
  predicate Echoes(sent: WireHour, read: WireHour) {
    && (read.serviceHourType == sent.serviceHourType
        || (sent.serviceHourType == "Exceptional" && read.serviceHourType == "Exception")
        || (sent.serviceHourType == "OverMidnight" && read.serviceHourType == "Special"))
    && DateEchoed(sent.validFrom, read.validFrom) && DateEchoed(sent.validTo, read.validTo)
    && sent.isClosed == read.isClosed && sent.isAlwaysOpen == read.isAlwaysOpen
    && sent.isReservation == read.isReservation && sent.additionalInformation == read.additionalInformation
    && |sent.openingHour| == |read.openingHour|
    && forall i :: 0 <= i < |sent.openingHour| ==> TimeEchoed(sent.openingHour[i], read.openingHour[i])
  }

  predicate ClockTime(time: string) {
    HourDigits(time) == 2 && |time| == 5
  }

  predicate FullDate(date: Option<string>) {
    Truthy(date).Some? ==> |date.value| == 10
  }

  ghost predicate ClockTimes(times: seq<OpeningTime>) {
    forall i :: 0 <= i < |times| ==> ClockTime(times[i].from) && ClockTime(times[i].to)
  }

  lemma ClockTimeEchoed(sent: string, read: string)
    requires ClockTime(sent) && Extends(sent, read)
    ensures ShortTime(read) == sent
  {
    assert read[0] == sent[0] && read[1] == sent[1] && read[2] == sent[2] && read[3] == sent[3] && read[4] == sent[4];
  }

  lemma DateEchoRead(sent: Option<string>, read: Option<string>)
    requires FullDate(sent) && DateEchoed(Truthy(sent), read)
    ensures Truthy(IsoDate(read)) == Truthy(sent)
  {
    if Truthy(sent).Some? {
      assert read.value[..10] == sent.value;
      assert |read.value| == 10 ==> read.value[..10] == read.value;
    }
  }

  lemma {:induction false} TimesEchoRead(times: seq<OpeningTime>, read: seq<WireTime>)
    requires ClockTimes(times) && |read| == |times|
    requires forall i :: 0 <= i < |times| ==> TimeEchoed(TimeToWire(times[i]), read[i])
    ensures TimesToDomain(read) == times
  {
    hide ShortTime, ReadDay, DayName, ClockTime, Extends;
    if times != [] {
      DayReadBack(Some(times[0].dayFrom));
      DayReadBack(times[0].dayTo);
      ClockTimeEchoed(times[0].from, read[0].from);
      ClockTimeEchoed(times[0].to, read[0].to);
      TimesEchoRead(times[1..], read[1..]);
      assert times == [times[0]] + times[1..];
    }
  }

  lemma EchoedTimes(hour: ServiceHour, read: WireHour)
    requires ClockTimes(Expand(hour)) && Echoes(ToWire(hour), read)
    ensures ReadType(read.serviceHourType) == hour.hourType
    ensures TimesToDomain(read.openingHour) == Expand(hour)
  {
    hide TextToItems, Expand, TimesToDomain, TimeEchoed, DateEchoed;
    TimesEchoRead(Expand(hour), read.openingHour);
  }

  /** However PTV renders hours written with clock times and full dates, reading them compares equal. */
  lemma EchoedHoursCompareEqual(le: Order, hour: ServiceHour, read: WireHour)
    requires IsHour(hour) && SettledTitle(hour.additionalInformation)
    requires FullDate(hour.validFrom) && FullDate(hour.validTo) && ClockTimes(Expand(hour))
    requires Echoes(ToWire(hour), read)
    ensures Canonical(le, ToDomain(read)) == Canonical(le, hour)
  {
    EchoedTimes(hour, read);
    EchoedDatesAndTitle(hour, read);
    EchoedExpansion(hour, ToDomain(read));
    hide ItemsToText, TextToItems, Expand, TimesToDomain, SortTimes, ClockTimes, Echoes, SettledTitle, ReadType, IsoDate;
    assert Echoes(ToWire(hour), read);
  }

  lemma EchoedDatesAndTitle(hour: ServiceHour, read: WireHour)
    requires IsHour(hour) && SettledTitle(hour.additionalInformation)
    requires FullDate(hour.validFrom) && FullDate(hour.validTo)
    requires Echoes(ToWire(hour), read)
    ensures Truthy(IsoDate(read.validFrom)) == Truthy(hour.validFrom)
    ensures Truthy(IsoDate(read.validTo)) == Truthy(hour.validTo)
    ensures ToDomain(read).additionalInformation == hour.additionalInformation
  {
    hide TextToItems, ItemsToText, Expand, TimeEchoed, DateEchoed, FullDate, IsoDate, TimesToDomain;
    DateEchoRead(hour.validFrom, read.validFrom);
    DateEchoRead(hour.validTo, read.validTo);
    if hour.additionalInformation.Some? {
      TitleReadBack(hour.additionalInformation.value);
    }
  }

  lemma EchoedExpansion(hour: ServiceHour, read: ServiceHour)
    requires read.hourType == hour.hourType
    requires read.openingTimes == if Expand(hour) == [] then None else Some(Expand(hour))
    ensures Expand(read) == Expand(hour)
  {
    hide ExpandAll;
    assert Times(read) == Expand(hour);
    if hour.hourType != OverMidnight {
      ExpandedHaveNoRange(Times(hour));
      ExpandAgain(Expand(hour));
    }
  }

  // ----- Printed day ranges -----

  datatype Group = Group(first: Weekday, last: Weekday, from: string, to: string)

  function AsTime(group: Group): OpeningTime {
    OpeningTime(group.first, Some(group.last), group.from, group.to)
  }

  function Ungroup(groups: seq<Group>): seq<OpeningTime> {
    if groups == [] then [] else Ungroup(groups[..|groups| - 1]) + ExpandOne(AsTime(groups[|groups| - 1]))
  }

  predicate Joins(a: Group, b: Group) {
    a.from == b.from && a.to == b.to && IndexOf(b.first) == IndexOf(a.last) + 1
  }

  /** Ranges within one week, no two neighbours of which could be one range. */
  ghost predicate Tight(groups: seq<Group>) {
    && (forall i :: 0 <= i < |groups| ==> IndexOf(groups[i].first) <= IndexOf(groups[i].last))
    && (forall i :: 0 < i < |groups| ==> !Joins(groups[i - 1], groups[i]))
  }

  /** The ranges written out are an hour's own opening times written out. */
  lemma {:induction false} UngroupExpands(groups: seq<Group>, times: seq<OpeningTime>)
    requires |times| == |groups| && forall i :: 0 <= i < |groups| ==> times[i] == AsTime(groups[i])
    ensures ExpandAll(times) == Ungroup(groups)
    decreases |groups|
  {
    hide ExpandOne;
    if groups != [] {
      var n := |groups| - 1;
      UngroupExpands(groups[..n], times[..n]);
      assert times == times[..n] + [times[n]];
      ExpandAppended(times[..n], times[n]);
    }
  }

  lemma {:induction false} ExpandAppended(times: seq<OpeningTime>, time: OpeningTime)
    ensures ExpandAll(times + [time]) == ExpandAll(times) + ExpandOne(time)
  {
    hide ExpandOne;
    if times == [] {
      assert times + [time] == [time];
    } else {
      assert (times + [time])[1..] == times[1..] + [time];
      ExpandAppended(times[1..], time);
    }
  }

  lemma RangeAt(group: Group, k: nat)
    requires IndexOf(group.first) <= IndexOf(group.last)
    ensures |ExpandOne(AsTime(group))| == IndexOf(group.last) - IndexOf(group.first) + 1
    ensures k < |ExpandOne(AsTime(group))| ==>
              var t := ExpandOne(AsTime(group))[k];
              t.dayTo == None && t.from == group.from && t.to == group.to
              && IndexOf(t.dayFrom) == IndexOf(group.first) + k
  {
    hide IndexOf, Days;
    DayOfRange(group.first, group.last, k);
    if IndexOf(group.first) == IndexOf(group.last) { SameIndex(group.first, group.last); }
  }

  lemma GroupOfOne(time: OpeningTime)
    requires time.dayTo == None
    ensures ExpandOne(AsTime(AsGroup(time))) == [time]
  {
  }

  lemma GroupGrown(group: Group, time: OpeningTime)
    requires IndexOf(group.first) <= IndexOf(group.last) && time.dayTo == None
    requires Joins(group, AsGroup(time))
    ensures ExpandOne(AsTime(group.(last := time.dayFrom))) == ExpandOne(AsTime(group)) + [time]
  {
    var grown := group.(last := time.dayFrom);
    var left, right := ExpandOne(AsTime(grown)), ExpandOne(AsTime(group)) + [time];
    hide IndexOf, ExpandOne;
    RangeAt(grown, 0);
    RangeAt(group, 0);
    forall k | 0 <= k < |left|
      ensures left[k] == right[k]
    {
      RangeAt(grown, k);
      RangeAt(group, k);
      SameIndex(left[k].dayFrom, right[k].dayFrom);
    }
  }

  function AsGroup(time: OpeningTime): Group {
    Group(time.dayFrom, time.dayFrom, time.from, time.to)
  }

  lemma UngroupAppended(groups: seq<Group>, group: Group)
    ensures Ungroup(groups + [group]) == Ungroup(groups) + ExpandOne(AsTime(group))
  {
    hide ExpandOne;
    assert (groups + [group])[..|groups|] == groups;
  }

  lemma TightAppended(groups: seq<Group>, group: Group)
    ensures Tight(groups + [group]) <==>
            && Tight(groups) && IndexOf(group.first) <= IndexOf(group.last)
            && (groups != [] ==> !Joins(groups[|groups| - 1], group))
  {
    hide IndexOf, Joins;
    var all := groups + [group];
    assert all[|groups|] == group;
    assert forall i :: 0 <= i < |groups| ==> all[i] == groups[i];
    if Tight(all) {
      forall i | 0 < i < |groups|
        ensures !Joins(groups[i - 1], groups[i])
      {
        assert !Joins(all[i - 1], all[i]);
      }
    }
  }

  lemma LastGroupGrown(groups: seq<Group>, time: OpeningTime)
    requires groups != [] && Tight(groups) && time.dayTo == None && Joins(groups[|groups| - 1], AsGroup(time))
    ensures var grown := groups[|groups| - 1 := groups[|groups| - 1].(last := time.dayFrom)];
            Tight(grown) && Ungroup(grown) == Ungroup(groups) + [time]
  {
    hide IndexOf, ExpandOne, Tight, Ungroup;
    var n := |groups| - 1;
    var g := groups[n].(last := time.dayFrom);
    assert groups == groups[..n] + [groups[n]] && groups[n := g] == groups[..n] + [g];
    TightAppended(groups[..n], groups[n]);
    TightAppended(groups[..n], g);
    UngroupAppended(groups[..n], groups[n]);
    UngroupAppended(groups[..n], g);
    GroupGrown(groups[n], time);
  }

  lemma GroupAdded(groups: seq<Group>, time: OpeningTime)
    requires Tight(groups) && time.dayTo == None
    requires groups != [] ==> !Joins(groups[|groups| - 1], AsGroup(time))
    ensures Tight(groups + [AsGroup(time)]) && Ungroup(groups + [AsGroup(time)]) == Ungroup(groups) + [time]
  {
    hide IndexOf, ExpandOne, Tight, Ungroup, Joins;
    GroupOfOne(time);
    TightAppended(groups, AsGroup(time));
    UngroupAppended(groups, AsGroup(time));
  }

  method GroupDays(le: Order, hour: ServiceHour) returns (groups: seq<Group>)
    requires hour.hourType != OverMidnight
    ensures Ungroup(groups) == SortTimes(le, Expand(hour))
    ensures Tight(groups)
  {
    hide IndexOf, SortTimes, ExpandOne, ExpandAll, Ungroup, Tight;
    var sorted := SortTimes(le, Expand(hour));
    ExpandedHaveNoRange(Times(hour));
    SortedAreExpanded(le, Expand(hour));
    groups := [];
    NoGroups();
    for i := 0 to |sorted|
      invariant Ungroup(groups) == sorted[..i]
      invariant Tight(groups)
    {
      var time := sorted[i];
      assert sorted[..i + 1] == sorted[..i] + [time];
      if groups != [] && Joins(groups[|groups| - 1], AsGroup(time)) {
        LastGroupGrown(groups, time);
        groups := groups[|groups| - 1 := groups[|groups| - 1].(last := time.dayFrom)];
      } else {
        GroupAdded(groups, time);
        groups := groups + [AsGroup(time)];
      }
    }
    assert sorted[..|sorted|] == sorted;
  }

  lemma NoGroups()
    ensures Tight([]) && Ungroup([]) == []
  {
  }

  lemma SortedAreExpanded(le: Order, times: seq<OpeningTime>)
    requires forall i :: 0 <= i < |times| ==> times[i].dayTo == None
    ensures forall i :: 0 <= i < |SortTimes(le, times)| ==> SortTimes(le, times)[i].dayTo == None
  {
    hide SortTimes;
    forall i | 0 <= i < |SortTimes(le, times)|
      ensures SortTimes(le, times)[i].dayTo == None
    {
      assert SortTimes(le, times)[i] in multiset(SortTimes(le, times));
      assert SortTimes(le, times)[i] in times;
    }
  }

  // ----- The printed ranges are the only ones -----

  lemma {:induction false} LastRangeWithin(groups: seq<Group>, other: seq<Group>)
    requires groups != [] && other != [] && Tight(groups) && Tight(other) && Ungroup(groups) == Ungroup(other)
    ensures groups[|groups| - 1].from == other[|other| - 1].from && groups[|groups| - 1].to == other[|other| - 1].to
    ensures groups[|groups| - 1].last == other[|other| - 1].last
    ensures IndexOf(groups[|groups| - 1].first) >= IndexOf(other[|other| - 1].first)
  {
    hide IndexOf, ExpandOne;
    var n, m := |groups| - 1, |other| - 1;
    var g, h := groups[n], other[m];
    var a, b := ExpandOne(AsTime(g)), ExpandOne(AsTime(h));
    var all := Ungroup(groups);
    RangeAt(g, 0);
    RangeAt(h, 0);
    RangeAt(g, |a| - 1);
    RangeAt(h, |b| - 1);
    assert all[|all| - 1] == a[|a| - 1] == b[|b| - 1];
    SameIndex(g.last, h.last);
    if IndexOf(g.first) < IndexOf(h.first) {
      // The element before the other's last range is still inside this one, so the other could be joined.
      RangeAt(g, |a| - 1 - |b|);
      assert all[|all| - 1 - |b|] == a[|a| - 1 - |b|];
      assert |Ungroup(other[..m])| > 0;
      var p := other[m - 1];
      var c := ExpandOne(AsTime(p));
      RangeAt(p, 0);
      RangeAt(p, |c| - 1);
      assert false;
    }
  }

  lemma SameRest(a: seq<OpeningTime>, b: seq<OpeningTime>, tail: seq<OpeningTime>)
    requires a + tail == b + tail
    ensures a == b
  {
    hide *;
    assert |a| + |tail| == |b| + |tail|;
    assert (a + tail)[..|a|] == a && (b + tail)[..|b|] == b;
  }

  lemma SomeTimes(groups: seq<Group>)
    requires groups != [] && Tight(groups)
    ensures Ungroup(groups) != []
  {
    hide IndexOf, ExpandOne;
    RangeAt(groups[|groups| - 1], 0);
  }

  /** Written-out times determine the ranges: there is one tight grouping. */
  lemma {:induction false} GroupingIsUnique(groups: seq<Group>, other: seq<Group>)
    requires Tight(groups) && Tight(other) && Ungroup(groups) == Ungroup(other)
    ensures groups == other
    decreases |groups|
  {
    hide IndexOf, ExpandOne, Tight, Ungroup, Joins;
    NoGroups();
    if groups == [] || other == [] {
      if groups != [] { SomeTimes(groups); }
      if other != [] { SomeTimes(other); }
    } else {
      LastRangeWithin(groups, other);
      LastRangeWithin(other, groups);
      var n, m := |groups| - 1, |other| - 1;
      SameIndex(groups[n].first, other[m].first);
      assert groups == groups[..n] + [groups[n]] && other == other[..m] + [other[m]];
      assert groups[n] == other[m];
      UngroupAppended(groups[..n], groups[n]);
      UngroupAppended(other[..m], other[m]);
      SameRest(Ungroup(groups[..n]), Ungroup(other[..m]), ExpandOne(AsTime(groups[n])));
      TightAppended(groups[..n], groups[n]);
      TightAppended(other[..m], other[m]);
      GroupingIsUnique(groups[..n], other[..m]);
    }
  }
}
