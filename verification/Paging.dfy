/**
 * Reading lists that PTV pages in its own fixed size (src/ptv/v11/pagination.ts:18-118).
 */
module Paging {
  import opened Wrappers
  import opened WorkerPool

  /** A paged list on the server: its pages, the page size it reports, and the pages it fails to answer for. */
  datatype Listing<T> = Listing(pages: seq<seq<T>>, size: nat, down: set<nat>)

  datatype Page<+T> = Page(pageSize: nat, pageCount: nat, itemList: seq<T>)

  /** GET of a page, numbered from 1; past the end the item list is missing, which reads as empty. */
  function Get<T>(list: Listing<T>, page: nat): Outcome<Page<T>> {
    if page in list.down then Failure
    else Value(Page(list.size, |list.pages|, if 1 <= page <= |list.pages| then list.pages[page - 1] else []))
  }

  /** Every page but the last holds exactly the page size. */
  ghost predicate Full<T>(list: Listing<T>) {
    && list.size >= 1
    && (forall k :: 0 <= k < |list.pages| - 1 ==> |list.pages[k]| == list.size)
    && (list.pages != [] ==> |list.pages[|list.pages| - 1]| <= list.size)
  }

  /** The part [start, start + count) of a list, as far as the list goes. */
  function Window<T>(all: seq<T>, start: nat, count: nat): seq<T> {
    all[Min(start, |all|)..Min(start + count, |all|)]
  }

  // ----- Where the pages lie in the list -----

  function Init<T>(list: Listing<T>): Listing<T>
    requires list.pages != []
  {
    list.(pages := list.pages[..|list.pages| - 1])
  }

  lemma NextMultiple(k: nat, size: nat)
    ensures (k + 1) * size == k * size + size
  {
  }

  /** How long the list is: full pages, then the last one. */
  lemma {:induction false} Length<T>(list: Listing<T>)
    requires Full(list)
    ensures |Flatten(list.pages)| ==
            if list.pages == [] then 0 else (|list.pages| - 1) * list.size + |list.pages[|list.pages| - 1]|
    decreases |list.pages|
  {
    if |list.pages| > 1 {
      var init := Init(list);
      Length(init);
      NextMultiple(|init.pages| - 1, list.size);
    }
  }

  /** Page k + 1 is the stretch of the list that starts at k page sizes. */
  lemma {:induction false} PageAt<T>(list: Listing<T>, k: nat)
    requires Full(list) && k < |list.pages|
    ensures k * list.size + |list.pages[k]| <= |Flatten(list.pages)|
    ensures Flatten(list.pages)[k * list.size..k * list.size + |list.pages[k]|] == list.pages[k]
    ensures k < |list.pages| - 1 ==> |list.pages[k]| == list.size
    ensures k == |list.pages| - 1 ==> k * list.size + |list.pages[k]| == |Flatten(list.pages)|
    decreases |list.pages|
  {
    Length(list);
    var all := Flatten(list.pages);
    if k == |list.pages| - 1 {
      assert all == Flatten(list.pages[..k]) + list.pages[k];
    } else {
      var init := Init(list);
      PageAt(init, k);
      assert init.pages[k] == list.pages[k];
      var part := Flatten(init.pages);
      assert all[..|part|] == part;
      assert all[k * list.size..k * list.size + |list.pages[k]|] == part[k * list.size..k * list.size + |list.pages[k]|];
    }
  }

  // ----- A window of ids -----

  /** The pages a window asks for: the first, the one the window starts in, and on to its end or the list's. */
  predicate Asked<T>(list: Listing<T>, start: nat, count: nat, page: nat)
    requires list.size >= 1 && count >= 1
  {
    || page == 1
    || page == start / list.size + 1
    || (start / list.size + 1 <= page <= |list.pages| && (page - 1) * list.size < start + count)
  }

  /** The items of a page from an offset, at most so many: JavaScript's slice. */
  function Slice<T>(items: seq<T>, offset: nat, most: nat): seq<T> {
    items[Min(offset, |items|)..Min(offset + most, |items|)]
  }

  function PageItems<T>(list: Listing<T>, k: nat): seq<T> {
    if k < |list.pages| then list.pages[k] else []
  }

  lemma SliceOfSlice<T>(s: seq<T>, a: nat, b: nat, c: nat, d: nat)
    requires a <= b <= |s| && c <= d <= b - a
    ensures s[a..b][c..d] == s[a + c..a + d]
  {
    var t := s[a..b];
    forall i | 0 <= i < d - c
      ensures t[c..d][i] == s[a + c..a + d][i]
    {
      assert t[c + i] == s[a + c + i];
    }
  }

  /** A slice of a stretch of the list is a window of the list; at the list's end it is the whole window. */
  lemma SliceOfStretch<T>(all: seq<T>, base: nat, page: seq<T>, offset: nat, most: nat)
    requires base + |page| <= |all| && all[base..base + |page|] == page
    ensures var slice := Slice(page, offset, most);
            && |slice| == Min(most, Max(0, |page| - offset))
            && slice == Window(all, base + offset, |slice|)
            && (base + |page| == |all| ==> slice == Window(all, base + offset, most))
  {
    var slice := Slice(page, offset, most);
    if offset <= |page| {
      var n := |slice|;
      SliceOfSlice(all, base, base + |page|, offset, offset + n);
    }
  }

  /** One page of a window: what it adds, and where the window stands after it. */
  lemma PageOfWindow<T>(list: Listing<T>, k: nat, base: nat, offset: nat, most: nat)
    requires Full(list) && offset < list.size && most >= 1 && base == k * list.size
    ensures var slice, all := Slice(PageItems(list, k), offset, most), Flatten(list.pages);
            && |slice| <= most
            && (slice != [] ==> base + offset + |slice| <= |all|)
            && slice == Window(all, base + offset, |slice|)
            && (k + 1 >= |list.pages| ==> slice == Window(all, base + offset, most))
            && (k + 1 < |list.pages| ==>
                  && base + offset + |slice| <= base + list.size
                  && (|slice| == most || base + offset + |slice| == base + list.size))
  {
    hide Full, Flatten, Slice, Window;
    var all := Flatten(list.pages);
    if k < |list.pages| {
      PageAt(list, k);
      SliceOfStretch(all, base, list.pages[k], offset, most);
    } else {
      PastTheEnd(list, k);
      NothingThere(all, base + offset, offset, most);
    }
  }

  lemma NothingThere<T>(all: seq<T>, position: nat, offset: nat, most: nat)
    requires |all| <= position
    ensures Slice<T>([], offset, most) == [] == Window(all, position, most) == Window(all, position, 0)
  {
  }

  lemma PastTheEnd<T>(list: Listing<T>, k: nat)
    requires Full(list) && k >= |list.pages|
    ensures |Flatten(list.pages)| <= k * list.size
  {
    Length(list);
    if list.pages != [] {
      var n := |list.pages|;
      NextMultiple(n - 1, list.size);
      Monotone(n, k, list.size);
    }
  }

  lemma Monotone(a: nat, b: nat, size: nat)
    requires a <= b
    ensures a * size <= b * size
  {
  }

  lemma WindowExtended<T>(all: seq<T>, start: nat, a: nat, b: nat)
    requires start + a <= |all| || a == 0
    ensures Window(all, start, a) + Window(all, start + a, b) == Window(all, start, a + b)
  {
  }

  lemma StartsInPage(start: nat, size: nat)
    requires size >= 1
    ensures start / size * size <= start < start / size * size + size
  {
  }

  /** One round of the loop: the ids read so far are a window, and the next page starts where they end. */
  lemma WindowGrows<T>(list: Listing<T>, start: nat, count: nat, page: nat, offset: nat, ids: seq<T>)
    requires Full(list) && page >= 1 && offset < list.size && |ids| < count
    requires start + |ids| == (page - 1) * list.size + offset
    requires ids == Window(Flatten(list.pages), start, |ids|) && (ids == [] || start + |ids| <= |Flatten(list.pages)|)
    ensures var next, all := ids + Slice(PageItems(list, page - 1), offset, count - |ids|), Flatten(list.pages);
            && |next| <= count
            && next == Window(all, start, |next|) && (next == [] || start + |next| <= |all|)
            && (page >= |list.pages| ==> next == Window(all, start, count))
            && (page < |list.pages| ==>
                  (|next| == count && start + count <= page * list.size) || start + |next| == page * list.size)
  {
    hide Full, Flatten, Window, Slice, PageItems;
    var slice, all := Slice(PageItems(list, page - 1), offset, count - |ids|), Flatten(list.pages);
    NextMultiple(page - 1, list.size);
    PageOfWindow(list, page - 1, (page - 1) * list.size, offset, count - |ids|);
    WindowExtended(all, start, |ids|, |slice|);
    WindowExtended(all, start, |ids|, count - |ids|);
  }

  method FetchIdWindow<T(!new)>(list: Listing<T>, start: nat, count: int)
    returns (failed: bool, ids: seq<T>, totalCountEstimate: nat)
    requires Full(list)
    ensures count <= 0 ==> !failed && ids == [] && totalCountEstimate == 0
    ensures count > 0 ==> (failed <==> exists k :: k in list.down && Asked(list, start, count, k))
    ensures count > 0 && !failed ==> ids == Window(Flatten(list.pages), start, count)
    ensures count > 0 && !failed ==> totalCountEstimate == |list.pages| * list.size
  {
    hide Full, Flatten, Window, Slice, Asked;
    failed, ids, totalCountEstimate := false, [], 0;
    if count <= 0 { return; }
    assert list.size >= 1 by { SizeOfFull(list); }
    var first := Get(list, 1);
    if first.Failure? {
      FirstAsked(list, start, count, 0);
      return true, [], 0;
    }
    var pageSize := first.value.pageSize;
    var firstPage := start / pageSize + 1;
    StartsInPage(start, pageSize);
    var page: nat := firstPage;
    var offset: nat := start - (firstPage - 1) * pageSize;
    ghost var all := Flatten(list.pages);
    assert Window(all, start, 0) == [] by { NoWindow(all, start); }
    while |ids| < count
      invariant firstPage <= page && |ids| <= count
      invariant ids == Window(all, start, |ids|)
      invariant ids == [] || start + |ids| <= |all|
      invariant |ids| < count ==> start + |ids| == (page - 1) * pageSize + offset && offset < pageSize
      invariant |ids| < count ==> page == firstPage || page <= |list.pages|
      invariant |ids| == count ==> forall k :: k in list.down ==> !Asked(list, start, count, k)
      invariant forall k :: firstPage <= k < page ==> k !in list.down
      decreases Max(0, |list.pages| - page), count - |ids|
    {
      var result := if page == 1 then first else Get(list, page);
      if result.Failure? {
        FirstAsked(list, start, count, page);
        return true, [], 0;
      }
      var slice := Slice(result.value.itemList, offset, count - |ids|);
      assert result.value.itemList == PageItems(list, page - 1);
      WindowGrows(list, start, count, page, offset, ids);
      ids := ids + slice;
      if page >= result.value.pageCount {
        AllAskedAnswered(list, start, count, page);
        break;
      }
      if |ids| == count { AllAskedAnswered(list, start, count, page); }
      page := page + 1;
      offset := 0;
    }
    totalCountEstimate := first.value.pageCount * first.value.pageSize;
  }

  lemma FirstAsked<T>(list: Listing<T>, start: nat, count: nat, page: nat)
    requires list.size >= 1 && count >= 1
    ensures Asked(list, start, count, 1)
    ensures page == start / list.size + 1 ==> Asked(list, start, count, page)
    ensures start / list.size + 1 <= page <= |list.pages| && (page - 1) * list.size < start + count ==>
              Asked(list, start, count, page)
  {
  }

  lemma SizeOfFull<T>(list: Listing<T>)
    requires Full(list)
    ensures list.size >= 1
  {
  }

  lemma NoWindow<T>(all: seq<T>, start: nat)
    ensures Window(all, start, 0) == []
  {
  }

  lemma AllAskedAnswered<T>(list: Listing<T>, start: nat, count: nat, last: nat)
    requires list.size >= 1 && count >= 1 && 1 !in list.down && last >= start / list.size + 1
    requires forall k :: start / list.size + 1 <= k <= last ==> k !in list.down
    requires last >= |list.pages| || start + count <= last * list.size
    ensures forall k :: k in list.down ==> !Asked(list, start, count, k)
  {
    forall k | k in list.down
      ensures !Asked(list, start, count, k)
    {
      if k > last { Monotone(last, k - 1, list.size); }
    }
  }

  /** The estimate is never below the true total, and off by less than a page exactly when the last page is not empty. */
  lemma EstimateBounds<T>(list: Listing<T>)
    requires Full(list)
    ensures |Flatten(list.pages)| <= |list.pages| * list.size
    ensures list.pages != [] ==>
              (|list.pages| * list.size < |Flatten(list.pages)| + list.size <==> list.pages[|list.pages| - 1] != [])
  {
    Length(list);
    if list.pages != [] { NextMultiple(|list.pages| - 1, list.size); }
  }

  // ----- Every page -----

  const PAGE_FETCH_CONCURRENCY := 6

  function ItemsOf<T>(reply: Outcome<Page<T>>): Outcome<seq<T>> {
    match reply case Value(page) => Value(page.itemList) case Failure => Failure
  }

  function Known<T>(pages: seq<Option<seq<T>>>): seq<seq<T>> {
    seq(|pages|, i requires 0 <= i < |pages| => if pages[i].Some? then pages[i].value else [])
  }

  /** The whole list in page order, whatever order the later pages are answered in; none of it when a page fails. */
  method FetchAllPages<T(!new)>(list: Listing<T>) returns (items: Option<seq<T>>)
    ensures items.None? <==> exists k :: k in list.down && (k == 1 || 2 <= k <= |list.pages|)
    ensures items.Some? ==> items.value == Flatten(list.pages)
  {
    hide Flatten;
    var first := Get(list, 1);
    if first.Failure? {
      return None;
    }
    var later: seq<nat> := seq(Max(0, first.value.pageCount - 1), i requires 0 <= i => i + 2);
    var fn := (page: nat) => ItemsOf(Get(list, page));
    var rest, rejected := MapWithConcurrency(later, PAGE_FETCH_CONCURRENCY, fn);
    if rejected {
      assert SomeFails(later, fn);
      var i :| 0 <= i < |later| && fn(later[i]) == Failure;
      assert later[i] in list.down;
      return None;
    }
    forall k | 2 <= k <= |list.pages|
      ensures k !in list.down
    {
      assert later[k - 2] == k && fn(later[k - 2]) == Value(rest[k - 2].value);
    }
    items := Some(first.value.itemList + Flatten(Known(rest)));
    if list.pages == [] {
      assert rest == [] && Known(rest) == [];
      NoPages(list);
    } else {
      forall i | 0 <= i < |rest|
        ensures Known(rest)[i] == list.pages[i + 1]
      {
        assert fn(later[i]) == Value(rest[i].value);
      }
      assert Known(rest) == list.pages[1..];
      FlattenFront(list.pages);
    }
  }

  lemma NoPages<T>(list: Listing<T>)
    requires list.pages == []
    ensures Flatten(list.pages) == [] && Flatten<T>([]) == []
  {
  }

  lemma {:induction false} FlattenFront<T>(batches: seq<seq<T>>)
    requires batches != []
    ensures Flatten(batches) == batches[0] + Flatten(batches[1..])
    decreases |batches|
  {
    var n := |batches| - 1;
    if n == 0 {
      assert batches[..0] == [];
    } else {
      FlattenFront(batches[..n]);
      assert batches[..n][1..] == batches[1..][..n - 1];
      assert batches[1..][n - 1] == batches[n];
      assert Flatten(batches[1..]) == Flatten(batches[1..][..n - 1]) + batches[n];
    }
  }

  // ----- Full records by id -----

  const BATCH := 100

  datatype Record = Record(id: string, content: string)

  /** What the list endpoint answers for a batch of ids; 404 when it finds none of them. */
  datatype Reply = Records(records: seq<Record>) | NotFound | Error

  /** The endpoint answers from one catalogue: the batch's records that exist, in any order. */
  ghost predicate AnswersFrom(ask: seq<string> -> Reply, catalogue: map<string, Record>) {
    && (forall id :: id in catalogue ==> catalogue[id].id == id)
    && forall batch: seq<string> :: HonestReply(ask(batch), batch, catalogue)
  }

  ghost predicate HonestReply(reply: Reply, batch: seq<string>, catalogue: map<string, Record>) {
    match reply
    case Records(records) =>
      && (forall r :: r in records ==> r.id in catalogue && catalogue[r.id] == r)
      && (forall id :: id in batch && id in catalogue ==> catalogue[id] in records)
    case NotFound => forall id :: id in batch ==> id !in catalogue
    case Error => true
  }

  function Batch(ids: seq<string>, at: nat): seq<string>
    requires at <= |ids|
  {
    ids[at..Min(at + BATCH, |ids|)]
  }

  /** The batch that starts here makes the whole read fail. */
  predicate FailsAt(ask: seq<string> -> Reply, ids: seq<string>, notFoundAsEmpty: bool, k: nat) {
    k * BATCH < |ids|
    && (ask(Batch(ids, k * BATCH)).Error? || (ask(Batch(ids, k * BATCH)).NotFound? && !notFoundAsEmpty))
  }

  /** The records that exist, in the order asked for, as often as asked for. */
  function Existing(ids: seq<string>, catalogue: map<string, Record>): seq<Record>
    decreases |ids|
  {
    if ids == [] then []
    else
      var last := ids[|ids| - 1];
      Existing(ids[..|ids| - 1], catalogue) + if last in catalogue then [catalogue[last]] else []
  }

  method FetchListByIds(ask: seq<string> -> Reply, ids: seq<string>, notFoundAsEmpty: bool, ghost catalogue: map<string, Record>)
    returns (records: Option<seq<Record>>, asked: seq<seq<string>>)
    requires AnswersFrom(ask, catalogue)
    ensures Flatten(asked) <= ids && (records.Some? ==> Flatten(asked) == ids)
    ensures forall k :: 0 <= k < |asked| ==> 1 <= |asked[k]| <= 100
    ensures records.None? <==> exists k :: FailsAt(ask, ids, notFoundAsEmpty, k)
    ensures records.Some? ==> records.value == Existing(ids, catalogue)
  {
    hide HonestReply, Indexed, Flatten, Existing, Batch;
    assert Flatten<string>([]) == [] by { NothingFlat(); }
    var byId: map<string, Record> := map[];
    var i, k := 0, 0;
    asked := [];
    while i < |ids|
      invariant i == k * BATCH && Flatten(asked) == ids[..Min(i, |ids|)]
      invariant forall b :: 0 <= b < |asked| ==> 1 <= |asked[b]| <= 100
      invariant forall j :: 0 <= j < k ==> !FailsAt(ask, ids, notFoundAsEmpty, j)
      invariant forall id :: id in byId ==> id in catalogue && byId[id] == catalogue[id]
      invariant forall j :: 0 <= j < Min(i, |ids|) && ids[j] in catalogue ==> ids[j] in byId
    {
      var batch := Batch(ids, i);
      var reply := ask(batch);
      AskedOn(asked, ids, i);
      asked := asked + [batch];
      assert HonestReply(reply, batch, catalogue);
      if reply.Error? || (reply.NotFound? && !notFoundAsEmpty) {
        assert FailsAt(ask, ids, notFoundAsEmpty, k);
        return None, asked;
      }
      ghost var before := byId;
      if reply.Records? {
        byId := Indexed(byId, reply.records);
      }
      Covered(reply, batch, catalogue, before, byId);
      forall j | i <= j < Min(i + BATCH, |ids|) && ids[j] in catalogue
        ensures ids[j] in byId
      {
        BatchAt(ids, i, j);
      }
      i, k := i + BATCH, k + 1;
    }
    var found := InOrder(byId, ids, catalogue);
    records := Some(found);
  }

  method InOrder(byId: map<string, Record>, ids: seq<string>, ghost catalogue: map<string, Record>) returns (found: seq<Record>)
    requires forall id :: id in byId ==> id in catalogue && byId[id] == catalogue[id]
    requires forall j :: 0 <= j < |ids| && ids[j] in catalogue ==> ids[j] in byId
    ensures found == Existing(ids, catalogue)
  {
    found := [];
    for j := 0 to |ids|
      invariant found == Existing(ids[..j], catalogue)
    {
      assert ids[..j + 1][..j] == ids[..j];
      if ids[j] in byId {
        found := found + [byId[ids[j]]];
      }
    }
    assert ids[..|ids|] == ids;
  }

  lemma NothingFlat()
    ensures Flatten<string>([]) == []
  {
  }

  lemma BatchAt(ids: seq<string>, i: nat, j: nat)
    requires i <= j < Min(i + BATCH, |ids|)
    ensures ids[j] in Batch(ids, i)
  {
    assert Batch(ids, i)[j - i] == ids[j];
  }

  /** One more batch is asked for. */
  lemma AskedOn(asked: seq<seq<string>>, ids: seq<string>, i: nat)
    requires i < |ids| && Flatten(asked) == ids[..i]
    ensures Flatten(asked + [Batch(ids, i)]) == ids[..Min(i + BATCH, |ids|)] && 1 <= |Batch(ids, i)| <= 100
  {
    assert (asked + [Batch(ids, i)])[..|asked|] == asked;
    assert ids[..i] + Batch(ids, i) == ids[..Min(i + BATCH, |ids|)];
  }

  /** A Map filled from a list: the last record of an id stays. */
  function Indexed(byId: map<string, Record>, records: seq<Record>): map<string, Record>
    decreases |records|
  {
    if records == [] then byId
    else Indexed(byId, records[..|records| - 1])[records[|records| - 1].id := records[|records| - 1]]
  }

  /** A reply adds what it found of its batch, and nothing wrong. */
  lemma Covered(reply: Reply, batch: seq<string>, catalogue: map<string, Record>, before: map<string, Record>, after: map<string, Record>)
    requires HonestReply(reply, batch, catalogue) && !reply.Error? && forall id :: id in catalogue ==> catalogue[id].id == id
    requires after == if reply.Records? then Indexed(before, reply.records) else before
    requires forall id :: id in before ==> id in catalogue && before[id] == catalogue[id]
    ensures forall id :: id in after ==> id in catalogue && after[id] == catalogue[id]
    ensures before.Keys <= after.Keys && forall id :: id in batch && id in catalogue ==> id in after
  {
    hide Indexed;
    if reply.Records? {
      IndexedHas(before, reply.records);
      forall id | id in batch && id in catalogue
        ensures id in after
      {
        var j :| 0 <= j < |reply.records| && reply.records[j] == catalogue[id];
        assert reply.records[j].id == id;
      }
    }
  }

  lemma {:induction false} IndexedHas(byId: map<string, Record>, records: seq<Record>)
    ensures forall id :: id in Indexed(byId, records) <==> id in byId || exists j :: 0 <= j < |records| && records[j].id == id
    ensures forall id :: id in Indexed(byId, records) ==>
              (id in byId && Indexed(byId, records)[id] == byId[id])
              || (Indexed(byId, records)[id] in records && Indexed(byId, records)[id].id == id)
    decreases |records|
  {
    if records != [] {
      var n := |records| - 1;
      IndexedHas(byId, records[..n]);
      assert records == records[..n] + [records[n]];
    }
  }
}
