/** Log entries, filters and pages, and what a walk over pages must add up to. */
module LogPages {

  datatype LogEntry = LogEntry(id: nat, level: string, line: string)

  predicate Contains(s: string, part: string) {
    |part| <= |s| && (s[..|part|] == part || (s != [] && Contains(s[1..], part)))
  }

  /** Levels and query in lower case, as entries are compared. */
  datatype Filter = Filter(levels: set<string>, query: string) {
    predicate Empty() { levels == {} && query == "" }

    predicate Match(e: LogEntry) {
      (levels != {} ==> e.level in levels)
      && (query != "" ==> Contains(e.line, query))
    }
  }

  const EVERYTHING := Filter({}, "")

  lemma EmptyFilter(f: Filter)
    requires f.Empty()
    ensures f == EVERYTHING
  {
  }

  datatype LogPage = LogPage(entries: seq<LogEntry>, hasOlder: bool)

  predicate Wanted(e: LogEntry, before: nat, f: Filter) {
    (before == 0 || e.id < before) && (f.Empty() || f.Match(e))
  }

  /** The entries below an id that a filter accepts, in order. */
  function Kept(s: seq<LogEntry>, before: nat, f: Filter): seq<LogEntry> {
    if s == [] then []
    else Kept(s[..|s|-1], before, f) + if Wanted(s[|s|-1], before, f) then [s[|s|-1]] else []
  }

  function Last<T>(n: nat, s: seq<T>): seq<T> {
    if |s| <= n then s else s[|s| - n..]
  }

  ghost predicate Suffix<T>(a: seq<T>, b: seq<T>) {
    |a| <= |b| && a == b[|b| - |a|..]
  }

  function Longer<T>(a: seq<T>, b: seq<T>): seq<T> {
    if |a| >= |b| then a else b
  }

  /** Ids rise strictly, and none is 0. */
  ghost predicate Ascending(s: seq<LogEntry>) {
    (forall k :: 0 <= k < |s| ==> s[k].id > 0) && forall j, k :: 0 <= j < k < |s| ==> s[j].id < s[k].id
  }

  /** Ids count up by one. */
  ghost predicate Numbered(s: seq<LogEntry>) {
    forall k :: 0 <= k < |s| ==> s[k].id == s[0].id + k
  }

  // ---------- sorting by id ----------

  function Insert(e: LogEntry, s: seq<LogEntry>): seq<LogEntry> {
    if s == [] || e.id <= s[0].id then [e] + s else [s[0]] + Insert(e, s[1..])
  }

  function SortById(s: seq<LogEntry>): seq<LogEntry> {
    if s == [] then [] else Insert(s[0], SortById(s[1..]))
  }

  lemma {:induction false} InsertFront(e: LogEntry, s: seq<LogEntry>)
    requires forall k :: 0 <= k < |s| ==> e.id < s[k].id
    ensures Insert(e, s) == [e] + s
  {
  }

  lemma TailAscends(s: seq<LogEntry>)
    requires Ascending(s) && s != []
    ensures Ascending(s[1..])
  {
    var rest := s[1..];
    assert forall k :: 0 <= k < |rest| ==> rest[k] == s[k + 1];
  }

  /** Sorting leaves what is sorted alone. */
  lemma {:induction false} SortedStays(s: seq<LogEntry>)
    requires Ascending(s)
    ensures SortById(s) == s
  {
    if s != [] {
      var rest := s[1..];
      forall k | 0 <= k < |rest| ensures s[0].id < rest[k].id {
        assert rest[k] == s[k + 1];
      }
      TailAscends(s);
      hide Ascending, Insert;
      SortedStays(rest);
      InsertFront(s[0], rest);
      assert [s[0]] + rest == s;
    }
  }

  lemma {:induction false} InsertPast(e: LogEntry, a: seq<LogEntry>, b: seq<LogEntry>)
    requires forall k :: 0 <= k < |a| ==> a[k].id < e.id
    ensures Insert(e, a + b) == a + Insert(e, b)
  {
    if a == [] {
      assert a + b == b;
    } else {
      assert (a + b)[1..] == a[1..] + b;
      InsertPast(e, a[1..], b);
    }
  }

  /** A run of entries followed by the run that precedes it sorts into one run. */
  lemma {:induction false} SortSwapped(late: seq<LogEntry>, early: seq<LogEntry>)
    requires Ascending(early + late)
    ensures SortById(late + early) == early + late
  {
    var all := early + late;
    assert early == all[..|early|] && late == all[|early|..];
    if late == [] {
      assert late + early == early == all;
      SortedStays(early);
    } else {
      var rest := late[1..];
      assert Ascending(early + rest) by {
        forall k | 0 <= k < |early + rest|
          ensures (early + rest)[k] == all[if k < |early| then k else k + 1]
        {}
      }
      SortSwapped(rest, early);
      assert (late + early)[1..] == rest + early;
      forall k | 0 <= k < |early| ensures early[k].id < late[0].id {
        assert early[k] == all[k] && late[0] == all[|early|];
      }
      InsertPast(late[0], early, rest);
      forall k | 0 <= k < |rest| ensures late[0].id < rest[k].id {
        assert rest[k] == all[|early| + 1 + k] && late[0] == all[|early|];
      }
      InsertFront(late[0], rest);
      assert [late[0]] + rest == late;
    }
  }

  // ---------- keeping ----------

  lemma {:induction false} KeptSplit(a: seq<LogEntry>, b: seq<LogEntry>, before: nat, f: Filter)
    ensures Kept(a + b, before, f) == Kept(a, before, f) + Kept(b, before, f)
  {
    if b == [] {
      assert a + b == a;
    } else {
      assert (a + b)[..|a + b| - 1] == a + b[..|b| - 1];
      KeptSplit(a, b[..|b| - 1], before, f);
    }
  }

  lemma KeptSuffix(a: seq<LogEntry>, b: seq<LogEntry>, before: nat, f: Filter)
    requires Suffix(a, b)
    ensures Suffix(Kept(a, before, f), Kept(b, before, f))
  {
    var early := b[..|b| - |a|];
    assert b == early + a;
    KeptSplit(early, a, before, f);
  }

  lemma {:induction false} KeptAscends(s: seq<LogEntry>, before: nat, f: Filter)
    requires Ascending(s)
    ensures Ascending(Kept(s, before, f))
    ensures forall e <- Kept(s, before, f) :: e in s && Wanted(e, before, f)
  {
    if s != [] {
      var front, last := s[..|s| - 1], s[|s| - 1];
      KeptAscends(front, before, f);
      forall e | e in front ensures e.id < last.id {
        var k :| 0 <= k < |front| && front[k] == e;
        assert s[k] == e;
      }
      var kept := Kept(front, before, f);
      assert forall k :: 0 <= k < |kept| ==> kept[k] in front;
    }
  }

  /** Selecting by id first and by filter afterwards is selecting by both. */
  lemma {:induction false} ReadThenFilter(s: seq<LogEntry>, before: nat, f: Filter)
    ensures Kept(Kept(s, before, EVERYTHING), 0, f) == Kept(s, before, f)
  {
    if s != [] {
      var front, last := s[..|s| - 1], s[|s| - 1];
      ReadThenFilter(front, before, f);
      var kept := Kept(front, before, EVERYTHING);
      if Wanted(last, before, EVERYTHING) {
        assert (kept + [last])[..|kept|] == kept;
      } else {
        assert kept + [] == kept;
      }
    }
  }

  lemma {:induction false} KeptEverything(s: seq<LogEntry>)
    ensures Kept(s, 0, EVERYTHING) == s
  {
    if s != [] {
      KeptEverything(s[..|s| - 1]);
    }
  }

  lemma {:induction false} BoundPast(s: seq<LogEntry>, a: nat, b: nat, f: Filter)
    requires forall e <- s :: (a == 0 || e.id < a) && (b == 0 || e.id < b)
    ensures Kept(s, a, f) == Kept(s, b, f)
  {
    if s != [] {
      BoundPast(s[..|s| - 1], a, b, f);
    }
  }

  /** The cursor of a page selects exactly what is older than the page. */
  lemma {:induction false} BelowCursor(s: seq<LogEntry>, before: nat, f: Filter, k: nat)
    requires Ascending(s) && k < |Kept(s, before, f)|
    ensures Kept(s, Kept(s, before, f)[k].id, f) == Kept(s, before, f)[..k]
  {
    var front, last, kept := s[..|s| - 1], s[|s| - 1], Kept(s[..|s| - 1], before, f);
    forall e | e in front ensures e.id < last.id {
      var j :| 0 <= j < |front| && front[j] == e;
      assert s[j] == e;
    }
    if k == |kept| {
      BoundPast(front, last.id, before, f);
      assert Kept(s, before, f)[..k] == kept;
    } else {
      BelowCursor(front, before, f, k);
      KeptAscends(front, before, f);
      assert kept[k] in front;
      assert Kept(s, before, f)[..k] == kept[..k];
    }
  }

  lemma {:induction false} KeptHas(s: seq<LogEntry>, before: nat, f: Filter, e: LogEntry)
    requires e in s && Wanted(e, before, f)
    ensures e in Kept(s, before, f)
  {
    if e != s[|s| - 1] {
      assert e in s[..|s| - 1];
      KeptHas(s[..|s| - 1], before, f, e);
    }
  }

  /** Without a filter, whatever is older than a listed entry is listed too. */
  lemma OlderIsListed(s: seq<LogEntry>, before: nat, k: nat)
    requires Ascending(s) && k < |Kept(s, before, EVERYTHING)|
    ensures (exists e <- s :: e.id < Kept(s, before, EVERYTHING)[k].id) <==> k > 0
  {
    var kept := Kept(s, before, EVERYTHING);
    KeptAscends(s, before, EVERYTHING);
    assert kept[k] in kept && kept[0] in kept;
    if e :| e in s && e.id < kept[k].id {
      KeptHas(s, before, EVERYTHING, e);
      var j :| 0 <= j < |kept| && kept[j] == e;
    }
  }

  // ---------- merging two lists ----------

  function Ids(s: seq<LogEntry>): set<nat> {
    set e <- s :: e.id
  }

  /** The entries whose id has not come up before. */
  function Unseen(s: seq<LogEntry>, seen: set<nat>): seq<LogEntry> {
    if s == [] then []
    else if s[0].id > 0 && s[0].id in seen then Unseen(s[1..], seen)
    else [s[0]] + Unseen(s[1..], if s[0].id > 0 then seen + {s[0].id} else seen)
  }

  lemma IdsFirst(s: seq<LogEntry>)
    requires Ascending(s) && s != []
    ensures Ascending(s[1..]) && s[0].id > 0
    ensures Ids(s) == {s[0].id} + Ids(s[1..]) && s[0].id !in Ids(s[1..])
  {
    assert s == [s[0]] + s[1..];
  }

  lemma FirstUnseen(s: seq<LogEntry>, rest: seq<LogEntry>, seen: set<nat>)
    requires s != [] && s[0].id > 0 && s[0].id !in seen
    ensures Unseen(s + rest, seen) == [s[0]] + Unseen(s[1..] + rest, seen + {s[0].id})
  {
    assert (s + rest)[1..] == s[1..] + rest;
  }

  lemma {:induction false} AllNew(s: seq<LogEntry>, rest: seq<LogEntry>, seen: set<nat>)
    requires Ascending(s) && Ids(s) !! seen
    ensures Unseen(s + rest, seen) == s + Unseen(rest, seen + Ids(s))
  {
    if s == [] {
      assert s + rest == rest && seen + Ids(s) == seen;
    } else {
      IdsFirst(s);
      hide Ids, Ascending;
      var more := seen + {s[0].id};
      assert s[0].id !in seen && more + Ids(s[1..]) == seen + Ids(s);
      FirstUnseen(s, rest, seen);
      hide Unseen;
      AllNew(s[1..], rest, more);
      assert [s[0]] + (s[1..] + Unseen(rest, more + Ids(s[1..]))) == s + Unseen(rest, seen + Ids(s));
    }
  }

  lemma {:induction false} AllOld(s: seq<LogEntry>, seen: set<nat>)
    requires Ascending(s) && Ids(s) <= seen
    ensures Unseen(s, seen) == []
  {
    if s != [] {
      assert s[0].id in Ids(s);
      AllOld(s[1..], seen);
    }
  }

  lemma IdsApart(early: seq<LogEntry>, late: seq<LogEntry>)
    requires Ascending(early + late)
    ensures Ascending(early) && Ascending(late) && Ids(early) !! Ids(late)
  {
    var all := early + late;
    assert forall k :: 0 <= k < |early| ==> early[k] == all[k];
    assert forall k :: 0 <= k < |late| ==> late[k] == all[|early| + k];
  }

  lemma MergeOfShorter(early: seq<LogEntry>, b: seq<LogEntry>)
    requires Ascending(early + b)
    ensures SortById(Unseen(early + b + b, {})) == early + b
  {
    var a := early + b;
    AllNew(a, b, {});
    assert Ids(b) <= {} + Ids(a);
    hide Ids;
    IdsApart(early, b);
    AllOld(b, {} + Ids(a));
    SortedStays(a);
    assert a + [] == a;
  }

  lemma MergeOfLonger(early: seq<LogEntry>, a: seq<LogEntry>)
    requires Ascending(early + a)
    ensures SortById(Unseen(a + (early + a), {})) == early + a
  {
    hide Ascending, Ids;
    IdsApart(early, a);
    AllNew(a, early + a, {});
    AllNew(early, a, {} + Ids(a));
    AllOld(a, {} + Ids(a) + Ids(early));
    assert early + [] == early;
    SortSwapped(a, early);
  }

  lemma SuffixAscends(a: seq<LogEntry>, s: seq<LogEntry>)
    requires Ascending(s) && Suffix(a, s)
    ensures Ascending(a)
  {
    assert forall k :: 0 <= k < |a| ==> a[k] == s[|s| - |a| + k];
  }

  lemma SuffixesNest<T>(a: seq<T>, b: seq<T>, s: seq<T>)
    requires Suffix(a, s) && Suffix(b, s) && |a| >= |b|
    ensures a == a[..|a| - |b|] + b && Suffix(b, a)
  {
    assert forall k :: 0 <= k < |b| ==> b[k] == a[|a| - |b| + k];
  }

  /** Two ends of one run, merged without repeating an id and sorted, are the longer end. */
  lemma MergeOfEnds(a: seq<LogEntry>, b: seq<LogEntry>, s: seq<LogEntry>)
    requires Ascending(s) && Suffix(a, s) && Suffix(b, s)
    ensures SortById(Unseen(a + b, {})) == Longer(a, b)
  {
    hide Ascending, Suffix, SortById, Unseen;
    if |a| >= |b| {
      SuffixAscends(a, s);
      SuffixesNest(a, b, s);
      MergeOfShorter(a[..|a| - |b|], b);
    } else {
      SuffixAscends(b, s);
      SuffixesNest(b, a, s);
      MergeOfLonger(b[..|b| - |a|], a);
    }
  }

  // ---------- pages ----------

  /** A page of the entries `m`: the newest of them, not none unless there are none, within the
      limit, and honest about whether anything older is left. */
  ghost predicate PageOf(p: LogPage, m: seq<LogEntry>, limit: int) {
    Suffix(p.entries, m)
    && (m != [] ==> p.entries != [])
    && (limit > 0 ==> |p.entries| <= limit)
    && (p.hasOlder <==> |p.entries| < |m|)
  }

  /** Calls made one after the other, each below the first entry of the page before. */
  ghost predicate WalkFrom(pages: seq<LogPage>, s: seq<LogEntry>, before: nat, f: Filter, limit: int) {
    pages != []
    && PageOf(pages[0], Kept(s, before, f), limit)
    && if pages[0].hasOlder then pages[0].entries != [] && WalkFrom(pages[1..], s, pages[0].entries[0].id, f, limit)
       else |pages| == 1
  }

  function Stitched(pages: seq<LogPage>): seq<LogEntry> {
    if pages == [] then [] else Stitched(pages[1..]) + pages[0].entries
  }

  /** Walking by cursor until nothing older is reported lists every entry exactly once, in order,
      and takes no more calls than there are entries. */
  lemma {:induction false} WalkListsAll(pages: seq<LogPage>, s: seq<LogEntry>, before: nat, f: Filter, limit: int)
    requires Ascending(s) && WalkFrom(pages, s, before, f, limit)
    ensures Stitched(pages) == Kept(s, before, f)
    ensures |pages| <= 1 || |pages| <= |Kept(s, before, f)|
    decreases |pages|
  {
    var m, p := Kept(s, before, f), pages[0];
    var older := |m| - |p.entries|;
    assert m == m[..older] + p.entries;
    if p.hasOlder {
      assert p.entries[0] == m[older];
      BelowCursor(s, before, f, older);
      WalkListsAll(pages[1..], s, p.entries[0].id, f, limit);
    } else {
      assert m[..older] == [];
      assert Stitched(pages[1..]) == [];
    }
  }

  /** One step of a walk: what is listed so far and what is still below the cursor are all there is. */
  lemma WalkStep(page: LogPage, s: seq<LogEntry>, before: nat, f: Filter, limit: int, all: seq<LogEntry>)
    requires Ascending(s) && PageOf(page, Kept(s, before, f), limit) && Kept(s, 0, f) == Kept(s, before, f) + all
    ensures Kept(s, before, f) != [] ==> page.entries != []
    ensures !page.hasOlder ==> Kept(s, 0, f) == page.entries + all
    ensures page.hasOlder ==>
              && page.entries != [] && 0 < |Kept(s, page.entries[0].id, f)| < |Kept(s, before, f)|
              && Kept(s, 0, f) == Kept(s, page.entries[0].id, f) + (page.entries + all)
  {
    var m := Kept(s, before, f);
    var older := |m| - |page.entries|;
    assert m == m[..older] + page.entries;
    if page.hasOlder { BelowCursor(s, before, f, older); }
  }

  // ---------- numbered pages ----------

  function PageCount(total: nat, limit: int): nat {
    if total == 0 || limit <= 0 then 1 else (total + limit - 1) / limit
  }

  function ClampPage(page: int, pages: int): int {
    var most := if pages < 1 then 1 else pages;
    if page < 1 then 1 else if page > most then most else page
  }

  function PageBounds(total: nat, limit: int, page: int): (int, int) {
    if total == 0 then (0, 0)
    else
      var unclipped := total - (page - 1) * limit;
      var end := if unclipped < 0 then 0 else if unclipped > total then total else unclipped;
      (if end - limit < 0 then 0 else end - limit, end)
  }

  lemma PagesFill(total: nat, limit: int)
    requires total > 0 && limit > 0
    ensures (PageCount(total, limit) - 1) * limit < total <= PageCount(total, limit) * limit
  {
    var n := total + limit - 1;
    assert n == limit * (n / limit) + n % limit;
  }

  lemma Multiples(n: int, page: int, limit: int)
    requires limit > 0 && 1 <= page <= n
    ensures 0 <= (page - 1) * limit <= (n - 1) * limit
    ensures page * limit == (page - 1) * limit + limit
    ensures page < n ==> page * limit <= (n - 1) * limit
    decreases n - page
  {
    Times(page - 1, limit);
    if page < n { Multiples(n, page + 1, limit); }
  }

  lemma {:induction false} Times(a: int, b: int)
    requires a >= 0 && b > 0
    ensures a * b >= 0 && (a + 1) * b == a * b + b
  {
  }

  /** The numbered pages cut the entries without gap or overlap: the first ends at the newest,
      each next one ends where the last began, only the final one begins at the oldest, and each
      but that one is full. */
  lemma NumberedPagesTile(total: nat, limit: int, page: int)
    requires limit > 0 && 1 <= page <= PageCount(total, limit)
    ensures PageBounds(total, limit, 1).1 == total
    ensures page < PageCount(total, limit) ==> PageBounds(total, limit, page + 1).1 == PageBounds(total, limit, page).0
    ensures PageBounds(total, limit, page).0 == 0 <==> page == PageCount(total, limit)
    ensures var (start, end) := PageBounds(total, limit, page);
            && 0 <= start <= end <= total && (total > 0 ==> start < end <= start + limit)
            && (start > 0 ==> end == start + limit)
  {
    if total > 0 {
      var n := PageCount(total, limit);
      PagesFill(total, limit);
      Multiples(n, 1, limit);
      Multiples(n, page, limit);
      PageBoundsOf(total, limit, page, (page - 1) * limit);
      PageBoundsOf(total, limit, 1, 0);
      PageBoundsOf(total, limit, page + 1, page * limit);
      hide PageBounds, PageCount;
    }
  }

  lemma PageBoundsOf(total: nat, limit: int, page: int, newer: int)
    requires limit > 0 && total > 0 && newer == (page - 1) * limit >= 0
    ensures PageBounds(total, limit, page).1 == (if newer > total then 0 else total - newer)
    ensures PageBounds(total, limit, page).0 == (if newer + limit > total then 0 else total - newer - limit)
  {
  }

  datatype NumberedPage = NumberedPage(entries: seq<LogEntry>, totalEntries: nat, totalPages: nat, page: int,
                                       hasOlder: bool)

  function PageLimit(limit: int, fallback: int): int {
    if limit > 0 then limit else if fallback > 0 then fallback else 1
  }

  /** What a request for a numbered page answers; a number out of range means the nearest page. */
  function PageAt(all: seq<LogEntry>, limit: int, page: int): NumberedPage
    requires limit > 0
  {
    var pages := PageCount(|all|, limit);
    var n := ClampPage(page, pages);
    var (start, end) := PageBounds(|all|, limit, n);
    NumberedPage(all[start..end], |all|, pages, n, start > 0)
  }

  /** The pages from a number on, joined oldest first. */
  function Joined(all: seq<LogEntry>, limit: int, page: nat): seq<LogEntry>
    requires limit > 0
    decreases PageCount(|all|, limit) - page
  {
    if page > PageCount(|all|, limit) then [] else Joined(all, limit, page + 1) + PageAt(all, limit, page).entries
  }

  /** Joined from the first one on, the numbered pages list every entry exactly once, in order. */
  lemma {:induction false} NumberedPagesListAll(all: seq<LogEntry>, limit: int, page: nat)
    requires limit > 0 && 1 <= page <= PageCount(|all|, limit)
    ensures Joined(all, limit, page) == all[..PageBounds(|all|, limit, page).1]
    ensures page == 1 ==> Joined(all, limit, page) == all
    ensures PageAt(all, limit, page).hasOlder <==> page < PageCount(|all|, limit)
    decreases PageCount(|all|, limit) - page
  {
    NumberedPagesTile(|all|, limit, page);
    var (start, end) := PageBounds(|all|, limit, page);
    assert ClampPage(page, PageCount(|all|, limit)) == page;
    hide PageBounds, PageCount;
    if page < PageCount(|all|, limit) {
      NumberedPagesListAll(all, limit, page + 1);
    } else {
      assert Joined(all, limit, page + 1) == [];
    }
    assert all[..start] + all[start..end] == all[..end];
  }

  /** A number below the first page is the first page, one past the last is the last. */
  lemma PagesClamp(all: seq<LogEntry>, limit: int, page: int)
    requires limit > 0
    ensures 1 <= PageAt(all, limit, page).page <= PageCount(|all|, limit)
    ensures PageAt(all, limit, page) == PageAt(all, limit, PageAt(all, limit, page).page)
    ensures PageAt(all, limit, page).page == page <==> 1 <= page <= PageCount(|all|, limit)
  {
    if |all| > 0 {
      PagesFill(|all|, limit);
      assert PageCount(|all|, limit) >= 1 by {
        if PageCount(|all|, limit) <= 0 { Times(0, limit); }
      }
    }
    hide PageBounds;
  }
}
