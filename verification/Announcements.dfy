/** What one marketing page gets (src/site-announcements/site-announcement-rules.ts:54-184):
    filter, sort by priority, cut to two banners and one pop-up. */
module Announcements {
  import opened MarketingPath
  import opened Prelude

  datatype Status = Draft | Active | Archived

  datatype Surface = MarketingBanner | MarketingPopup | DashboardBanner

  datatype Locale = English | Arabic

  /** `id` is the place of the row's UUID in the order of `localeCompare`, which tells any two
      UUIDs apart. */
  datatype Row = Row(
    id: int, surface: Surface, status: Status, startsAt: Option<int>, endsAt: Option<int>,
    pages: seq<string>, priority: int, updatedAt: int, bodyEn: Option<string>, bodyAr: Option<string>)

  predicate IsLive(row: Row, now: int) {
    row.status.Active? && (row.startsAt.Some? ==> row.startsAt.value <= now) && (row.endsAt.Some? ==> row.endsAt.value > now)
  }

  /** `contentFor(row, locale) !== null`. */
  predicate HasContent(row: Row, locale: Locale) {
    var body := if locale.English? then row.bodyEn else row.bodyAr;
    body.Some? && body.value != ""
  }

  predicate IsEligible(row: Row, locale: Locale, path: string, now: int) {
    IsLive(row, now) && HasContent(row, locale) && MatchesPage(row.pages, path)
  }

  /** `byPriority`. */
  function Compare(a: Row, b: Row): int {
    if b.priority != a.priority then b.priority - a.priority
    else if b.updatedAt != a.updatedAt then b.updatedAt - a.updatedAt
    else a.id - b.id
  }

  function Where(rows: seq<Row>, keep: Row -> bool): seq<Row> {
    if rows == [] then []
    else (if keep(rows[0]) then [rows[0]] else []) + Where(rows[1..], keep)
  }

  /** `Array.prototype.sort` is stable: a row goes behind those it compares equal to. */
  function Insert(sorted: seq<Row>, row: Row): seq<Row> {
    if sorted == [] then [row]
    else if Compare(row, sorted[0]) < 0 then [row] + sorted
    else [sorted[0]] + Insert(sorted[1..], row)
  }

  function Sorted(rows: seq<Row>): seq<Row> {
    if rows == [] then [] else Insert(Sorted(rows[..|rows| - 1]), rows[|rows| - 1])
  }

  const MAX_MARKETING_BANNERS := 2

  datatype Selection = Selection(banners: seq<Row>, popup: Option<Row>)

  function Select(rows: seq<Row>, locale: Locale, path: string, now: int): Selection {
    var eligible := Sorted(Where(rows, (r: Row) => IsEligible(r, locale, path, now)));
    var banners := Where(eligible, (r: Row) => r.surface.MarketingBanner?);
    var popups := Where(eligible, (r: Row) => r.surface.MarketingPopup?);
    Selection(banners[..Min(MAX_MARKETING_BANNERS, |banners|)], if popups == [] then None else Some(popups[0]))
  }

  /** An announcement goes live once, at its start, and is gone from its very end on. */
  lemma LiveOnce(row: Row, t1: int, t2: int, t3: int)
    requires t1 <= t2 <= t3
    ensures IsLive(row, t1) && IsLive(row, t3) ==> IsLive(row, t2)
    ensures row.startsAt.Some? && row.endsAt.Some? && row.startsAt.value < row.endsAt.value && row.status.Active?
            ==> IsLive(row, row.startsAt.value) && !IsLive(row, row.startsAt.value - 1)
                && IsLive(row, row.endsAt.value - 1) && !IsLive(row, row.endsAt.value)
    ensures row.startsAt.None? && row.endsAt.None? ==> (IsLive(row, t1) <==> row.status.Active?)
  {
  }

  // ------------------------------------------------------------------ a strict total order

  predicate Better(a: Row, b: Row) { Compare(a, b) < 0 }

  /** Better is: higher priority, then edited later, then the id. Rows with different ids are
      always comparable, one way only; better than better is better. */
  lemma OrderIsTotal(a: Row, b: Row, c: Row)
    ensures Better(a, b) <==> a.priority > b.priority
                              || (a.priority == b.priority && a.updatedAt > b.updatedAt)
                              || (a.priority == b.priority && a.updatedAt == b.updatedAt && a.id < b.id)
    ensures a.id != b.id ==> (Better(a, b) <==> !Better(b, a))
    ensures Compare(a, b) == 0 ==> a.id == b.id
    ensures Better(a, b) && Better(b, c) ==> Better(a, c)
    ensures !Better(a, a)
  {
  }

  ghost predicate DistinctIds(rows: seq<Row>) {
    forall i, j :: 0 <= i < j < |rows| ==> rows[i].id != rows[j].id
  }

  ghost predicate Ordered(rows: seq<Row>) {
    forall i, j :: 0 <= i < j < |rows| ==> Better(rows[i], rows[j])
  }

  lemma {:induction false} InsertElements(sorted: seq<Row>, row: Row)
    ensures forall r :: r in Insert(sorted, row) <==> r in sorted || r == row
    decreases |sorted|
  {
    if sorted != [] && Compare(row, sorted[0]) >= 0 {
      InsertElements(sorted[1..], row);
      assert forall r :: r in sorted <==> r == sorted[0] || r in sorted[1..];
    }
  }

  lemma {:induction false} InsertKeepsOrder(sorted: seq<Row>, row: Row)
    requires Ordered(sorted) && forall r :: r in sorted ==> r.id != row.id
    ensures Ordered(Insert(sorted, row))
    decreases |sorted|
  {
    if sorted != [] {
      var first, rest := sorted[0], sorted[1..];
      if Compare(row, first) < 0 {
        assert forall j :: 0 <= j < |sorted| ==> Better(row, sorted[j]);
      } else {
        InsertKeepsOrder(rest, row);
        InsertElements(rest, row);
        var tail := Insert(rest, row);
        forall j | 0 <= j < |tail| ensures Better(first, tail[j]) {
          assert tail[j] in tail;
          if tail[j] in rest {
            var k :| 0 <= k < |rest| && rest[k] == tail[j];
            assert rest[k] == sorted[k + 1];
          }
        }
      }
    }
  }

  lemma {:induction false} SortedIsOrdered(rows: seq<Row>)
    requires DistinctIds(rows)
    ensures Ordered(Sorted(rows))
    ensures forall r :: r in Sorted(rows) <==> r in rows
    decreases |rows|
  {
    if rows != [] {
      var before, last := rows[..|rows| - 1], rows[|rows| - 1];
      SortedIsOrdered(before);
      assert forall r :: r in rows <==> r in before || r == last;
      InsertElements(Sorted(before), last);
      InsertKeepsOrder(Sorted(before), last);
    }
  }

  lemma {:induction false} WhereKeeps(rows: seq<Row>, keep: Row -> bool)
    ensures forall r :: r in Where(rows, keep) <==> r in rows && keep(r)
    ensures Ordered(rows) ==> Ordered(Where(rows, keep))
    ensures DistinctIds(rows) ==> DistinctIds(Where(rows, keep))
    decreases |rows|
  {
    if rows != [] {
      var first, rest := rows[0], rows[1..];
      WhereKeeps(rest, keep);
      assert forall r :: r in rows <==> r == first || r in rest;
      var tail := Where(rest, keep);
      forall j | 0 <= j < |tail|
        ensures Ordered(rows) ==> Better(first, tail[j])
        ensures DistinctIds(rows) ==> first.id != tail[j].id
      {
        assert tail[j] in tail;
        var k :| 0 <= k < |rest| && rest[k] == tail[j];
        assert rest[k] == rows[k + 1];
      }
    }
  }

  /** An order leaves one way to write down a set of rows. */
  lemma {:induction false} OrderedUnique(s: seq<Row>, t: seq<Row>)
    requires Ordered(s) && Ordered(t) && forall r :: r in s <==> r in t
    ensures s == t
    decreases |s|
  {
    if s == [] {
      assert forall j :: 0 <= j < |t| ==> t[j] in t;
    } else {
      assert s[0] in t;
      assert t != [] && t[0] in s;
      assert s[0] == t[0];
      forall r ensures r in s[1..] <==> r in t[1..] {
        assert r in s <==> r == s[0] || r in s[1..];
        assert r in t <==> r == t[0] || r in t[1..];
      }
      OrderedUnique(s[1..], t[1..]);
      assert s == [s[0]] + s[1..] && t == [t[0]] + t[1..];
    }
  }

  /** A row's position is how many rows are better. */
  lemma RankIsPosition(s: seq<Row>, i: nat)
    requires Ordered(s) && i < |s|
    ensures |set r | r in s && Better(r, s[i])| == i
  {
    assert (set r | r in s && Better(r, s[i])) == Elements(s[..i]) by {
      forall r | r in s && Better(r, s[i]) ensures r in s[..i] {
        var k :| 0 <= k < |s| && s[k] == r;
      }
    }
    DistinctSize(s[..i]);
  }

  // ------------------------------------------------------------------ what a page gets

  /** What makes an announcement a candidate on a page, field by field: its place, its status,
      its dates, a text in the visitor's language, and its list of pages. */
  predicate IsCandidate(row: Row, surface: Surface, locale: Locale, path: string, now: int) {
    && row.surface == surface
    && row.status == Active
    && (row.startsAt == None || row.startsAt.value <= now)
    && (row.endsAt == None || now < row.endsAt.value)
    && (locale == English ==> row.bodyEn.Some? && |row.bodyEn.value| > 0)
    && (locale == Arabic ==> row.bodyAr.Some? && |row.bodyAr.value| > 0)
    && MatchesPage(row.pages, path)
  }

  lemma CandidateIsEligible(row: Row, surface: Surface, locale: Locale, path: string, now: int)
    ensures IsCandidate(row, surface, locale, path, now) <==> row.surface == surface && IsEligible(row, locale, path, now)
  {
    hide MatchesPage;
  }

  function Candidates(rows: seq<Row>, surface: Surface, locale: Locale, path: string, now: int): seq<Row> {
    Where(Sorted(Where(rows, (r: Row) => IsEligible(r, locale, path, now))), (r: Row) => r.surface == surface)
  }

  lemma SameFilter(rows: seq<Row>, f: Row -> bool, g: Row -> bool)
    requires forall r :: f(r) == g(r)
    ensures Where(rows, f) == Where(rows, g)
  {
  }

  lemma SelectCandidates(rows: seq<Row>, locale: Locale, path: string, now: int)
    ensures var banners := Candidates(rows, MarketingBanner, locale, path, now);
            var popups := Candidates(rows, MarketingPopup, locale, path, now);
            Select(rows, locale, path, now)
            == Selection(banners[..Min(MAX_MARKETING_BANNERS, |banners|)], if popups == [] then None else Some(popups[0]))
  {
    var eligible := Sorted(Where(rows, (r: Row) => IsEligible(r, locale, path, now)));
    SameFilter(eligible, (r: Row) => r.surface.MarketingBanner?, (r: Row) => r.surface == MarketingBanner);
    SameFilter(eligible, (r: Row) => r.surface.MarketingPopup?, (r: Row) => r.surface == MarketingPopup);
  }

  lemma {:induction false} CandidatesExactly(rows: seq<Row>, surface: Surface, locale: Locale, path: string, now: int)
    requires DistinctIds(rows)
    ensures Ordered(Candidates(rows, surface, locale, path, now))
    ensures forall r :: r in Candidates(rows, surface, locale, path, now)
                        <==> r in rows && IsCandidate(r, surface, locale, path, now)
  {
    hide IsEligible, IsCandidate;
    forall r: Row ensures IsCandidate(r, surface, locale, path, now) <==> r.surface == surface && IsEligible(r, locale, path, now) {
      CandidateIsEligible(r, surface, locale, path, now);
    }
    var keep := (r: Row) => IsEligible(r, locale, path, now);
    WhereKeeps(rows, keep);
    SortedIsOrdered(Where(rows, keep));
    WhereKeeps(Sorted(Where(rows, keep)), (r: Row) => r.surface == surface);
  }

  /** The banners are the two best candidates, best first: a candidate is shown exactly when
      fewer than two are better. */
  lemma {:induction false} BannersAreTheBestTwo(rows: seq<Row>, locale: Locale, path: string, now: int, row: Row)
    requires DistinctIds(rows)
    ensures Ordered(Select(rows, locale, path, now).banners)
    ensures row in Select(rows, locale, path, now).banners
            <==> row in rows && IsCandidate(row, MarketingBanner, locale, path, now)
                 && |set r | r in rows && IsCandidate(r, MarketingBanner, locale, path, now) && Better(r, row)| < 2
  {
    SelectCandidates(rows, locale, path, now);
    CandidatesExactly(rows, MarketingBanner, locale, path, now);
    hide Candidates, Select, IsCandidate, Better;
    var all := Candidates(rows, MarketingBanner, locale, path, now);
    var shown := all[..Min(MAX_MARKETING_BANNERS, |all|)];
    assert (set r | r in rows && IsCandidate(r, MarketingBanner, locale, path, now) && Better(r, row))
        == set r | r in all && Better(r, row);
    if row in all {
      var i :| 0 <= i < |all| && all[i] == row;
      RankIsPosition(all, i);
      assert forall j :: 0 <= j < |shown| ==> shown[j] == all[j] && shown[j] in shown;
      if row in shown {
        var j :| 0 <= j < |shown| && shown[j] == row;
        RankIsPosition(all, j);
      }
    }
  }

  /** The pop-up is the candidate better than every other; there is none only when there is no
      candidate. */
  lemma {:induction false} PopupIsTheBest(rows: seq<Row>, locale: Locale, path: string, now: int, row: Row)
    requires DistinctIds(rows)
    ensures Select(rows, locale, path, now).popup == Some(row)
            <==> row in rows && IsCandidate(row, MarketingPopup, locale, path, now)
                 && forall r :: r in rows && IsCandidate(r, MarketingPopup, locale, path, now) && r != row ==> Better(row, r)
    ensures Select(rows, locale, path, now).popup == None
            <==> forall r :: r in rows ==> !IsCandidate(r, MarketingPopup, locale, path, now)
  {
    SelectCandidates(rows, locale, path, now);
    CandidatesExactly(rows, MarketingPopup, locale, path, now);
    var all := Candidates(rows, MarketingPopup, locale, path, now);
    hide Candidates, Select, IsCandidate;
    if all != [] {
      FirstIsBest(all);
    }
    hide Ordered, DistinctIds, Better;
  }

  lemma FirstIsBest(s: seq<Row>)
    requires Ordered(s) && s != []
    ensures s[0] in s && forall r :: r in s && r != s[0] ==> Better(s[0], r) && !Better(r, s[0])
  {
    forall r | r in s && r != s[0] ensures Better(s[0], r) && !Better(r, s[0]) {
      var k :| 0 <= k < |s| && s[k] == r;
    }
  }

  /** A page gets the same whatever order the rows come in. */
  lemma {:induction false} SelectIgnoresOrder(rows: seq<Row>, rows': seq<Row>, locale: Locale, path: string, now: int)
    requires DistinctIds(rows) && DistinctIds(rows') && Elements(rows) == Elements(rows')
    ensures Select(rows, locale, path, now) == Select(rows', locale, path, now)
  {
    SelectCandidates(rows, locale, path, now);
    SelectCandidates(rows', locale, path, now);
    assert forall r :: r in rows <==> r in Elements(rows);
    assert forall r :: r in rows' <==> r in Elements(rows');
    forall surface: Surface
      ensures Candidates(rows, surface, locale, path, now) == Candidates(rows', surface, locale, path, now)
    {
      CandidatesExactly(rows, surface, locale, path, now);
      CandidatesExactly(rows', surface, locale, path, now);
      hide Candidates, IsCandidate;
      OrderedUnique(Candidates(rows, surface, locale, path, now), Candidates(rows', surface, locale, path, now));
    }
  }
}
