/** Collapsing a batch of marketing events, and the additive daily table it is added to
    (src/marketing-events/marketing-events.util.ts:161-193, marketing-events.repository.ts:34-51). */
module MarketingTable {
  import opened MarketingEvents
  import opened Prelude

  datatype Increment = Increment(event: Event, count: int)

  // ------------------------------------------------------------------ one batch

  /** Where an event's row is; `|rows|` when it has none. */
  function IndexOf(rows: seq<Increment>, e: Event): (i: nat)
    ensures i <= |rows|
    ensures i < |rows| ==> rows[i].event == e
    ensures i == |rows| ==> forall j :: 0 <= j < |rows| ==> rows[j].event != e
  {
    if rows == [] then 0
    else if rows[0].event == e then 0
    else 1 + IndexOf(rows[1..], e)
  }

  function Counted(once: set<string>, rows: seq<Increment>, e: Event): seq<Increment> {
    var i := IndexOf(rows, e);
    if i == |rows| then rows + [Increment(e, 1)]
    else if e.name in once then rows
    else rows[i := rows[i].(count := rows[i].count + 1)]
  }

  function Rows(once: set<string>, events: seq<Event>): seq<Increment> {
    if events == [] then []
    else Counted(once, Rows(once, events[..|events| - 1]), events[|events| - 1])
  }

  /** No two rows agree in all nine dimensions. */
  ghost predicate DistinctRows(rows: seq<Increment>) {
    forall i, j :: 0 <= i < j < |rows| ==> rows[i].event != rows[j].event
  }

  /** The rows as the source's Map holds them, under their keys. */
  ghost predicate Indexes(index: map<string, nat>, rows: seq<Increment>) {
    && (forall k :: k in index ==> index[k] < |rows| && KeyOf(rows[index[k]].event) == k)
    && (forall i :: 0 <= i < |rows| ==> KeyOf(rows[i].event) in index && index[KeyOf(rows[i].event)] == i)
  }

  lemma KeyFinds(index: map<string, nat>, rows: seq<Increment>, e: Event)
    requires Indexes(index, rows) && CleanEvent(e)
    requires forall i :: 0 <= i < |rows| ==> CleanEvent(rows[i].event)
    ensures KeyOf(e) in index <==> IndexOf(rows, e) < |rows|
    ensures KeyOf(e) in index ==> index[KeyOf(e)] == IndexOf(rows, e)
  {
    hide KeyOf, CleanEvent;
    if KeyOf(e) in index {
      KeyOfInjective(rows[index[KeyOf(e)]].event, e);
    }
  }

  lemma {:induction false} RowsSnoc(once: set<string>, events: seq<Event>, n: nat)
    requires n < |events|
    ensures Rows(once, events[..n + 1]) == Counted(once, Rows(once, events[..n]), events[n])
  {
    assert events[..n + 1][..n] == events[..n];
  }

  method Aggregate(once: set<string>, events: seq<Event>) returns (rows: seq<Increment>)
    requires forall e :: e in events ==> CleanEvent(e)
    ensures rows == Rows(once, events)
  {
    hide Rows, CleanEvent, KeyOf, IndexOf;
    rows := [];
    var index: map<string, nat> := map[];
    EmptyBatch(once);
    for n := 0 to |events|
      invariant rows == Rows(once, events[..n])
      invariant Indexes(index, rows)
      invariant forall i :: 0 <= i < |rows| ==> CleanEvent(rows[i].event)
    {
      var event := events[n];
      var key := KeyOf(event);
      KeyFinds(index, rows, event);
      RowsSnoc(once, events, n);
      if key !in index {
        index := index[key := |rows|];
        rows := rows + [Increment(event, 1)];
      } else if event.name !in once {
        var existing := rows[index[key]];
        rows := rows[index[key] := existing.(count := existing.count + 1)];
      }
    }
    assert events[..|events|] == events;
  }

  lemma EmptyBatch(once: set<string>)
    ensures Rows(once, []) == []
  {
  }

  /** What one batch adds to an event's row: every report, or one for the events a page load
      produces once. */
  function Contribution(once: set<string>, events: seq<Event>, e: Event): int {
    var reported := multiset(events)[e];
    if e.name in once then Min(1, reported) else reported
  }

  /** A batch's rows: every event reported has exactly one, holding what it contributes. */
  lemma {:induction false} RowsCollapse(once: set<string>, events: seq<Event>)
    ensures DistinctRows(Rows(once, events))
    ensures forall e :: e in events <==> IndexOf(Rows(once, events), e) < |Rows(once, events)|
    ensures forall i :: 0 <= i < |Rows(once, events)|
                        ==> Rows(once, events)[i].count == Contribution(once, events, Rows(once, events)[i].event)
    decreases |events|
  {
    if events != [] {
      var before, last := events[..|events| - 1], events[|events| - 1];
      RowsCollapse(once, before);
      assert events == before + [last];
      assert forall e :: e in events <==> e in before || e == last;
      CountedCollapses(once, before, last, Rows(once, before));
    }
  }

  lemma {:induction false} CountedCollapses(once: set<string>, before: seq<Event>, e: Event, rows: seq<Increment>)
    requires DistinctRows(rows)
    requires forall d :: d in before <==> IndexOf(rows, d) < |rows|
    requires forall i :: 0 <= i < |rows| ==> rows[i].count == Contribution(once, before, rows[i].event)
    ensures var next := Counted(once, rows, e);
            && DistinctRows(next)
            && (forall d :: d in before || d == e <==> IndexOf(next, d) < |next|)
            && (forall i :: 0 <= i < |next| ==> next[i].count == Contribution(once, before + [e], next[i].event))
  {
    var next, at := Counted(once, rows, e), IndexOf(rows, e);
    hide IndexOf;
    assert |next| == if at == |rows| then |rows| + 1 else |rows|;
    assert forall i :: 0 <= i < |rows| ==> next[i].event == rows[i].event;
    assert next[at].event == e;
    forall d ensures d in before || d == e <==> IndexOf(next, d) < |next| {
      if IndexOf(rows, d) < |rows| {
        assert next[IndexOf(rows, d)].event == d;
      }
    }
    forall i | 0 <= i < |next| ensures next[i].count == Contribution(once, before + [e], next[i].event) {
      if i < |rows| {
        assert rows[i].event in before;
        assert i != at ==> rows[i].event != e;
      }
    }
  }

  // ------------------------------------------------------------------ what a batch adds up to

  function Total(rows: seq<Increment>): int {
    if rows == [] then 0 else Total(rows[..|rows| - 1]) + rows[|rows| - 1].count
  }

  function Repeatable(once: set<string>, events: seq<Event>): int {
    if events == [] then 0
    else Repeatable(once, events[..|events| - 1]) + if events[|events| - 1].name in once then 0 else 1
  }

  function OncePerBatch(once: set<string>, events: seq<Event>): set<Event> {
    set e | e in events && e.name in once
  }

  lemma {:induction false} TotalBump(rows: seq<Increment>, i: nat, row: Increment)
    requires i < |rows|
    ensures Total(rows[i := row]) == Total(rows) - rows[i].count + row.count
    decreases |rows|
  {
    var n := |rows| - 1;
    if i < n {
      assert rows[i := row][..n] == rows[..n][i := row];
      TotalBump(rows[..n], i, row);
    } else {
      assert rows[i := row][..n] == rows[..n];
    }
  }

  lemma {:induction false} CountedTotal(once: set<string>, rows: seq<Increment>, e: Event)
    ensures Total(Counted(once, rows, e))
         == Total(rows) + if IndexOf(rows, e) < |rows| && e.name in once then 0 else 1
  {
    var at := IndexOf(rows, e);
    if at == |rows| {
      assert (rows + [Increment(e, 1)])[..|rows|] == rows;
    } else if e.name !in once {
      TotalBump(rows, at, rows[at].(count := rows[at].count + 1));
    }
  }

  lemma OnceSnoc(once: set<string>, before: seq<Event>, e: Event)
    ensures OncePerBatch(once, before + [e])
         == if e.name in once then OncePerBatch(once, before) + {e} else OncePerBatch(once, before)
    ensures e.name in once ==> (e in OncePerBatch(once, before) <==> e in before)
  {
    assert forall d :: d in before + [e] <==> d in before || d == e;
  }

  /** The counts of a batch sum to its repeatable events plus its distinct once-per-batch rows. */
  lemma {:induction false} TotalOfBatch(once: set<string>, events: seq<Event>)
    ensures Total(Rows(once, events)) == Repeatable(once, events) + |OncePerBatch(once, events)|
    decreases |events|
  {
    if events == [] {
      assert OncePerBatch(once, events) == {};
    } else {
      var before, last := events[..|events| - 1], events[|events| - 1];
      TotalOfBatch(once, before);
      CountedTotal(once, Rows(once, before), last);
      HasRow(once, before, last);
      OnceGrows(once, before, last);
      assert events == before + [last];
      assert Rows(once, events) == Counted(once, Rows(once, before), last);
      assert Repeatable(once, events) == Repeatable(once, before) + if last.name in once then 0 else 1;
      hide *;
    }
  }

  lemma {:induction false} HasRow(once: set<string>, events: seq<Event>, e: Event)
    ensures e in events <==> IndexOf(Rows(once, events), e) < |Rows(once, events)|
  {
    RowsCollapse(once, events);
  }

  lemma OnceGrows(once: set<string>, before: seq<Event>, e: Event)
    ensures |OncePerBatch(once, before + [e])|
         == |OncePerBatch(once, before)| + if e.name in once && e !in before then 1 else 0
  {
    OnceSnoc(once, before, e);
    if e in OncePerBatch(once, before) {
      assert OncePerBatch(once, before) + {e} == OncePerBatch(once, before);
    }
  }

  // ------------------------------------------------------------------ the daily table

  /** `marketing_event_daily`: one count per day and combination of dimensions. */
  type Table = map<(int, Event), int>

  function At(table: Table, day: int, e: Event): int {
    if (day, e) in table then table[(day, e)] else 0
  }

  /** `INSERT … ON CONFLICT … DO UPDATE SET count = count + EXCLUDED.count`. */
  function Added(table: Table, day: int, rows: seq<Increment>): Table {
    if rows == [] then table
    else
      var n := |rows| - 1;
      var before := Added(table, day, rows[..n]);
      before[(day, rows[n].event) := At(before, day, rows[n].event) + rows[n].count]
  }

  class MarketingEventsRepository {
    var table: Table

    /** One statement; the rows must differ in their dimensions, or the conflict clause would
        meet the same row twice. */
    method Increment(day: int, rows: seq<Increment>)
      requires DistinctRows(rows)
      modifies this
      ensures table == Added(old(table), day, rows)
    {
      for n := 0 to |rows|
        invariant table == Added(old(table), day, rows[..n])
      {
        assert rows[..n + 1][..n] == rows[..n];
        var key := (day, rows[n].event);
        table := table[key := (if key in table then table[key] else 0) + rows[n].count];
      }
      assert rows[..|rows|] == rows;
    }

    /** A beacon's valid events, collapsed and added to the day. */
    method Record(once: set<string>, day: int, events: seq<Event>)
      requires forall e :: e in events ==> CleanEvent(e)
      modifies this
      ensures table == Recorded(once, old(table), Batch(day, events))
    {
      var rows := Aggregate(once, events);
      RowsCollapse(once, events);
      Increment(day, rows);
    }
  }

  /** A whole beacon, from what the browser sent to the table. */
  method ReceiveBeacon(v: Vocabulary, once: set<string>, repository: MarketingEventsRepository, day: int, raws: seq<Raw>)
    requires v.Sane()
    modifies repository
    ensures repository.table
         == Recorded(once, old(repository.table), Batch(day, ParsedOf(v, raws[..Min(MAX_EVENTS_PER_BEACON, |raws|)])))
  {
    var events := ParseBeacon(v, raws);
    BeaconIsClean(v, raws[..Min(MAX_EVENTS_PER_BEACON, |raws|)]);
    repository.Record(once, day, events);
  }

  lemma {:induction false} AddedExactly(table: Table, day: int, rows: seq<Increment>, d: int, e: Event)
    requires DistinctRows(rows)
    ensures (d, e) in Added(table, day, rows) <==> (d, e) in table || (d == day && IndexOf(rows, e) < |rows|)
    ensures At(Added(table, day, rows), d, e)
         == At(table, d, e) + if d == day && IndexOf(rows, e) < |rows| then rows[IndexOf(rows, e)].count else 0
    decreases |rows|
  {
    if rows != [] {
      var n := |rows| - 1;
      AddedExactly(table, day, rows[..n], d, e);
      AddedExactly(table, day, rows[..n], day, rows[n].event);
      hide IndexOf;
      assert IndexOf(rows[..n], e) < n ==> rows[IndexOf(rows[..n], e)].event == e;
      assert forall j :: 0 <= j < n ==> rows[..n][j].event == rows[j].event;
    }
  }

  // ------------------------------------------------------------------ many batches

  datatype Batch = Batch(day: int, events: seq<Event>)

  function Recorded(once: set<string>, table: Table, batch: Batch): Table {
    Added(table, batch.day, Rows(once, batch.events))
  }

  function RecordedAll(once: set<string>, table: Table, batches: seq<Batch>): Table {
    if batches == [] then table
    else Recorded(once, RecordedAll(once, table, batches[..|batches| - 1]), batches[|batches| - 1])
  }

  function Contributed(once: set<string>, batches: seq<Batch>, d: int, e: Event): int {
    if batches == [] then 0
    else
      var last := batches[|batches| - 1];
      Contributed(once, batches[..|batches| - 1], d, e)
      + if last.day == d then Contribution(once, last.events, e) else 0
  }

  lemma {:induction false} RecordedExactly(once: set<string>, table: Table, batch: Batch, d: int, e: Event)
    ensures (d, e) in Recorded(once, table, batch) <==> (d, e) in table || (d == batch.day && e in batch.events)
    ensures At(Recorded(once, table, batch), d, e)
         == At(table, d, e) + if d == batch.day then Contribution(once, batch.events, e) else 0
  {
    var rows := Rows(once, batch.events);
    RowsCollapse(once, batch.events);
    AddedExactly(table, batch.day, rows, d, e);
    hide IndexOf, Rows, Added;
    if IndexOf(rows, e) < |rows| {
      assert rows[IndexOf(rows, e)].count == Contribution(once, batch.events, e);
    } else {
      assert e !in batch.events;
    }
  }

  /** Every count is what was there plus what each batch of that day contributed. */
  lemma {:induction false} TableIsTheSum(once: set<string>, table: Table, batches: seq<Batch>, d: int, e: Event)
    ensures (d, e) in RecordedAll(once, table, batches)
            <==> (d, e) in table || exists b :: b in batches && b.day == d && e in b.events
    ensures At(RecordedAll(once, table, batches), d, e)
         == At(table, d, e) + Contributed(once, batches, d, e)
    ensures (d, e) in RecordedAll(once, table, batches) ==>
              RecordedAll(once, table, batches)[(d, e)]
              == (if (d, e) in table then table[(d, e)] else 0) + Contributed(once, batches, d, e)
    decreases |batches|
  {
    var after := RecordedAll(once, table, batches);
    assert (d, e) in after ==> At(after, d, e) == after[(d, e)];
    assert At(table, d, e) == if (d, e) in table then table[(d, e)] else 0;
    hide Recorded, Contribution, At;
    if batches != [] {
      var before, last := batches[..|batches| - 1], batches[|batches| - 1];
      TableIsTheSum(once, table, before, d, e);
      RecordedExactly(once, RecordedAll(once, table, before), last, d, e);
      assert forall b :: b in batches <==> b in before || b == last;
    }
  }

  lemma {:induction false} ContributedWithout(once: set<string>, batches: seq<Batch>, i: nat, d: int, e: Event)
    requires i < |batches|
    ensures Contributed(once, batches, d, e)
         == Contributed(once, batches[..i] + batches[i + 1..], d, e)
            + if batches[i].day == d then Contribution(once, batches[i].events, e) else 0
    decreases |batches|
  {
    var n := |batches| - 1;
    if i == n {
      assert batches[..i] + batches[i + 1..] == batches[..n];
    } else {
      var rest := batches[..i] + batches[i + 1..];
      assert rest[..n - 1] == batches[..n][..i] + batches[..n][i + 1..];
      assert rest[n - 1] == batches[n];
      ContributedWithout(once, batches[..n], i, d, e);
    }
  }

  lemma {:induction false} ContributedIgnoresOrder(
    once: set<string>, batches: seq<Batch>, batches': seq<Batch>, d: int, e: Event)
    requires multiset(batches) == multiset(batches')
    ensures Contributed(once, batches, d, e) == Contributed(once, batches', d, e)
    decreases |batches|
  {
    if batches == [] {
      assert |multiset(batches')| == 0;
      assert batches' == [];
    } else {
      var n := |batches| - 1;
      var last := batches[n];
      assert batches == batches[..n] + [last];
      assert last in multiset(batches');
      var i :| 0 <= i < |batches'| && batches'[i] == last;
      var rest := batches'[..i] + batches'[i + 1..];
      assert batches' == batches'[..i] + [last] + batches'[i + 1..];
      assert multiset(rest) == multiset(batches') - multiset{last};
      ContributedIgnoresOrder(once, batches[..n], rest, d, e);
      ContributedWithout(once, batches', i, d, e);
    }
  }

  /** The table is the same for every order of the batches. */
  lemma {:induction false} OrderDoesNotMatter(once: set<string>, table: Table, batches: seq<Batch>, batches': seq<Batch>)
    requires multiset(batches) == multiset(batches')
    ensures RecordedAll(once, table, batches) == RecordedAll(once, table, batches')
  {
    hide RecordedAll, Contributed;
    var t, t' := RecordedAll(once, table, batches), RecordedAll(once, table, batches');
    assert forall b :: b in batches <==> b in multiset(batches);
    assert forall b :: b in batches' <==> b in multiset(batches');
    forall key: (int, Event)
      ensures key in t <==> key in t'
      ensures key in t ==> t[key] == t'[key]
    {
      TableIsTheSum(once, table, batches, key.0, key.1);
      TableIsTheSum(once, table, batches', key.0, key.1);
      ContributedIgnoresOrder(once, batches, batches', key.0, key.1);
    }
  }

  /** Everything reported for one day, however it was split into batches. */
  function Reported(batches: seq<Batch>, d: int): multiset<Event> {
    if batches == [] then multiset{}
    else
      var last := batches[|batches| - 1];
      Reported(batches[..|batches| - 1], d) + if last.day == d then multiset(last.events) else multiset{}
  }

  lemma {:induction false} RepeatableCountsReports(once: set<string>, batches: seq<Batch>, d: int, e: Event)
    requires e.name !in once
    ensures Contributed(once, batches, d, e) == Reported(batches, d)[e]
    decreases |batches|
  {
    if batches != [] {
      RepeatableCountsReports(once, batches[..|batches| - 1], d, e);
    }
  }

  /** A repeatable event's count depends on what was reported on the day, not on how the
      reports were split into batches. */
  lemma {:induction false} SplitsDoNotMatter(
    once: set<string>, table: Table, batches: seq<Batch>, batches': seq<Batch>, d: int, e: Event)
    requires e.name !in once && Reported(batches, d)[e] == Reported(batches', d)[e]
    ensures At(RecordedAll(once, table, batches), d, e) == At(RecordedAll(once, table, batches'), d, e)
  {
    TableIsTheSum(once, table, batches, d, e);
    TableIsTheSum(once, table, batches', d, e);
    RepeatableCountsReports(once, batches, d, e);
    RepeatableCountsReports(once, batches', d, e);
  }

  function Carrying(batches: seq<Batch>, d: int, e: Event): nat {
    if batches == [] then 0
    else
      var last := batches[|batches| - 1];
      Carrying(batches[..|batches| - 1], d, e) + if last.day == d && e in last.events then 1 else 0
  }

  /** A once-per-batch event counts the batches that carry it: repeating it inside a batch adds
      nothing. */
  lemma {:induction false} OnceCountsBatches(once: set<string>, table: Table, batches: seq<Batch>, d: int, e: Event)
    requires e.name in once
    ensures At(RecordedAll(once, table, batches), d, e) == At(table, d, e) + Carrying(batches, d, e)
    decreases |batches|
  {
    if batches != [] {
      var before, last := batches[..|batches| - 1], batches[|batches| - 1];
      OnceCountsBatches(once, table, before, d, e);
      RecordedExactly(once, RecordedAll(once, table, before), last, d, e);
      assert e in last.events <==> multiset(last.events)[e] >= 1;
    }
  }
}
