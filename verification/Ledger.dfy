/** The customer-ledger backfill (src/scripts/backfill-customer-ledgers.ts:227-254, 412-484):
    one subject per canonical identity, looked up in chunks, recorded once.

    The keyed hash, the legacy hash and the pattern of erased addresses are parameters. */
module Ledger {
  import opened Prelude

  /** `email` is "" when the evidence has none. */
  datatype Evidence = Evidence(email: string, deleted: bool, at: Option<int>, userId: int, organizationId: int)

  datatype Hashes = Hashes(v1: string -> string, v2: string -> string, erased: string -> bool)
  {
    predicate Recoverable(e: Evidence) { e.email != "" && !e.deleted && !erased(e.email) }
  }

  datatype Subject = Subject(v1: string, e: Evidence)

  /** The source's Map: the hashes in the order they were first seen, each with its subject. */
  datatype Subjects = Subjects(order: seq<string>, chosen: map<string, Subject>)

  ghost predicate WellFormed(s: Subjects) { Distinct(s.order) && Elements(s.order) == s.chosen.Keys }

  // ------------------------------------------------------------------ one subject per identity

  predicate Earlier(e: Evidence, current: Evidence) {
    e.at.Some? && current.at.Some? && e.at.value < current.at.value
  }

  function Seen(h: Hashes, s: Subjects, e: Evidence): Subjects {
    if !h.Recoverable(e) then s
    else
      var v2 := h.v2(e.email);
      if v2 !in s.chosen then Subjects(s.order + [v2], s.chosen[v2 := Subject(h.v1(e.email), e)])
      else if Earlier(e, s.chosen[v2].e) then s.(chosen := s.chosen[v2 := Subject(h.v1(e.email), e)])
      else s
  }

  function SubjectsOf(h: Hashes, evidence: seq<Evidence>): Subjects {
    if evidence == [] then Subjects([], map[])
    else Seen(h, SubjectsOf(h, evidence[..|evidence| - 1]), evidence[|evidence| - 1])
  }

  function Unrecoverable(h: Hashes, evidence: seq<Evidence>): nat {
    if evidence == [] then 0
    else Unrecoverable(h, evidence[..|evidence| - 1]) + if h.Recoverable(evidence[|evidence| - 1]) then 0 else 1
  }

  /** `bySubject`. */
  method BySubject(h: Hashes, evidence: seq<Evidence>) returns (subjects: Subjects, unrecoverable: nat)
    ensures subjects == SubjectsOf(h, evidence)
    ensures unrecoverable == Unrecoverable(h, evidence)
  {
    var order: seq<string>, chosen: map<string, Subject> := [], map[];
    unrecoverable := 0;
    for n := 0 to |evidence|
      invariant Subjects(order, chosen) == SubjectsOf(h, evidence[..n])
      invariant unrecoverable == Unrecoverable(h, evidence[..n])
    {
      var e := evidence[n];
      assert evidence[..n + 1][..n] == evidence[..n];
      if e.email == "" || e.deleted || h.erased(e.email) {
        unrecoverable := unrecoverable + 1;
      } else {
        var v2 := h.v2(e.email);
        if v2 !in chosen {
          order := order + [v2];
          chosen := chosen[v2 := Subject(h.v1(e.email), e)];
        } else if Earlier(e, chosen[v2].e) {
          chosen := chosen[v2 := Subject(h.v1(e.email), e)];
        }
      }
    }
    assert evidence[..|evidence|] == evidence;
    subjects := Subjects(order, chosen);
  }

  /** The evidence that belongs to one identity, in order. */
  function Of(h: Hashes, evidence: seq<Evidence>, v2: string): seq<Evidence> {
    if evidence == [] then []
    else
      var last := evidence[|evidence| - 1];
      Of(h, evidence[..|evidence| - 1], v2) + if h.Recoverable(last) && h.v2(last.email) == v2 then [last] else []
  }

  /** Which of an identity's evidence ends up chosen. */
  function Chosen(mine: seq<Evidence>): (e: Evidence)
    requires mine != []
    ensures e in mine
  {
    var n := |mine| - 1;
    if n == 0 then mine[0]
    else if Earlier(mine[n], Chosen(mine[..n])) then mine[n]
    else Chosen(mine[..n])
  }

  /** Evidence of a customer who can still be told: an address that is there, of an account that
      is neither deleted nor erased. */
  predicate Belongs(h: Hashes, e: Evidence, v2: string) {
    e.email != "" && !e.deleted && !h.erased(e.email) && h.v2(e.email) == v2
  }

  lemma {:induction false} OfExactly(h: Hashes, evidence: seq<Evidence>, v2: string, e: Evidence)
    ensures e in Of(h, evidence, v2) <==> e in evidence && Belongs(h, e, v2)
    decreases |evidence|
  {
    if evidence != [] {
      OfExactly(h, evidence[..|evidence| - 1], v2, e);
      assert e in evidence <==> e in evidence[..|evidence| - 1] || e == evidence[|evidence| - 1];
    }
  }

  lemma ChosenSnoc(mine: seq<Evidence>, e: Evidence)
    ensures mine == [] ==> Chosen(mine + [e]) == e
    ensures mine != [] ==> Chosen(mine + [e]) == if Earlier(e, Chosen(mine)) then e else Chosen(mine)
  {
    assert (mine + [e])[..|mine|] == mine;
  }

  ghost predicate HeldBy(h: Hashes, s: Subjects, v2: string, mine: seq<Evidence>) {
    && (v2 in s.chosen <==> mine != [])
    && (v2 in s.chosen ==> s.chosen[v2] == Subject(h.v1(Chosen(mine).email), Chosen(mine)))
  }

  /** Each identity with recoverable evidence has one subject, held by its chosen evidence. */
  lemma {:induction false} SubjectsExactly(h: Hashes, evidence: seq<Evidence>, v2: string)
    ensures HeldBy(h, SubjectsOf(h, evidence), v2, Of(h, evidence, v2))
    decreases |evidence|
  {
    if evidence != [] {
      var before, last := evidence[..|evidence| - 1], evidence[|evidence| - 1];
      SubjectsExactly(h, before, v2);
      assert SubjectsOf(h, evidence) == Seen(h, SubjectsOf(h, before), last);
      assert Of(h, evidence, v2)
          == Of(h, before, v2) + if h.Recoverable(last) && h.v2(last.email) == v2 then [last] else [];
      hide SubjectsOf, Of;
      SeenIsHeld(h, SubjectsOf(h, before), last, v2, Of(h, before, v2));
    }
  }

  lemma {:induction false} SeenIsHeld(h: Hashes, s: Subjects, e: Evidence, v2: string, mine: seq<Evidence>)
    requires HeldBy(h, s, v2, mine)
    ensures HeldBy(h, Seen(h, s, e), v2, mine + if h.Recoverable(e) && h.v2(e.email) == v2 then [e] else [])
  {
    hide Chosen, Earlier;
    if h.Recoverable(e) && h.v2(e.email) == v2 {
      ChosenSnoc(mine, e);
    } else {
      assert mine + [] == mine;
    }
  }

  lemma {:induction false} OnePerIdentity(h: Hashes, evidence: seq<Evidence>)
    ensures WellFormed(SubjectsOf(h, evidence))
    decreases |evidence|
  {
    if evidence != [] {
      OnePerIdentity(h, evidence[..|evidence| - 1]);
      hide WellFormed;
      WellFormedSeen(h, SubjectsOf(h, evidence[..|evidence| - 1]), evidence[|evidence| - 1]);
    }
  }

  lemma ChosenAlone(e: Evidence)
    ensures Chosen([e]) == e
  {
  }

  lemma WellFormedSeen(h: Hashes, s: Subjects, e: Evidence)
    requires WellFormed(s)
    ensures WellFormed(Seen(h, s, e))
  {
    assert forall k :: k in Elements(s.order) <==> k in s.order;
    var s' := Seen(h, s, e);
    assert forall k :: k in s'.order <==> k in s.order || k in s'.chosen;
    assert Elements(s'.order) == s'.chosen.Keys;
  }

  ghost predicate IsEarliest(e: Evidence, mine: seq<Evidence>) {
    forall m :: m in mine && m.at.Some? ==> e.at.Some? && e.at.value <= m.at.value
  }

  /** The evidence nobody can be told from: no address, or a deleted or erased account. */
  function Lost(h: Hashes, evidence: seq<Evidence>): set<nat> {
    set i: nat | i < |evidence| && (evidence[i].email == "" || evidence[i].deleted || h.erased(evidence[i].email))
  }

  lemma LostNext(h: Hashes, before: seq<Evidence>, e: Evidence)
    ensures |Lost(h, before + [e])| == |Lost(h, before)| + if e.email == "" || e.deleted || h.erased(e.email) then 1 else 0
  {
    var all := before + [e];
    assert forall i :: 0 <= i < |before| ==> all[i] == before[i];
    assert Lost(h, all) == Lost(h, before) + if e.email == "" || e.deleted || h.erased(e.email) then {|before|} else {};
  }

  lemma {:induction false} UnrecoverableCounts(h: Hashes, evidence: seq<Evidence>)
    ensures Unrecoverable(h, evidence) == |Lost(h, evidence)|
    decreases |evidence|
  {
    if evidence == [] {
      assert Lost(h, evidence) == {};
    } else {
      var before, last := evidence[..|evidence| - 1], evidence[|evidence| - 1];
      UnrecoverableCounts(h, before);
      LostNext(h, before, last);
      assert evidence == before + [last];
      hide Lost;
    }
  }

  /** The chosen evidence is the first of its date. */
  ghost predicate FirstOfItsDate(e: Evidence, mine: seq<Evidence>) {
    exists i :: 0 <= i < |mine| && mine[i] == e && forall j :: 0 <= j < i ==> mine[j].at != e.at
  }

  /** The chosen evidence is the earliest dated one exactly when the first is dated or none is:
      an undated first entry is never displaced. */
  lemma {:induction false} EarliestExact(mine: seq<Evidence>)
    requires mine != []
    ensures mine[0].at.None? ==> Chosen(mine) == mine[0]
    ensures IsEarliest(Chosen(mine), mine) <==> mine[0].at.Some? || forall m :: m in mine ==> m.at.None?
    decreases |mine|
  {
    var n := |mine| - 1;
    if n > 0 {
      var before := mine[..n];
      EarliestExact(before);
      assert mine[0] == before[0];
      assert forall m :: m in mine <==> m in before || m == mine[n];
      if mine[0].at.Some? {
        assert mine[0] in before;
        assert Chosen(before).at.Some?;
        assert IsEarliest(Chosen(mine), mine);
      } else if exists m :: m in mine && m.at.Some? {
        var m :| m in mine && m.at.Some?;
        assert !IsEarliest(mine[0], mine);
      }
    }
  }

  /** With every piece of evidence dated, as the script's queries give it, each identity's chosen
      evidence is its earliest, in whatever order the evidence comes. */
  lemma DatedIsEarliest(h: Hashes, evidence: seq<Evidence>, v2: string)
    requires forall e :: e in evidence ==> e.at.Some?
    requires v2 in SubjectsOf(h, evidence).chosen
    ensures var e := SubjectsOf(h, evidence).chosen[v2].e;
            && e in evidence && Belongs(h, e, v2)
            && forall m :: m in evidence && Belongs(h, m, v2) ==> e.at.value <= m.at.value
  {
    SubjectsExactly(h, evidence, v2);
    var mine := Of(h, evidence, v2);
    EarliestExact(mine);
    forall m ensures m in mine <==> m in evidence && Belongs(h, m, v2) {
      OfExactly(h, evidence, v2, m);
    }
    assert mine[0] in mine;
    hide Of, Chosen, SubjectsOf;
  }

  /** Of several pieces of evidence with the chosen date it is the first. */
  lemma {:induction false} FirstIsChosen(mine: seq<Evidence>)
    requires mine != []
    ensures FirstOfItsDate(Chosen(mine), mine)
    decreases |mine|
  {
    var n := |mine| - 1;
    if n == 0 {
      assert mine[0] == Chosen(mine);
    } else {
      var before := mine[..n];
      FirstIsChosen(before);
      assert mine == before + [mine[n]];
      FirstStays(before, mine[n], Chosen(before));
      if Earlier(mine[n], Chosen(before)) {
        EarliestExact(before);
        DatedOnce(before, mine[n]);
      }
      hide FirstOfItsDate, Chosen, IsEarliest;
    }
  }

  lemma DatedOnce(before: seq<Evidence>, e: Evidence)
    requires before != [] && Earlier(e, Chosen(before))
    ensures forall m :: m in before ==> m.at != e.at
  {
    EarliestExact(before);
    hide Chosen;
  }

  lemma FirstStays(before: seq<Evidence>, last: Evidence, e: Evidence)
    ensures FirstOfItsDate(e, before) ==> FirstOfItsDate(e, before + [last])
    ensures (forall m :: m in before ==> m.at != last.at) ==> FirstOfItsDate(last, before + [last])
  {
    var mine := before + [last];
    if FirstOfItsDate(e, before) {
      var i :| 0 <= i < |before| && before[i] == e && forall j :: 0 <= j < i ==> before[j].at != e.at;
      assert mine[i] == e && forall j :: 0 <= j < i ==> mine[j] == before[j];
    }
    if forall m :: m in before ==> m.at != last.at {
      assert mine[|before|] == last && forall j :: 0 <= j < |before| ==> mine[j] == before[j] && mine[j] in before;
    }
  }

  /** Two pieces of evidence of one customer: with the undated one first, the dated one is lost. */
  lemma UndatedFirstIsKept(email: string, date: int)
    ensures var undated := Evidence(email, false, None, 0, 0);
            var dated := Evidence(email, false, Some(date), 0, 0);
            Chosen([undated, dated]) == undated && Chosen([dated, undated]) == dated
  {
    ChosenAlone(Evidence(email, false, None, 0, 0));
    ChosenAlone(Evidence(email, false, Some(date), 0, 0));
    var undated, dated := Evidence(email, false, None, 0, 0), Evidence(email, false, Some(date), 0, 0);
    assert [undated, dated][..1] == [undated] && [dated, undated][..1] == [dated];
  }

  // ------------------------------------------------------------------ looking hashes up in chunks

  const CHUNK := 5000

  /** `inChunks`, with a lookup that is only ever asked about so many hashes at once and answers
      with those of them the table holds. */
  method InChunks(values: seq<string>, find: seq<string> --> seq<string>, keys: set<string>) returns (out: seq<string>)
    requires forall chunk :: |chunk| <= 5000 ==> find.requires(chunk) && Elements(find(chunk)) == Elements(chunk) * keys
    ensures Elements(out) == Elements(values) * keys
  {
    out := [];
    var i := 0;
    assert values[..0] == [];
    while i < |values|
      invariant 0 <= i
      invariant Elements(out) == Elements(values[..Min(i, |values|)]) * keys
    {
      var next := Min(i + CHUNK, |values|);
      var chunk := values[i..next];
      var found := find(chunk);
      assert values[..next] == values[..i] + chunk;
      ElementsConcat(values[..i], chunk);
      ElementsConcat(out, found);
      out := out + found;
      i := i + CHUNK;
    }
    assert values[..Min(i, |values|)] == values;
  }

  lemma ElementsConcat<T>(a: seq<T>, b: seq<T>)
    ensures Elements(a + b) == Elements(a) + Elements(b)
  {
  }

  // ------------------------------------------------------------------ the ledgers

  datatype Row = Row(hashVersion: int, backfill: bool, organizationId: int, userId: int, redeemedAt: int)

  /** A ledger under its UNIQUE subject hash. */
  type Table = map<string, Row>

  function Hashed(subjects: Subjects, order: seq<string>, legacy: bool): seq<string>
    requires Elements(order) <= subjects.chosen.Keys
  {
    if order == [] then []
    else
      var n := |order| - 1;
      assert order[n] in Elements(order);
      assert Elements(order[..n]) <= Elements(order);
      Hashed(subjects, order[..n], legacy) + [order[n]] + if legacy then [subjects.chosen[order[n]].v1] else []
  }

  predicate Unknown(subjects: Subjects, known: set<string>, legacy: bool, v2: string)
    requires v2 in subjects.chosen
  {
    v2 !in known && (legacy ==> subjects.chosen[v2].v1 !in known)
  }

  function ToInsert(subjects: Subjects, order: seq<string>, known: set<string>, legacy: bool): seq<string>
    requires Elements(order) <= subjects.chosen.Keys
  {
    if order == [] then []
    else
      var n := |order| - 1;
      assert order[n] in Elements(order);
      assert Elements(order[..n]) <= Elements(order);
      ToInsert(subjects, order[..n], known, legacy)
      + if Unknown(subjects, known, legacy, order[n]) then [order[n]] else []
  }

  function RowOf(e: Evidence, now: int): Row {
    Row(2, true, e.organizationId, e.userId, if e.at.Some? then e.at.value else now)
  }

  lemma RowOfExactly(e: Evidence, now: int)
    ensures var row := RowOf(e, now);
            && row.hashVersion == 2 && row.backfill && row.organizationId == e.organizationId && row.userId == e.userId
            && row.redeemedAt == if e.at.Some? then e.at.value else now
  {
  }

  /** `createMany` with `skipDuplicates`. */
  function Created(table: Table, subjects: Subjects, hashes: seq<string>, now: int): Table
    requires Elements(hashes) <= subjects.chosen.Keys
  {
    if hashes == [] then table
    else
      var n := |hashes| - 1;
      assert hashes[n] in Elements(hashes);
      assert Elements(hashes[..n]) <= Elements(hashes);
      var before := Created(table, subjects, hashes[..n], now);
      if hashes[n] in before then before else before[hashes[n] := RowOf(subjects.chosen[hashes[n]].e, now)]
  }

  lemma {:induction false} HashedExactly(subjects: Subjects, order: seq<string>, legacy: bool)
    requires Elements(order) <= subjects.chosen.Keys
    ensures forall k :: k in order ==> k in Hashed(subjects, order, legacy)
    ensures forall k :: k in order && legacy ==> k in subjects.chosen && subjects.chosen[k].v1 in Hashed(subjects, order, legacy)
    decreases |order|
  {
    forall k | k in order ensures k in subjects.chosen {
      assert k in Elements(order);
    }
    if order != [] {
      var n := |order| - 1;
      assert Elements(order[..n]) <= Elements(order);
      HashedExactly(subjects, order[..n], legacy);
      assert forall k :: k in order <==> k in order[..n] || k == order[n];
    }
  }

  lemma {:induction false} ToInsertExactly(subjects: Subjects, order: seq<string>, known: set<string>, legacy: bool)
    requires Elements(order) <= subjects.chosen.Keys
    ensures Elements(ToInsert(subjects, order, known, legacy)) <= Elements(order)
    ensures forall k :: k in ToInsert(subjects, order, known, legacy)
                        <==> k in order && k in subjects.chosen && Unknown(subjects, known, legacy, k)
    decreases |order|
  {
    if order != [] {
      var n := |order| - 1;
      assert Elements(order[..n]) <= Elements(order);
      assert order[n] in Elements(order);
      ToInsertExactly(subjects, order[..n], known, legacy);
      assert forall k :: k in order <==> k in order[..n] || k == order[n];
    }
  }

  lemma {:induction false} CreatedExactly(table: Table, subjects: Subjects, hashes: seq<string>, now: int)
    requires Elements(hashes) <= subjects.chosen.Keys
    ensures forall k :: k in Created(table, subjects, hashes, now) <==> k in table || k in hashes
    ensures forall k :: k in table ==> Created(table, subjects, hashes, now)[k] == table[k]
    ensures forall k :: k in hashes && k !in table
                        ==> k in subjects.chosen && Created(table, subjects, hashes, now)[k] == RowOf(subjects.chosen[k].e, now)
    decreases |hashes|
  {
    if hashes != [] {
      var n := |hashes| - 1;
      assert Elements(hashes[..n]) <= Elements(hashes);
      assert hashes[n] in Elements(hashes);
      CreatedExactly(table, subjects, hashes[..n], now);
      assert forall k :: k in hashes <==> k in hashes[..n] || k == hashes[n];
      hide RowOf;
    }
  }

  /** What is to be inserted once the ledger has been looked up. */
  function Missing(h: Hashes, legacy: bool, looked: Table, evidence: seq<Evidence>): (hashes: seq<string>)
    ensures Elements(hashes) <= SubjectsOf(h, evidence).chosen.Keys
  {
    var subjects := SubjectsOf(h, evidence);
    OnePerIdentity(h, evidence);
    ToInsertExactly(subjects, subjects.order, looked.Keys, legacy);
    ToInsert(subjects, subjects.order, looked.Keys, legacy)
  }

  /** One pass of `main`; the trial pass also heeds `legacy` v1 rows. The ledger is looked up as
      `looked` and by the time of the insert is `table`: claims may have been made in between. */
  function Pass(h: Hashes, legacy: bool, apply: bool, now: int, looked: Table, table: Table, evidence: seq<Evidence>): Table {
    if apply then Created(table, SubjectsOf(h, evidence), Missing(h, legacy, looked, evidence), now) else table
  }

  class LedgerBackfill {
    var rows: Table

    method CreateMany(subjects: Subjects, hashes: seq<string>, now: int) returns (count: nat)
      requires Elements(hashes) <= subjects.chosen.Keys
      modifies this
      ensures rows == Created(old(rows), subjects, hashes, now)
      ensures |rows| == |old(rows)| + count
    {
      count := 0;
      for n := 0 to |hashes|
        invariant Elements(hashes[..n]) <= subjects.chosen.Keys
        invariant rows == Created(old(rows), subjects, hashes[..n], now)
        invariant |rows| == |old(rows)| + count
      {
        assert hashes[..n + 1][..n] == hashes[..n];
        assert hashes[n] in Elements(hashes);
        assert Elements(hashes[..n + 1]) <= Elements(hashes);
        if hashes[n] !in rows {
          rows := rows[hashes[n] := RowOf(subjects.chosen[hashes[n]].e, now)];
          count := count + 1;
        }
      }
      assert hashes[..|hashes|] == hashes;
    }

    /** The subjects the ledger does not know; `find` is the database's lookup. */
    method Lookup(subjects: Subjects, legacy: bool, find: seq<string> --> seq<string>) returns (hashes: seq<string>)
      requires WellFormed(subjects)
      requires forall chunk :: |chunk| <= 5000
                               ==> find.requires(chunk) && Elements(find(chunk)) == Elements(chunk) * rows.Keys
      ensures hashes == ToInsert(subjects, subjects.order, rows.Keys, legacy)
    {
      var found := InChunks(Hashed(subjects, subjects.order, legacy), find, rows.Keys);
      var known := Elements(found);
      LookupSuffices(subjects, known, rows.Keys, legacy);
      hashes := ToInsert(subjects, subjects.order, known, legacy);
    }

    /** A pass with nobody else at work. */
    method Backfill(h: Hashes, legacy: bool, apply: bool, now: int, evidence: seq<Evidence>,
                    find: seq<string> --> seq<string>)
      returns (unrecoverable: nat, toInsert: nat, inserted: nat)
      requires forall chunk :: |chunk| <= 5000
                               ==> find.requires(chunk) && Elements(find(chunk)) == Elements(chunk) * rows.Keys
      modifies this
      ensures rows == Pass(h, legacy, apply, now, old(rows), old(rows), evidence)
      ensures unrecoverable == Unrecoverable(h, evidence)
      ensures toInsert == |Missing(h, legacy, old(rows), evidence)|
      ensures |rows| == |old(rows)| + inserted
    {
      hide SubjectsOf, ToInsert, Created, Unrecoverable, WellFormed;
      var subjects;
      subjects, unrecoverable := BySubject(h, evidence);
      OnePerIdentity(h, evidence);
      var hashes := Lookup(subjects, legacy, find);
      assert hashes == Missing(h, legacy, rows, evidence);
      toInsert := |hashes|;
      inserted := 0;
      if apply {
        if |hashes| > 0 {
          inserted := CreateMany(subjects, hashes, now);
        } else {
          CreateNone(rows, subjects, now);
        }
      }
    }
  }

  lemma CreateNone(table: Table, subjects: Subjects, now: int)
    ensures Created(table, subjects, [], now) == table
  {
  }

  /** Looking up only the hashes in question answers as the whole table would. */
  lemma {:induction false} SameAnswers(
    subjects: Subjects, order: seq<string>, known: set<string>, keys: set<string>, legacy: bool)
    requires Elements(order) <= subjects.chosen.Keys
    requires forall k :: k in order ==> (k in known <==> k in keys)
    requires forall k :: k in order && legacy && k in subjects.chosen
                         ==> (subjects.chosen[k].v1 in known <==> subjects.chosen[k].v1 in keys)
    ensures ToInsert(subjects, order, known, legacy) == ToInsert(subjects, order, keys, legacy)
    decreases |order|
  {
    if order != [] {
      var n := |order| - 1;
      assert Elements(order[..n]) <= Elements(order);
      assert order[n] in Elements(order);
      SameAnswers(subjects, order[..n], known, keys, legacy);
    }
  }

  lemma LookupSuffices(subjects: Subjects, known: set<string>, keys: set<string>, legacy: bool)
    requires WellFormed(subjects)
    requires known == Elements(Hashed(subjects, subjects.order, legacy)) * keys
    ensures ToInsert(subjects, subjects.order, known, legacy) == ToInsert(subjects, subjects.order, keys, legacy)
  {
    HashedExactly(subjects, subjects.order, legacy);
    hide Hashed, ToInsert;
    SameAnswers(subjects, subjects.order, known, keys, legacy);
  }

  // ------------------------------------------------------------------ what a run guarantees

  lemma {:induction false} MissingExactly(h: Hashes, legacy: bool, looked: Table, evidence: seq<Evidence>, k: string)
    ensures var mine := Of(h, evidence, k);
            k in Missing(h, legacy, looked, evidence)
            <==> mine != [] && k !in looked && (legacy ==> h.v1(Chosen(mine).email) !in looked)
  {
    var subjects := SubjectsOf(h, evidence);
    OnePerIdentity(h, evidence);
    SubjectsExactly(h, evidence, k);
    ToInsertExactly(subjects, subjects.order, looked.Keys, legacy);
    assert k in subjects.order <==> k in Elements(subjects.order);
    hide ToInsert, SubjectsOf, Of, Chosen;
  }

  /** Exactly the identities with evidence and no row yet (nor, for trials, a v1 row of their
      chosen evidence) get one; every row found stays as it is, also one claimed meanwhile. */
  lemma {:induction false} PassExactly(
    h: Hashes, legacy: bool, now: int, looked: Table, table: Table, evidence: seq<Evidence>, k: string)
    ensures var after := Pass(h, legacy, true, now, looked, table, evidence);
            var mine := Of(h, evidence, k);
            && (k in table ==> k in after && after[k] == table[k])
            && (k !in table ==>
                  && (k in after <==> mine != [] && k !in looked && (legacy ==> h.v1(Chosen(mine).email) !in looked))
                  && (k in after ==>
                        var e := Chosen(mine);
                        && after[k].hashVersion == 2 && after[k].backfill
                        && after[k].organizationId == e.organizationId && after[k].userId == e.userId
                        && after[k].redeemedAt == if e.at.Some? then e.at.value else now))
  {
    MissingExactly(h, legacy, looked, evidence, k);
    if Of(h, evidence, k) != [] {
      RowOfExactly(Chosen(Of(h, evidence, k)), now);
    }
    SubjectsExactly(h, evidence, k);
    CreatedExactly(table, SubjectsOf(h, evidence), Missing(h, legacy, looked, evidence), now);
    hide Created, Missing, SubjectsOf, Of, Chosen, RowOf;
  }

  /** Both hashes are of the canonical address, so one customer's v2 decides its v1. */
  ghost predicate OneCustomerOneHash(h: Hashes) {
    forall a, b :: h.v2(a) == h.v2(b) ==> h.v1(a) == h.v1(b)
  }

  lemma {:induction false} NotMissingAgain(
    h: Hashes, legacy: bool, now: int, looked: Table, table: Table, evidence: seq<Evidence>, again: seq<Evidence>, k: string)
    requires looked.Keys <= table.Keys && (legacy ==> OneCustomerOneHash(h)) && forall e :: e in again ==> e in evidence
    ensures k !in Missing(h, legacy, Pass(h, legacy, true, now, looked, table, evidence), again)
  {
    var after := Pass(h, legacy, true, now, looked, table, evidence);
    MissingExactly(h, legacy, after, again, k);
    PassExactly(h, legacy, now, looked, table, evidence, k);
    hide Pass, Missing, Of, Chosen, RowOf;
    var mine, mine' := Of(h, evidence, k), Of(h, again, k);
    assert forall j :: j in looked ==> j in table.Keys;
    if mine' != [] {
      OfExactly(h, again, k, Chosen(mine'));
      OfExactly(h, evidence, k, Chosen(mine'));
      assert mine != [];
      OfExactly(h, evidence, k, Chosen(mine));
      PassExactly(h, legacy, now, looked, table, evidence, h.v1(Chosen(mine).email));
    }
  }

  /** A second run finds nothing to insert, in whatever order the queries return the evidence
      and whatever of it is left; and a dry run writes nothing. */
  lemma {:induction false} SecondRunInsertsNothing(
    h: Hashes, legacy: bool, now: int, later: int, looked: Table, table: Table, evidence: seq<Evidence>, again: seq<Evidence>)
    requires looked.Keys <= table.Keys && (legacy ==> OneCustomerOneHash(h)) && forall e :: e in again ==> e in evidence
    ensures var after := Pass(h, legacy, true, now, looked, table, evidence);
            && Missing(h, legacy, after, again) == []
            && Pass(h, legacy, true, later, after, after, again) == after
    ensures Pass(h, legacy, false, now, looked, table, evidence) == table
  {
    var missing := Missing(h, legacy, Pass(h, legacy, true, now, looked, table, evidence), again);
    forall k ensures k !in missing {
      NotMissingAgain(h, legacy, now, looked, table, evidence, again, k);
    }
    FirstIsIn(missing);
    hide Missing, OneCustomerOneHash;
  }

  lemma FirstIsIn<T>(s: seq<T>)
    ensures s != [] ==> s[0] in s
  {
  }
}
