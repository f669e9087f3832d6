/** A learner's note, kept in step between phones (src/learner-sync/learner-notes.service.ts).
    Puts of one note run one at a time, under an advisory lock. */
module Notes {
  import opened Prelude

  /** What a phone sends; `editedAt` is the phone's own clock. */
  datatype Edit = Edit(courseId: string, note: string, saved: bool, editedAt: int)

  /** The stored row; its course is the one it was created with. */
  datatype Row = Row(courseId: string, note: string, saved: bool, editedAt: int)

  datatype Response = NotFound | Answer(row: Row, applied: bool)

  function EffectiveTime(edit: Edit, now: int): int { Min(edit.editedAt, now) }

  /** One put; `enrolled` when the learner may keep notes on this lesson. */
  function Put(current: Option<Row>, edit: Edit, now: int, enrolled: bool): (Option<Row>, Response) {
    var edited := EffectiveTime(edit, now);
    if !enrolled then (current, NotFound)
    else if current.Some? && current.value.editedAt >= edited then (current, Answer(current.value, false))
    else
      var row := Row(if current.Some? then current.value.courseId else edit.courseId, edit.note, edit.saved, edited);
      (Some(row), Answer(row, true))
  }

  class LearnerNotes {
    var rows: map<(string, string), Row>

    constructor ()
      ensures rows == map[]
    {
      rows := map[];
    }

    ghost function RowOf(userId: string, lessonId: string): Option<Row>
      reads this
    {
      if (userId, lessonId) in rows then Some(rows[(userId, lessonId)]) else None
    }

    method PutNote(userId: string, lessonId: string, edit: Edit, now: int, enrolled: bool) returns (r: Response)
      modifies this
      ensures (RowOf(userId, lessonId), r) == Put(old(RowOf(userId, lessonId)), edit, now, enrolled)
      ensures forall key :: key != (userId, lessonId) ==> (key in rows <==> key in old(rows))
      ensures forall key :: key != (userId, lessonId) && key in rows ==> rows[key] == old(rows)[key]
    {
      var key := (userId, lessonId);
      var edited := Min(edit.editedAt, now);
      if !enrolled {
        return NotFound;
      }
      if key in rows && rows[key].editedAt >= edited {
        return Answer(rows[key], false);
      }
      var courseId := if key in rows then rows[key].courseId else edit.courseId;
      rows := rows[key := Row(courseId, edit.note, edit.saved, edited)];
      return Answer(rows[key], true);
    }
  }

  // ------------------------------------------------------------------ any order, any number of times

  datatype Delivery = Delivery(edit: Edit, now: int, enrolled: bool) {
    function Time(): int { EffectiveTime(edit, now) }
  }

  function Stored(deliveries: seq<Delivery>): Option<Row> {
    if deliveries == [] then None
    else
      var last := deliveries[|deliveries| - 1];
      Put(Stored(deliveries[..|deliveries| - 1]), last.edit, last.now, last.enrolled).0
  }

  predicate Wins(deliveries: seq<Delivery>, i: nat)
    requires i < |deliveries|
  {
    && deliveries[i].enrolled
    && (forall j :: 0 <= j < |deliveries| && deliveries[j].enrolled ==> deliveries[j].Time() <= deliveries[i].Time())
    && (forall j :: 0 <= j < i && deliveries[j].enrolled ==> deliveries[j].Time() < deliveries[i].Time())
  }

  predicate Shows(row: Option<Row>, d: Delivery) {
    row.Some? && row.value.note == d.edit.note && row.value.saved == d.edit.saved && row.value.editedAt == d.Time()
  }

  /** Whatever is delivered, in whatever order: the stored note is the first delivery with the
      greatest edit time, each time capped at the server's clock of its own delivery. */
  lemma {:induction false} FirstGreatestWins(deliveries: seq<Delivery>) returns (winner: int)
    ensures winner == -1 ==> Stored(deliveries) == None && forall i :: 0 <= i < |deliveries| ==> !deliveries[i].enrolled
    ensures winner != -1 ==> 0 <= winner < |deliveries| && Wins(deliveries, winner) && Shows(Stored(deliveries), deliveries[winner])
    decreases |deliveries|
  {
    if deliveries == [] {
      winner := -1;
    } else {
      var n := |deliveries| - 1;
      winner := FirstGreatestWins(deliveries[..n]);
      if deliveries[n].enrolled && (winner == -1 || deliveries[n].Time() > deliveries[winner].Time()) {
        winner := n;
      }
    }
  }

  /** What a put answers, after any deliveries: it applies if and only if its edit is newer than
      every edit before it, so that it changes the note, and it always answers with the note as
      it then is. */
  lemma AppliedExactly(deliveries: seq<Delivery>, d: Delivery)
    ensures var (after, answer) := Put(Stored(deliveries), d.edit, d.now, d.enrolled);
            && after == Stored(deliveries + [d])
            && (answer == NotFound <==> !d.enrolled)
            && (answer.Answer? ==> after == Some(answer.row))
            && ((answer.Answer? && answer.applied) <==> Wins(deliveries + [d], |deliveries|))
            && ((answer.Answer? && answer.applied) <==> after != Stored(deliveries))
            && (answer.Answer? && answer.applied ==> Shows(after, d))
  {
    var all := deliveries + [d];
    assert all[..|deliveries|] == deliveries && all[|deliveries|] == d;
    var winner := FirstGreatestWins(deliveries);
    if winner != -1 {
      assert all[winner] == deliveries[winner];
    }
    forall j | 0 <= j < |deliveries| ensures all[j] == deliveries[j] {
    }
    hide Stored;
  }

  /** The course is the one the note was created with. */
  lemma {:induction false} CourseStays(deliveries: seq<Delivery>, i: nat)
    requires i < |deliveries| && deliveries[i].enrolled && forall j :: 0 <= j < i ==> !deliveries[j].enrolled
    ensures var row := Stored(deliveries); row.Some? && row.value.courseId == deliveries[i].edit.courseId
    decreases |deliveries|
  {
    var before := deliveries[..|deliveries| - 1];
    if i < |before| {
      CourseStays(before, i);
    } else {
      var winner := FirstGreatestWins(before);
    }
  }

  ghost predicate Edits(deliveries: seq<Delivery>, edits: set<Edit>) {
    && (forall i :: 0 <= i < |deliveries| ==> deliveries[i].edit in edits)
    && (forall e :: e in edits ==> exists i :: 0 <= i < |deliveries| && deliveries[i].edit == e)
    && (forall i :: 0 <= i < |deliveries| ==> deliveries[i].enrolled && deliveries[i].edit.editedAt <= deliveries[i].now)
  }

  /** Notes converge: the same edits, with distinct times none ahead of the server, leave the
      one with the greatest edit time, after any order and any number of redeliveries. */
  lemma Converges(deliveries: seq<Delivery>, edits: set<Edit>, newest: Edit)
    requires Edits(deliveries, edits)
    requires newest in edits && forall e :: e in edits && e != newest ==> e.editedAt < newest.editedAt
    ensures var row := Stored(deliveries);
            row.Some? && (row.value.note, row.value.saved, row.value.editedAt) == (newest.note, newest.saved, newest.editedAt)
  {
    var winner := FirstGreatestWins(deliveries);
    var i :| 0 <= i < |deliveries| && deliveries[i].edit == newest;
    assert deliveries[i].Time() == newest.editedAt;
  }

  /** `editedAt` only grows and never passes the server's latest clock. */
  lemma {:induction false} TimesGrow(deliveries: seq<Delivery>, d: Delivery)
    ensures var before, after := Stored(deliveries), Stored(deliveries + [d]);
            && (before.Some? ==> after.Some? && before.value.editedAt <= after.value.editedAt)
            && (after.Some? && after != before ==> after.value.editedAt == d.Time() <= d.now)
  {
    assert (deliveries + [d])[..|deliveries|] == deliveries;
  }

  /** A phone set in the future cannot freeze a note: an edit made after everything so far was
      received, and itself not ahead of the server, is stored. */
  lemma FutureCannotShutOut(deliveries: seq<Delivery>, d: Delivery)
    requires forall i :: 0 <= i < |deliveries| ==> deliveries[i].now < d.edit.editedAt
    requires d.enrolled && d.edit.editedAt <= d.now
    ensures Shows(Stored(deliveries + [d]), d)
  {
    var winner := FirstGreatestWins(deliveries);
    assert (deliveries + [d])[..|deliveries|] == deliveries;
  }
}
