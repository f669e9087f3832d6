/** Retiring website themes: dry run, apply, rollback (src/scripts/retire-website-themes.ts,
    src/website/utils/theme-retirement.util.ts).

    A website is its theme key, the version that keys the public cache, and everything else
    (`content`). The fingerprint is an arbitrary function of the content.

    The script handles one academy at a time, in a transaction that reads the website, decides,
    updates one row, reads again and compares fingerprints. Owners commit their own changes at
    any point in between (READ COMMITTED): what they commit between the read and the update is
    overwritten or kept column by column; from the update on the row is locked, its pages are
    not. */
module ThemeRetirement {
  import opened Prelude

  type Content = string

  datatype Website = Website(themeKey: string, configVersion: int, content: Content)

  /** What the script takes as given: the selectable keys, the replacement among them, the
      hash, and which content holds sections no theme can draw. */
  datatype Rules = Rules(
    selectable: set<string>, replacement: string,
    fingerprint: Content -> string, unmappable: Content -> bool)
  {
    ghost predicate Sane() {
      && replacement in selectable
      && forall c :: fingerprint(c) != ""
    }
  }

  type Db = map<string, Website>

  datatype Mode = DryRun | Apply | RollbackDryRun | Rollback

  datatype Verdict =
    | WouldMove | Moved | WouldRestore | Restored | AlreadyDone | SkippedChangedSincePlan
    | SkippedNoActiveOwner | SkippedNoWebsite | SkippedUnmappableSections

  /** `fromThemeKey` and `hash` are empty where the script leaves them out. */
  datatype Outcome = Outcome(academyId: string, result: Verdict, fromThemeKey: string, hash: string)

  datatype Report = Report(mode: Mode, outcomes: seq<Outcome>)

  /** What the reviewed plan, or the apply report, recorded for an academy. */
  datatype Target = Target(fromThemeKey: string, hash: string)

  type Approved = map<string, Target>

  // ------------------------------------------------------------------ the arguments

  /** The outcomes a later run acts on: every planned move of a dry run; of an apply report
      the moves whose key and fingerprint are not empty strings. */
  predicate Recorded(o: Outcome) {
    o.result == WouldMove || (o.result == Moved && o.fromThemeKey != "" && o.hash != "")
  }

  /** academyId to what was recorded; a later entry replaces an earlier one. */
  function ApprovedFrom(outcomes: seq<Outcome>): Approved {
    if outcomes == [] then map[]
    else
      var last := outcomes[|outcomes| - 1];
      var before := ApprovedFrom(outcomes[..|outcomes| - 1]);
      if Recorded(last) then before[last.academyId := Target(last.fromThemeKey, last.hash)] else before
  }

  datatype ArgumentError = BothFiles | ApplyWithoutFile | NotADryRun | NotAnApplyReport

  /** The mode, and the academies it is limited to when a file was given. */
  function Arguments(apply: bool, plan: Option<Report>, rollback: Option<Report>)
    : (r: Result<(Mode, Option<Approved>), ArgumentError>)
    ensures r.Ok? && r.value.0 == Apply ==> plan.Some? && plan.value.mode == DryRun && r.value.1 == Some(ApprovedFrom(plan.value.outcomes))
    ensures r.Ok? && r.value.0 == Rollback ==> rollback.Some? && rollback.value.mode == Apply && r.value.1 == Some(ApprovedFrom(rollback.value.outcomes))
    ensures r.Ok? ==> (apply <==> r.value.0 == Apply || r.value.0 == Rollback)
    ensures r.Ok? ==> (rollback.Some? <==> r.value.0 == Rollback || r.value.0 == RollbackDryRun)
    ensures r.Ok? ==> (r.value.1.Some? <==> plan.Some? || rollback.Some?)
    ensures r == Err(BothFiles) <==> plan.Some? && rollback.Some?
    ensures r == Err(ApplyWithoutFile) <==> apply && plan.None? && rollback.None?
    ensures r == Err(NotADryRun) <==> rollback.None? && plan.Some? && plan.value.mode != DryRun
    ensures r == Err(NotAnApplyReport) <==> plan.None? && rollback.Some? && rollback.value.mode != Apply
  {
    if plan.Some? && rollback.Some? then Err(BothFiles)
    else if apply && plan.None? && rollback.None? then Err(ApplyWithoutFile)
    else if plan.Some? && plan.value.mode != DryRun then Err(NotADryRun)
    else if rollback.Some? && rollback.value.mode != Apply then Err(NotAnApplyReport)
    else if rollback.Some? then
      Ok((if apply then Rollback else RollbackDryRun, Some(ApprovedFrom(rollback.value.outcomes))))
    else
      Ok((if apply then Apply else DryRun, if plan.Some? then Some(ApprovedFrom(plan.value.outcomes)) else None))
  }

  // ------------------------------------------------------------------ one academy

  function Note(id: string, result: Verdict): Outcome { Outcome(id, result, "", "") }

  function MoveTo(w: Website, themeKey: string): Website {
    w.(themeKey := themeKey, configVersion := w.configVersion + 1)
  }

  datatype Decision = Skip(notes: seq<Outcome>) | Write(to: string, note: Outcome)

  /** What one academy's transaction decides from what it read: what it appends to the report,
      or the theme it writes and the outcome of that. `approved` is `None` when the script was
      given no file. */
  function Decide(rules: Rules, mode: Mode, approved: Option<Approved>, id: string, site: Option<Website>, hasOwner: bool)
    : (d: Decision)
    ensures d.Write? ==> site.Some? && hasOwner
  {
    var target := if approved.Some? && id in approved.value then Some(approved.value[id]) else None;
    if approved.Some? && target.None? then Skip([])
    else if !hasOwner then Skip([Note(id, SkippedNoActiveOwner)])
    else if site.None? then Skip(if target.Some? then [Note(id, SkippedNoWebsite)] else [])
    else
      var w := site.value;
      var hash := rules.fingerprint(w.content);
      if (mode == Rollback || mode == RollbackDryRun) && target.Some? then
        if w.themeKey == target.value.fromThemeKey then Skip([Note(id, AlreadyDone)])
        else if w.themeKey != rules.replacement || hash != target.value.hash then
          Skip([Note(id, SkippedChangedSincePlan)])
        else if mode == Rollback then
          Write(target.value.fromThemeKey, Outcome(id, Restored, rules.replacement, hash))
        else Skip([Outcome(id, WouldRestore, "", hash)])
      else if w.themeKey in rules.selectable then
        Skip(if target.Some? then [Note(id, AlreadyDone)] else [])
      else if mode == DryRun then Skip([Outcome(id, WouldMove, w.themeKey, hash)])
      else if target.None? || target.value.fromThemeKey != w.themeKey || target.value.hash != hash then
        Skip([Outcome(id, SkippedChangedSincePlan, w.themeKey, "")])
      else if rules.unmappable(w.content) then Skip([Outcome(id, SkippedUnmappableSections, w.themeKey, "")])
      else Write(rules.replacement, Outcome(id, Moved, w.themeKey, hash))
  }

  // ------------------------------------------------------------------ the script and the owners

  /** An open transaction: what it read, the theme it writes, and the outcome of that. */
  datatype Txn = Txn(id: string, read: Website, to: string, note: Outcome)

  /** Between two academies; read and decided, the update to come; updated, the second read to
      come; or out of the loop by an exception. */
  datatype Phase = Between | Reading(txn: Txn) | Written(txn: Txn) | Died

  datatype Machine = Machine(db: Db, outcomes: seq<Outcome>, phase: Phase)

  /** A commit can fail, or succeed with its answer lost: the script only sees an exception. */
  datatype Commit = Committed | AnswerLost | CommitFailed

  /** The script begins an academy (which has an active owner or not), updates the row, reads
      again and commits, or is broken off by an exception; anyone else replaces or removes a
      website, or edits its pages. */
  datatype Event =
    | Begin(id: string, hasOwner: bool)
    | Update
    | Recheck(commit: Commit)
    | Break
    | Replace(id: string, site: Option<Website>)
    | EditPages(id: string, content: Content)

  predicate Possible(m: Machine, e: Event) {
    match e
    case Begin(id, hasOwner) => m.phase.Between?
    case Update => m.phase.Reading?
    case Recheck(commit) => m.phase.Written?
    case Break => !m.phase.Died?
    case Replace(id, site) => !(m.phase.Written? && m.phase.txn.id == id)
    case EditPages(id, content) => id in m.db
  }

  function SiteOf(db: Db, id: string): Option<Website> {
    if id in db then Some(db[id]) else None
  }

  function BeginAt(rules: Rules, mode: Mode, approved: Option<Approved>, m: Machine, id: string, hasOwner: bool): Machine {
    match Decide(rules, mode, approved, id, SiteOf(m.db, id), hasOwner)
    case Skip(notes) => m.(outcomes := m.outcomes + notes)
    case Write(to, note) => m.(phase := Reading(Txn(id, m.db[id], to, note)))
  }

  /** Updating a row that is gone throws. */
  function UpdateRow(m: Machine): Machine
    requires m.phase.Reading?
  {
    m.(phase := if m.phase.txn.id in m.db then Written(m.phase.txn) else Died)
  }

  /** On a difference everything the transaction did is undone and the script stops; the outcome
      is written down before the commit is known to have worked. */
  function RecheckRow(rules: Rules, m: Machine, commit: Commit): Machine
    requires m.phase.Written?
  {
    var txn := m.phase.txn;
    if txn.id !in m.db || rules.fingerprint(m.db[txn.id].content) != rules.fingerprint(txn.read.content) then
      m.(phase := Died)
    else
      Machine(
        if commit == CommitFailed then m.db else m.db[txn.id := MoveTo(m.db[txn.id], txn.to)],
        m.outcomes + [txn.note],
        if commit == Committed then Between else Died)
  }

  function Step(rules: Rules, mode: Mode, approved: Option<Approved>, m: Machine, e: Event): Machine {
    if !Possible(m, e) then m else
    match e
    case Begin(id, hasOwner) => BeginAt(rules, mode, approved, m, id, hasOwner)
    case Update => UpdateRow(m)
    case Recheck(commit) => RecheckRow(rules, m, commit)
    case Break => m.(phase := Died)
    case Replace(id, site) => m.(db := if site.Some? then m.db[id := site.value] else m.db - {id})
    case EditPages(id, content) => m.(db := m.db[id := m.db[id].(content := content)])
  }

  function Run(rules: Rules, mode: Mode, approved: Option<Approved>, m: Machine, events: seq<Event>): Machine {
    if events == [] then m
    else Step(rules, mode, approved, Run(rules, mode, approved, m, events[..|events| - 1]), events[|events| - 1])
  }

  /** How a run of the script ends: its report is written after the loop, or by the `catch`
      around the loop; an exception after the loop, or a failing write, leaves none. */
  datatype End = Finished | DiedInLoop | DiedAfterLoop | WriteFailed

  function ReportOf(mode: Mode, m: Machine, end: End): Option<Report> {
    if end == Finished || end == DiedInLoop then Some(Report(mode, m.outcomes)) else None
  }

  /** The loop ends with an exception exactly when it was broken off. */
  predicate Ends(m: Machine, end: End) {
    match end
    case Finished => m.phase.Between?
    case DiedInLoop => m.phase.Died?
    case DiedAfterLoop => m.phase.Between?
    case WriteFailed => m.phase.Between? || m.phase.Died?
  }

  // ------------------------------------------------------------------ in place

  /** One academy's transaction, with what owners do before the update and before the second
      read. */
  function Turn(id: string, hasOwner: bool, beforeWrite: seq<Event>, beforeCheck: seq<Event>, commit: Commit): seq<Event> {
    [Begin(id, hasOwner)] + beforeWrite + [Update] + beforeCheck + [Recheck(commit)]
  }

  lemma {:induction false} RunConcat(rules: Rules, mode: Mode, approved: Option<Approved>, m: Machine, a: seq<Event>, b: seq<Event>)
    ensures Run(rules, mode, approved, m, a + b) == Run(rules, mode, approved, Run(rules, mode, approved, m, a), b)
    decreases |b|
  {
    if b == [] {
      assert a + b == a;
    } else {
      assert (a + b)[..|a + b| - 1] == a + b[..|b| - 1];
      RunConcat(rules, mode, approved, m, a, b[..|b| - 1]);
    }
  }

  lemma RunOne(rules: Rules, mode: Mode, approved: Option<Approved>, m: Machine, e: Event)
    ensures Run(rules, mode, approved, m, [e]) == Step(rules, mode, approved, m, e)
  {
    assert [e][..0] == [];
    assert Run(rules, mode, approved, m, []) == m;
  }

  class Retirement {
    const rules: Rules
    const mode: Mode
    const approved: Option<Approved>
    var db: Db
    var outcomes: seq<Outcome>
    var phase: Phase

    ghost function View(): Machine
      reads this
    {
      Machine(db, outcomes, phase)
    }

    constructor (rules: Rules, mode: Mode, approved: Option<Approved>, db: Db)
      ensures this.rules == rules && this.mode == mode && this.approved == approved
      ensures View() == Machine(db, [], Between)
    {
      this.rules, this.mode, this.approved := rules, mode, approved;
      this.db, this.outcomes, this.phase := db, [], Between;
    }

    /** Up to the update, or to the end when there is nothing to write. */
    method BeginAcademy(id: string, hasOwner: bool)
      modifies this
      ensures View() == Step(rules, mode, approved, old(View()), Begin(id, hasOwner))
    {
      if !phase.Between? {
        return;
      }
      var target := if approved.Some? && id in approved.value then Some(approved.value[id]) else None;
      if approved.Some? && target.None? {
        return;
      }
      if !hasOwner {
        outcomes := outcomes + [Note(id, SkippedNoActiveOwner)];
        return;
      }
      if id !in db {
        if target.Some? {
          outcomes := outcomes + [Note(id, SkippedNoWebsite)];
        }
        return;
      }
      var website := db[id];
      var hash := rules.fingerprint(website.content);
      if (mode == Rollback || mode == RollbackDryRun) && target.Some? {
        if website.themeKey == target.value.fromThemeKey {
          outcomes := outcomes + [Note(id, AlreadyDone)];
        } else if website.themeKey != rules.replacement || hash != target.value.hash {
          outcomes := outcomes + [Note(id, SkippedChangedSincePlan)];
        } else if mode == Rollback {
          phase := Reading(Txn(id, website, target.value.fromThemeKey, Outcome(id, Restored, rules.replacement, hash)));
        } else {
          outcomes := outcomes + [Outcome(id, WouldRestore, "", hash)];
        }
        return;
      }
      if website.themeKey in rules.selectable {
        if target.Some? {
          outcomes := outcomes + [Note(id, AlreadyDone)];
        }
        return;
      }
      if mode == DryRun {
        outcomes := outcomes + [Outcome(id, WouldMove, website.themeKey, hash)];
        return;
      }
      if target.None? || target.value.fromThemeKey != website.themeKey || target.value.hash != hash {
        outcomes := outcomes + [Outcome(id, SkippedChangedSincePlan, website.themeKey, "")];
        return;
      }
      if rules.unmappable(website.content) {
        outcomes := outcomes + [Outcome(id, SkippedUnmappableSections, website.themeKey, "")];
        return;
      }
      phase := Reading(Txn(id, website, rules.replacement, Outcome(id, Moved, website.themeKey, hash)));
    }

    method UpdateTheme()
      modifies `phase
      ensures View() == Step(rules, mode, approved, old(View()), Update)
    {
      if phase.Reading? {
        phase := if phase.txn.id in db then Written(phase.txn) else Died;
      }
    }

    method RecheckAndCommit(commit: Commit)
      modifies this
      ensures View() == Step(rules, mode, approved, old(View()), Recheck(commit))
    {
      if !phase.Written? {
        return;
      }
      var txn := phase.txn;
      if txn.id !in db || rules.fingerprint(db[txn.id].content) != rules.fingerprint(txn.read.content) {
        phase := Died;
        return;
      }
      outcomes := outcomes + [txn.note];
      if commit != CommitFailed {
        db := db[txn.id := MoveTo(db[txn.id], txn.to)];
      }
      phase := if commit == Committed then Between else Died;
    }

    /** The next thing that happens, whoever does it. */
    method Happen(e: Event)
      modifies this
      ensures View() == Step(rules, mode, approved, old(View()), e)
    {
      match e {
        case Begin(id, hasOwner) =>
          BeginAcademy(id, hasOwner);
        case Update =>
          UpdateTheme();
        case Recheck(commit) =>
          RecheckAndCommit(commit);
        case Break =>
          phase := Died;
        case Replace(id, site) =>
          if !(phase.Written? && phase.txn.id == id) {
            db := if site.Some? then db[id := site.value] else db - {id};
          }
        case EditPages(id, content) =>
          if id in db {
            db := db[id := db[id].(content := content)];
          }
      }
    }

    method HappenAll(events: seq<Event>)
      modifies this
      ensures View() == Run(rules, mode, approved, old(View()), events)
    {
      var i := 0;
      while i < |events|
        invariant 0 <= i <= |events|
        invariant View() == Run(rules, mode, approved, old(View()), events[..i])
      {
        assert events[..i + 1][..i] == events[..i];
        Happen(events[i]);
        i := i + 1;
      }
      assert events[..|events|] == events;
    }

    method VisitAcademy(id: string, hasOwner: bool, beforeWrite: seq<Event>, beforeCheck: seq<Event>, commit: Commit)
      modifies this
      ensures View() == Run(rules, mode, approved, old(View()), Turn(id, hasOwner, beforeWrite, beforeCheck, commit))
    {
      ghost var m := View();
      BeginAcademy(id, hasOwner);
      RunOne(rules, mode, approved, m, Begin(id, hasOwner));
      RunConcat(rules, mode, approved, m, [Begin(id, hasOwner)], beforeWrite);
      HappenAll(beforeWrite);
      RunConcat(rules, mode, approved, m, [Begin(id, hasOwner)] + beforeWrite, [Update]);
      RunOne(rules, mode, approved, View(), Update);
      UpdateTheme();
      RunConcat(rules, mode, approved, m, [Begin(id, hasOwner)] + beforeWrite + [Update], beforeCheck);
      HappenAll(beforeCheck);
      RunConcat(rules, mode, approved, m, [Begin(id, hasOwner)] + beforeWrite + [Update] + beforeCheck, [Recheck(commit)]);
      RunOne(rules, mode, approved, View(), Recheck(commit));
      RecheckAndCommit(commit);
    }
  }
}
