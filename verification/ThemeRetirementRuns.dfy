/** Theme retirement over whole runs: owners commit changes at any point, also inside the
    script's transactions, and the script may die anywhere.

    `owned`, `moved` and `served` only record: what the owners' changes alone make of every
    website; for a website the script has written since its owner last replaced it, what the
    script had read; and the academies whose turn, with an active owner, has gone through. */
module ThemeRetirementRuns {
  import opened Prelude
  import opened ThemeRetirement

  datatype World = World(m: Machine, owned: Db, moved: map<string, Website>, served: set<string>)

  function Start(db: Db): World { World(Machine(db, [], Between), db, map[], {}) }

  function Next(rules: Rules, mode: Mode, approved: Option<Approved>, w: World, e: Event): World {
    if !Possible(w.m, e) then w
    else
      var m := Step(rules, mode, approved, w.m, e);
      match e
      case Begin(id, hasOwner) =>
        World(m, w.owned, w.moved, if hasOwner && m.phase.Between? then w.served + {id} else w.served)
      case Update => w.(m := m)
      case Recheck(commit) =>
        var txn := w.m.phase.txn;
        if |m.outcomes| == |w.m.outcomes| || commit == CommitFailed then w.(m := m)
        else World(m, w.owned, w.moved[txn.id := txn.read], w.served + {txn.id})
      case Break => w.(m := m)
      case Replace(id, site) =>
        World(m, if site.Some? then w.owned[id := site.value] else w.owned - {id}, w.moved - {id}, w.served)
      case EditPages(id, content) =>
        w.(m := m, owned := if id in w.owned then w.owned[id := w.owned[id].(content := content)] else w.owned)
  }

  function History(rules: Rules, mode: Mode, approved: Option<Approved>, w: World, events: seq<Event>): World {
    if events == [] then w
    else Next(rules, mode, approved, History(rules, mode, approved, w, events[..|events| - 1]), events[|events| - 1])
  }

  /** The records do not influence what happens. */
  lemma {:induction false} HistoryRuns(rules: Rules, mode: Mode, approved: Option<Approved>, w: World, events: seq<Event>)
    ensures History(rules, mode, approved, w, events).m == Run(rules, mode, approved, w.m, events)
    decreases |events|
  {
    if events != [] {
      HistoryRuns(rules, mode, approved, w, events[..|events| - 1]);
    }
  }

  function Lookup(approved: Approved, id: string): Option<Target> {
    if id in approved then Some(approved[id]) else None
  }

  /** Whether, and what, the script writes to an academy whose website it reads like this. */
  function Writes(rules: Rules, mode: Mode, approved: Option<Approved>, id: string, read: Website): Option<string> {
    match Decide(rules, mode, approved, id, Some(read), true)
    case Skip(_) => None
    case Write(to, _) => Some(to)
  }

  // ------------------------------------------------------------------ the invariant

  /** A website is as its owners left it, or it is that with the theme the script wrote. */
  predicate SiteOk(
    rules: Rules, mode: Mode, approved: Option<Approved>, id: string,
    here: Option<Website>, own: Option<Website>, read: Option<Website>)
  {
    if read.None? then here == own
    else
      && own.Some? && Writes(rules, mode, approved, id, read.value).Some?
      && here == Some(MoveTo(own.value, Writes(rules, mode, approved, id, read.value).value))
  }

  ghost predicate SitesOk(rules: Rules, mode: Mode, approved: Option<Approved>, db: Db, owned: Db, moved: map<string, Website>) {
    forall id :: SiteOk(rules, mode, approved, id, SiteOf(db, id), SiteOf(owned, id), SiteOf(moved, id))
  }

  ghost predicate TxnOk(rules: Rules, mode: Mode, approved: Option<Approved>, phase: Phase, moved: map<string, Website>) {
    phase.Reading? || phase.Written? ==>
      var txn := phase.txn;
      txn.id !in moved && Decide(rules, mode, approved, txn.id, Some(txn.read), true) == Write(txn.to, txn.note)
  }

  ghost predicate Inv(rules: Rules, mode: Mode, approved: Option<Approved>, w: World) {
    SitesOk(rules, mode, approved, w.m.db, w.owned, w.moved) && TxnOk(rules, mode, approved, w.m.phase, w.moved)
  }

  /** What the script has written it does not write again. */
  lemma WrittenOnce(rules: Rules, mode: Mode, approved: Option<Approved>, id: string, read: Website, now: Website)
    requires rules.Sane() && Writes(rules, mode, approved, id, read).Some?
    requires now.themeKey == Writes(rules, mode, approved, id, read).value
    ensures Writes(rules, mode, approved, id, now).None?
  {
  }

  lemma {:induction false} BeginKeeps(rules: Rules, mode: Mode, approved: Option<Approved>, w: World, id: string, hasOwner: bool)
    requires rules.Sane() && Inv(rules, mode, approved, w) && Possible(w.m, Begin(id, hasOwner))
    ensures Inv(rules, mode, approved, Next(rules, mode, approved, w, Begin(id, hasOwner)))
  {
    assert SiteOk(rules, mode, approved, id, SiteOf(w.m.db, id), SiteOf(w.owned, id), SiteOf(w.moved, id));
    if id in w.moved {
      WrittenOnce(rules, mode, approved, id, w.moved[id], w.m.db[id]);
    }
    hide Decide, SitesOk;
  }

  lemma {:induction false} RecheckKeeps(rules: Rules, mode: Mode, approved: Option<Approved>, w: World, commit: Commit)
    requires Inv(rules, mode, approved, w) && Possible(w.m, Recheck(commit))
    ensures Inv(rules, mode, approved, Next(rules, mode, approved, w, Recheck(commit)))
  {
    hide Decide;
    var txn := w.m.phase.txn;
    var v := Next(rules, mode, approved, w, Recheck(commit));
    assert v.owned == w.owned;
    assert (v.m.db == w.m.db && v.moved == w.moved)
        || (txn.id in w.m.db && v.m.db == w.m.db[txn.id := MoveTo(w.m.db[txn.id], txn.to)] && v.moved == w.moved[txn.id := txn.read]);
    hide Next;
    forall id ensures SiteOk(rules, mode, approved, id, SiteOf(v.m.db, id), SiteOf(v.owned, id), SiteOf(v.moved, id)) {
      assert SiteOk(rules, mode, approved, id, SiteOf(w.m.db, id), SiteOf(w.owned, id), SiteOf(w.moved, id));
    }
    hide SitesOk, SiteOk;
  }

  lemma {:induction false} OwnersKeep(rules: Rules, mode: Mode, approved: Option<Approved>, w: World, e: Event)
    requires Inv(rules, mode, approved, w) && Possible(w.m, e) && (e.Replace? || e.EditPages?)
    ensures Inv(rules, mode, approved, Next(rules, mode, approved, w, e))
  {
    hide Decide, Writes;
    var v := Next(rules, mode, approved, w, e);
    forall id ensures SiteOk(rules, mode, approved, id, SiteOf(v.m.db, id), SiteOf(v.owned, id), SiteOf(v.moved, id)) {
      assert SiteOk(rules, mode, approved, id, SiteOf(w.m.db, id), SiteOf(w.owned, id), SiteOf(w.moved, id));
    }
    hide SitesOk, SiteOk;
  }

  lemma {:induction false} StepKeeps(rules: Rules, mode: Mode, approved: Option<Approved>, w: World, e: Event)
    requires rules.Sane() && Inv(rules, mode, approved, w)
    ensures Inv(rules, mode, approved, Next(rules, mode, approved, w, e))
  {
    hide Decide, Writes, SitesOk;
    if Possible(w.m, e) {
      match e
      case Begin(id, hasOwner) => BeginKeeps(rules, mode, approved, w, id, hasOwner);
      case Recheck(commit) => RecheckKeeps(rules, mode, approved, w, commit);
      case Replace(id, site) => OwnersKeep(rules, mode, approved, w, e);
      case EditPages(id, content) => OwnersKeep(rules, mode, approved, w, e);
      case _ =>
    }
  }

  lemma {:induction false} RunKeeps(rules: Rules, mode: Mode, approved: Option<Approved>, w: World, events: seq<Event>)
    requires rules.Sane() && Inv(rules, mode, approved, w)
    ensures Inv(rules, mode, approved, History(rules, mode, approved, w, events))
    decreases |events|
  {
    if events != [] {
      RunKeeps(rules, mode, approved, w, events[..|events| - 1]);
      StepKeeps(rules, mode, approved, History(rules, mode, approved, w, events[..|events| - 1]), events[|events| - 1]);
    }
  }

  // ------------------------------------------------------------------ what a run may change

  /** Content is never lost, in any mode and run: every website, and no other, is there with
      the content its owners' changes alone give it. */
  lemma ContentIsTheOwners(rules: Rules, mode: Mode, approved: Option<Approved>, db: Db, events: seq<Event>, id: string)
    requires rules.Sane()
    ensures var w := History(rules, mode, approved, Start(db), events);
            && (id in w.m.db <==> id in w.owned)
            && (id in w.m.db ==> w.m.db[id].content == w.owned[id].content)
  {
    RunKeeps(rules, mode, approved, Start(db), events);
    var w := History(rules, mode, approved, Start(db), events);
    assert SiteOk(rules, mode, approved, id, SiteOf(w.m.db, id), SiteOf(w.owned, id), SiteOf(w.moved, id));
    hide History, Writes, Inv;
  }

  /** The plan's own conditions for moving a website. */
  predicate Movable(rules: Rules, target: Option<Target>, w: Website) {
    && w.themeKey !in rules.selectable
    && target == Some(Target(w.themeKey, rules.fingerprint(w.content)))
    && !rules.unmappable(w.content)
  }

  /** The apply report's conditions for restoring one. */
  predicate Restorable(rules: Rules, target: Option<Target>, w: Website) {
    && target.Some? && w.themeKey == rules.replacement && w.themeKey != target.value.fromThemeKey
    && rules.fingerprint(w.content) == target.value.hash
  }

  lemma WritesExactly(rules: Rules, approved: Approved, id: string, read: Website)
    requires rules.Sane()
    ensures Writes(rules, Apply, Some(approved), id, read)
         == if Movable(rules, Lookup(approved, id), read) then Some(rules.replacement) else None
    ensures Writes(rules, Rollback, Some(approved), id, read)
         == if Restorable(rules, Lookup(approved, id), read) then Some(approved[id].fromThemeKey) else None
    ensures Writes(rules, DryRun, None, id, read) == None && Writes(rules, DryRun, Some(approved), id, read) == None
    ensures Writes(rules, RollbackDryRun, Some(approved), id, read) == None
  {
  }

  /** Over a whole apply, a website is exactly as its owners left it unless the script has written
      it since they last replaced it; then it had read it as the reviewed plan has it, and the
      theme is the replacement, the version one higher, and everything else the owners'. */
  lemma ApplyMovesOnlyThePlanned(rules: Rules, plan: Approved, db: Db, events: seq<Event>, id: string)
    requires rules.Sane()
    ensures var w := History(rules, Apply, Some(plan), Start(db), events);
            && (id in w.moved <==> SiteOf(w.m.db, id) != SiteOf(w.owned, id))
            && (id in w.moved ==> id in w.owned && Movable(rules, Lookup(plan, id), w.moved[id])
                                  && SiteOf(w.m.db, id) == Some(MoveTo(w.owned[id], rules.replacement)))
  {
    RunKeeps(rules, Apply, Some(plan), Start(db), events);
    var w := History(rules, Apply, Some(plan), Start(db), events);
    if id in w.moved {
      WritesExactly(rules, plan, id, w.moved[id]);
    }
    hide Decide;
  }

  /** Over a whole rollback, the same with the recorded move: what it has written it had read on
      the replacement with the recorded content, and it goes back to its recorded theme. */
  lemma RollbackSparesEdits(rules: Rules, moves: Approved, db: Db, events: seq<Event>, id: string)
    requires rules.Sane()
    ensures var w := History(rules, Rollback, Some(moves), Start(db), events);
            && (id in w.moved <==> SiteOf(w.m.db, id) != SiteOf(w.owned, id))
            && (id in w.moved ==> id in w.owned && Restorable(rules, Lookup(moves, id), w.moved[id])
                                  && SiteOf(w.m.db, id) == Some(MoveTo(w.owned[id], moves[id].fromThemeKey)))
  {
    RunKeeps(rules, Rollback, Some(moves), Start(db), events);
    var w := History(rules, Rollback, Some(moves), Start(db), events);
    if id in w.moved {
      WritesExactly(rules, moves, id, w.moved[id]);
    }
    hide Decide;
  }

  /** An academy that is not in the file is never written. */
  lemma OthersAreNotTouched(rules: Rules, mode: Mode, approved: Approved, db: Db, events: seq<Event>, id: string)
    requires rules.Sane() && id !in approved
    ensures var w := History(rules, mode, Some(approved), Start(db), events);
            SiteOf(w.m.db, id) == SiteOf(w.owned, id)
  {
    RunKeeps(rules, mode, Some(approved), Start(db), events);
  }

  // ------------------------------------------------------------------ an owner inside a transaction

  /** Owners' changes only, and none that replaces this website. */
  predicate Around(events: seq<Event>, id: string) {
    forall i :: 0 <= i < |events| ==> events[i].EditPages? || (events[i].Replace? && events[i].id != id)
  }

  /** A page edit comes after the content it is made on. */
  function ContentAfter(content: Content, events: seq<Event>, id: string): Content {
    if events == [] then content
    else
      var last := events[|events| - 1];
      if last.EditPages? && last.id == id then last.content else ContentAfter(content, events[..|events| - 1], id)
  }

  lemma {:induction false} AroundKeeps(rules: Rules, mode: Mode, approved: Option<Approved>, m: Machine, events: seq<Event>, id: string)
    requires Around(events, id) && id in m.db
    ensures var v := Run(rules, mode, approved, m, events);
            && v.phase == m.phase && id in v.db
            && v.db[id] == m.db[id].(content := ContentAfter(m.db[id].content, events, id))
    decreases |events|
  {
    if events != [] {
      var before := events[..|events| - 1];
      assert forall i :: 0 <= i < |before| ==> before[i] == events[i];
      AroundKeeps(rules, mode, approved, m, before, id);
      hide BeginAt, UpdateRow, RecheckRow;
    }
  }

  /** The rest of the transaction, if one is open, with page edits going on. */
  function Rest(beforeWrite: seq<Event>, beforeCheck: seq<Event>, commit: Commit): seq<Event> {
    beforeWrite + [Update] + beforeCheck + [Recheck(commit)]
  }

  lemma RunRest(rules: Rules, mode: Mode, approved: Option<Approved>, m: Machine, beforeWrite: seq<Event>, beforeCheck: seq<Event>, commit: Commit)
    ensures var a := Run(rules, mode, approved, m, beforeWrite);
            var b := Run(rules, mode, approved, Step(rules, mode, approved, a, Update), beforeCheck);
            Run(rules, mode, approved, m, Rest(beforeWrite, beforeCheck, commit)) == Step(rules, mode, approved, b, Recheck(commit))
  {
    hide Step;
    RunConcat(rules, mode, approved, m, beforeWrite, [Update]);
    RunOne(rules, mode, approved, Run(rules, mode, approved, m, beforeWrite), Update);
    RunConcat(rules, mode, approved, m, beforeWrite + [Update], beforeCheck);
    RunConcat(rules, mode, approved, m, beforeWrite + [Update] + beforeCheck, [Recheck(commit)]);
    RunOne(rules, mode, approved, Run(rules, mode, approved, m, beforeWrite + [Update] + beforeCheck), Recheck(commit));
    hide Run;
  }

  /** What the rest of an open transaction does to a theme chosen while it is open, in apply and
      rollback alike: it is lost exactly when it is chosen between the read and the update of
      that academy's own transaction, the content ends up with the fingerprint that was read,
      the theme is not the one being written, and the commit takes effect. */
  lemma {:induction false} LostInWindow(
    rules: Rules, mode: Mode, approved: Option<Approved>, m: Machine, id: string, site: Website,
    beforeWrite: seq<Event>, beforeCheck: seq<Event>, commit: Commit)
    requires Possible(m, Replace(id, Some(site))) && Around(beforeWrite, id) && Around(beforeCheck, id)
    ensures var v := Run(rules, mode, approved, Step(rules, mode, approved, m, Replace(id, Some(site))), Rest(beforeWrite, beforeCheck, commit));
            && id in v.db
            && v.db[id].content == ContentAfter(ContentAfter(site.content, beforeWrite, id), beforeCheck, id)
            && (v.db[id].themeKey != site.themeKey <==>
                  && m.phase.Reading? && m.phase.txn.id == id
                  && rules.fingerprint(v.db[id].content) == rules.fingerprint(m.phase.txn.read.content)
                  && site.themeKey != m.phase.txn.to
                  && commit != CommitFailed)
  {
    var chosen := Step(rules, mode, approved, m, Replace(id, Some(site)));
    var a := Run(rules, mode, approved, chosen, beforeWrite);
    AroundKeeps(rules, mode, approved, chosen, beforeWrite, id);
    var u := Step(rules, mode, approved, a, Update);
    AroundKeeps(rules, mode, approved, u, beforeCheck, id);
    RunRest(rules, mode, approved, chosen, beforeWrite, beforeCheck, commit);
    hide Run, Around, ContentAfter, BeginAt;
  }

  // ------------------------------------------------------------------ a theme an owner chooses

  predicate Unreplaced(events: seq<Event>, id: string) {
    forall i :: 0 <= i < |events| ==> !(events[i].Replace? && events[i].id == id)
  }

  /** At this step a transaction of this academy takes effect. */
  predicate Effective(rules: Rules, m: Machine, e: Event, id: string) {
    && m.phase.Written? && m.phase.txn.id == id && e.Recheck? && e.commit != CommitFailed
    && id in m.db && rules.fingerprint(m.db[id].content) == rules.fingerprint(m.phase.txn.read.content)
  }

  /** From here on, the open transaction `txn` is updated, finds the fingerprint it read, and
      commits. */
  ghost predicate GoesThrough(rules: Rules, mode: Mode, approved: Option<Approved>, m: Machine, events: seq<Event>, txn: Txn) {
    exists i :: 0 <= i < |events| && Effective(rules, Run(rules, mode, approved, m, events[..i]), events[i], txn.id)
                && Run(rules, mode, approved, m, events[..i]).phase.txn == txn
  }

  /** The website as its owner chose it, with the content it has by then. */
  function AsChosen(site: Website, events: seq<Event>, id: string): Website {
    site.(content := ContentAfter(site.content, events, id))
  }

  /** The turn that begins at this event reads the website as chosen, and is going to write. */
  ghost predicate ReadsAsChosen(
    rules: Rules, mode: Mode, approved: Option<Approved>, m: Machine, events: seq<Event>, j: nat, id: string, site: Website, txn: Txn)
  {
    && j < |events| && events[j] == Begin(id, true)
    && Run(rules, mode, approved, m, events[..j + 1]).phase == Reading(txn)
    && txn.id == id && txn.read == AsChosen(site, events[..j], id)
  }

  /** A turn of this academy after the choice reads the website as chosen, writes another theme,
      and goes through. */
  ghost predicate TurnOverwrites(
    rules: Rules, mode: Mode, approved: Option<Approved>, m: Machine, events: seq<Event>, j: nat, id: string, site: Website)
    requires j < |events|
  {
    && events[j] == Begin(id, true)
    && var to := Writes(rules, mode, approved, id, AsChosen(site, events[..j], id));
    && to.Some? && to.value != site.themeKey
    && var v := Run(rules, mode, approved, m, events[..j + 1]);
    && v.phase.Reading? && v.phase.txn.id == id && v.phase.txn.read == AsChosen(site, events[..j], id)
    && GoesThrough(rules, mode, approved, v, events[j + 1..], v.phase.txn)
  }

  lemma {:induction false} MovedStep(rules: Rules, mode: Mode, approved: Option<Approved>, w: World, e: Event, id: string)
    requires Inv(rules, mode, approved, w) && !(e.Replace? && e.id == id)
    ensures var v := Next(rules, mode, approved, w, e);
            && (id in v.moved <==> id in w.moved || Effective(rules, w.m, e, id))
            && (id in w.moved ==> v.moved[id] == w.moved[id])
            && (Effective(rules, w.m, e, id) ==> id !in w.moved && v.moved[id] == w.m.phase.txn.read)
  {
    hide Decide, SitesOk;
  }

  lemma {:induction false} OwnedStep(rules: Rules, mode: Mode, approved: Option<Approved>, w: World, e: Event, id: string)
    requires Inv(rules, mode, approved, w) && !(e.Replace? && e.id == id) && id in w.owned
    ensures var v := Next(rules, mode, approved, w, e);
            && id in v.owned
            && v.owned[id] == if e.EditPages? && e.id == id then w.owned[id].(content := e.content) else w.owned[id]
  {
    assert SiteOk(rules, mode, approved, id, SiteOf(w.m.db, id), SiteOf(w.owned, id), SiteOf(w.moved, id));
    hide Decide, SitesOk, TxnOk, Writes;
  }

  lemma {:induction false} OwnedAsChosen(rules: Rules, mode: Mode, approved: Option<Approved>, w: World, events: seq<Event>, id: string)
    requires rules.Sane() && Inv(rules, mode, approved, w) && Unreplaced(events, id) && id in w.owned
    ensures var v := History(rules, mode, approved, w, events);
            && Inv(rules, mode, approved, v) && id in v.owned && v.owned[id] == AsChosen(w.owned[id], events, id)
    decreases |events|
  {
    RunKeeps(rules, mode, approved, w, events);
    if events != [] {
      var before, last := events[..|events| - 1], events[|events| - 1];
      assert forall i :: 0 <= i < |before| ==> before[i] == events[i];
      OwnedAsChosen(rules, mode, approved, w, before, id);
      OwnedStep(rules, mode, approved, History(rules, mode, approved, w, before), last, id);
      hide Next, Inv;
    }
  }

  /** The transaction open on the academy was open when the theme was chosen, or read it. */
  ghost predicate Opened(
    rules: Rules, mode: Mode, approved: Option<Approved>, m: Machine, events: seq<Event>, id: string, site: Website, txn: Txn)
  {
    || (m.phase.Reading? && m.phase.txn == txn)
    || exists j: nat :: j < |events| && ReadsAsChosen(rules, mode, approved, m, events, j, id, site, txn)
  }

  lemma OpenedStays(
    rules: Rules, mode: Mode, approved: Option<Approved>, m: Machine, before: seq<Event>, e: Event, id: string, site: Website, txn: Txn)
    requires Opened(rules, mode, approved, m, before, id, site, txn)
    ensures Opened(rules, mode, approved, m, before + [e], id, site, txn)
  {
    if !(m.phase.Reading? && m.phase.txn == txn) {
      var j: nat :| j < |before| && ReadsAsChosen(rules, mode, approved, m, before, j, id, site, txn);
      var events := before + [e];
      assert events[..j] == before[..j] && events[..j + 1] == before[..j + 1] && events[j] == before[j];
      assert ReadsAsChosen(rules, mode, approved, m, events, j, id, site, txn);
    }
  }

  predicate OpenOn(phase: Phase, id: string) {
    (phase.Reading? || phase.Written?) && phase.txn.id == id
  }

  lemma {:induction false} OpenStep(rules: Rules, mode: Mode, approved: Option<Approved>, w: World, e: Event, id: string)
    requires Inv(rules, mode, approved, w) && OpenOn(Next(rules, mode, approved, w, e).m.phase, id)
    requires rules.Sane() && id in w.owned
    ensures var v := Next(rules, mode, approved, w, e);
            || (OpenOn(w.m.phase, id) && v.m.phase.txn == w.m.phase.txn)
            || (e == Begin(id, true) && v.m.phase.Reading? && v.m.phase.txn.read == w.owned[id])
  {
    assert SiteOk(rules, mode, approved, id, SiteOf(w.m.db, id), SiteOf(w.owned, id), SiteOf(w.moved, id));
    if e == Begin(id, true) && Possible(w.m, e) && id in w.moved {
      WrittenOnce(rules, mode, approved, id, w.moved[id], w.m.db[id]);
    }
    hide Decide, SitesOk;
  }

  lemma {:induction false} OpenedBy(
    rules: Rules, mode: Mode, approved: Option<Approved>, w: World, events: seq<Event>, id: string)
    requires rules.Sane() && Inv(rules, mode, approved, w) && Unreplaced(events, id) && id in w.owned
    requires !(w.m.phase.Written? && w.m.phase.txn.id == id)
    requires OpenOn(History(rules, mode, approved, w, events).m.phase, id)
    ensures Opened(rules, mode, approved, w.m, events, id, w.owned[id], History(rules, mode, approved, w, events).m.phase.txn)
    decreases |events|
  {
    if events != [] {
      var before, last := events[..|events| - 1], events[|events| - 1];
      assert forall i :: 0 <= i < |before| ==> before[i] == events[i];
      assert events == before + [last];
      var u, v := History(rules, mode, approved, w, before), History(rules, mode, approved, w, events);
      assert v == Next(rules, mode, approved, u, last);
      OwnedAsChosen(rules, mode, approved, w, before, id);
      OpenStep(rules, mode, approved, u, last, id);
      if OpenOn(u.m.phase, id) && v.m.phase.txn == u.m.phase.txn {
        OpenedBy(rules, mode, approved, w, before, id);
        OpenedStays(rules, mode, approved, w.m, before, last, id, w.owned[id], v.m.phase.txn);
      } else {
        HistoryRuns(rules, mode, approved, w, events);
        assert events[..|before| + 1] == events && events[..|before|] == before;
        assert ReadsAsChosen(rules, mode, approved, w.m, events, |before|, id, w.owned[id], v.m.phase.txn);
      }
    }
  }

  /** Somewhere in the run a transaction of this academy takes effect. */
  ghost predicate EffectAt(rules: Rules, mode: Mode, approved: Option<Approved>, m: Machine, events: seq<Event>, i: nat, id: string, txn: Txn) {
    && i < |events| && Effective(rules, Run(rules, mode, approved, m, events[..i]), events[i], id)
    && Run(rules, mode, approved, m, events[..i]).phase.txn == txn
  }

  lemma {:induction false} MovedBy(rules: Rules, mode: Mode, approved: Option<Approved>, w: World, events: seq<Event>, id: string) returns (i: nat, txn: Txn)
    requires rules.Sane() && Inv(rules, mode, approved, w) && Unreplaced(events, id) && id !in w.moved
    requires id in History(rules, mode, approved, w, events).moved
    ensures EffectAt(rules, mode, approved, w.m, events, i, id, txn)
    ensures History(rules, mode, approved, w, events).moved[id] == txn.read
    decreases |events|
  {
    assert events != [];
    var before, last := events[..|events| - 1], events[|events| - 1];
    assert forall k :: 0 <= k < |before| ==> before[k] == events[k];
    RunKeeps(rules, mode, approved, w, before);
    var u := History(rules, mode, approved, w, before);
    MovedStep(rules, mode, approved, u, last, id);
    HistoryRuns(rules, mode, approved, w, before);
    hide Next, Inv, Effective;
    if id in u.moved {
      i, txn := MovedBy(rules, mode, approved, w, before, id);
      assert before[..i] == events[..i];
    } else {
      i, txn := |before|, u.m.phase.txn;
      assert events[..i] == before;
    }
  }

  lemma {:induction false} EffectMoves(
    rules: Rules, mode: Mode, approved: Option<Approved>, w: World, events: seq<Event>, i: nat, id: string, txn: Txn)
    requires rules.Sane() && Inv(rules, mode, approved, w) && Unreplaced(events, id)
    requires EffectAt(rules, mode, approved, w.m, events, i, id, txn)
    ensures id in History(rules, mode, approved, w, events).moved
    ensures History(rules, mode, approved, w, events).moved[id] == txn.read
    ensures Writes(rules, mode, approved, id, txn.read) == Some(txn.to)
    decreases |events|
  {
    var before, last := events[..|events| - 1], events[|events| - 1];
    assert forall k :: 0 <= k < |before| ==> before[k] == events[k];
    RunKeeps(rules, mode, approved, w, before);
    var u := History(rules, mode, approved, w, before);
    MovedStep(rules, mode, approved, u, last, id);
    HistoryRuns(rules, mode, approved, w, before);
    if i < |before| {
      assert before[..i] == events[..i];
      hide Next, Inv, Effective, Writes;
      EffectMoves(rules, mode, approved, w, before, i, id, txn);
    } else {
      assert events[..i] == before;
      assert TxnOk(rules, mode, approved, u.m.phase, u.moved);
      hide Next, SitesOk, Decide;
    }
  }

  lemma {:induction false} KeptUnless(
    rules: Rules, mode: Mode, approved: Option<Approved>, c: World, id: string, site: Website, after: seq<Event>)
    requires rules.Sane() && Unreplaced(after, id) && Inv(rules, mode, approved, c)
    requires id in c.owned && c.owned[id] == site && id !in c.moved
    ensures var v := Run(rules, mode, approved, c.m, after);
            && id in v.db && v.db[id].content == ContentAfter(site.content, after, id)
            && History(rules, mode, approved, c, after).m == v
            && (id !in History(rules, mode, approved, c, after).moved ==> v.db[id].themeKey == site.themeKey)
            && (id in History(rules, mode, approved, c, after).moved ==>
                  Writes(rules, mode, approved, id, History(rules, mode, approved, c, after).moved[id]) == Some(v.db[id].themeKey))
  {
    OwnedAsChosen(rules, mode, approved, c, after, id);
    HistoryRuns(rules, mode, approved, c, after);
    var v := History(rules, mode, approved, c, after);
    assert SiteOk(rules, mode, approved, id, SiteOf(v.m.db, id), SiteOf(v.owned, id), SiteOf(v.moved, id));
    hide Run, History, Inv, Writes, ContentAfter;
  }

  lemma {:induction false} LostOnlyThen(
    rules: Rules, mode: Mode, approved: Option<Approved>, c: World, id: string, site: Website, after: seq<Event>)
    requires rules.Sane() && Unreplaced(after, id) && Inv(rules, mode, approved, c)
    requires id in c.owned && c.owned[id] == site && id !in c.moved && !(c.m.phase.Written? && c.m.phase.txn.id == id)
    requires id in Run(rules, mode, approved, c.m, after).db
    requires Run(rules, mode, approved, c.m, after).db[id].themeKey != site.themeKey
    ensures || (c.m.phase.Reading? && c.m.phase.txn.id == id && c.m.phase.txn.to != site.themeKey
                && GoesThrough(rules, mode, approved, c.m, after, c.m.phase.txn))
            || exists j :: 0 <= j < |after| && TurnOverwrites(rules, mode, approved, c.m, after, j, id, site)
  {
    hide Run, History, Inv, Writes, Unreplaced;
    KeptUnless(rules, mode, approved, c, id, site, after);
    var i, txn := MovedBy(rules, mode, approved, c, after, id);
    EffectMoves(rules, mode, approved, c, after, i, id, txn);
    EffectWasOpened(rules, mode, approved, c, after, i, id, site, txn);
  }

  lemma {:induction false} LostThen(
    rules: Rules, mode: Mode, approved: Option<Approved>, c: World, id: string, site: Website, after: seq<Event>, i: nat, txn: Txn)
    requires rules.Sane() && Unreplaced(after, id) && Inv(rules, mode, approved, c)
    requires id in c.owned && c.owned[id] == site && id !in c.moved
    requires EffectAt(rules, mode, approved, c.m, after, i, id, txn)
    ensures id in Run(rules, mode, approved, c.m, after).db
    ensures Run(rules, mode, approved, c.m, after).db[id].themeKey == txn.to
    ensures Writes(rules, mode, approved, id, txn.read) == Some(txn.to)
  {
    hide Run, History, Inv, Writes, Unreplaced;
    KeptUnless(rules, mode, approved, c, id, site, after);
    EffectMoves(rules, mode, approved, c, after, i, id, txn);
  }

  /** When a theme an owner chooses is lost, over whole runs, in every mode. The owner replaces a
      website after any run `before`; in what follows, `after`, nobody replaces it again. Its
      theme is another one in the end if and only if a transaction of that academy was open with
      its update to come, writes another theme and goes through, or a later turn reads the
      website as it was chosen, is allowed to write another theme to exactly that, and goes
      through. The content is the owners' either way. */
  lemma {:induction false} ThemeLostExactly(
    rules: Rules, mode: Mode, approved: Option<Approved>, db: Db, before: seq<Event>, id: string, site: Website, after: seq<Event>)
    requires rules.Sane() && Unreplaced(after, id)
    requires Possible(Run(rules, mode, approved, Machine(db, [], Between), before), Replace(id, Some(site)))
    ensures var m := Run(rules, mode, approved, Machine(db, [], Between), before);
            var chosen := Step(rules, mode, approved, m, Replace(id, Some(site)));
            var v := Run(rules, mode, approved, chosen, after);
            && id in v.db && v.db[id].content == ContentAfter(site.content, after, id)
            && (v.db[id].themeKey != site.themeKey <==>
                  || (m.phase.Reading? && m.phase.txn.id == id && m.phase.txn.to != site.themeKey
                      && GoesThrough(rules, mode, approved, chosen, after, m.phase.txn))
                  || exists j :: 0 <= j < |after| && TurnOverwrites(rules, mode, approved, chosen, after, j, id, site))
  {
    RunKeeps(rules, mode, approved, Start(db), before);
    HistoryRuns(rules, mode, approved, Start(db), before);
    var w := History(rules, mode, approved, Start(db), before);
    StepKeeps(rules, mode, approved, w, Replace(id, Some(site)));
    var c := Next(rules, mode, approved, w, Replace(id, Some(site)));
    assert c.m == Step(rules, mode, approved, w.m, Replace(id, Some(site))) && c.m.phase == w.m.phase;
    assert id in c.owned && c.owned[id] == site && id !in c.moved;
    hide Next, Step, Inv, Writes, Run, History, Unreplaced;
    KeptUnless(rules, mode, approved, c, id, site, after);
    var v := Run(rules, mode, approved, c.m, after);
    if v.db[id].themeKey != site.themeKey {
      LostOnlyThen(rules, mode, approved, c, id, site, after);
    } else {
      forall txn | GoesThrough(rules, mode, approved, c.m, after, txn) && txn.id == id ensures txn.to == site.themeKey {
        var i :| 0 <= i < |after| && Effective(rules, Run(rules, mode, approved, c.m, after[..i]), after[i], txn.id)
                 && Run(rules, mode, approved, c.m, after[..i]).phase.txn == txn;
        LostThen(rules, mode, approved, c, id, site, after, i, txn);
      }
      forall j | 0 <= j < |after| ensures !TurnOverwrites(rules, mode, approved, c.m, after, j, id, site) {
        if TurnOverwrites(rules, mode, approved, c.m, after, j, id, site) {
          var i, txn := TurnHasEffect(rules, mode, approved, c.m, after, j, id, site);
          LostThen(rules, mode, approved, c, id, site, after, i, txn);
        }
      }
    }
  }

  lemma {:induction false} EffectWasOpened(
    rules: Rules, mode: Mode, approved: Option<Approved>, w: World, events: seq<Event>, i: nat, id: string, site: Website, txn: Txn)
    requires rules.Sane() && Inv(rules, mode, approved, w) && Unreplaced(events, id) && id in w.owned && w.owned[id] == site
    requires !(w.m.phase.Written? && w.m.phase.txn.id == id)
    requires EffectAt(rules, mode, approved, w.m, events, i, id, txn)
    requires Writes(rules, mode, approved, id, txn.read) == Some(txn.to) && txn.to != site.themeKey
    ensures || (w.m.phase.Reading? && w.m.phase.txn == txn && txn.id == id && GoesThrough(rules, mode, approved, w.m, events, txn))
            || exists j :: 0 <= j < |events| && TurnOverwrites(rules, mode, approved, w.m, events, j, id, site)
  {
    var upTo := events[..i];
    assert Unreplaced(upTo, id);
    HistoryRuns(rules, mode, approved, w, upTo);
    OpenedBy(rules, mode, approved, w, upTo, id);
    hide Run, Writes, Inv, Unreplaced;
    if !(w.m.phase.Reading? && w.m.phase.txn == txn) {
      var j: nat :| j < i && ReadsAsChosen(rules, mode, approved, w.m, upTo, j, id, site, txn);
      TurnWasEffective(rules, mode, approved, w.m, events, i, j, id, site, txn);
    }
  }

  lemma {:induction false} TurnWasEffective(
    rules: Rules, mode: Mode, approved: Option<Approved>, m: Machine, events: seq<Event>, i: nat, j: nat, id: string, site: Website, txn: Txn)
    requires EffectAt(rules, mode, approved, m, events, i, id, txn) && j < i
    requires ReadsAsChosen(rules, mode, approved, m, events[..i], j, id, site, txn)
    requires Writes(rules, mode, approved, id, txn.read) == Some(txn.to) && txn.to != site.themeKey
    ensures TurnOverwrites(rules, mode, approved, m, events, j, id, site)
  {
    var upTo := events[..i];
    assert upTo[..j] == events[..j] && upTo[..j + 1] == events[..j + 1] && upTo[j] == events[j];
    var v, rest := Run(rules, mode, approved, m, events[..j + 1]), events[j + 1..];
    var k := i - (j + 1);
    assert events[..j + 1] + rest[..k] == upTo && rest[k] == events[i];
    RunConcat(rules, mode, approved, m, events[..j + 1], rest[..k]);
    hide Run, Effective, Writes, AsChosen;
    assert GoesThrough(rules, mode, approved, v, rest, txn);
  }

  lemma {:induction false} TurnHasEffect(
    rules: Rules, mode: Mode, approved: Option<Approved>, m: Machine, events: seq<Event>, j: nat, id: string, site: Website)
    returns (i: nat, txn: Txn)
    requires j < |events| && TurnOverwrites(rules, mode, approved, m, events, j, id, site)
    ensures EffectAt(rules, mode, approved, m, events, i, id, txn) && txn.read == AsChosen(site, events[..j], id)
    ensures Writes(rules, mode, approved, id, txn.read).Some? && Writes(rules, mode, approved, id, txn.read).value != site.themeKey
  {
    var v, rest := Run(rules, mode, approved, m, events[..j + 1]), events[j + 1..];
    txn := v.phase.txn;
    var k :| 0 <= k < |rest| && Effective(rules, Run(rules, mode, approved, v, rest[..k]), rest[k], txn.id)
             && Run(rules, mode, approved, v, rest[..k]).phase.txn == txn;
    i := j + 1 + k;
    assert events[..j + 1] + rest[..k] == events[..i] && rest[k] == events[i];
    RunConcat(rules, mode, approved, m, events[..j + 1], rest[..k]);
    hide Run, Effective, Writes;
  }

  /** The second way, in a rollback: the owner has chosen the replacement again, on the content
      that was moved, before the script reads the website. It is taken for the script's own move
      and goes back to the old theme. */
  lemma RollbackTakesTheReplacement(rules: Rules, db: Db, id: string, site: Website, from: string)
    requires rules.Sane() && site.themeKey == rules.replacement && from != rules.replacement
    ensures var moves := map[id := Target(from, rules.fingerprint(site.content))];
            var events := [Replace(id, Some(site)), Begin(id, true), Update, Recheck(Committed)];
            var v := Run(rules, Rollback, Some(moves), Machine(db, [], Between), events);
            id in v.db && v.db[id] == MoveTo(site, from)
  {
    var moves := Some(map[id := Target(from, rules.fingerprint(site.content))]);
    var events := [Replace(id, Some(site)), Begin(id, true), Update, Recheck(Committed)];
    var m0 := Machine(db, [], Between);
    assert events[..3][..2][..1][..0] == [] && events[..3][..2][..1] == [Replace(id, Some(site))];
    assert events[..3][..2] == [Replace(id, Some(site)), Begin(id, true)] && events[..3] == [Replace(id, Some(site)), Begin(id, true), Update];
    var m1 := Step(rules, Rollback, moves, m0, events[0]);
    var m2 := Step(rules, Rollback, moves, m1, events[1]);
    assert m1.db[id] == site && m2.phase.Reading? && m2.phase.txn.read == site && m2.phase.txn.to == from && m2.phase.txn.id == id;
    var m3 := Step(rules, Rollback, moves, m2, events[2]);
    assert Run(rules, Rollback, moves, m0, events[..3][..2][..1][..0]) == m0;
    assert Run(rules, Rollback, moves, m0, events[..3][..2][..1]) == m1;
    assert Run(rules, Rollback, moves, m0, events[..3][..2]) == m2;
    assert Run(rules, Rollback, moves, m0, events[..3]) == m3;
  }

  // ------------------------------------------------------------------ a website its owner leaves alone

  predicate Unedited(events: seq<Event>, id: string) {
    forall i :: 0 <= i < |events| ==> !((events[i].Replace? || events[i].EditPages?) && events[i].id == id)
  }

  lemma {:induction false} ReportGrows(outcomes: seq<Outcome>, note: Outcome, id: string)
    ensures Lookup(ApprovedFrom(outcomes + [note]), id)
         == if Recorded(note) && note.academyId == id then Some(Target(note.fromThemeKey, note.hash))
            else Lookup(ApprovedFrom(outcomes), id)
  {
    assert (outcomes + [note])[..|outcomes|] == outcomes;
  }

  /** Of an academy's outcomes the last one on record counts. */
  lemma {:induction false} LastRecordCounts(outcomes: seq<Outcome>, id: string, target: Target)
    ensures Lookup(ApprovedFrom(outcomes), id) == Some(target) <==>
            exists i :: 0 <= i < |outcomes| && RecordAt(outcomes, i, id, target)
    decreases |outcomes|
  {
    if outcomes != [] {
      var n := |outcomes| - 1;
      var before, last := outcomes[..n], outcomes[n];
      assert outcomes == before + [last];
      LastRecordCounts(before, id, target);
      ReportGrows(before, last, id);
      hide ApprovedFrom;
      if Recorded(last) && last.academyId == id {
        assert RecordAt(outcomes, n, id, Target(last.fromThemeKey, last.hash));
      } else {
        forall i | 0 <= i < n ensures RecordAt(outcomes, i, id, target) <==> RecordAt(before, i, id, target) {
          assert before[i] == outcomes[i];
          assert forall j :: i < j < n ==> before[j] == outcomes[j];
        }
      }
    }
  }

  /** A planned move, or a move with its old theme and its fingerprint. */
  predicate OnRecord(o: Outcome, id: string) {
    o.academyId == id && (o.result == WouldMove || (o.result == Moved && |o.fromThemeKey| > 0 && |o.hash| > 0))
  }

  predicate RecordAt(outcomes: seq<Outcome>, i: nat, id: string, target: Target)
    requires i < |outcomes|
  {
    && OnRecord(outcomes[i], id) && target == Target(outcomes[i].fromThemeKey, outcomes[i].hash)
    && forall j :: i < j < |outcomes| ==> !OnRecord(outcomes[j], id)
  }

  /** What is recorded about a website that stays as it is: in an apply its one move, in a dry
      run that it is on a retired theme. */
  function RecordOf(rules: Rules, mode: Mode, approved: Option<Approved>, id: string, site: Website): Option<Target> {
    var here := Target(site.themeKey, rules.fingerprint(site.content));
    match Decide(rules, mode, approved, id, Some(site), true)
    case Skip(notes) => if |notes| == 1 && Recorded(notes[0]) then Some(here) else None
    case Write(to, note) => if Recorded(note) then Some(here) else None
  }

  /** The report about a website its owner leaves alone, and the transaction open on it. */
  ghost predicate Alone(rules: Rules, mode: Mode, approved: Option<Approved>, w: World, id: string, site: Option<Website>) {
    && SiteOf(w.owned, id) == site
    && (id in w.moved ==> Some(w.moved[id]) == site && id in w.served)
    && (w.m.phase.Reading? || w.m.phase.Written? ==> w.m.phase.txn.id == id ==> Some(w.m.phase.txn.read) == site)
    && (Lookup(ApprovedFrom(w.m.outcomes), id).Some? ==>
          site.Some? && Lookup(ApprovedFrom(w.m.outcomes), id) == RecordOf(rules, mode, approved, id, site.value))
    && (id in w.moved || (id in w.served && site.Some?) ==>
          site.Some? && Lookup(ApprovedFrom(w.m.outcomes), id) == RecordOf(rules, mode, approved, id, site.value))
    && (id in w.served && site.Some? ==> (id in w.moved <==> Writes(rules, mode, approved, id, site.value).Some?))
  }

  lemma DecideNotes(rules: Rules, mode: Mode, approved: Option<Approved>, id: string, site: Option<Website>, hasOwner: bool)
    ensures match Decide(rules, mode, approved, id, site, hasOwner)
            case Skip(notes) =>
              && |notes| <= 1
              && (notes != [] && Recorded(notes[0]) ==>
                    && site.Some? && hasOwner && notes[0].academyId == id
                    && Target(notes[0].fromThemeKey, notes[0].hash) == Target(site.value.themeKey, rules.fingerprint(site.value.content)))
            case Write(to, note) =>
              && note.academyId == id
              && (Recorded(note) ==>
                    Target(note.fromThemeKey, note.hash) == Target(site.value.themeKey, rules.fingerprint(site.value.content)))
  {
  }

  /** A website the script has written is passed over without a record. */
  lemma MovedIsSkipped(rules: Rules, mode: Mode, approved: Option<Approved>, id: string, read: Website, now: Website, hasOwner: bool)
    requires rules.Sane() && Writes(rules, mode, approved, id, read).Some?
    requires now.themeKey == Writes(rules, mode, approved, id, read).value
    ensures var d := Decide(rules, mode, approved, id, Some(now), hasOwner);
            d.Skip? && |d.notes| == 1 && !Recorded(d.notes[0])
  {
  }

  lemma {:induction false} BeginMoved(rules: Rules, mode: Mode, approved: Option<Approved>, w: World, hasOwner: bool, id: string, site: Option<Website>)
    requires rules.Sane() && Inv(rules, mode, approved, w) && Possible(w.m, Begin(id, hasOwner)) && id in w.moved
    requires Alone(rules, mode, approved, w, id, site)
    ensures Alone(rules, mode, approved, Next(rules, mode, approved, w, Begin(id, hasOwner)), id, site)
  {
    assert SiteOk(rules, mode, approved, id, SiteOf(w.m.db, id), SiteOf(w.owned, id), SiteOf(w.moved, id));
    hide SitesOk;
    MovedIsSkipped(rules, mode, approved, id, w.moved[id], w.m.db[id], hasOwner);
    var d := Decide(rules, mode, approved, id, SiteOf(w.m.db, id), hasOwner);
    assert d.notes == [d.notes[0]];
    ReportGrows(w.m.outcomes, d.notes[0], id);
    hide Decide, ApprovedFrom, Recorded, RecordOf, Writes;
  }

  /** A turn that writes nothing leaves the report about the website as its content says. */
  lemma SkipRecords(rules: Rules, mode: Mode, approved: Option<Approved>, id: string, site: Option<Website>, hasOwner: bool, outcomes: seq<Outcome>)
    requires Decide(rules, mode, approved, id, site, hasOwner).Skip?
    requires var before := Lookup(ApprovedFrom(outcomes), id);
             before.Some? ==> site.Some? && before == RecordOf(rules, mode, approved, id, site.value)
    ensures var after := Lookup(ApprovedFrom(outcomes + Decide(rules, mode, approved, id, site, hasOwner).notes), id);
            && (after.Some? ==> site.Some? && after == RecordOf(rules, mode, approved, id, site.value))
            && (hasOwner && site.Some? ==> after == RecordOf(rules, mode, approved, id, site.value))
            && (Lookup(ApprovedFrom(outcomes), id).Some? ==> after == Lookup(ApprovedFrom(outcomes), id))
  {
    var notes := Decide(rules, mode, approved, id, site, hasOwner).notes;
    DecideNotes(rules, mode, approved, id, site, hasOwner);
    if notes != [] {
      assert notes == [notes[0]];
      ReportGrows(outcomes, notes[0], id);
    } else {
      assert outcomes + [] == outcomes;
    }
    hide ApprovedFrom;
  }

  lemma {:induction false} BeginAlone(rules: Rules, mode: Mode, approved: Option<Approved>, w: World, hasOwner: bool, id: string, site: Option<Website>)
    requires rules.Sane() && Inv(rules, mode, approved, w) && Possible(w.m, Begin(id, hasOwner)) && id !in w.moved
    requires Alone(rules, mode, approved, w, id, site)
    ensures Alone(rules, mode, approved, Next(rules, mode, approved, w, Begin(id, hasOwner)), id, site)
  {
    assert SiteOk(rules, mode, approved, id, SiteOf(w.m.db, id), SiteOf(w.owned, id), SiteOf(w.moved, id));
    assert SiteOf(w.m.db, id) == site;
    hide SitesOk, SiteOk, ApprovedFrom, RecordOf, Decide;
    var d, v := Decide(rules, mode, approved, id, site, hasOwner), Next(rules, mode, approved, w, Begin(id, hasOwner));
    assert v.owned == w.owned && v.moved == w.moved;
    if d.Skip? {
      SkipRecords(rules, mode, approved, id, site, hasOwner, w.m.outcomes);
      assert v.m.outcomes == w.m.outcomes + d.notes && v.m.phase.Between?;
      assert v.served == if hasOwner then w.served + {id} else w.served;
      assert hasOwner && site.Some? ==> Writes(rules, mode, approved, id, site.value).None?;
      hide Next, Writes;
    } else {
      assert v.m.outcomes == w.m.outcomes && v.served == w.served;
      assert v.m.phase == Reading(Txn(id, site.value, d.to, d.note));
      hide Next, Writes;
    }
  }

  lemma {:induction false} BeginOther(
    rules: Rules, mode: Mode, approved: Option<Approved>, w: World, begun: string, hasOwner: bool, id: string, site: Option<Website>)
    requires Possible(w.m, Begin(begun, hasOwner)) && begun != id
    requires Alone(rules, mode, approved, w, id, site)
    ensures Alone(rules, mode, approved, Next(rules, mode, approved, w, Begin(begun, hasOwner)), id, site)
  {
    var d, v := Decide(rules, mode, approved, begun, SiteOf(w.m.db, begun), hasOwner), Next(rules, mode, approved, w, Begin(begun, hasOwner));
    DecideNotes(rules, mode, approved, begun, SiteOf(w.m.db, begun), hasOwner);
    assert v.owned == w.owned && v.moved == w.moved && (id in v.served <==> id in w.served);
    assert v.m.phase.Reading? ==> v.m.phase.txn.id == begun;
    assert !v.m.phase.Written? && v.m.outcomes == if d.Skip? then w.m.outcomes + d.notes else w.m.outcomes;
    if d.Skip? && d.notes != [] {
      assert d.notes == [d.notes[0]];
      ReportGrows(w.m.outcomes, d.notes[0], id);
    } else {
      assert w.m.outcomes + [] == w.m.outcomes;
    }
    hide Next, Decide, ApprovedFrom, Recorded, RecordOf, Writes;
  }

  lemma {:induction false} RecheckAlone(rules: Rules, mode: Mode, approved: Option<Approved>, w: World, commit: Commit, id: string, site: Option<Website>)
    requires Inv(rules, mode, approved, w) && Possible(w.m, Recheck(commit)) && w.m.phase.txn.id == id
    requires Alone(rules, mode, approved, w, id, site)
    ensures Alone(rules, mode, approved, Next(rules, mode, approved, w, Recheck(commit)), id, site)
  {
    var txn, v := w.m.phase.txn, Next(rules, mode, approved, w, Recheck(commit));
    DecideNotes(rules, mode, approved, id, Some(txn.read), true);
    ReportGrows(w.m.outcomes, txn.note, id);
    assert Writes(rules, mode, approved, id, txn.read).Some?;
    assert RecordOf(rules, mode, approved, id, txn.read)
        == if Recorded(txn.note) then Some(Target(txn.note.fromThemeKey, txn.note.hash)) else None;
    RecheckMoves(rules, mode, approved, w, commit);
    hide Next, SitesOk, ApprovedFrom, Recorded, Decide, Writes, RecordOf;
  }

  lemma RecheckMoves(rules: Rules, mode: Mode, approved: Option<Approved>, w: World, commit: Commit)
    requires Possible(w.m, Recheck(commit))
    ensures var txn, v := w.m.phase.txn, Next(rules, mode, approved, w, Recheck(commit));
            && v.owned == w.owned && !v.m.phase.Reading? && !v.m.phase.Written?
            && (v.m.outcomes == w.m.outcomes || v.m.outcomes == w.m.outcomes + [txn.note])
            && ((v.moved == w.moved && v.served == w.served)
                || (v.m.outcomes == w.m.outcomes + [txn.note]
                    && v.moved == w.moved[txn.id := txn.read] && v.served == w.served + {txn.id}))
  {
  }

  lemma {:induction false} RecheckOther(rules: Rules, mode: Mode, approved: Option<Approved>, w: World, commit: Commit, id: string, site: Option<Website>)
    requires Inv(rules, mode, approved, w) && Possible(w.m, Recheck(commit)) && w.m.phase.txn.id != id
    requires Alone(rules, mode, approved, w, id, site)
    ensures Alone(rules, mode, approved, Next(rules, mode, approved, w, Recheck(commit)), id, site)
  {
    hide Next, SitesOk, ApprovedFrom, Recorded, Decide, Writes, RecordOf;
    var txn := w.m.phase.txn;
    DecideNotes(rules, mode, approved, txn.id, Some(txn.read), true);
    ReportGrows(w.m.outcomes, txn.note, id);
    RecheckMoves(rules, mode, approved, w, commit);
  }

  lemma {:induction false} StepAlone(rules: Rules, mode: Mode, approved: Option<Approved>, w: World, e: Event, id: string, site: Option<Website>)
    requires rules.Sane() && Inv(rules, mode, approved, w) && Unedited([e], id)
    requires Alone(rules, mode, approved, w, id, site)
    ensures Alone(rules, mode, approved, Next(rules, mode, approved, w, e), id, site)
  {
    assert [e][0] == e;
    if Possible(w.m, e) {
      match e
      case Begin(begun, hasOwner) =>
        if begun == id && id in w.moved {
          BeginMoved(rules, mode, approved, w, hasOwner, id, site);
        } else if begun == id {
          BeginAlone(rules, mode, approved, w, hasOwner, id, site);
        } else {
          BeginOther(rules, mode, approved, w, begun, hasOwner, id, site);
        }
      case Recheck(commit) =>
        if w.m.phase.txn.id == id {
          RecheckAlone(rules, mode, approved, w, commit, id, site);
        } else {
          RecheckOther(rules, mode, approved, w, commit, id, site);
        }
      case _ =>
        hide Decide, ApprovedFrom;
    }
  }

  lemma {:induction false} RunAlone(rules: Rules, mode: Mode, approved: Option<Approved>, db: Db, events: seq<Event>, id: string)
    requires rules.Sane() && Unedited(events, id)
    ensures Inv(rules, mode, approved, History(rules, mode, approved, Start(db), events))
    ensures Alone(rules, mode, approved, History(rules, mode, approved, Start(db), events), id, SiteOf(db, id))
    decreases |events|
  {
    RunKeeps(rules, mode, approved, Start(db), events);
    if events == [] {
      assert ApprovedFrom([]) == map[];
    } else {
      var before, last := events[..|events| - 1], events[|events| - 1];
      assert Unedited(before, id) && Unedited([last], id);
      RunAlone(rules, mode, approved, db, before, id);
      StepAlone(rules, mode, approved, History(rules, mode, approved, Start(db), before), last, id, SiteOf(db, id));
    }
  }

  // ------------------------------------------------------------------ dry run, apply, rollback

  /** A dry run leaves every website to its owners, and records of one its owner leaves alone
      exactly whether it is on a theme that is gone. */
  lemma DryRunOnlyReads(rules: Rules, db: Db, events: seq<Event>, id: string)
    requires rules.Sane()
    ensures var w := History(rules, DryRun, None, Start(db), events);
            && SiteOf(w.m.db, id) == SiteOf(w.owned, id)
            && (Unedited(events, id) && id in db && id in w.served ==>
                  Lookup(ApprovedFrom(w.m.outcomes), id)
                  == if db[id].themeKey in rules.selectable then None
                     else Some(Target(db[id].themeKey, rules.fingerprint(db[id].content))))
  {
    RunKeeps(rules, DryRun, None, Start(db), events);
    var w := History(rules, DryRun, None, Start(db), events);
    assert SiteOk(rules, DryRun, None, id, SiteOf(w.m.db, id), SiteOf(w.owned, id), SiteOf(w.moved, id));
    if id in w.moved {
      WritesExactly(rules, map[], id, w.moved[id]);
    }
    if Unedited(events, id) {
      RunAlone(rules, DryRun, None, db, events, id);
    }
    hide History, ApprovedFrom, SitesOk, TxnOk;
  }

  /** After an apply, wherever it stopped: a website its owner leaves alone is as it was or
      moved as planned, its move is on record when its old theme has a name, and nothing else
      about it is. */
  lemma {:induction false} AppliedState(rules: Rules, plan: Approved, db: Db, events: seq<Event>, id: string)
    requires rules.Sane() && Unedited(events, id) && id in db
    ensures var w := History(rules, Apply, Some(plan), Start(db), events);
            var here := Target(db[id].themeKey, rules.fingerprint(db[id].content));
            && SiteOf(w.m.db, id) == Some(if id in w.moved then MoveTo(db[id], rules.replacement) else db[id])
            && (id in w.moved <==> id in w.served && Movable(rules, Lookup(plan, id), db[id]))
            && (id in w.moved ==>
                  Lookup(ApprovedFrom(w.m.outcomes), id) == if db[id].themeKey != "" then Some(here) else None)
            && (Lookup(ApprovedFrom(w.m.outcomes), id).Some? ==> Lookup(ApprovedFrom(w.m.outcomes), id) == Some(here))
  {
    RunAlone(rules, Apply, Some(plan), db, events, id);
    var w := History(rules, Apply, Some(plan), Start(db), events);
    assert SiteOk(rules, Apply, Some(plan), id, SiteOf(w.m.db, id), SiteOf(w.owned, id), SiteOf(w.moved, id));
    WritesExactly(rules, plan, id, db[id]);
    hide History, ApprovedFrom, SitesOk, TxnOk;
  }

  /** After a rollback, the same: restored as recorded or as it was. */
  lemma {:induction false} RolledBackState(rules: Rules, moves: Approved, db: Db, events: seq<Event>, id: string)
    requires rules.Sane() && Unedited(events, id) && id in db
    ensures var w := History(rules, Rollback, Some(moves), Start(db), events);
            && (id in w.moved <==> id in w.served && Restorable(rules, Lookup(moves, id), db[id]))
            && SiteOf(w.m.db, id) == Some(if id in w.moved then MoveTo(db[id], moves[id].fromThemeKey) else db[id])
  {
    RunAlone(rules, Rollback, Some(moves), db, events, id);
    var w := History(rules, Rollback, Some(moves), Start(db), events);
    assert SiteOk(rules, Rollback, Some(moves), id, SiteOf(w.m.db, id), SiteOf(w.owned, id), SiteOf(w.moved, id));
    WritesExactly(rules, moves, id, db[id]);
    hide History, ApprovedFrom, SitesOk, TxnOk;
  }

  /** Rolling back what an apply, finished or dead, has on record: a website its owner leaves
      alone gets its theme and content back, with `configVersion` + 2, if and only if it was
      moved, its old theme has a name, and the rollback gets through its turn with an active
      owner; otherwise it stays as the apply left it. */
  lemma RollbackUndoesApply(rules: Rules, plan: Approved, db: Db, events: seq<Event>, events': seq<Event>, id: string)
    requires rules.Sane() && id in db && Unedited(events, id) && Unedited(events', id)
    ensures var applied := History(rules, Apply, Some(plan), Start(db), events);
            var back := History(rules, Rollback, Some(ApprovedFrom(applied.m.outcomes)), Start(applied.m.db), events');
            && SiteOf(applied.m.db, id) == Some(if id in applied.moved then MoveTo(db[id], rules.replacement) else db[id])
            && SiteOf(back.m.db, id)
               == if id in applied.moved && db[id].themeKey != "" && id in back.served
                  then Some(db[id].(configVersion := db[id].configVersion + 2))
                  else SiteOf(applied.m.db, id)
  {
    AppliedState(rules, plan, db, events, id);
    var applied := History(rules, Apply, Some(plan), Start(db), events);
    RolledBackState(rules, ApprovedFrom(applied.m.outcomes), applied.m.db, events', id);
    hide History, ApprovedFrom;
  }

  /** Applying the same plan again, after a run that finished or died, comes out as one
      complete apply does: what had moved stays, what had not moves now. */
  lemma ApplyTwiceIsApplyOnce(rules: Rules, plan: Approved, db: Db, events: seq<Event>, events': seq<Event>, once: seq<Event>, id: string)
    requires rules.Sane() && id in db && Unedited(events, id) && Unedited(events', id) && Unedited(once, id)
    requires id in History(rules, Apply, Some(plan), Start(db), once).served
    requires id in History(rules, Apply, Some(plan), Start(History(rules, Apply, Some(plan), Start(db), events).m.db), events').served
    ensures var first := History(rules, Apply, Some(plan), Start(db), events);
            (SiteOf(History(rules, Apply, Some(plan), Start(first.m.db), events').m.db, id)
             == SiteOf(History(rules, Apply, Some(plan), Start(db), once).m.db, id))
  {
    AppliedState(rules, plan, db, events, id);
    AppliedState(rules, plan, db, once, id);
    AppliedState(rules, plan, History(rules, Apply, Some(plan), Start(db), events).m.db, events', id);
    hide History, ApprovedFrom;
  }

  /** A turn with an active owner that is not broken off gets through. */
  lemma TurnServes(rules: Rules, mode: Mode, approved: Option<Approved>, w: World, id: string)
    requires w.m.phase.Between? && id in w.m.db
    ensures id in History(rules, mode, approved, w, [Begin(id, true), Update, Recheck(Committed)]).served
    ensures History(rules, mode, approved, w, [Begin(id, true), Update, Recheck(Committed)]).m.phase.Between?
  {
    var all := [Begin(id, true), Update, Recheck(Committed)];
    assert all[..2] == [Begin(id, true), Update] && all[..2][..1] == [Begin(id, true)] && [Begin(id, true)][..0] == [];
    var w1 := Next(rules, mode, approved, w, Begin(id, true));
    assert History(rules, mode, approved, w, []) == w;
    assert History(rules, mode, approved, w, all[..2][..1]) == w1;
    var w2 := Next(rules, mode, approved, w1, Update);
    assert History(rules, mode, approved, w, all[..2]) == w2;
    hide Decide;
  }

  predicate AtWork(w: World, id: string) {
    id in w.served || ((w.m.phase.Reading? || w.m.phase.Written?) && w.m.phase.txn.id == id)
  }

  lemma {:induction false} AtWorkStep(rules: Rules, mode: Mode, approved: Option<Approved>, w: World, e: Event, id: string)
    requires AtWork(Next(rules, mode, approved, w, e), id) && e != Begin(id, true)
    ensures AtWork(w, id)
  {
    hide Decide;
  }

  /** ... and no turn does without an active owner: at a rollback such an academy is skipped. */
  lemma {:induction false} ServedHadOwner(rules: Rules, mode: Mode, approved: Option<Approved>, db: Db, events: seq<Event>, id: string)
    requires AtWork(History(rules, mode, approved, Start(db), events), id)
    ensures Begin(id, true) in events
    decreases |events|
  {
    hide Next, AtWork;
    NothingAtWork(db, id);
    if events != [] && events[|events| - 1] != Begin(id, true) {
      var before := events[..|events| - 1];
      AtWorkStep(rules, mode, approved, History(rules, mode, approved, Start(db), before), events[|events| - 1], id);
      ServedHadOwner(rules, mode, approved, db, before, id);
      assert events == before + [events[|events| - 1]];
    }
  }

  lemma NothingAtWork(db: Db, id: string)
    ensures !AtWork(Start(db), id)
  {
  }

  // ------------------------------------------------------------------ without --apply

  function Reported(d: Decision): seq<Outcome> {
    match d
    case Skip(notes) => notes
    case Write(_, note) => [note]
  }

  predicate Says(notes: seq<Outcome>, v: Verdict) {
    exists o :: o in notes && o.result == v
  }

  /** What one turn reports about an academy, verdict by verdict: nothing when it is not in the
      file given, and else at most one verdict, for exactly these reasons. */
  lemma VerdictExactly(rules: Rules, mode: Mode, approved: Option<Approved>, id: string, site: Option<Website>, hasOwner: bool, v: Verdict)
    ensures var target := if approved.Some? then Lookup(approved.value, id) else None;
            var back := (mode == Rollback || mode == RollbackDryRun) && target.Some?;
            var reported := Reported(Decide(rules, mode, approved, id, site, hasOwner));
            && |reported| <= 1
            && (Says(reported, v) <==>
                  && (approved.Some? ==> target.Some?)
                  && match v
                     case SkippedNoActiveOwner => !hasOwner
                     case SkippedNoWebsite => hasOwner && site.None? && target.Some?
                     case AlreadyDone =>
                       && hasOwner && site.Some? && target.Some?
                       && if back then site.value.themeKey == target.value.fromThemeKey else site.value.themeKey in rules.selectable
                     case SkippedChangedSincePlan =>
                       && hasOwner && site.Some?
                       && if back then site.value.themeKey != target.value.fromThemeKey && !Restorable(rules, target, site.value)
                          else mode != DryRun && site.value.themeKey !in rules.selectable
                               && target != Some(Target(site.value.themeKey, rules.fingerprint(site.value.content)))
                     case WouldMove => hasOwner && site.Some? && mode == DryRun && site.value.themeKey !in rules.selectable
                     case WouldRestore => hasOwner && site.Some? && mode == RollbackDryRun && Restorable(rules, target, site.value)
                     case SkippedUnmappableSections =>
                       && hasOwner && site.Some? && mode == Apply && site.value.themeKey !in rules.selectable
                       && target == Some(Target(site.value.themeKey, rules.fingerprint(site.value.content)))
                       && rules.unmappable(site.value.content)
                     case Moved => hasOwner && site.Some? && mode == Apply && Movable(rules, target, site.value)
                     case Restored => hasOwner && site.Some? && mode == Rollback && Restorable(rules, target, site.value))
  {
    var d := Decide(rules, mode, approved, id, site, hasOwner);
    if Reported(d) != [] {
      assert Reported(d)[0] in Reported(d);
    }
  }

  predicate Rehearsal(mode: Mode) { mode == DryRun || mode == RollbackDryRun }

  predicate Noted(outcomes: seq<Outcome>, id: string, v: Verdict) {
    exists i :: 0 <= i < |outcomes| && outcomes[i].academyId == id && outcomes[i].result == v
  }

  /** A rehearsal opens no transaction that writes, so it has written nothing; and once it has
      been through an academy's turn its report says of the website what it read, and only then. */
  ghost predicate Rehearsed(rules: Rules, mode: Mode, approved: Option<Approved>, w: World, id: string, site: Option<Website>) {
    && (w.m.phase.Between? || w.m.phase.Died?) && w.moved == map[]
    && forall v :: v != SkippedNoActiveOwner ==>
         (Noted(w.m.outcomes, id, v) <==>
            id in w.served && Says(Reported(Decide(rules, mode, approved, id, site, true)), v))
  }

  lemma NotedMore(outcomes: seq<Outcome>, notes: seq<Outcome>, id: string, v: Verdict)
    ensures Noted(outcomes + notes, id, v) <==> Noted(outcomes, id, v) || Noted(notes, id, v)
  {
    var all := outcomes + notes;
    if i :| 0 <= i < |outcomes| && outcomes[i].academyId == id && outcomes[i].result == v {
      assert all[i] == outcomes[i];
    }
    if i :| 0 <= i < |notes| && notes[i].academyId == id && notes[i].result == v {
      assert all[|outcomes| + i] == notes[i];
    }
  }

  lemma DecideReads(rules: Rules, mode: Mode, approved: Option<Approved>, id: string, site: Option<Website>, hasOwner: bool)
    requires Rehearsal(mode)
    ensures var d := Decide(rules, mode, approved, id, site, hasOwner);
            && d.Skip? && (forall o :: o in d.notes ==> o.academyId == id)
            && (!hasOwner ==> forall o :: o in d.notes ==> o.result == SkippedNoActiveOwner)
  {
  }

  lemma {:induction false} BeginRehearsed(
    rules: Rules, mode: Mode, approved: Option<Approved>, w: World, begun: string, hasOwner: bool, id: string, site: Option<Website>)
    requires Rehearsal(mode) && Possible(w.m, Begin(begun, hasOwner)) && SiteOf(w.m.db, id) == site
    requires Rehearsed(rules, mode, approved, w, id, site)
    ensures Rehearsed(rules, mode, approved, Next(rules, mode, approved, w, Begin(begun, hasOwner)), id, site)
  {
    var v := Next(rules, mode, approved, w, Begin(begun, hasOwner));
    var d := Decide(rules, mode, approved, begun, SiteOf(w.m.db, begun), hasOwner);
    DecideReads(rules, mode, approved, begun, SiteOf(w.m.db, begun), hasOwner);
    hide Decide;
    assert v.m.outcomes == w.m.outcomes + d.notes && v.m.phase == w.m.phase && v.moved == w.moved;
    assert v.served == if hasOwner then w.served + {begun} else w.served;
    forall verdict | verdict != SkippedNoActiveOwner
      ensures Noted(v.m.outcomes, id, verdict) <==>
              id in v.served && Says(Reported(Decide(rules, mode, approved, id, site, true)), verdict)
    {
      NotedMore(w.m.outcomes, d.notes, id, verdict);
      NotedBy(d.notes, begun, id, verdict);
      hide Next, Noted;
    }
    hide Next, Noted;
  }

  lemma NotedBy(notes: seq<Outcome>, begun: string, id: string, v: Verdict)
    requires forall o :: o in notes ==> o.academyId == begun
    ensures Noted(notes, id, v) <==> begun == id && Says(notes, v)
  {
    if o :| o in notes && o.result == v {
      var i :| 0 <= i < |notes| && notes[i] == o;
    }
  }

  lemma {:induction false} RunRehearsed(rules: Rules, mode: Mode, approved: Option<Approved>, db: Db, events: seq<Event>, id: string)
    requires rules.Sane() && Rehearsal(mode) && Unedited(events, id)
    ensures Rehearsed(rules, mode, approved, History(rules, mode, approved, Start(db), events), id, SiteOf(db, id))
    decreases |events|
  {
    if events != [] {
      var before, last := events[..|events| - 1], events[|events| - 1];
      assert Unedited(before, id);
      RunRehearsed(rules, mode, approved, db, before, id);
      var w := History(rules, mode, approved, Start(db), before);
      RunAlone(rules, mode, approved, db, before, id);
      assert SiteOk(rules, mode, approved, id, SiteOf(w.m.db, id), SiteOf(w.owned, id), SiteOf(w.moved, id));
      assert SiteOf(w.m.db, id) == SiteOf(db, id);
      if last.Begin? && Possible(w.m, last) {
        BeginRehearsed(rules, mode, approved, w, last.id, last.hasOwner, id, SiteOf(db, id));
      }
      hide Decide, Noted, Inv, Alone, SiteOf, Reported;
    }
  }

  /** Whatever files it is given, and whoever else is at work: without `--apply` the script
      leaves every website to its owners. */
  lemma {:induction false} NothingMovesWithoutApply(rules: Rules, plan: Option<Report>, rollback: Option<Report>, db: Db, events: seq<Event>, id: string)
    requires rules.Sane() && Arguments(false, plan, rollback).Ok?
    ensures var (mode, approved) := Arguments(false, plan, rollback).value;
            var w := History(rules, mode, approved, Start(db), events);
            SiteOf(w.m.db, id) == SiteOf(w.owned, id)
  {
    var (mode, approved) := Arguments(false, plan, rollback).value;
    RunKeeps(rules, mode, approved, Start(db), events);
    var w := History(rules, mode, approved, Start(db), events);
    assert SiteOk(rules, mode, approved, id, SiteOf(w.m.db, id), SiteOf(w.owned, id), SiteOf(w.moved, id));
    if id in w.moved {
      DecideReads(rules, mode, approved, id, Some(w.moved[id]), true);
    }
    hide History, Decide, ApprovedFrom, SitesOk, TxnOk;
  }

  /** What a rehearsal reports of a website its owner leaves alone: that it would be restored
      exactly when its turn went through and the rollback would restore it, that it would be
      moved exactly when its turn went through, it is in the plan if one is given, and its
      theme is gone. */
  lemma {:induction false} RehearsalReports(rules: Rules, mode: Mode, approved: Option<Approved>, db: Db, events: seq<Event>, id: string)
    requires rules.Sane() && Rehearsal(mode) && Unedited(events, id) && id in db
    ensures var w := History(rules, mode, approved, Start(db), events);
            && (Noted(w.m.outcomes, id, WouldRestore) <==>
                  && id in w.served && mode == RollbackDryRun && approved.Some?
                  && Restorable(rules, Lookup(approved.value, id), db[id]))
            && (Noted(w.m.outcomes, id, WouldMove) <==>
                  && id in w.served && mode == DryRun && (approved.Some? ==> id in approved.value)
                  && db[id].themeKey !in rules.selectable)
            && !Noted(w.m.outcomes, id, Moved) && !Noted(w.m.outcomes, id, Restored)
  {
    RunRehearsed(rules, mode, approved, db, events, id);
    var w := History(rules, mode, approved, Start(db), events);
    VerdictExactly(rules, mode, approved, id, Some(db[id]), true, WouldRestore);
    VerdictExactly(rules, mode, approved, id, Some(db[id]), true, WouldMove);
    VerdictExactly(rules, mode, approved, id, Some(db[id]), true, Moved);
    VerdictExactly(rules, mode, approved, id, Some(db[id]), true, Restored);
    hide History, Decide, Noted, Reported, Says;
  }

  // ------------------------------------------------------------------ what a dead script leaves behind

  /** What stops the script, and nothing else does: an exception between two steps, a row that is
      gone at its update or at the second read, another fingerprint there, and a commit that does
      not answer. The outcome is written down before that is known. Owners are only kept from the
      row the script has updated and not yet committed. */
  lemma StopsExactly(rules: Rules, mode: Mode, approved: Option<Approved>, m: Machine, e: Event)
    ensures var v := Step(rules, mode, approved, m, e);
            var checked := m.phase.Written? && m.phase.txn.id in m.db
                           && rules.fingerprint(m.db[m.phase.txn.id].content) == rules.fingerprint(m.phase.txn.read.content);
            && (v.phase.Died? <==>
                  || m.phase.Died? || e == Break
                  || (e == Update && m.phase.Reading? && m.phase.txn.id !in m.db)
                  || (e.Recheck? && m.phase.Written? && !(checked && e.commit == Committed)))
            && (e.Recheck? && m.phase.Written? ==> v.outcomes == if checked then m.outcomes + [m.phase.txn.note] else m.outcomes)
            && (e.Replace? && m.phase.Written? && m.phase.txn.id == e.id ==> v == m)
            && (e.Replace? && !(m.phase.Written? && m.phase.txn.id == e.id) ==>
                  && SiteOf(v.db, e.id) == e.site && v.phase == m.phase && v.outcomes == m.outcomes
                  && forall id :: id != e.id ==> SiteOf(v.db, id) == SiteOf(m.db, id))
  {
    hide Decide;
  }

  /** A script that has stopped does nothing more, whatever owners do afterwards. */
  lemma {:induction false} DeadStaysDead(rules: Rules, mode: Mode, approved: Option<Approved>, w: World, events: seq<Event>)
    requires w.m.phase.Died?
    ensures var v := History(rules, mode, approved, w, events);
            && v.m.phase.Died? && v.m.outcomes == w.m.outcomes
            && v.served == w.served && v.moved.Keys <= w.moved.Keys
    decreases |events|
  {
    if events != [] {
      var before := History(rules, mode, approved, w, events[..|events| - 1]);
      DeadStaysDead(rules, mode, approved, w, events[..|events| - 1]);
      StopsExactly(rules, mode, approved, before.m, events[|events| - 1]);
      hide BeginAt, UpdateRow, RecheckRow;
    }
  }

  /** The script has ended once it is between two academies or stopped, and only a stopped one
      reports from its `catch`. */
  lemma EndsSomehow(m: Machine)
    ensures (exists end :: Ends(m, end)) <==> m.phase.Between? || m.phase.Died?
    ensures Ends(m, Finished) ==> !m.phase.Died? && Ends(m, DiedAfterLoop) && Ends(m, WriteFailed)
    ensures Ends(m, DiedInLoop) ==> m.phase.Died? && Ends(m, WriteFailed)
    ensures m.phase.Died? ==> Ends(m, DiedInLoop) && !Ends(m, DiedAfterLoop)
  {
    assert m.phase.Between? ==> Ends(m, Finished);
    assert m.phase.Died? ==> Ends(m, DiedInLoop);
  }

  /** A rollback can read a committed move if and only if a report was written: when the script
      finished, or died inside its loop. After the loop, or when the write fails, every move
      stays committed and none is on record. */
  lemma OnRecordExactly(rules: Rules, plan: Approved, db: Db, events: seq<Event>, end: End, id: string)
    requires rules.Sane() && Unedited(events, id) && id in db && db[id].themeKey != ""
    requires var w := History(rules, Apply, Some(plan), Start(db), events); id in w.moved && Ends(w.m, end)
    ensures var w := History(rules, Apply, Some(plan), Start(db), events);
            var report := ReportOf(Apply, w.m, end);
            && ((report.Some? && id in ApprovedFrom(report.value.outcomes)) <==> end == Finished || end == DiedInLoop)
            && (report.Some? ==> ApprovedFrom(report.value.outcomes)[id] == Target(db[id].themeKey, rules.fingerprint(db[id].content)))
            && SiteOf(w.m.db, id) == Some(MoveTo(db[id], rules.replacement))
  {
    AppliedState(rules, plan, db, events, id);
    hide History, ApprovedFrom;
  }

  /** The run that shows it: one planned website moves, its turn commits, and the query after
      the loop fails. The move is in the database and in no report. */
  lemma MoveWithoutReport(rules: Rules, id: string, site: Website)
    requires rules.Sane() && site.themeKey !in rules.selectable && !rules.unmappable(site.content)
    ensures var plan := map[id := Target(site.themeKey, rules.fingerprint(site.content))];
            var w := History(rules, Apply, Some(plan), Start(map[id := site]), [Begin(id, true), Update, Recheck(Committed)]);
            && Ends(w.m, DiedAfterLoop) && ReportOf(Apply, w.m, DiedAfterLoop) == None
            && w.m.db == map[id := MoveTo(site, rules.replacement)]
  {
    var plan := map[id := Target(site.themeKey, rules.fingerprint(site.content))];
    var events := [Begin(id, true), Update, Recheck(Committed)];
    TurnServes(rules, Apply, Some(plan), Start(map[id := site]), id);
    assert Unedited(events, id);
    AppliedState(rules, plan, map[id := site], events, id);
    var w := History(rules, Apply, Some(plan), Start(map[id := site]), events);
    forall other ensures other in w.m.db <==> other == id {
      ContentIsTheOwners(rules, Apply, Some(plan), map[id := site], events, other);
      OwnedUnchanged(rules, Apply, Some(plan), Start(map[id := site]), events);
    }
    hide History, Next;
  }

  lemma {:induction false} OwnedUnchanged(rules: Rules, mode: Mode, approved: Option<Approved>, w: World, events: seq<Event>)
    requires forall i :: 0 <= i < |events| ==> !events[i].Replace? && !events[i].EditPages?
    ensures History(rules, mode, approved, w, events).owned == w.owned
    decreases |events|
  {
    if events != [] {
      OwnedUnchanged(rules, mode, approved, w, events[..|events| - 1]);
    }
  }
}
