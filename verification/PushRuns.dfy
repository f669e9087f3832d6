/** Push deliveries over whole runs: any number of dispatches and attempts for any number of
    outbox rows, while devices come and go. */
module PushRuns {
  import opened Prelude
  import opened Push

  /** `pushed` records (row, device) for every push handed to a device; `tried` every try;
      `dead` every device reported dead and booked as such. */
  datatype World = World(
    tables: Tables, pushed: multiset<(string, string)>, tried: set<(string, string)>,
    dead: set<string>, known: set<string>)

  datatype Step =
    | Dispatch(outbox: string, on: bool)
    | Try(outbox: string, targets: seq<string>, results: map<string, SendResult>, now: int, commits: bool, records: bool)
    | Register(device: string)
    | Unregister(device: string)
    | Expire(outbox: string)

  /** An attempt reads the recipient's live devices, each row of the table once; a new
      registration is a new row. */
  ghost predicate Possible(w: World, s: Step) {
    match s
    case Dispatch(outbox, on) => true
    case Try(outbox, targets, results, now, commits, records) =>
      && outbox in w.tables.jobs && w.tables.jobs[outbox].Waiting?
      && Distinct(targets) && forall d :: d in targets ==> d in w.tables.devices
    case Register(device) => device !in w.known
    case Unregister(device) => true
    case Expire(outbox) => outbox in w.tables.jobs && !w.tables.jobs[outbox].Waiting?
  }

  ghost function Pairs(outbox: string, devices: seq<string>): multiset<(string, string)> {
    if devices == [] then multiset{} else Pairs(outbox, devices[..|devices| - 1]) + multiset{(outbox, devices[|devices| - 1])}
  }

  ghost function Apply(w: World, s: Step): World {
    if !Possible(w, s) then w else
    match s
    case Dispatch(outbox, on) => w.(tables := Enqueue(w.tables, outbox, on))
    case Try(outbox, targets, results, now, commits, records) =>
      var c := CountAll(targets, results);
      w.(tables := Attempt(w.tables, outbox, targets, results, now, commits, records),
         pushed := w.pushed + Pairs(outbox, c.delivered),
         tried := w.tried + set d | d in targets :: (outbox, d),
         dead := if commits then w.dead + Elements(c.dead) else w.dead)
    case Register(device) =>
      w.(tables := w.tables.(devices := w.tables.devices[device := 0]), known := w.known + {device})
    case Unregister(device) => w.(tables := w.tables.(devices := w.tables.devices - {device}))
    case Expire(outbox) => w.(tables := w.tables.(jobs := w.tables.jobs - {outbox}))
  }

  ghost function Run(w: World, steps: seq<Step>): World
    decreases |steps|
  {
    if steps == [] then w else Run(Apply(w, steps[0]), steps[1..])
  }

  const Start := World(Tables(map[], map[]), multiset{}, {}, {}, {})

  /** What a step records, and what the surroundings may do: a device comes or goes at any time,
      the queue may forget a finished job, and every try counts, with what it found. */
  lemma {:induction false} RecordsExactly(w: World, s: Step, outbox: string, device: string)
    requires Possible(w, s)
    ensures var v := Apply(w, s);
            && ((outbox, device) in v.tried <==> (outbox, device) in w.tried || (s.Try? && s.outbox == outbox && device in s.targets))
            && (device in v.dead <==> device in w.dead
                                      || (s.Try? && s.commits && device in s.targets && ResultFor(s.results, device) == InvalidToken))
            && (device in v.known <==> device in w.known || s == Register(device))
            && (s == Register(device) ==> device in v.tables.devices)
            && (s == Unregister(device) ==> device !in v.tables.devices)
            && (s == Expire(outbox) ==> outbox !in v.tables.jobs)
            && (!s.Try? ==> v.pushed == w.pushed)
    ensures Possible(w, Unregister(device)) && Possible(w, Dispatch(outbox, true))
  {
    if s.Try? {
      CountsAddUp(s.targets, s.results);
    }
    hide CountAll, Pairs, Attempt;
  }

  lemma {:induction false} PairsOnce(outbox: string, devices: seq<string>, row: string, device: string)
    requires Distinct(devices)
    ensures Pairs(outbox, devices)[(row, device)] == if row == outbox && device in devices then 1 else 0
    decreases |devices|
  {
    if devices != [] {
      PairsOnce(outbox, devices[..|devices| - 1], row, device);
      assert devices[|devices| - 1] !in devices[..|devices| - 1];
    }
  }

  lemma {:induction false} DeliveredOnce(devices: seq<string>, results: map<string, SendResult>)
    requires Distinct(devices)
    ensures Distinct(CountAll(devices, results).delivered)
    decreases |devices|
  {
    if devices != [] {
      var before := devices[..|devices| - 1];
      DeliveredOnce(before, results);
      CountsAddUp(before, results);
      assert devices[|devices| - 1] !in before;
    }
  }

  /** Whether an attempt that pushed to somebody leaves the job to be tried again. */
  predicate LeavesOpen(job: Job, commits: bool, records: bool)
    requires job.Waiting?
  {
    if records then !commits && job.made + 1 < PUSH_DELIVER_ATTEMPTS else job.stalls < MAX_STALLED_COUNT
  }

  lemma AttemptJobs(w: World, s: Step)
    requires s.Try? && Possible(w, s)
    ensures var c := CountAll(s.targets, s.results);
            var jobs := Apply(w, s).tables.jobs;
            && s.outbox in jobs && (forall o :: o != s.outbox ==> (o in jobs <==> o in w.tables.jobs))
            && (forall o :: o in w.tables.jobs && o != s.outbox ==> jobs[o] == w.tables.jobs[o])
            && (|c.delivered| > 0 && c.sent > 0 ==> (jobs[s.outbox].Waiting? <==> LeavesOpen(w.tables.jobs[s.outbox], s.commits, s.records)))
            && (forall d :: d in Apply(w, s).tables.devices <==> d in w.tables.devices && !(s.commits && d in c.dead))
  {
  }

  lemma {:induction false} TryPushes(w: World, s: Step, outbox: string, device: string)
    requires s.Try? && Possible(w, s)
    ensures Apply(w, s).pushed[(outbox, device)]
         == w.pushed[(outbox, device)] + if outbox == s.outbox && device in CountAll(s.targets, s.results).delivered then 1 else 0
  {
    DeliveredOnce(s.targets, s.results);
    PairsOnce(s.outbox, CountAll(s.targets, s.results).delivered, outbox, device);
    hide CountAll, Pairs, Attempt;
  }

  // ------------------------------------------------------------------ at most once, exactly

  /** The row has been pushed to the device, and nothing stands in the way of doing it again:
      its job is unknown or waiting, and the device is registered. */
  predicate Exposed(w: World, outbox: string, device: string) {
    && w.pushed[(outbox, device)] >= 1 && device in w.tables.devices
    && (outbox !in w.tables.jobs || w.tables.jobs[outbox].Waiting?)
  }

  ghost predicate Sound(w: World, outbox: string, device: string) {
    && w.tables.devices.Keys <= w.known && (w.pushed[(outbox, device)] >= 1 ==> device in w.known)
    && w.pushed[(outbox, device)] <= 1 && !Exposed(w, outbox, device)
  }

  lemma NothingPushedYet(outbox: string, device: string)
    ensures Sound(Start, outbox, device)
  {
  }

  /** The steps that allow a second push, as an operator would list them: an attempt that pushes
      to the device and is tried again, because its bookkeeping failed with a try left or its
      worker died before the queue heard of the end; or the queue forgetting the row's finished
      job while the device is registered. */
  predicate Exposes(w: World, s: Step, outbox: string, device: string) {
    match s
    case Try(o, targets, results, now, commits, records) =>
      && o == outbox && o in w.tables.jobs && w.tables.jobs[o].Waiting?
      && device in targets && ResultFor(results, device) == Delivered
      && LeavesOpen(w.tables.jobs[o], commits, records)
    case Expire(o) =>
      && o == outbox && o in w.tables.jobs && !w.tables.jobs[o].Waiting?
      && w.pushed[(outbox, device)] >= 1 && device in w.tables.devices
    case _ => false
  }

  lemma {:induction false} TryExposes(w: World, s: Step, outbox: string, device: string)
    requires s.Try? && Possible(w, s) && Sound(w, outbox, device)
    ensures var v := Apply(w, s);
            && v.tables.devices.Keys <= v.known && (v.pushed[(outbox, device)] >= 1 ==> device in v.known)
            && v.pushed[(outbox, device)] <= 1
            && (Exposed(v, outbox, device) <==> Exposes(w, s, outbox, device))
  {
    AttemptJobs(w, s);
    CountsAddUp(s.targets, s.results);
    TryPushes(w, s, outbox, device);
    assert Apply(w, s).known == w.known;
    var c := CountAll(s.targets, s.results);
    assert device in c.delivered ==> |c.delivered| > 0;
    hide CountAll, Pairs, Attempt, Apply, ResultFor, LeavesOpen;
  }

  /** Exactly those steps expose a row and device that were not exposed. */
  lemma {:induction false} ExposedExactly(w: World, s: Step, outbox: string, device: string)
    requires Possible(w, s) && Sound(w, outbox, device)
    ensures Exposed(Apply(w, s), outbox, device) <==> Exposes(w, s, outbox, device)
    ensures !Exposes(w, s, outbox, device) ==> Sound(Apply(w, s), outbox, device)
    ensures Apply(w, s).pushed[(outbox, device)] <= 1
  {
    if s.Try? {
      TryExposes(w, s, outbox, device);
    }
  }

  ghost predicate NeverExposes(w: World, steps: seq<Step>, outbox: string, device: string)
    decreases |steps|
  {
    steps == [] || (!Exposes(w, steps[0], outbox, device) && NeverExposes(Apply(w, steps[0]), steps[1..], outbox, device))
  }

  /** At most one push per outbox row and device, over every dispatch, retry, re-run and attempt,
      while no step exposes it. */
  lemma {:induction false} AtMostOnce(w: World, steps: seq<Step>, outbox: string, device: string)
    requires Sound(w, outbox, device) && NeverExposes(w, steps, outbox, device)
    ensures Sound(Run(w, steps), outbox, device) && Run(w, steps).pushed[(outbox, device)] <= 1
    decreases |steps|
  {
    if steps != [] {
      if Possible(w, steps[0]) {
        ExposedExactly(w, steps[0], outbox, device);
      }
      AtMostOnce(Apply(w, steps[0]), steps[1..], outbox, device);
    }
  }

  /** A run during which the queue keeps the row's job. */
  predicate KeepsJob(steps: seq<Step>, outbox: string) {
    forall i :: 0 <= i < |steps| ==> steps[i] != Expire(outbox)
  }

  lemma {:induction false} UnexposedStays(w: World, s: Step, outbox: string, device: string)
    requires w.tables.devices.Keys <= w.known && device in w.known && w.pushed[(outbox, device)] >= 1
    requires !Exposed(w, outbox, device) && s != Expire(outbox)
    ensures var v := Apply(w, s);
            && v.tables.devices.Keys <= v.known && device in v.known
            && v.pushed[(outbox, device)] == w.pushed[(outbox, device)] && !Exposed(v, outbox, device)
  {
    if Possible(w, s) && s.Try? {
      AttemptJobs(w, s);
      CountsAddUp(s.targets, s.results);
      TryPushes(w, s, outbox, device);
      hide CountAll, Pairs, Attempt, ResultFor, LeavesOpen;
    }
  }

  lemma {:induction false} UnexposedRuns(w: World, steps: seq<Step>, outbox: string, device: string)
    requires w.tables.devices.Keys <= w.known && device in w.known && w.pushed[(outbox, device)] >= 1
    requires !Exposed(w, outbox, device) && KeepsJob(steps, outbox)
    ensures Run(w, steps).pushed[(outbox, device)] == w.pushed[(outbox, device)]
    decreases |steps|
  {
    if steps != [] {
      assert steps[0] != Expire(outbox);
      UnexposedStays(w, steps[0], outbox, device);
      UnexposedRuns(Apply(w, steps[0]), steps[1..], outbox, device);
    }
  }

  function Again(outbox: string, device: string): Step {
    Try(outbox, [device], map[device := Delivered], 0, true, true)
  }

  lemma {:induction false} ExposedRepeats(w: World, outbox: string, device: string) returns (steps: seq<Step>)
    requires Exposed(w, outbox, device)
    ensures KeepsJob(steps, outbox) && Run(w, steps).pushed[(outbox, device)] == w.pushed[(outbox, device)] + 1
  {
    var again := Again(outbox, device);
    var open := Apply(w, Dispatch(outbox, true));
    assert Possible(open, again);
    assert open.pushed == w.pushed;
    TryPushes(open, again, outbox, device);
    CountsAddUp(again.targets, again.results);
    assert device in again.targets && ResultFor(again.results, device) == Delivered;
    hide CountAll, Pairs, Attempt, Apply, ResultFor;
    steps := [Dispatch(outbox, true), again];
    assert steps[1..] == [again] && [again][1..] == [];
    assert Run(w, steps) == Run(open, [again]) == Run(Apply(open, again), []);
  }

  /** A row pushed to a device can be pushed to it again, the queue keeping its job, if and only
      if the two are exposed. */
  lemma {:induction false} RepeatsExactly(w: World, outbox: string, device: string)
    requires w.tables.devices.Keys <= w.known && device in w.known && w.pushed[(outbox, device)] >= 1
    ensures (exists steps :: KeepsJob(steps, outbox) && Run(w, steps).pushed[(outbox, device)] > w.pushed[(outbox, device)])
            <==> Exposed(w, outbox, device)
  {
    if Exposed(w, outbox, device) {
      var steps := ExposedRepeats(w, outbox, device);
    } else {
      forall steps | KeepsJob(steps, outbox) ensures Run(w, steps).pushed[(outbox, device)] == w.pushed[(outbox, device)] {
        UnexposedRuns(w, steps, outbox, device);
      }
    }
  }

  /** So a step after which the row is on the device can be continued to a second push, the
      queue keeping its job from then on, exactly when it is one of the exposing steps. */
  lemma {:induction false} SecondPushExactly(w: World, s: Step, outbox: string, device: string)
    requires Sound(w, outbox, device) && Possible(w, s) && Apply(w, s).pushed[(outbox, device)] >= 1
    ensures (exists steps :: KeepsJob(steps, outbox) && Run(Apply(w, s), steps).pushed[(outbox, device)] >= 2)
            <==> Exposes(w, s, outbox, device)
  {
    ExposedExactly(w, s, outbox, device);
    if s.Try? {
      TryExposes(w, s, outbox, device);
    }
    RepeatsExactly(Apply(w, s), outbox, device);
  }

  /** Only an attempt that pushed to nobody, that failed to book, or whose end the queue never
      heard of, does not complete. */
  lemma RetriedExactly(w: World, s: Step)
    requires s.Try? && Possible(w, s)
    ensures var c := CountAll(s.targets, s.results);
            Apply(w, s).tables.jobs[s.outbox] != Completed
            <==> !s.records || (c.sent == 0 && c.transient > 0) || (!s.commits && (|c.dead| > 0 || c.sent > 0))
  {
    CountsAddUp(s.targets, s.results);
  }

  /** The attempts at a row's job in a run. */
  ghost function Tries(w: World, steps: seq<Step>, outbox: string): nat
    decreases |steps|
  {
    if steps == [] then 0
    else
      (if Possible(w, steps[0]) && steps[0].Try? && steps[0].outbox == outbox then 1 else 0)
      + Tries(Apply(w, steps[0]), steps[1..], outbox)
  }

  function TriesLeft(t: Tables, outbox: string): nat {
    if outbox !in t.jobs then 4
    else
      match t.jobs[outbox]
      case Waiting(made, stalls) => 1 + (if made < 2 then 2 - made else 0) + (if stalls < 1 then 1 else 0)
      case _ => 0
  }

  /** As long as the queue keeps the job's id, however often the row is dispatched, it is tried
      at most four times: three attempts and the one re-run of an attempt whose worker died. */
  lemma {:induction false} TriedAtMost(w: World, steps: seq<Step>, outbox: string)
    requires KeepsJob(steps, outbox)
    ensures Tries(w, steps, outbox) <= TriesLeft(w.tables, outbox) <= 4
    decreases |steps|
  {
    if steps != [] {
      var s, rest := steps[0], steps[1..];
      assert forall i :: 0 <= i < |rest| ==> rest[i] == steps[i + 1];
      TriedAtMost(Apply(w, s), rest, outbox);
      StepUses(w, s, outbox);
      hide Apply, Possible, TriesLeft;
    }
  }

  lemma {:induction false} StepUses(w: World, s: Step, outbox: string)
    requires s != Expire(outbox)
    ensures var uses := Possible(w, s) && s.Try? && s.outbox == outbox;
            TriesLeft(Apply(w, s).tables, outbox) + (if uses then 1 else 0) <= TriesLeft(w.tables, outbox)
  {
    hide Distinct, CountAll, Book, Pairs;
  }

  /** A fresh system, one device, one row: an attempt that pushes, and one more step. */
  ghost function First(outbox: string, device: string, commits: bool, records: bool): World {
    Apply(Apply(Apply(Start, Register(device)), Dispatch(outbox, true)),
          Try(outbox, [device], map[device := Delivered], 0, commits, records))
  }

  /** Each of the three ways is a run: lost bookkeeping, a worker that dies although it has
      booked, and a booked and completed job whose id the queue forgets. */
  lemma {:induction false} LostBookingRepeats(outbox: string, device: string, commits: bool, records: bool)
    ensures First(outbox, device, commits, records).pushed[(outbox, device)] == 1
    ensures Exposed(First(outbox, device, false, true), outbox, device)
    ensures Exposed(First(outbox, device, commits, false), outbox, device)
    ensures !Exposed(First(outbox, device, true, true), outbox, device)
    ensures Exposed(Apply(First(outbox, device, true, true), Expire(outbox)), outbox, device)
  {
    var w := Apply(Apply(Start, Register(device)), Dispatch(outbox, true));
    assert w.tables == Tables(map[device := 0], map[outbox := Waiting(0, 0)]) && w.pushed == multiset{} && w.known == {device};
    FirstTry(w, outbox, device, commits, records);
    FirstTry(w, outbox, device, false, true);
    FirstTry(w, outbox, device, commits, false);
    FirstTry(w, outbox, device, true, true);
    hide Attempt, CountAll, Pairs;
  }

  lemma FirstTry(w: World, outbox: string, device: string, commits: bool, records: bool)
    requires w.tables == Tables(map[device := 0], map[outbox := Waiting(0, 0)]) && w.pushed == multiset{} && w.known == {device}
    ensures var v := Apply(w, Try(outbox, [device], map[device := Delivered], 0, commits, records));
            && v.pushed[(outbox, device)] == 1 && device in v.tables.devices
            && outbox in v.tables.jobs && (v.tables.jobs[outbox].Waiting? <==> !commits || !records)
  {
    var s := Try(outbox, [device], map[device := Delivered], 0, commits, records);
    assert Possible(w, s);
    CountsAddUp(s.targets, s.results);
    AttemptJobs(w, s);
    TryPushes(w, s, outbox, device);
    var c := CountAll(s.targets, s.results);
    assert device in c.delivered;
    hide Attempt, CountAll, Pairs, Apply;
  }

  /** A device booked as dead is gone for good: it is in no later attempt, of any row. */
  ghost predicate DeadInv(w: World) {
    && w.tables.devices.Keys <= w.known
    && w.dead <= w.known && w.dead !! w.tables.devices.Keys
  }

  lemma {:induction false} DeadStayDead(w: World, steps: seq<Step>, outbox: string, device: string)
    requires DeadInv(w) && device in w.dead
    ensures DeadInv(Run(w, steps)) && device in Run(w, steps).dead
    ensures (outbox, device) in Run(w, steps).tried ==> (outbox, device) in w.tried
    decreases |steps|
  {
    if steps != [] {
      DeadStepKeeps(w, steps[0]);
      DeadStayDead(Apply(w, steps[0]), steps[1..], outbox, device);
    }
  }

  lemma {:induction false} DeadStepKeeps(w: World, s: Step)
    requires DeadInv(w)
    ensures DeadInv(Apply(w, s))
    ensures w.dead <= Apply(w, s).dead
    ensures forall outbox, device :: device in w.dead && (outbox, device) in Apply(w, s).tried ==> (outbox, device) in w.tried
  {
    if Possible(w, s) && s.Try? {
      CountsAddUp(s.targets, s.results);
    }
  }
}
