/** Push deliveries (src/push/push-delivery.service.ts, src/push/push.producer.ts): one
    queued job per outbox row, at most three attempts, and what an attempt does with the
    devices it was given. */
module Push {
  import opened Prelude

  datatype SendResult = Delivered | InvalidToken | Transient | Rejected

  /** The counters of the device loop. */
  datatype Counts = Counts(sent: int, failed: int, transient: int, dead: seq<string>, delivered: seq<string>)

  const NO_COUNTS := Counts(0, 0, 0, [], [])

  function Count(c: Counts, device: string, result: SendResult): Counts {
    match result
    case Delivered => c.(sent := c.sent + 1, delivered := c.delivered + [device])
    case InvalidToken => c.(dead := c.dead + [device])
    case Transient => c.(failed := c.failed + 1, transient := c.transient + 1)
    case Rejected => c.(failed := c.failed + 1)
  }

  /** The results of an attempt, device by device; a device with no result was rejected. */
  function ResultFor(results: map<string, SendResult>, device: string): SendResult {
    if device in results then results[device] else Rejected
  }

  function CountAll(devices: seq<string>, results: map<string, SendResult>): Counts {
    if devices == [] then NO_COUNTS
    else
      var last := devices[|devices| - 1];
      Count(CountAll(devices[..|devices| - 1], results), last, ResultFor(results, last))
  }

  /** Every device of an attempt is sent, removed or failed, and nothing is counted twice. */
  lemma {:induction false} CountsAddUp(devices: seq<string>, results: map<string, SendResult>)
    ensures var c := CountAll(devices, results);
            && c.sent + |c.dead| + c.failed == |devices|
            && c.sent == |c.delivered| && 0 <= c.transient <= c.failed
            && (forall d :: d in c.delivered <==> d in devices && ResultFor(results, d) == Delivered)
            && (forall d :: d in c.dead <==> d in devices && ResultFor(results, d) == InvalidToken)
            && (c.transient > 0 <==> exists d :: d in devices && ResultFor(results, d) == Transient)
    decreases |devices|
  {
    if devices != [] {
      var before, last := devices[..|devices| - 1], devices[|devices| - 1];
      CountsAddUp(before, results);
      assert forall d :: d in devices <==> d in before || d == last;
    }
  }

  /** `made` counts the attempts that threw, `stalls` those whose worker died. */
  datatype Job = Waiting(made: nat, stalls: nat) | Completed | GaveUp

  const PUSH_DELIVER_ATTEMPTS := 3

  /** BullMQ re-runs a job whose worker died once, unless told otherwise. */
  const MAX_STALLED_COUNT := 1

  /** The table of devices (when each was last sent to), and the queue by job id, which is
      the outbox row's. */
  datatype Tables = Tables(devices: map<string, int>, jobs: map<string, Job>)

  /** `enqueue`: the queue drops a job whose id it still knows. */
  function Enqueue(t: Tables, outbox: string, on: bool): Tables {
    if !on || outbox in t.jobs then t else t.(jobs := t.jobs[outbox := Waiting(0, 0)])
  }

  /** What the queue does with an attempt that threw. */
  function Retry(job: Job): Job
    requires job.Waiting?
  {
    if job.made + 1 < PUSH_DELIVER_ATTEMPTS then Waiting(job.made + 1, job.stalls) else GaveUp
  }

  /** What it does with one that never reported back. */
  function Rerun(job: Job): Job
    requires job.Waiting?
  {
    if job.stalls < MAX_STALLED_COUNT then Waiting(job.made, job.stalls + 1) else GaveUp
  }

  /** The bookkeeping transaction. */
  function Book(devices: map<string, int>, c: Counts, now: int): map<string, int> {
    map d | d in devices && d !in c.dead :: if d in c.delivered then now else devices[d]
  }

  /** One attempt at a waiting job: send, book, and throw when nothing was sent and something
      failed for the moment. `commits` says whether the bookkeeping transaction commits,
      `records` whether the queue hears of the attempt's end, or the worker dies before that. */
  function Attempt(
    t: Tables, outbox: string, targets: seq<string>, results: map<string, SendResult>, now: int, commits: bool, records: bool): Tables
    requires outbox in t.jobs && t.jobs[outbox].Waiting?
  {
    var c := CountAll(targets, results);
    var books := |c.dead| > 0 || |c.delivered| > 0;
    var throws := (books && !commits) || (c.sent == 0 && c.transient > 0);
    Tables(
      if books && commits then Book(t.devices, c, now) else t.devices,
      t.jobs[outbox := if !records then Rerun(t.jobs[outbox]) else if throws then Retry(t.jobs[outbox]) else Completed])
  }

  /** An attempt by what it found at each device: whether it throws, what the queue then does
      with a job that is given three attempts and one re-run, and what is booked where. */
  lemma AttemptExactly(
    t: Tables, outbox: string, targets: seq<string>, results: map<string, SendResult>, now: int, commits: bool, records: bool)
    requires outbox in t.jobs && t.jobs[outbox].Waiting?
    ensures var after, job := Attempt(t, outbox, targets, results, now, commits, records), t.jobs[outbox];
            var pushed := exists d :: d in targets && ResultFor(results, d) == Delivered;
            var cleared := exists d :: d in targets && ResultFor(results, d) == InvalidToken;
            var throws := if pushed || cleared then !commits || (!pushed && exists d :: d in targets && ResultFor(results, d) == Transient)
                          else exists d :: d in targets && ResultFor(results, d) == Transient;
            && after.jobs == t.jobs[outbox :=
                 if !records then (if job.stalls < 1 then Waiting(job.made, job.stalls + 1) else GaveUp)
                 else if throws then (if job.made + 1 < 3 then Waiting(job.made + 1, job.stalls) else GaveUp)
                 else Completed]
            && (forall d :: d in after.devices <==>
                  d in t.devices && !(commits && d in targets && ResultFor(results, d) == InvalidToken))
            && (forall d :: d in after.devices ==>
                  after.devices[d] == if commits && d in targets && ResultFor(results, d) == Delivered then now else t.devices[d])
  {
    CountsAddUp(targets, results);
    var c := CountAll(targets, results);
    assert |c.delivered| > 0 <==> exists d :: d in targets && ResultFor(results, d) == Delivered by {
      assert |c.delivered| > 0 ==> c.delivered[0] in c.delivered;
    }
    assert |c.dead| > 0 <==> exists d :: d in targets && ResultFor(results, d) == InvalidToken by {
      assert |c.dead| > 0 ==> c.dead[0] in c.dead;
    }
    hide CountAll;
  }

  // ------------------------------------------------------------------ in place

  class PushService {
    var devices: map<string, int>
    var jobs: map<string, Job>

    ghost function View(): Tables
      reads this
    {
      Tables(devices, jobs)
    }

    constructor (devices: map<string, int>)
      ensures View() == Tables(devices, map[])
    {
      this.devices, this.jobs := devices, map[];
    }

    method EnqueueRow(outbox: string, on: bool)
      modifies `jobs
      ensures View() == Enqueue(old(View()), outbox, on)
      ensures jobs == if on && outbox !in old(jobs) then old(jobs)[outbox := Waiting(0, 0)] else old(jobs)
    {
      if on && outbox !in jobs {
        jobs := jobs[outbox := Waiting(0, 0)];
      }
    }

    /** The device loop. */
    method SendAll(targets: seq<string>, results: map<string, SendResult>) returns (c: Counts)
      ensures c == CountAll(targets, results)
    {
      var sent, failed, transient := 0, 0, 0;
      var dead, delivered: seq<string> := [], [];
      for i := 0 to |targets|
        invariant Counts(sent, failed, transient, dead, delivered) == CountAll(targets[..i], results)
      {
        var device := targets[i];
        assert targets[..i + 1][..i] == targets[..i];
        match ResultFor(results, device) {
          case Delivered =>
            sent, delivered := sent + 1, delivered + [device];
          case InvalidToken =>
            dead := dead + [device];
          case Transient =>
            failed, transient := failed + 1, transient + 1;
          case Rejected =>
            failed := failed + 1;
        }
      }
      assert targets[..|targets|] == targets;
      c := Counts(sent, failed, transient, dead, delivered);
    }

    /** `None` when the attempt threw, or its worker died after the bookkeeping. */
    method Deliver(outbox: string, targets: seq<string>, results: map<string, SendResult>, now: int, commits: bool, records: bool)
      returns (outcome: Option<(int, int, int)>)
      requires outbox in jobs && jobs[outbox].Waiting?
      modifies this
      ensures View() == Attempt(old(View()), outbox, targets, results, now, commits, records)
      ensures outcome.Some? ==>
                var c := CountAll(targets, results);
                outcome.value == (|c.delivered|, |c.dead|, |targets| - |c.delivered| - |c.dead|)
      ensures outcome.Some? <==> jobs[outbox] == Completed
    {
      var c := SendAll(targets, results);
      CountsAddUp(targets, results);
      var job := jobs[outbox];
      if |c.dead| > 0 || |c.delivered| > 0 {
        if !commits {
          jobs := jobs[outbox := if records then Retry(job) else Rerun(job)];
          return None;
        }
        devices := map d | d in devices && d !in c.dead :: if d in c.delivered then now else devices[d];
      }
      if !records {
        jobs := jobs[outbox := Rerun(job)];
        return None;
      }
      if c.sent == 0 && c.transient > 0 {
        jobs := jobs[outbox := Retry(job)];
        return None;
      }
      jobs := jobs[outbox := Completed];
      return Some((c.sent, |c.dead|, c.failed));
    }
  }
}
