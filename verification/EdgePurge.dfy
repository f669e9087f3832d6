/** The edge purge queue (src/edge-cache/edge-cache-purge.service.ts).

    `Queue` holds the service's fields: the pending tags in the order a JavaScript `Set`
    keeps them, the one flush timer, the flush under way, the second-pass timers and the
    start of the last request. The functions are the bodies between two awaits; the class
    `EdgeCachePurgeService` runs the same bodies over its own fields. */
module EdgePurge {
  import opened Prelude

  type Tag = string

  const DEBOUNCE_MS := 1_500
  const SECOND_PASS_MS := 15_000
  const MIN_INTERVAL_MS := 12_000
  const MAX_TAGS_PER_REQUEST := 30

  /** A flush: its request is out, or its outcome is in and the `finally` is still to run. */
  datatype Flushing = Idle | Sending(tags: seq<Tag>) | Settling

  datatype Later = Later(tags: seq<Tag>, dueAt: int)

  datatype Queue = Queue(
    pending: seq<Tag>, flushTimer: Option<int>, flushing: Flushing,
    timers: seq<Later>, lastRequestAt: int)

  datatype Outcome = Purged | RateLimited | Refused | NetworkError

  function Schedule(q: Queue, delayMs: int, now: int): Queue {
    if q.flushTimer.Some? || q.flushing != Idle then q
    else q.(flushTimer := Some(now + Max(delayMs, q.lastRequestAt + MIN_INTERVAL_MS - now)))
  }

  function AddTags(q: Queue, tags: seq<Tag>, delayMs: int, now: int): Queue {
    Schedule(q.(pending := AddAll(q.pending, tags)), delayMs, now)
  }

  function Enqueue(q: Queue, tags: seq<Tag>, now: int): Queue {
    if tags == [] then q
    else
      var added := AddTags(q, tags, DEBOUNCE_MS, now);
      added.(timers := added.timers + [Later(tags, now + SECOND_PASS_MS)])
  }

  /** A second-pass timer fires. */
  function SecondPass(q: Queue, i: nat, now: int): Queue
    requires i < |q.timers|
  {
    AddTags(q.(timers := q.timers[..i] + q.timers[i + 1..]), q.timers[i].tags, 0, now)
  }

  function Batch(pending: seq<Tag>): seq<Tag> {
    pending[..Min(MAX_TAGS_PER_REQUEST, |pending|)]
  }

  /** The flush timer fires: `flush` runs up to its `fetch`, or returns at once when there
      is nothing to send. */
  function StartFlush(q: Queue, now: int): Queue {
    var tags := Batch(q.pending);
    if tags == [] then q.(flushTimer := None, flushing := Settling)
    else q.(flushTimer := None, flushing := Sending(tags),
            pending := q.pending[|tags|..], lastRequestAt := now)
  }

  /** The rest of `flush`: a rate-limited batch goes back behind what is waiting. */
  function Respond(q: Queue, outcome: Outcome): Queue
    requires q.flushing.Sending?
  {
    q.(flushing := Settling,
       pending := if outcome == RateLimited then AddAll(q.pending, q.flushing.tags) else q.pending)
  }

  /** The `finally`. */
  function Settle(q: Queue, now: int): Queue {
    var idle := q.(flushing := Idle);
    if |q.pending| > 0 then Schedule(idle, 0, now) else idle
  }

  // ------------------------------------------------------------------ in place

  /** Deleting the elements of a prefix one by one leaves the rest. */
  lemma {:induction false} WithoutHead(s: seq<Tag>)
    requires Distinct(s) && s != []
    ensures Without(s, s[0]) == s[1..]
  {
    WithoutElements(s[1..], s[0]);
  }

  class EdgeCachePurgeService {
    const enabled: bool
    var pending: seq<Tag>
    var timers: seq<Later>
    var flushTimer: Option<int>
    var lastRequestAt: int
    var flushing: Flushing

    ghost function View(): Queue
      reads this
    {
      Queue(pending, flushTimer, flushing, timers, lastRequestAt)
    }

    constructor (enabled: bool)
      ensures this.enabled == enabled
      ensures View() == Queue([], None, Idle, [], 0)
    {
      this.enabled := enabled;
      pending, timers, flushTimer, lastRequestAt, flushing := [], [], None, 0, Idle;
    }

    method EnqueueTags(tags: seq<Tag>, now: int)
      modifies this
      ensures View() == if enabled then Enqueue(old(View()), tags, now) else old(View())
    {
      if !enabled || |tags| == 0 {
        return;
      }
      Insert(tags, DEBOUNCE_MS, now);
      timers := timers + [Later(tags, now + SECOND_PASS_MS)];
    }

    method Insert(tags: seq<Tag>, delayMs: int, now: int)
      modifies this
      ensures View() == AddTags(old(View()), tags, delayMs, now)
    {
      var i := 0;
      while i < |tags|
        invariant 0 <= i <= |tags|
        invariant AddAll(pending, tags[i..]) == AddAll(old(pending), tags)
        invariant View() == old(View()).(pending := pending)
      {
        pending := Add(pending, tags[i]);
        i := i + 1;
      }
      ScheduleFlush(delayMs, now);
    }

    method ScheduleFlush(delayMs: int, now: int)
      modifies this
      ensures View() == Schedule(old(View()), delayMs, now)
    {
      if flushTimer.Some? || flushing != Idle {
        return;
      }
      var wait := Max(delayMs, lastRequestAt + MIN_INTERVAL_MS - now);
      flushTimer := Some(now + wait);
    }

    method LaterFires(i: nat, now: int)
      requires i < |timers|
      modifies this
      ensures View() == SecondPass(old(View()), i, now)
    {
      var due := timers[i];
      timers := timers[..i] + timers[i + 1..];
      Insert(due.tags, 0, now);
    }

    method FlushTimerFires(now: int) returns (sent: seq<Tag>)
      requires Distinct(pending)
      modifies this
      ensures View() == StartFlush(old(View()), now)
      ensures sent == Batch(old(pending))
    {
      flushTimer := None;
      sent := pending[..Min(MAX_TAGS_PER_REQUEST, |pending|)];
      if |sent| == 0 {
        flushing := Settling;
        return;
      }
      var i := 0;
      while i < |sent|
        invariant 0 <= i <= |sent|
        invariant pending == old(pending)[i..]
        invariant View() == old(View()).(flushTimer := None, pending := pending)
      {
        WithoutHead(pending);
        pending := Without(pending, sent[i]);
        i := i + 1;
      }
      lastRequestAt := now;
      flushing := Sending(sent);
    }

    method FlushResponds(outcome: Outcome)
      requires flushing.Sending?
      modifies this
      ensures View() == Respond(old(View()), outcome)
    {
      if outcome == RateLimited {
        var tags := flushing.tags;
        var i := 0;
        while i < |tags|
          invariant 0 <= i <= |tags|
          invariant AddAll(pending, tags[i..]) == AddAll(old(pending), tags)
          invariant View() == old(View()).(pending := pending)
        {
          pending := Add(pending, tags[i]);
          i := i + 1;
        }
      }
      flushing := Settling;
    }

    method FlushSettles(now: int)
      modifies this
      ensures View() == Settle(old(View()), now)
    {
      flushing := Idle;
      if |pending| > 0 {
        ScheduleFlush(0, now);
      }
    }
  }
}
