/** The edge purge queue over whole runs: no lost wakeup, no lost work, spacing, and how
    long a tag may wait. Times never go back, and a timer never fires early; between the
    two, events interleave freely. A step that is not possible changes nothing. */
module EdgePurgeRuns {
  import opened Prelude
  import opened EdgePurge

  datatype Request = Request(at: int, tags: seq<Tag>, limited: bool)

  /** Somebody asked at `at` that `tag` be purged from then on. */
  datatype Want = Want(tag: Tag, at: int)

  /** `requests`, `asked` and `wants` only record what happened: the request of a flush
      under way is the last one, and `limited` becomes true when it is answered with a 429;
      `asked` are the calls to `enqueue`, and every pass of them is a want. */
  datatype World = World(clock: int, queue: Queue, requests: seq<Request>, asked: set<Want>, wants: set<Want>)

  datatype Event =
    | Tick(ms: nat)
    | Ask(tags: seq<Tag>)
    | LaterFires(i: nat)
    | FlushFires
    | FlushResponds(outcome: Outcome)
    | FlushSettles

  const Start := World(0, Queue([], None, Idle, [], 0), [], {}, {})

  predicate Possible(w: World, e: Event) {
    match e
    case Tick(ms) => true
    case Ask(tags) => true
    case LaterFires(i) => i < |w.queue.timers| && w.queue.timers[i].dueAt <= w.clock
    case FlushFires => w.queue.flushTimer.Some? && w.queue.flushTimer.value <= w.clock
    case FlushResponds(outcome) => w.queue.flushing.Sending?
    case FlushSettles => w.queue.flushing.Settling?
  }

  ghost function Wanted(tags: seq<Tag>, at: int): set<Want> {
    set tag | tag in tags :: Want(tag, at)
  }

  ghost function MarkLimited(requests: seq<Request>, outcome: Outcome): seq<Request> {
    if requests == [] then requests
    else requests[|requests| - 1 := requests[|requests| - 1].(limited := outcome == RateLimited)]
  }

  ghost function Apply(w: World, e: Event): World {
    if !Possible(w, e) then w else
    var q := w.queue;
    match e
    case Tick(ms) => w.(clock := w.clock + ms)
    case Ask(tags) =>
      w.(queue := Enqueue(q, tags, w.clock), asked := w.asked + Wanted(tags, w.clock), wants := w.wants + Wanted(tags, w.clock))
    case LaterFires(i) =>
      w.(queue := SecondPass(q, i, w.clock), wants := w.wants + Wanted(q.timers[i].tags, w.clock))
    case FlushFires =>
      w.(queue := StartFlush(q, w.clock),
         requests := if Batch(q.pending) == [] then w.requests
                     else w.requests + [Request(w.clock, Batch(q.pending), false)])
    case FlushResponds(outcome) =>
      w.(queue := Respond(q, outcome), requests := MarkLimited(w.requests, outcome))
    case FlushSettles => w.(queue := Settle(q, w.clock))
  }

  /** What an event records: every call to `enqueue`, every pass of it, every request with the
      tags it took, and whether it was answered with a 429. A timer that is due can fire. */
  lemma RecordsExactly(w: World, e: Event, tag: Tag, at: int)
    requires Possible(w, e)
    ensures var v := Apply(w, e);
            var pass := if e.Ask? then e.tags else if e.LaterFires? then w.queue.timers[e.i].tags else [];
            && (Want(tag, at) in v.asked <==> Want(tag, at) in w.asked || (e.Ask? && tag in e.tags && at == w.clock))
            && (Want(tag, at) in v.wants <==> Want(tag, at) in w.wants || (tag in pass && at == w.clock))
            && (e == FlushFires ==>
                  v.requests == if w.queue.pending == [] then w.requests
                                else w.requests + [Request(w.clock, w.queue.pending[..Min(30, |w.queue.pending|)], false)])
            && (e.FlushResponds? && w.requests != [] ==>
                  var last := w.requests[|w.requests| - 1];
                  v.requests == w.requests[..|w.requests| - 1] + [Request(last.at, last.tags, e.outcome == RateLimited)])
            && (!e.FlushFires? && !e.FlushResponds? ==> v.requests == w.requests)
            && v.clock == w.clock + if e.Tick? then e.ms else 0
    ensures forall i: nat :: i < |w.queue.timers| && w.queue.timers[i].dueAt <= w.clock ==> Possible(w, LaterFires(i))
  {
    hide Enqueue, SecondPass, StartFlush, Respond, Settle;
  }

  ghost function Run(w: World, events: seq<Event>): World
    decreases |events|
  {
    if events == [] then w else Run(Apply(w, events[0]), events[1..])
  }

  // ------------------------------------------------------------------ the invariants

  /** What waits always has somebody coming for it, and only one of them at a time. */
  ghost predicate Woken(q: Queue) {
    && Distinct(q.pending)
    && (q.pending != [] ==> q.flushTimer.Some? || q.flushing != Idle)
    && (q.flushTimer.Some? ==> q.pending != [] && q.flushing == Idle)
    && (q.flushing.Sending? ==> 0 < |q.flushing.tags| <= MAX_TAGS_PER_REQUEST)
    && (forall i :: 0 <= i < |q.timers| ==> q.timers[i].tags != [])
  }

  ghost predicate Spaced(clock: int, q: Queue, requests: seq<Request>) {
    && (forall i, j :: 0 <= i < j < |requests| ==> requests[i].at + MIN_INTERVAL_MS <= requests[j].at)
    && (forall i :: 0 <= i < |requests| ==>
          0 < |requests[i].tags| <= MAX_TAGS_PER_REQUEST && Distinct(requests[i].tags) && requests[i].at <= clock)
    && (requests != [] ==> requests[|requests| - 1].at == q.lastRequestAt)
    && (q.flushTimer.Some? && requests != [] ==> q.lastRequestAt + MIN_INTERVAL_MS <= q.flushTimer.value)
    && (q.flushTimer.Some? ==> q.flushTimer.value <= clock + MIN_INTERVAL_MS)
    && q.lastRequestAt <= clock
    && (q.flushing.Sending? ==> requests != [] && requests[|requests| - 1].tags == q.flushing.tags)
  }

  /** A tag wanted at `at` is still waiting, or a request carrying it began at or after `at`
      and has not been turned away with a 429. */
  ghost predicate Served(q: Queue, requests: seq<Request>, want: Want) {
    || want.tag in q.pending
    || exists i :: 0 <= i < |requests| && want.tag in requests[i].tags
                   && want.at <= requests[i].at && !requests[i].limited
  }

  /** The second pass of a call is still to come, or has been asked for 15 s or more later. */
  ghost predicate SecondPassKept(q: Queue, wants: set<Want>, ask: Want) {
    || (exists i :: 0 <= i < |q.timers| && ask.tag in q.timers[i].tags && q.timers[i].dueAt == ask.at + SECOND_PASS_MS)
    || (exists later :: later in wants && later.tag == ask.tag && later.at >= ask.at + SECOND_PASS_MS)
  }

  ghost predicate Inv(w: World) {
    && Woken(w.queue)
    && Spaced(w.clock, w.queue, w.requests)
    && (forall want :: want in w.wants ==> want.at <= w.clock && Served(w.queue, w.requests, want))
    && (forall ask :: ask in w.asked ==> ask in w.wants && SecondPassKept(w.queue, w.wants, ask))
  }

  lemma ScheduleWakes(q: Queue, delayMs: int, now: int)
    requires q.pending != []
    requires q.flushTimer.Some? ==> q.flushing == Idle
    ensures var s := Schedule(q, delayMs, now);
            && (s.flushTimer.Some? || s.flushing != Idle) && (s.flushTimer.Some? ==> s.flushing == Idle)
            && s.(flushTimer := q.flushTimer) == q
            && (s.flushTimer == q.flushTimer || (q.flushTimer.None? && s.flushTimer.value >= q.lastRequestAt + MIN_INTERVAL_MS))
  {
  }

  lemma {:induction false} AddKeeps(w: World, q: Queue, tags: seq<Tag>, delayMs: int, wants: set<Want>)
    requires Inv(w) && tags != []
    requires q == w.queue.(timers := q.timers) && forall i :: 0 <= i < |q.timers| ==> q.timers[i].tags != []
    requires wants == w.wants + Wanted(tags, w.clock)
    requires forall ask :: ask in w.asked ==> SecondPassKept(q, wants, ask)
    requires delayMs <= MIN_INTERVAL_MS
    ensures Inv(w.(queue := AddTags(q, tags, delayMs, w.clock), wants := wants))
  {
    AddAllExtends(q.pending, tags);
    var more := q.(pending := AddAll(q.pending, tags));
    assert tags[0] in Elements(tags);
    assert tags[0] in Elements(more.pending);
    ScheduleWakes(more, delayMs, w.clock);
    var v := w.(queue := AddTags(q, tags, delayMs, w.clock), wants := wants);
    forall ask | ask in v.asked ensures SecondPassKept(v.queue, v.wants, ask) {
      assert SecondPassKept(q, wants, ask);
    }
    forall want | want in v.wants ensures Served(v.queue, v.requests, want) {
      if want in w.wants {
        assert Served(w.queue, w.requests, want);
        assert want.tag in w.queue.pending ==> want.tag in Elements(v.queue.pending);
      } else {
        assert want.tag in Elements(v.queue.pending);
      }
    }
  }

  /** A call to `enqueue` also leaves its second pass behind. */
  lemma {:induction false} PassIsKept(u: World, tags: seq<Tag>)
    requires Inv(u) && tags != [] && Wanted(tags, u.clock) <= u.wants
    ensures Inv(u.(queue := u.queue.(timers := u.queue.timers + [Later(tags, u.clock + SECOND_PASS_MS)]),
                   asked := u.asked + Wanted(tags, u.clock)))
  {
    var n, timers := |u.queue.timers|, u.queue.timers + [Later(tags, u.clock + SECOND_PASS_MS)];
    var v := u.(queue := u.queue.(timers := timers), asked := u.asked + Wanted(tags, u.clock));
    assert forall i :: 0 <= i < n ==> timers[i] == u.queue.timers[i];
    assert timers[n].tags == tags;
    forall ask | ask in v.asked ensures SecondPassKept(v.queue, v.wants, ask) {
      if ask in u.asked {
        assert SecondPassKept(u.queue, u.wants, ask);
        if i :| 0 <= i < n && ask.tag in u.queue.timers[i].tags && u.queue.timers[i].dueAt == ask.at + SECOND_PASS_MS {
          assert timers[i] == u.queue.timers[i];
        }
      } else {
        assert ask.tag in timers[n].tags;
      }
    }
    forall want | want in v.wants ensures Served(v.queue, v.requests, want) {
      assert Served(u.queue, u.requests, want);
    }
    hide SecondPassKept, Served, Wanted, Distinct;
  }

  lemma {:induction false} AskKeeps(w: World, tags: seq<Tag>)
    requires Inv(w) && tags != []
    ensures Inv(Apply(w, Ask(tags)))
  {
    var wants := w.wants + Wanted(tags, w.clock);
    forall ask | ask in w.asked ensures SecondPassKept(w.queue, wants, ask) {
      assert SecondPassKept(w.queue, w.wants, ask);
    }
    hide AddTags, Served, Distinct, Wanted, Woken, Spaced;
    AddKeeps(w, w.queue, tags, DEBOUNCE_MS, wants);
    var u := w.(queue := AddTags(w.queue, tags, DEBOUNCE_MS, w.clock), wants := wants);
    hide Inv, SecondPassKept;
    PassIsKept(u, tags);
  }

  lemma {:induction false} LaterKeeps(w: World, i: nat)
    requires Inv(w) && Possible(w, LaterFires(i))
    ensures Inv(Apply(w, LaterFires(i)))
  {
    var due := w.queue.timers[i];
    var q := w.queue.(timers := w.queue.timers[..i] + w.queue.timers[i + 1..]);
    var wants := w.wants + Wanted(due.tags, w.clock);
    forall ask | ask in w.asked ensures SecondPassKept(q, wants, ask) {
      assert SecondPassKept(w.queue, w.wants, ask);
      if j :| 0 <= j < |w.queue.timers| && ask.tag in w.queue.timers[j].tags && w.queue.timers[j].dueAt == ask.at + SECOND_PASS_MS {
        if j == i {
          assert Want(ask.tag, w.clock) in wants;
        } else {
          assert w.queue.timers[j] == q.timers[if j < i then j else j - 1];
        }
      }
    }
    AddKeeps(w, q, due.tags, 0, wants);
  }

  lemma {:induction false} FlushServes(w: World, want: Want)
    requires Possible(w, FlushFires) && Served(w.queue, w.requests, want) && want.at <= w.clock
    ensures Served(Apply(w, FlushFires).queue, Apply(w, FlushFires).requests, want)
  {
    var v := Apply(w, FlushFires);
    var tags := Batch(w.queue.pending);
    assert w.queue.pending == tags + v.queue.pending;
    if want.tag in tags {
      assert v.requests[|w.requests|] == Request(w.clock, tags, false);
    } else if want.tag !in w.queue.pending {
      var i :| 0 <= i < |w.requests| && want.tag in w.requests[i].tags && want.at <= w.requests[i].at && !w.requests[i].limited;
      assert v.requests[i] == w.requests[i];
    }
  }

  lemma {:induction false} FlushKeeps(w: World)
    requires Inv(w) && Possible(w, FlushFires)
    ensures Inv(Apply(w, FlushFires))
  {
    var v := Apply(w, FlushFires);
    forall want | want in v.wants ensures Served(v.queue, v.requests, want) {
      FlushServes(w, want);
    }
    forall ask | ask in v.asked ensures SecondPassKept(v.queue, v.wants, ask) {
      assert SecondPassKept(w.queue, w.wants, ask);
    }
    hide Served, SecondPassKept;
  }

  lemma {:induction false} RespondServes(w: World, outcome: Outcome, want: Want)
    requires Inv(w) && Possible(w, FlushResponds(outcome)) && Served(w.queue, w.requests, want)
    ensures Served(Apply(w, FlushResponds(outcome)).queue, Apply(w, FlushResponds(outcome)).requests, want)
  {
    var v := Apply(w, FlushResponds(outcome));
    var tags := w.queue.flushing.tags;
    var n := |w.requests| - 1;
    AddAllExtends(w.queue.pending, tags);
    hide AddAll, SecondPassKept, Woken;
    if want.tag in w.queue.pending {
      assert want.tag in Elements(v.queue.pending);
    } else {
      var i :| 0 <= i <= n && want.tag in w.requests[i].tags && want.at <= w.requests[i].at && !w.requests[i].limited;
      if i == n && outcome == RateLimited {
        assert want.tag in Elements(v.queue.pending);
      } else {
        assert want.tag in v.requests[i].tags && !v.requests[i].limited;
      }
    }
  }

  lemma {:induction false} RespondKeeps(w: World, outcome: Outcome)
    requires Inv(w) && Possible(w, FlushResponds(outcome))
    ensures Inv(Apply(w, FlushResponds(outcome)))
  {
    var v := Apply(w, FlushResponds(outcome));
    AddAllExtends(w.queue.pending, w.queue.flushing.tags);
    forall want | want in v.wants ensures Served(v.queue, v.requests, want) {
      RespondServes(w, outcome, want);
    }
    forall ask | ask in v.asked ensures SecondPassKept(v.queue, v.wants, ask) {
      assert SecondPassKept(w.queue, w.wants, ask);
    }
    hide Served, SecondPassKept, AddAll;
  }

  lemma {:induction false} StepKeeps(w: World, e: Event)
    requires Inv(w)
    ensures Inv(Apply(w, e))
  {
    if Possible(w, e) {
      match e
      case Tick(ms) =>
      case Ask(tags) =>
        if tags != [] {
          AskKeeps(w, tags);
        } else {
          assert Wanted(tags, w.clock) == {};
        }
      case LaterFires(i) => LaterKeeps(w, i);
      case FlushFires => FlushKeeps(w);
      case FlushResponds(outcome) => RespondKeeps(w, outcome);
      case FlushSettles =>
        if w.queue.pending != [] {
          ScheduleWakes(w.queue.(flushing := Idle), 0, w.clock);
        }
    }
  }

  lemma {:induction false} RunKeeps(w: World, events: seq<Event>)
    requires Inv(w)
    ensures Inv(Run(w, events))
    decreases |events|
  {
    if events != [] {
      StepKeeps(w, events[0]);
      RunKeeps(Apply(w, events[0]), events[1..]);
    }
  }

  // ------------------------------------------------------------------ what it promises

  /** Tags that find the queue asleep set it for the first moment that is 1.5 s away and 12 s
      after the last request; tags that find it awake do not move it. */
  lemma DueAsSoonAsAllowed(q: Queue, tags: seq<Tag>, now: int, t: int)
    requires tags != []
    ensures q.flushTimer.None? && q.flushing == Idle ==>
              (Enqueue(q, tags, now).flushTimer == Some(t)
               <==> now + 1_500 <= t && q.lastRequestAt + 12_000 <= t
                    && (t == now + 1_500 || t == q.lastRequestAt + 12_000))
    ensures q.flushTimer.Some? || q.flushing != Idle ==> Enqueue(q, tags, now).flushTimer == q.flushTimer
    ensures Enqueue(q, tags, now).timers == q.timers + [Later(tags, now + 15_000)]
  {
  }

  /** A second pass that finds the queue asleep sets it for now, or for 12 s after the last
      request when that is later; it does not move one that is awake. Its own timer is gone, the
      others stay in order, and its tags are waiting. */
  lemma SecondPassDue(q: Queue, i: nat, now: int, t: int)
    requires i < |q.timers|
    ensures q.flushTimer.None? && q.flushing == Idle ==>
              (SecondPass(q, i, now).flushTimer == Some(t)
               <==> now <= t && q.lastRequestAt + 12_000 <= t && (t == now || t == q.lastRequestAt + 12_000))
    ensures q.flushTimer.Some? || q.flushing != Idle ==> SecondPass(q, i, now).flushTimer == q.flushTimer
    ensures var v := SecondPass(q, i, now);
            && |v.timers| == |q.timers| - 1
            && (forall k :: 0 <= k < i ==> v.timers[k] == q.timers[k])
            && (forall k :: i <= k < |v.timers| ==> v.timers[k] == q.timers[k + 1])
            && Elements(v.pending) == Elements(q.pending) + Elements(q.timers[i].tags)
            && v.flushing == q.flushing && v.lastRequestAt == q.lastRequestAt
  {
    AddAllExtends(q.pending, q.timers[i].tags);
  }

  /** The end of a flush sets the next one, when something waits, for now or for 12 s after its
      request; and sets none when nothing does. */
  lemma SettledDue(q: Queue, now: int, t: int)
    requires q.flushTimer.None?
    ensures Settle(q, now).flushing == Idle && Settle(q, now).pending == q.pending && Settle(q, now).timers == q.timers
    ensures q.pending == [] ==> Settle(q, now).flushTimer == None
    ensures q.pending != [] ==>
              (Settle(q, now).flushTimer == Some(t)
               <==> now <= t && q.lastRequestAt + 12_000 <= t && (t == now || t == q.lastRequestAt + 12_000))
  {
  }

  /** A flush takes the first 30 waiting tags, or all when there are fewer, and nothing else; an
      answer puts them back, behind the others, only when it is a 429. */
  lemma FlushTakes(q: Queue, now: int, outcome: Outcome)
    requires Distinct(q.pending)
    ensures var v := StartFlush(q, now);
            && v.flushTimer == None && v.timers == q.timers
            && (q.pending == [] ==> v.flushing == Settling && v.lastRequestAt == q.lastRequestAt)
            && (q.pending != [] ==>
                  && v.flushing.Sending? && v.lastRequestAt == now
                  && v.flushing.tags + v.pending == q.pending && |v.flushing.tags| == Min(30, |q.pending|)
                  && Respond(v, outcome).flushing == Settling
                  && Respond(v, outcome).pending == if outcome == RateLimited then v.pending + v.flushing.tags else v.pending)
  {
    if q.pending != [] {
      var v := StartFlush(q, now);
      forall i, j | 0 <= i < |v.flushing.tags| && 0 <= j < |v.pending| ensures v.flushing.tags[i] != v.pending[j] {
        assert v.pending[j] == q.pending[|v.flushing.tags| + j];
      }
      AddAllNew(v.pending, v.flushing.tags);
    }
  }

  lemma {:induction false} AddAllNew(s: seq<Tag>, xs: seq<Tag>)
    requires Distinct(xs) && forall x :: x in xs ==> x !in s
    ensures AddAll(s, xs) == s + xs
    decreases |xs|
  {
    if xs == [] {
      assert s + xs == s;
    } else {
      assert xs[0] in xs;
      forall x | x in xs[1..] ensures x in xs && x !in s + [xs[0]] {
        var i :| 0 <= i < |xs[1..]| && xs[1..][i] == x;
        assert xs[i + 1] == x;
      }
      AddAllNew(s + [xs[0]], xs[1..]);
      assert s + [xs[0]] + xs[1..] == s + xs;
    }
  }

  /** No lost wakeup, in every state of every run: waiting tags always have a flush timer or
      a running flush, never both; and a timer goes off within 12 s. */
  lemma NoLostWakeup(events: seq<Event>)
    ensures var w := Run(Start, events);
            && (w.queue.pending != [] ==> (w.queue.flushTimer.Some? <==> w.queue.flushing == Idle))
            && (w.queue.flushTimer.Some? ==> w.queue.pending != [] && w.queue.flushTimer.value <= w.clock + MIN_INTERVAL_MS)
  {
    RunKeeps(Start, events);
  }

  /** No lost work: what was asked for at `ask.at` is waiting, or is carried by a request that
      began since and was not turned away; and the same 15 s on, once the second-pass timer
      has fired. */
  lemma NoLostWork(events: seq<Event>, ask: Want)
    requires ask in Run(Start, events).asked
    ensures var w := Run(Start, events);
            && Served(w.queue, w.requests, ask)
            && ((forall i :: 0 <= i < |w.queue.timers| && ask.tag in w.queue.timers[i].tags
                             ==> w.queue.timers[i].dueAt != ask.at + 15_000)
                ==> Served(w.queue, w.requests, Want(ask.tag, ask.at + 15_000)))
  {
    RunKeeps(Start, events);
    var w := Run(Start, events);
    assert SecondPassKept(w.queue, w.wants, ask);
    if forall i :: 0 <= i < |w.queue.timers| && ask.tag in w.queue.timers[i].tags ==> w.queue.timers[i].dueAt != ask.at + SECOND_PASS_MS {
      var later :| later in w.wants && later.tag == ask.tag && later.at >= ask.at + SECOND_PASS_MS;
      assert Served(w.queue, w.requests, later);
    }
  }

  /** Requests start at least 12 s apart and carry 1 to 30 different tags. */
  lemma RequestsAreSpaced(events: seq<Event>, i: nat, j: nat)
    requires i < j < |Run(Start, events).requests|
    ensures var r := Run(Start, events).requests;
            && r[i].at + (j - i) * 12_000 <= r[j].at
            && 0 < |r[i].tags| <= 30 && Distinct(r[i].tags)
  {
    RunKeeps(Start, events);
    if i + 1 < j {
      RequestsAreSpaced(events, i, j - 1);
    }
  }

  // ------------------------------------------------------------------ bounded waiting

  lemma {:induction false} RequestsGrow(w: World, events: seq<Event>)
    ensures |w.requests| <= |Run(w, events).requests|
    ensures forall i :: 0 <= i < |w.requests| ==>
              Run(w, events).requests[i].tags == w.requests[i].tags && Run(w, events).requests[i].at == w.requests[i].at
    decreases |events|
  {
    if events != [] {
      RequestsGrow(Apply(w, events[0]), events[1..]);
    }
  }

  /** Among the next `position / 30 + 1` requests after `w`, one carries the tag, or they have
      not all been made; the queue moves up by 30 with each, however many tags are added. */
  lemma {:induction false} BoundedWait(w: World, events: seq<Event>, position: nat)
    requires Inv(w) && position < |w.queue.pending|
    requires |Run(w, events).requests| >= |w.requests| + position / 30 + 1
    ensures exists i :: |w.requests| <= i <= |w.requests| + position / 30
                        && w.queue.pending[position] in Run(w, events).requests[i].tags
    decreases |events|
  {
    var v := Apply(w, events[0]);
    var rest := events[1..];
    StepKeeps(w, events[0]);
    var n := |w.requests|;
    if events[0] == FlushFires && Possible(w, FlushFires) {
      if position < MAX_TAGS_PER_REQUEST {
        assert w.queue.pending[position] == v.requests[n].tags[position];
        RequestsGrow(v, rest);
        assert Run(w, events).requests[n].tags == v.requests[n].tags;
      } else {
        assert v.queue.pending[position - MAX_TAGS_PER_REQUEST] == w.queue.pending[position];
        BoundedWait(v, rest, position - MAX_TAGS_PER_REQUEST);
      }
    } else {
      PendingExtends(w, events[0]);
      BoundedWait(v, rest, position);
    }
  }

  lemma {:induction false} PendingExtends(w: World, e: Event)
    requires !(e == FlushFires && Possible(w, FlushFires))
    ensures w.queue.pending <= Apply(w, e).queue.pending
    ensures |Apply(w, e).requests| == |w.requests|
  {
    if Possible(w, e) {
      match e
      case Ask(tags) => AddAllExtends(w.queue.pending, tags);
      case LaterFires(i) => AddAllExtends(w.queue.pending, w.queue.timers[i].tags);
      case FlushResponds(outcome) => AddAllExtends(w.queue.pending, w.queue.flushing.tags);
      case _ =>
    }
  }

  // ------------------------------------------------------------------ bounded waiting, in time

  const REQUEST_TIMEOUT_MS := 10_000

  /** A timer fires at most `lag` after it is due, a request is answered or given up at most
      `lag` after its timeout, and the `finally` runs at once. */
  predicate Timely(w: World, e: Event, lag: nat) {
    e.Tick? ==>
      && (w.queue.flushTimer.Some? ==> w.clock + e.ms <= w.queue.flushTimer.value + lag)
      && (w.queue.flushing.Sending? ==> w.clock + e.ms <= w.queue.lastRequestAt + REQUEST_TIMEOUT_MS + lag)
      && (w.queue.flushing.Settling? ==> e.ms == 0)
  }

  predicate OnTime(w: World, lag: nat) {
    && (w.queue.flushTimer.Some? ==> w.clock <= w.queue.flushTimer.value + lag)
    && (w.queue.flushing.Sending? ==> w.clock <= w.queue.lastRequestAt + REQUEST_TIMEOUT_MS + lag)
  }

  ghost predicate TimelyRun(w: World, events: seq<Event>, lag: nat)
    decreases |events|
  {
    events == [] || (Timely(w, events[0], lag) && TimelyRun(Apply(w, events[0]), events[1..], lag))
  }

  /** From one request to the next, while something waits. */
  function Cycle(lag: nat): int { Max(REQUEST_TIMEOUT_MS + lag, MIN_INTERVAL_MS) + lag }

  /** When the next request starts at the latest. */
  function NextBy(w: World, lag: nat): int {
    var q := w.queue;
    if q.flushTimer.Some? then q.flushTimer.value + lag
    else if q.flushing.Sending? then q.lastRequestAt + Cycle(lag)
    else Max(w.clock, q.lastRequestAt + MIN_INTERVAL_MS) + lag
  }

  lemma {:induction false} TimelyStep(w: World, e: Event, lag: nat)
    requires Inv(w) && OnTime(w, lag) && Timely(w, e, lag) && w.queue.pending != []
    ensures OnTime(Apply(w, e), lag) && w.clock <= NextBy(w, lag) <= w.clock + Cycle(lag)
    ensures e == FlushFires && Possible(w, e) ==> NextBy(Apply(w, e), lag) == w.clock + Cycle(lag)
    ensures !(e == FlushFires && Possible(w, e)) ==> NextBy(Apply(w, e), lag) <= NextBy(w, lag)
  {
    hide Served, SecondPassKept;
    if Possible(w, e) && e.FlushSettles? {
      ScheduleWakes(w.queue.(flushing := Idle), 0, w.clock);
    }
    hide AddAll, Distinct;
  }

  lemma OneCycleLess(k: nat, c: int)
    requires k > 0
    ensures (k - 1) * c + c == k * c
  {
  }

  /** The same in milliseconds: a tag at a position is carried by a request that starts within
      `position / 30 + 1` cycles, however many tags are added; in any run that gets so far. */
  lemma {:induction false} CarriedBy(w: World, events: seq<Event>, position: nat, lag: nat)
    requires Inv(w) && OnTime(w, lag) && TimelyRun(w, events, lag) && position < |w.queue.pending|
    requires Run(w, events).clock > NextBy(w, lag) + position / MAX_TAGS_PER_REQUEST * Cycle(lag)
    ensures exists i :: |w.requests| <= i < |Run(w, events).requests|
                        && w.queue.pending[position] in Run(w, events).requests[i].tags
                        && Run(w, events).requests[i].at <= NextBy(w, lag) + position / MAX_TAGS_PER_REQUEST * Cycle(lag)
    decreases |events|
  {
    hide Enqueue, SecondPass, Respond, Settle;
    var k := position / MAX_TAGS_PER_REQUEST;
    var n := |w.requests|;
    if events == [] {
      TimelyStep(w, Tick(0), lag);
      NothingNegative(k, Cycle(lag));
    } else {
      var v, rest := Apply(w, events[0]), events[1..];
      StepKeeps(w, events[0]);
      TimelyStep(w, events[0], lag);
      hide Inv, OnTime, Timely, NextBy, Cycle;
      if events[0] == FlushFires && Possible(w, FlushFires) {
        if position < MAX_TAGS_PER_REQUEST {
          assert w.queue.pending[position] == v.requests[n].tags[position] && v.requests[n].at == w.clock;
          RequestsGrow(v, rest);
          hide Apply;
          assert Run(w, events).requests[n].tags == v.requests[n].tags && Run(w, events).requests[n].at == w.clock;
          assert k == 0;
        } else {
          assert |v.queue.pending| > position - MAX_TAGS_PER_REQUEST && |v.requests| == n + 1;
          assert v.queue.pending[position - MAX_TAGS_PER_REQUEST] == w.queue.pending[position];
          hide Apply;
          OneCycleLess(k, Cycle(lag));
          assert (position - MAX_TAGS_PER_REQUEST) / MAX_TAGS_PER_REQUEST == k - 1;
          CarriedBy(v, rest, position - MAX_TAGS_PER_REQUEST, lag);
        }
      } else {
        PendingExtends(w, events[0]);
        hide Apply;
        CarriedBy(v, rest, position, lag);
      }
    }
  }

  lemma NothingNegative(k: nat, c: int)
    requires c >= 0
    ensures k * c >= 0
  {
  }

  /** ... counted from now. With no lag at all a cycle is the 12 s between two requests. */
  lemma WaitInTime(w: World, events: seq<Event>, position: nat, lag: nat)
    requires Inv(w) && OnTime(w, lag) && TimelyRun(w, events, lag) && position < |w.queue.pending|
    requires Run(w, events).clock > w.clock + (position / MAX_TAGS_PER_REQUEST + 1) * Cycle(lag)
    ensures exists i :: |w.requests| <= i < |Run(w, events).requests|
                        && w.queue.pending[position] in Run(w, events).requests[i].tags
                        && Run(w, events).requests[i].at <= w.clock + (position / MAX_TAGS_PER_REQUEST + 1) * Cycle(lag)
    ensures Cycle(0) == MIN_INTERVAL_MS
  {
    TimelyStep(w, Tick(0), lag);
    OneCycleLess(position / MAX_TAGS_PER_REQUEST + 1, Cycle(lag));
    hide Inv, OnTime, TimelyRun, NextBy, Run;
    CarriedBy(w, events, position, lag);
  }

  /** Nobody asks, no second pass comes due, and Cloudflare does not answer 429. */
  predicate Quiet(e: Event) {
    !e.Ask? && !e.LaterFires? && e != FlushResponds(RateLimited)
  }

  lemma {:induction false} QuietStep(w: World, e: Event)
    requires Inv(w) && Quiet(e)
    ensures var made := |Apply(w, e).requests| - |w.requests|;
            && 0 <= made <= 1
            && Apply(w, e).queue.pending == w.queue.pending[Min(made * MAX_TAGS_PER_REQUEST, |w.queue.pending|)..]
  {
    hide Served, SecondPassKept, Spaced;
  }

  lemma DropTwice(s: seq<Tag>, a: nat, b: nat)
    ensures var rest := s[Min(a, |s|)..];
            rest[Min(b, |rest|)..] == s[Min(a + b, |s|)..]
  {
  }

  /** Left alone, every request takes the 30 oldest tags, so the queue is empty after
      `ceil(n / 30)` of them. */
  lemma {:induction false} Drains(w: World, events: seq<Event>)
    requires Inv(w) && forall i :: 0 <= i < |events| ==> Quiet(events[i])
    ensures var made := |Run(w, events).requests| - |w.requests|;
            && made >= 0
            && Run(w, events).queue.pending == w.queue.pending[Min(made * MAX_TAGS_PER_REQUEST, |w.queue.pending|)..]
    decreases |events|
  {
    hide Inv, Apply, Quiet;
    if events != [] {
      var v := Apply(w, events[0]);
      StepKeeps(w, events[0]);
      QuietStep(w, events[0]);
      Drains(v, events[1..]);
      var first, more := |v.requests| - |w.requests|, |Run(v, events[1..]).requests| - |v.requests|;
      DropTwice(w.queue.pending, first * MAX_TAGS_PER_REQUEST, more * MAX_TAGS_PER_REQUEST);
    }
  }

  /** And nothing stands in the way: from every state some quiet run empties it. */
  lemma {:induction false} CanDrain(w: World) returns (events: seq<Event>)
    requires Inv(w)
    ensures forall i :: 0 <= i < |events| ==> Quiet(events[i])
    ensures Run(w, events).queue.pending == [] && Run(w, events).queue.flushing == Idle
    decreases |w.queue.pending|, match w.queue.flushing case Sending(_) => 2 case Settling => 1 case Idle => 0
  {
    hide Run, Served, SecondPassKept, Spaced;
    events := [];
    RunNothing(w);
    if w.queue.flushing != Idle {
      var next := if w.queue.flushing.Sending? then FlushResponds(Purged) else FlushSettles;
      StepKeeps(w, next);
      var rest := CanDrain(Apply(w, next));
      events := [next] + rest;
      RunStep(w, next, rest);
    } else if w.queue.pending != [] {
      var wait := Tick(Max(0, w.queue.flushTimer.value - w.clock));
      StepKeeps(w, wait);
      StepKeeps(Apply(w, wait), FlushFires);
      var rest := CanDrain(Apply(Apply(w, wait), FlushFires));
      events := [wait] + ([FlushFires] + rest);
      RunStep(w, wait, [FlushFires] + rest);
      RunStep(Apply(w, wait), FlushFires, rest);
    }
  }

  lemma RunNothing(w: World)
    ensures Run(w, []) == w
  {
  }

  lemma RunStep(w: World, e: Event, rest: seq<Event>)
    ensures Run(w, [e] + rest) == Run(Apply(w, e), rest)
  {
    assert ([e] + rest)[1..] == rest;
  }
}
