/** The video gate as a step system: requests, shared calls to Atlas, a clock, and an Atlas
    that may change its mind. Each step is one uninterrupted piece of `authorizeWithAtlas`
    (deploy/video-gate-worker/src/authz.js:151-186) or a move of its surroundings; a step
    that is not possible in a state leaves it unchanged, so every sequence of steps is a run.

    `ideal` and `verdicts` only record: the last answer ever stored for a key, never
    evicted, and how every request was answered. */
module Gate {
  import opened Prelude
  import opened DecisionCaches

  /** `atlas` holds (key, time, reply) when Atlas may answer that question so at that time;
      `expiry` is the signed expiry of a token, in seconds; `limit` is the longest one call
      may take, in milliseconds, from the moment its request was read to its reply: the fetch
      with its own timeout, and the signing before it. */
  datatype Config = Config(
    window: int, maxEntries: nat, limit: int,
    atlas: iset<(string, int, Reply)>, expiry: imap<string, int>)
  {
    ghost predicate Sane() {
      0 <= window <= AUTHZ_MAX_CACHE_SECONDS && maxEntries >= 1 && limit >= 0
    }
    ghost function ExpiryOf(token: string): int {
      if token in expiry then expiry[token] else 0
    }
  }

  datatype Phase =
    | Sent
    | Evaluated(at: int, reply: Reply)
    | Answered(at: int, reply: Reply)
    | Failed

  datatype Call = Call(key: string, sentAt: int, phase: Phase) {
    ghost predicate Open() { phase.Sent? || phase.Evaluated? }
    ghost function Answer(): Option<Answer> {
      if phase.Answered? then ParseReply(phase.reply) else None
    }
  }

  /** A request that has reached a call; `asked` when it is the one that sent the question. */
  datatype Waiter = Waiter(objectKey: string, token: string, nowMs: int, call: nat, asked: bool) {
    ghost function Key(): string { KeyOf(objectKey, token) }
  }

  datatype Stored = Stored(entry: Entry, writer: Waiter)

  datatype Source = FromCache(origin: Option<Stored>) | FromCall(waiter: Waiter)

  datatype Decided = Decided(objectKey: string, token: string, nowMs: int, verdict: Verdict, source: Source) {
    ghost function Key(): string { KeyOf(objectKey, token) }
  }

  datatype World = World(
    clock: int, isolate: Isolate, nextCall: nat, calls: map<nat, Call>,
    waiting: map<nat, Waiter>, ideal: map<string, Stored>, verdicts: map<nat, Decided>)

  datatype Step =
    | Tick(ms: nat)
    | Arrive(request: nat, objectKey: string, token: string)
    | Evaluate(call: nat, reply: Reply)
    | Deliver(call: nat)
    | Fail(call: nat)
    | Resume(request: nat)

  const Start: World :=
    World(0, Isolate(Decisions([], map[]), map[]), 0, map[], map[], map[], map[])

  ghost predicate Possible(cfg: Config, w: World, s: Step) {
    match s
    case Tick(ms) =>
      forall c :: c in w.calls && w.calls[c].Open() ==> w.clock + ms <= w.calls[c].sentAt + cfg.limit
    case Arrive(request, objectKey, token) =>
      request !in w.waiting && request !in w.verdicts && '\n' !in token
    case Evaluate(call, reply) =>
      call in w.calls && w.calls[call].phase.Sent? && (w.calls[call].key, w.clock, reply) in cfg.atlas
    case Deliver(call) => call in w.calls && w.calls[call].phase.Evaluated?
    case Fail(call) => call in w.calls && w.calls[call].Open()
    case Resume(request) =>
      request in w.waiting && w.waiting[request].call in w.calls && !w.calls[w.waiting[request].call].Open()
  }

  ghost function Recall(w: World, key: string): Option<Stored> {
    if key in w.ideal then Some(w.ideal[key]) else None
  }

  /** The lookup, and the call it joins or starts. */
  ghost function ArriveAt(w: World, request: nat, objectKey: string, token: string): World {
    var key := KeyOf(objectKey, token);
    var (isolate, begun) := Begin(w.isolate, key, w.clock, w.nextCall);
    var after := w.(isolate := isolate);
    match begun
    case Hit(entry) =>
      after.(verdicts := w.verdicts[request := Decided(objectKey, token, w.clock, VerdictFrom(entry, true), FromCache(Recall(w, key)))])
    case Joined(call) =>
      after.(waiting := w.waiting[request := Waiter(objectKey, token, w.clock, call, false)])
    case Asked(call) =>
      after.(nextCall := w.nextCall + 1,
             calls := w.calls[call := Call(key, w.clock, Sent)],
             waiting := w.waiting[request := Waiter(objectKey, token, w.clock, call, true)])
  }

  ghost function Close(w: World, call: nat, phase: Phase): World
    requires call in w.calls
  {
    var c := w.calls[call];
    w.(isolate := Settle(w.isolate, c.key), calls := w.calls[call := c.(phase := phase)])
  }

  ghost function EntryOf(cfg: Config, answer: Answer, q: Waiter): Entry {
    EntryFor(answer, q.nowMs, cfg.window, cfg.ExpiryOf(q.token))
  }

  ghost function ResumeAt(cfg: Config, w: World, request: nat): World
    requires cfg.Sane() && Possible(cfg, w, Resume(request))
  {
    var q := w.waiting[request];
    var answer := w.calls[q.call].Answer();
    var (isolate, verdict) :=
      Finish(w.isolate, q.Key(), answer, q.nowMs, cfg.window, cfg.ExpiryOf(q.token), cfg.maxEntries);
    w.(isolate := isolate,
       ideal := if answer.Some? && EntryOf(cfg, answer.value, q).expiresAtMs > q.nowMs
                then w.ideal[q.Key() := Stored(EntryOf(cfg, answer.value, q), q)] else w.ideal,
       waiting := w.waiting - {request},
       verdicts := w.verdicts[request := Decided(q.objectKey, q.token, q.nowMs, verdict, FromCall(q))])
  }

  ghost function Apply(cfg: Config, w: World, s: Step): World
    requires cfg.Sane()
  {
    if !Possible(cfg, w, s) then w else
    match s
    case Tick(ms) => w.(clock := w.clock + ms)
    case Arrive(request, objectKey, token) => ArriveAt(w, request, objectKey, token)
    case Evaluate(call, reply) =>
      w.(calls := w.calls[call := w.calls[call].(phase := Evaluated(w.clock, reply))])
    case Deliver(call) => Close(w, call, Answered(w.calls[call].phase.at, w.calls[call].phase.reply))
    case Fail(call) => Close(w, call, Failed)
    case Resume(request) => ResumeAt(cfg, w, request)
  }

  ghost function Run(cfg: Config, w: World, steps: seq<Step>): World
    requires cfg.Sane()
    decreases |steps|
  {
    if steps == [] then w else Run(cfg, Apply(cfg, w, steps[0]), steps[1..])
  }

  // ------------------------------------------------------------------ the invariant

  /** Atlas evaluated a question between the moment it was sent and now, and could give
      that reply then. */
  ghost predicate CallOk(cfg: Config, clock: int, c: Call) {
    && c.sentAt <= clock
    && (c.phase.Evaluated? || c.phase.Answered? ==>
          c.sentAt <= c.phase.at <= clock && (c.key, c.phase.at, c.phase.reply) in cfg.atlas)
    && (c.Open() ==> clock <= c.sentAt + cfg.limit)
  }

  /** A request reached its call while the call was open, the asker at its very start. */
  ghost predicate WaiterOk(cfg: Config, clock: int, calls: map<nat, Call>, q: Waiter) {
    && q.call in calls && calls[q.call].key == q.Key()
    && q.nowMs <= clock
    && calls[q.call].sentAt <= q.nowMs <= calls[q.call].sentAt + cfg.limit
    && (q.asked ==> q.nowMs == calls[q.call].sentAt)
    && '\n' !in q.token
  }

  /** A stored entry is exactly what its writer computed from an answered call. */
  ghost predicate StoredOk(cfg: Config, clock: int, calls: map<nat, Call>, key: string, s: Stored) {
    && s.writer.Key() == key
    && WaiterOk(cfg, clock, calls, s.writer)
    && calls[s.writer.call].Answer().Some?
    && s.entry == EntryOf(cfg, calls[s.writer.call].Answer().value, s.writer)
  }

  ghost predicate DecidedOk(cfg: Config, clock: int, calls: map<nat, Call>, d: Decided) {
    && '\n' !in d.token
    && match d.source
       case FromCache(origin) =>
         && origin.Some? && StoredOk(cfg, clock, calls, d.Key(), origin.value)
         && d.nowMs < origin.value.entry.expiresAtMs
         && d.verdict == VerdictFrom(origin.value.entry, true)
       case FromCall(q) =>
         && WaiterOk(cfg, clock, calls, q) && (q.objectKey, q.token, q.nowMs) == (d.objectKey, d.token, d.nowMs)
         && !calls[q.call].Open()
         && match calls[q.call].Answer()
            case None => d.verdict == Unavailable
            case Some(a) => d.verdict == VerdictFrom(EntryOf(cfg, a, q), false)
  }

  /** Single flight: the open calls and the keys in flight are one and the same. */
  ghost predicate CallsOk(cfg: Config, clock: int, nextCall: nat, calls: map<nat, Call>, inFlight: map<string, nat>) {
    && (forall c :: c in calls ==> c < nextCall && CallOk(cfg, clock, calls[c]))
    && (forall k :: k in inFlight ==> inFlight[k] in calls && calls[inFlight[k]].Open() && calls[inFlight[k]].key == k)
    && (forall c :: c in calls && calls[c].Open() ==> calls[c].key in inFlight && inFlight[calls[c].key] == c)
  }

  ghost predicate RecordsOk(cfg: Config, clock: int, calls: map<nat, Call>, waiting: map<nat, Waiter>,
                            ideal: map<string, Stored>, verdicts: map<nat, Decided>) {
    && (forall r :: r in waiting ==> WaiterOk(cfg, clock, calls, waiting[r]))
    && (forall k :: k in ideal ==> StoredOk(cfg, clock, calls, k, ideal[k]))
    && (forall r :: r in verdicts ==> DecidedOk(cfg, clock, calls, verdicts[r]))
  }

  /** The bounded cache against the unbounded map: whatever it holds is the last answer
      stored for that key. */
  ghost predicate CacheOk(maxEntries: nat, d: Decisions, ideal: map<string, Stored>) {
    && d.Valid() && |d.entries| <= maxEntries
    && (forall k :: k in d.entries ==> k in ideal && ideal[k].entry == d.entries[k])
  }

  /** ... and a live answer is missing from it only once more keys were stored than fit. */
  ghost predicate CacheComplete(maxEntries: nat, clock: int, d: Decisions, ideal: map<string, Stored>) {
    |ideal.Keys| <= maxEntries ==>
      forall k :: k in ideal && ideal[k].entry.expiresAtMs > clock ==> k in d.entries
  }

  ghost predicate Inv(cfg: Config, w: World) {
    && CallsOk(cfg, w.clock, w.nextCall, w.calls, w.isolate.inFlight)
    && RecordsOk(cfg, w.clock, w.calls, w.waiting, w.ideal, w.verdicts)
    && CacheOk(cfg.maxEntries, w.isolate.decisions, w.ideal)
    && CacheComplete(cfg.maxEntries, w.clock, w.isolate.decisions, w.ideal)
  }

  // ------------------------------------------------------------------ every step keeps it

  /** Time moves on, calls stay, and a closed call never changes again. */
  ghost predicate Later(clock: int, calls: map<nat, Call>, clock': int, calls': map<nat, Call>) {
    && clock <= clock'
    && forall c :: c in calls ==>
         && c in calls' && calls'[c].key == calls[c].key && calls'[c].sentAt == calls[c].sentAt
         && (!calls[c].Open() ==> calls'[c] == calls[c])
  }

  lemma {:induction false} RecordsStay(cfg: Config, clock: int, calls: map<nat, Call>, clock': int, calls': map<nat, Call>,
                                       waiting: map<nat, Waiter>, ideal: map<string, Stored>, verdicts: map<nat, Decided>)
    requires RecordsOk(cfg, clock, calls, waiting, ideal, verdicts)
    requires Later(clock, calls, clock', calls')
    ensures RecordsOk(cfg, clock', calls', waiting, ideal, verdicts)
  {
    forall r | r in waiting ensures WaiterOk(cfg, clock', calls', waiting[r]) {
      assert WaiterOk(cfg, clock, calls, waiting[r]);
    }
    forall k | k in ideal ensures StoredOk(cfg, clock', calls', k, ideal[k]) {
      assert StoredOk(cfg, clock, calls, k, ideal[k]);
    }
    forall r | r in verdicts ensures DecidedOk(cfg, clock', calls', verdicts[r]) {
      assert DecidedOk(cfg, clock, calls, verdicts[r]);
    }
  }

  lemma {:induction false} GetKeeps(maxEntries: nat, clock: int, d: Decisions, ideal: map<string, Stored>, key: string)
    requires CacheOk(maxEntries, d, ideal) && CacheComplete(maxEntries, clock, d, ideal)
    ensures CacheOk(maxEntries, Get(d, key, clock).1, ideal)
    ensures CacheComplete(maxEntries, clock, Get(d, key, clock).1, ideal)
  {
    var after := Get(d, key, clock).1;
    if after != d {
      DeleteValid(d, key);
      SubsetSize(after.entries.Keys, d.entries.Keys);
    }
  }

  lemma {:induction false} CallStarts(cfg: Config, clock: int, nextCall: nat, calls: map<nat, Call>, inFlight: map<string, nat>, key: string)
    requires cfg.Sane() && CallsOk(cfg, clock, nextCall, calls, inFlight) && key !in inFlight
    ensures var after := calls[nextCall := Call(key, clock, Sent)];
            && CallsOk(cfg, clock, nextCall + 1, after, inFlight[key := nextCall])
            && Later(clock, calls, clock, after)
  {
  }

  lemma {:induction false} CallCloses(cfg: Config, clock: int, nextCall: nat, calls: map<nat, Call>, inFlight: map<string, nat>, call: nat, phase: Phase)
    requires CallsOk(cfg, clock, nextCall, calls, inFlight) && call in calls && calls[call].Open()
    requires phase == Failed
             || (calls[call].phase.Evaluated? && phase == Answered(calls[call].phase.at, calls[call].phase.reply))
    ensures var after := calls[call := calls[call].(phase := phase)];
            && CallsOk(cfg, clock, nextCall, after, inFlight - {calls[call].key})
            && Later(clock, calls, clock, after)
  {
  }

  /** A hit is always the latest answer stored for exactly that key, and it is live; and
      until more keys were stored than fit, a live answer is always a hit. */
  lemma {:induction false} HitIsIdeal(cfg: Config, w: World, key: string)
    requires Inv(cfg, w)
    ensures var hit := Get(w.isolate.decisions, key, w.clock).0;
            && (hit.Some? ==> key in w.ideal && w.ideal[key].entry == hit.value && w.clock < hit.value.expiresAtMs)
            && (|w.ideal.Keys| <= cfg.maxEntries ==>
                  (hit.Some? <==> key in w.ideal && w.clock < w.ideal[key].entry.expiresAtMs))
  {
  }

  lemma {:induction false} RecordsGrow(cfg: Config, w: World, waiting: map<nat, Waiter>, request: nat, decided: Decided, stored: Option<Stored>)
    requires forall r :: r in waiting ==> r in w.waiting && waiting[r] == w.waiting[r]
    requires RecordsOk(cfg, w.clock, w.calls, w.waiting, w.ideal, w.verdicts)
    requires DecidedOk(cfg, w.clock, w.calls, decided)
    requires stored.Some? ==> StoredOk(cfg, w.clock, w.calls, stored.value.writer.Key(), stored.value)
    ensures RecordsOk(cfg, w.clock, w.calls, waiting,
                      if stored.Some? then w.ideal[stored.value.writer.Key() := stored.value] else w.ideal,
                      w.verdicts[request := decided])
  {
  }

  lemma {:induction false} WaiterJoins(cfg: Config, w: World, calls: map<nat, Call>, request: nat, q: Waiter)
    requires RecordsOk(cfg, w.clock, calls, w.waiting, w.ideal, w.verdicts)
    requires WaiterOk(cfg, w.clock, calls, q)
    ensures RecordsOk(cfg, w.clock, calls, w.waiting[request := q], w.ideal, w.verdicts)
  {
  }

  lemma {:induction false} HitDecided(cfg: Config, w: World, request: nat, objectKey: string, token: string)
    requires cfg.Sane() && Inv(cfg, w) && Possible(cfg, w, Arrive(request, objectKey, token))
    requires Get(w.isolate.decisions, KeyOf(objectKey, token), w.clock).0.Some?
    ensures request in ArriveAt(w, request, objectKey, token).verdicts
    ensures DecidedOk(cfg, w.clock, w.calls, ArriveAt(w, request, objectKey, token).verdicts[request])
  {
    hide KeyOf, StoredOk, WaiterOk, CallsOk, CacheOk, CacheComplete;
    var key := KeyOf(objectKey, token);
    HitIsIdeal(cfg, w, key);
    assert StoredOk(cfg, w.clock, w.calls, key, w.ideal[key]);
    hide Inv, RecordsOk;
    var hit := Get(w.isolate.decisions, key, w.clock).0.value;
    assert ArriveAt(w, request, objectKey, token).verdicts[request]
        == Decided(objectKey, token, w.clock, VerdictFrom(hit, true), FromCache(Some(w.ideal[key])));
  }

  lemma {:induction false} JoinerOk(cfg: Config, w: World, objectKey: string, token: string)
    requires cfg.Sane() && Inv(cfg, w) && '\n' !in token && KeyOf(objectKey, token) in w.isolate.inFlight
    ensures WaiterOk(cfg, w.clock, w.calls, Waiter(objectKey, token, w.clock, w.isolate.inFlight[KeyOf(objectKey, token)], false))
  {
    hide RecordsOk, CacheOk, CacheComplete;
  }

  lemma {:induction false} HitKeeps(cfg: Config, w: World, request: nat, objectKey: string, token: string)
    requires cfg.Sane() && Inv(cfg, w) && Possible(cfg, w, Arrive(request, objectKey, token))
    requires Get(w.isolate.decisions, KeyOf(objectKey, token), w.clock).0.Some?
    ensures Inv(cfg, ArriveAt(w, request, objectKey, token))
  {
    HitDecided(cfg, w, request, objectKey, token);
    hide RecordsOk, CallsOk, CacheOk, CacheComplete, DecidedOk;
    var v := ArriveAt(w, request, objectKey, token);
    RecordsGrow(cfg, w, w.waiting, request, v.verdicts[request], None);
  }

  lemma {:induction false} JoinKeeps(cfg: Config, w: World, request: nat, objectKey: string, token: string)
    requires cfg.Sane() && Inv(cfg, w) && Possible(cfg, w, Arrive(request, objectKey, token))
    requires Get(w.isolate.decisions, KeyOf(objectKey, token), w.clock).0.None? && KeyOf(objectKey, token) in w.isolate.inFlight
    ensures Inv(cfg, ArriveAt(w, request, objectKey, token))
  {
    hide RecordsOk, CallsOk, CacheOk, CacheComplete, DecidedOk, Later, KeyOf;
    JoinerOk(cfg, w, objectKey, token);
    GetKeeps(cfg.maxEntries, w.clock, w.isolate.decisions, w.ideal, KeyOf(objectKey, token));
    var v := ArriveAt(w, request, objectKey, token);
    hide WaiterOk, Get;
    WaiterJoins(cfg, w, w.calls, request, v.waiting[request]);
  }

  lemma {:induction false} AskKeeps(cfg: Config, w: World, request: nat, objectKey: string, token: string)
    requires cfg.Sane() && Inv(cfg, w) && Possible(cfg, w, Arrive(request, objectKey, token))
    requires Get(w.isolate.decisions, KeyOf(objectKey, token), w.clock).0.None? && KeyOf(objectKey, token) !in w.isolate.inFlight
    ensures Inv(cfg, ArriveAt(w, request, objectKey, token))
  {
    hide RecordsOk, CallsOk, CacheOk, CacheComplete, DecidedOk, Later, KeyOf;
    var key, v := KeyOf(objectKey, token), ArriveAt(w, request, objectKey, token);
    GetKeeps(cfg.maxEntries, w.clock, w.isolate.decisions, w.ideal, key);
    CallStarts(cfg, w.clock, w.nextCall, w.calls, w.isolate.inFlight, key);
    RecordsStay(cfg, w.clock, w.calls, w.clock, v.calls, w.waiting, w.ideal, w.verdicts);
    assert WaiterOk(cfg, w.clock, v.calls, v.waiting[request]);
    hide WaiterOk, Get;
    WaiterJoins(cfg, w, v.calls, request, v.waiting[request]);
  }

  lemma {:induction false} ArriveKeeps(cfg: Config, w: World, request: nat, objectKey: string, token: string)
    requires cfg.Sane() && Inv(cfg, w)
    requires Possible(cfg, w, Arrive(request, objectKey, token))
    ensures Inv(cfg, ArriveAt(w, request, objectKey, token))
  {
    hide Inv;
    if Get(w.isolate.decisions, KeyOf(objectKey, token), w.clock).0.Some? {
      HitKeeps(cfg, w, request, objectKey, token);
    } else {
      hide Get;
      if KeyOf(objectKey, token) in w.isolate.inFlight {
        JoinKeeps(cfg, w, request, objectKey, token);
      } else {
        AskKeeps(cfg, w, request, objectKey, token);
      }
    }
  }

  lemma {:induction false} CloseKeeps(cfg: Config, w: World, call: nat, phase: Phase)
    requires Inv(cfg, w) && call in w.calls && w.calls[call].Open()
    requires phase == Failed
             || (w.calls[call].phase.Evaluated? && phase == Answered(w.calls[call].phase.at, w.calls[call].phase.reply))
    ensures Inv(cfg, Close(w, call, phase))
  {
    hide CallsOk, RecordsOk, CacheOk, CacheComplete, Later;
    CallCloses(cfg, w.clock, w.nextCall, w.calls, w.isolate.inFlight, call, phase);
    RecordsStay(cfg, w.clock, w.calls, w.clock, Close(w, call, phase).calls, w.waiting, w.ideal, w.verdicts);
  }

  lemma {:induction false} StoreKeeps(maxEntries: nat, d: Decisions, ideal: map<string, Stored>, s: Stored)
    requires maxEntries >= 1 && CacheOk(maxEntries, d, ideal)
    ensures CacheOk(maxEntries, Set(d, s.writer.Key(), s.entry, maxEntries), ideal[s.writer.Key() := s])
  {
    SetBounded(d, s.writer.Key(), s.entry, maxEntries);
  }

  lemma {:induction false} StoreKeepsComplete(maxEntries: nat, clock: int, d: Decisions, ideal: map<string, Stored>, s: Stored)
    requires maxEntries >= 1 && CacheOk(maxEntries, d, ideal) && CacheComplete(maxEntries, clock, d, ideal)
    ensures CacheComplete(maxEntries, clock, Set(d, s.writer.Key(), s.entry, maxEntries), ideal[s.writer.Key() := s])
  {
    var key := s.writer.Key();
    var after := ideal[key := s];
    assert after.Keys == ideal.Keys + {key};
    if |after.Keys| <= maxEntries {
      SubsetSize(ideal.Keys, after.Keys);
      SubsetSize(d.entries.Keys + {key}, after.Keys);
      SetDropsOnlyWhenFull(d, key, s.entry, maxEntries);
    }
  }

  lemma {:induction false} ResumeDecided(cfg: Config, w: World, request: nat)
    requires cfg.Sane() && Inv(cfg, w) && request in w.waiting && w.waiting[request].call in w.calls
    requires Possible(cfg, w, Resume(request))
    ensures WaiterOk(cfg, w.clock, w.calls, w.waiting[request])
    ensures DecidedOk(cfg, w.clock, w.calls, ResumeAt(cfg, w, request).verdicts[request])
  {
    hide CallsOk, CacheOk, CacheComplete;
    assert WaiterOk(cfg, w.clock, w.calls, w.waiting[request]);
    hide Set, Inv, RecordsOk;
  }

  lemma {:induction false} StoredKeeps(cfg: Config, w: World, request: nat, stored: Stored, decided: Decided, v: World)
    requires cfg.Sane() && Inv(cfg, w)
    requires StoredOk(cfg, w.clock, w.calls, stored.writer.Key(), stored) && DecidedOk(cfg, w.clock, w.calls, decided)
    requires v == w.(isolate := w.isolate.(decisions := Set(w.isolate.decisions, stored.writer.Key(), stored.entry, cfg.maxEntries)),
                     ideal := w.ideal[stored.writer.Key() := stored],
                     waiting := w.waiting - {request}, verdicts := w.verdicts[request := decided])
    ensures Inv(cfg, v)
  {
    hide CallsOk, RecordsOk, CacheOk, CacheComplete, DecidedOk, StoredOk, Set;
    StoreKeeps(cfg.maxEntries, w.isolate.decisions, w.ideal, stored);
    StoreKeepsComplete(cfg.maxEntries, w.clock, w.isolate.decisions, w.ideal, stored);
    RecordsGrow(cfg, w, v.waiting, request, decided, Some(stored));
  }

  lemma {:induction false} UnstoredKeeps(cfg: Config, w: World, request: nat, decided: Decided, v: World)
    requires cfg.Sane() && Inv(cfg, w) && DecidedOk(cfg, w.clock, w.calls, decided)
    requires v == w.(waiting := w.waiting - {request}, verdicts := w.verdicts[request := decided])
    ensures Inv(cfg, v)
  {
    hide CallsOk, RecordsOk, CacheOk, CacheComplete, DecidedOk;
    RecordsGrow(cfg, w, v.waiting, request, decided, None);
  }

  lemma WrittenIsOk(cfg: Config, clock: int, calls: map<nat, Call>, q: Waiter, answer: Answer)
    requires WaiterOk(cfg, clock, calls, q) && calls[q.call].Answer() == Some(answer)
    ensures StoredOk(cfg, clock, calls, q.Key(), Stored(EntryOf(cfg, answer, q), q))
  {
  }

  lemma {:induction false} ResumeKeeps(cfg: Config, w: World, request: nat)
    requires cfg.Sane() && Inv(cfg, w) && Possible(cfg, w, Resume(request))
    ensures Inv(cfg, ResumeAt(cfg, w, request))
  {
    var q, v := w.waiting[request], ResumeAt(cfg, w, request);
    var answer := w.calls[q.call].Answer();
    ResumeDecided(cfg, w, request);
    hide Inv, DecidedOk, WaiterOk, StoredOk, Set, KeyOf, VerdictFrom;
    if answer.Some? && EntryOf(cfg, answer.value, q).expiresAtMs > q.nowMs {
      var stored := Stored(EntryOf(cfg, answer.value, q), q);
      WrittenIsOk(cfg, w.clock, w.calls, q, answer.value);
      StoredKeeps(cfg, w, request, stored, v.verdicts[request], v);
    } else {
      UnstoredKeeps(cfg, w, request, v.verdicts[request], v);
    }
  }

  lemma {:induction false} TickKeeps(cfg: Config, w: World, ms: nat)
    requires cfg.Sane() && Inv(cfg, w) && Possible(cfg, w, Tick(ms))
    ensures Inv(cfg, w.(clock := w.clock + ms))
  {
    hide RecordsOk;
    RecordsStay(cfg, w.clock, w.calls, w.clock + ms, w.calls, w.waiting, w.ideal, w.verdicts);
  }

  lemma {:induction false} EvaluateKeeps(cfg: Config, w: World, call: nat, reply: Reply)
    requires cfg.Sane() && Inv(cfg, w) && Possible(cfg, w, Evaluate(call, reply))
    ensures Inv(cfg, Apply(cfg, w, Evaluate(call, reply)))
  {
    hide RecordsOk, CacheOk, CacheComplete;
    var v := Apply(cfg, w, Evaluate(call, reply));
    assert Later(w.clock, w.calls, v.clock, v.calls);
    RecordsStay(cfg, w.clock, w.calls, v.clock, v.calls, w.waiting, w.ideal, w.verdicts);
    hide Later;
  }

  lemma {:induction false} StepKeeps(cfg: Config, w: World, s: Step)
    requires cfg.Sane() && Inv(cfg, w)
    ensures Inv(cfg, Apply(cfg, w, s))
  {
    hide Inv;
    if Possible(cfg, w, s) {
      match s
      case Tick(ms) => TickKeeps(cfg, w, ms);
      case Arrive(request, objectKey, token) => ArriveKeeps(cfg, w, request, objectKey, token);
      case Evaluate(call, reply) => EvaluateKeeps(cfg, w, call, reply);
      case Deliver(call) => CloseKeeps(cfg, w, call, Answered(w.calls[call].phase.at, w.calls[call].phase.reply));
      case Fail(call) => CloseKeeps(cfg, w, call, Failed);
      case Resume(request) => ResumeKeeps(cfg, w, request);
    }
  }

  lemma {:induction false} RunKeeps(cfg: Config, w: World, steps: seq<Step>)
    requires cfg.Sane() && Inv(cfg, w)
    ensures Inv(cfg, Run(cfg, w, steps))
    decreases |steps|
  {
    if steps != [] {
      StepKeeps(cfg, w, steps[0]);
      RunKeeps(cfg, Apply(cfg, w, steps[0]), steps[1..]);
    }
  }
}
