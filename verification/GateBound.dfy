/** How late the gate may still allow what Atlas no longer honours. */
module GateBound {
  import opened Prelude
  import opened DecisionCaches
  import opened Gate

  ghost function End(cfg: Config, steps: seq<Step>): World
    requires cfg.Sane()
  {
    Run(cfg, Start, steps)
  }

  /** The request whose own clock decided how long this answer could be used. */
  ghost function Origin(d: Decided): Waiter
    requires d.source.FromCache? ==> d.source.origin.Some?
  {
    if d.source.FromCache? then d.source.origin.value.writer else d.source.waiter
  }

  lemma EndKeeps(cfg: Config, steps: seq<Step>)
    requires cfg.Sane()
    ensures Inv(cfg, End(cfg, steps))
  {
    RunKeeps(cfg, Start, steps);
  }

  /** Every allow, cached or not, comes from a 200 with `allow: true` that Atlas gave for
      exactly this object and token, after the question was sent. */
  lemma AllowTracesToAtlas(cfg: Config, steps: seq<Step>, request: nat)
    requires cfg.Sane() && request in End(cfg, steps).verdicts
    requires End(cfg, steps).verdicts[request].verdict.Allowed?
    ensures var w := End(cfg, steps);
            var d := w.verdicts[request];
            && (d.source.FromCache? ==> d.source.origin.Some?)
            && Origin(d).call in w.calls
            && var c := w.calls[Origin(d).call];
            && c.phase.Answered? && Allows(c.phase.reply)
            && c.key == d.Key() && c.sentAt <= c.phase.at
            && (d.Key(), c.phase.at, c.phase.reply) in cfg.atlas
  {
    EndKeeps(cfg, steps);
    var w := End(cfg, steps);
    assert DecidedOk(cfg, w.clock, w.calls, w.verdicts[request]);
    assert CallOk(cfg, w.clock, w.calls[Origin(w.verdicts[request]).call]);
  }

  /** What a usable reply says: a 200 with a body that has a boolean `allow`. */
  ghost predicate Answers(c: Call, allow: bool) {
    && c.phase.Answered? && c.phase.reply.status == 200
    && c.phase.reply.body.Some? && c.phase.reply.body.value.allow == Some(allow)
  }

  /** How long a reply may be reused, in seconds: its `ttlSeconds` rounded down, within 0 to 30;
      not at all when it has none that is a number. */
  ghost predicate Usable(c: Call, seconds: int) {
    c.phase.Answered? && c.phase.reply.body.Some?
    && match c.phase.reply.body.value.ttlSeconds
       case NotFinite => seconds == 0
       case Finite(value) =>
         && 0 <= seconds <= 30
         && (seconds > 0 ==> seconds as real <= value)
         && (seconds < 30 ==> value < (seconds + 1) as real)
  }

  /** The verdict a call's reply stands for: allowed exactly on `allow: true`; revoked exactly on
      `allow: false`, with the first 64 characters of the reason or none; and unavailable exactly
      when the call failed or was not a usable reply. Only what comes out of the cache says so,
      and only an answer does. */
  ghost predicate StandsFor(verdict: Verdict, c: Call, cached: bool) {
    && (verdict == Allowed(cached) <==> Answers(c, true))
    && (verdict.Revoked? <==> Answers(c, false))
    && (verdict.Revoked? ==>
          && verdict.cached == cached
          && match c.phase.reply.body.value.reason
             case None => verdict.detail == None
             case Some(text) =>
               verdict.detail.Some? && verdict.detail.value <= text && |verdict.detail.value| == Min(64, |text|))
    && (verdict == Unavailable <==> !Answers(c, true) && !Answers(c, false))
    && (verdict == Unavailable ==> !cached)
    && verdict != Allowed(!cached)
  }

  lemma EntryStandsFor(cfg: Config, c: Call, q: Waiter, cached: bool)
    ensures c.Answer().Some? ==> StandsFor(VerdictFrom(EntryOf(cfg, c.Answer().value, q), cached), c, cached)
    ensures c.Answer().None? ==> StandsFor(Unavailable, c, false)
  {
  }

  /** Every verdict of every run is what the reply to its origin call stands for. */
  lemma {:induction false} VerdictExactly(cfg: Config, steps: seq<Step>, request: nat)
    requires cfg.Sane() && request in End(cfg, steps).verdicts
    ensures var w := End(cfg, steps);
            var d := w.verdicts[request];
            && (d.source.FromCache? ==> d.source.origin.Some?)
            && Origin(d).call in w.calls
            && StandsFor(d.verdict, w.calls[Origin(d).call], d.source.FromCache?)
  {
    EndKeeps(cfg, steps);
    var w := End(cfg, steps);
    var d := w.verdicts[request];
    assert DecidedOk(cfg, w.clock, w.calls, d);
    hide Inv, End;
    EntryStandsFor(cfg, w.calls[Origin(d).call], Origin(d), d.source.FromCache?);
    hide StandsFor, VerdictFrom, EntryOf, KeyOf, Call.Answer;
  }

  /** What is stored for a key, in every state of every run: it lives past the moment its writer
      asked, by no more than the configured window, the reply's own, and the token's expiry. */
  lemma {:induction false} StoredWindow(cfg: Config, steps: seq<Step>, key: string)
    requires cfg.Sane() && key in End(cfg, steps).isolate.decisions.entries
    ensures var w := End(cfg, steps);
            var e := w.isolate.decisions.entries[key];
            && key in w.ideal && w.ideal[key].entry == e
            && var q := w.ideal[key].writer;
            && q.Key() == key && q.call in w.calls && Answers(w.calls[q.call], e.allow)
            && forall seconds :: Usable(w.calls[q.call], seconds)
                 ==> e.expiresAtMs == Min(q.nowMs + 1000 * Min(cfg.window, seconds), 1000 * cfg.ExpiryOf(q.token))
  {
    EndKeeps(cfg, steps);
    var w := End(cfg, steps);
    assert CacheOk(cfg.maxEntries, w.isolate.decisions, w.ideal);
    assert StoredOk(cfg, w.clock, w.calls, key, w.ideal[key]);
    var c := w.calls[w.ideal[key].writer.call];
    forall seconds | Usable(c, seconds) ensures c.Answer().value.ttlSeconds == seconds {
      UsableIsParsed(c.phase.reply, seconds);
    }
    hide Inv, End, CacheOk, WaiterOk, KeyOf;
  }

  lemma UsableIsParsed(reply: Reply, seconds: int)
    requires ParseReply(reply).Some?
    requires match reply.body.value.ttlSeconds
             case NotFinite => seconds == 0
             case Finite(value) =>
               && 0 <= seconds <= 30 && (seconds > 0 ==> seconds as real <= value)
               && (seconds < 30 ==> value < (seconds + 1) as real)
    ensures ParseReply(reply).value.ttlSeconds == seconds
  {
  }

  lemma ResumeFinishes(cfg: Config, w: World, request: nat)
    requires cfg.Sane() && request in w.waiting && w.waiting[request].call in w.calls && Possible(cfg, w, Resume(request))
    ensures var q, v := w.waiting[request], Apply(cfg, w, Resume(request));
            var answer := w.calls[q.call].Answer();
            && v.isolate == Finish(w.isolate, q.Key(), answer, q.nowMs, cfg.window, cfg.ExpiryOf(q.token), cfg.maxEntries).0
            && v.ideal == if answer.Some? && EntryOf(cfg, answer.value, q).expiresAtMs > q.nowMs
                          then w.ideal[q.Key() := Stored(EntryOf(cfg, answer.value, q), q)] else w.ideal
  {
    hide Set, KeyOf;
  }

  lemma CacheIsValid(cfg: Config, w: World)
    requires Inv(cfg, w)
    ensures w.isolate.decisions.Valid()
  {
  }

  lemma AnswersParse(c: Call, seconds: int)
    requires if Answers(c, true) || Answers(c, false) then Usable(c, seconds) else seconds == 0
    ensures c.Answer().Some? <==> Answers(c, true) || Answers(c, false)
    ensures c.Answer().Some? ==> c.Answer().value.ttlSeconds == seconds
  {
    if Answers(c, true) || Answers(c, false) {
      UsableIsParsed(c.phase.reply, seconds);
    }
  }

  /** A waiter stores its answer exactly when that leaves it time to live: no answer, no usable
      window, a window of 0, or a token that has expired store nothing. */
  lemma {:induction false} StoresExactly(cfg: Config, w: World, request: nat, seconds: int)
    requires cfg.Sane() && Inv(cfg, w) && request in w.waiting && w.waiting[request].call in w.calls
    requires Possible(cfg, w, Resume(request))
    requires var c := w.calls[w.waiting[request].call];
             if Answers(c, true) || Answers(c, false) then Usable(c, seconds) else seconds == 0
    ensures var q := w.waiting[request];
            var v := Apply(cfg, w, Resume(request));
            if cfg.window > 0 && seconds > 0 && q.nowMs < 1000 * cfg.ExpiryOf(q.token)
            then q.Key() in v.isolate.decisions.entries && v.ideal.Keys == w.ideal.Keys + {q.Key()} && v.ideal[q.Key()].writer == q
            else v.isolate == w.isolate && v.ideal == w.ideal
  {
    hide Inv, Apply, Possible, Answers, Usable, KeyOf, Set, Finish, EntryFor, Decisions.Valid;
    var q := w.waiting[request];
    ResumeFinishes(cfg, w, request);
    AnswersParse(w.calls[q.call], seconds);
    CacheIsValid(cfg, w);
    FinishStores(w.isolate, q.Key(), w.calls[q.call].Answer(), q.nowMs, cfg.window, cfg.ExpiryOf(q.token), cfg.maxEntries);
    hide Config.ExpiryOf, Call.Answer, Waiter.Key;
  }

  /** No cached answer, allow or refusal, is used at or past the token's own expiry. */
  lemma CacheRespectsExpiry(cfg: Config, steps: seq<Step>, request: nat)
    requires cfg.Sane() && request in End(cfg, steps).verdicts
    requires End(cfg, steps).verdicts[request].source.FromCache?
    ensures var d := End(cfg, steps).verdicts[request];
            d.nowMs < cfg.ExpiryOf(d.token) * 1000
  {
    EndKeeps(cfg, steps);
    var w := End(cfg, steps);
    var d := w.verdicts[request];
    assert DecidedOk(cfg, w.clock, w.calls, d);
    var writer := d.source.origin.value.writer;
    KeyOfInjective(writer.objectKey, writer.token, d.objectKey, d.token);
  }

  /** At most one question about a key is open at any moment. */
  lemma SingleFlight(cfg: Config, steps: seq<Step>, c1: nat, c2: nat)
    requires cfg.Sane()
    requires c1 in End(cfg, steps).calls && End(cfg, steps).calls[c1].Open()
    requires c2 in End(cfg, steps).calls && End(cfg, steps).calls[c2].Open()
    requires End(cfg, steps).calls[c1].key == End(cfg, steps).calls[c2].key
    ensures c1 == c2
  {
    EndKeeps(cfg, steps);
  }

  // ------------------------------------------------------------------ the bound

  /** From time `t` on, Atlas no longer honours this key. */
  ghost predicate RevokedFrom(cfg: Config, key: string, t: int) {
    forall at, reply :: (key, at, reply) in cfg.atlas && at >= t ==> !Allows(reply)
  }

  /** How far past a revocation an allow may be, in milliseconds (exclusive). */
  function Slack(window: int, limit: int): int {
    if window == 0 then limit else 1000 * window + limit - 1
  }

  /** The revocation bound, over every interleaving of any number of requests and calls;
      without the in-flight term when the sender of the question wrote the entry. */
  lemma RevocationBound(cfg: Config, steps: seq<Step>, t: int, request: nat)
    requires cfg.Sane() && request in End(cfg, steps).verdicts
    requires End(cfg, steps).verdicts[request].verdict.Allowed?
    requires RevokedFrom(cfg, End(cfg, steps).verdicts[request].Key(), t)
    ensures var d := End(cfg, steps).verdicts[request];
            && d.nowMs < t + Slack(cfg.window, cfg.limit)
            && (d.source.FromCache? ==> d.source.origin.Some?)
            && (Origin(d).asked ==> d.nowMs < t + 1000 * cfg.window)
  {
    AllowTracesToAtlas(cfg, steps, request);
    EndKeeps(cfg, steps);
    var w := End(cfg, steps);
    assert DecidedOk(cfg, w.clock, w.calls, w.verdicts[request]);
  }

  /** No run with this window and this call limit allows a key `bound` or more past the
      moment Atlas stopped honouring it. */
  ghost predicate MeetsBound(window: int, limit: int, bound: int) {
    forall cfg: Config, steps: seq<Step>, t: int, request: nat ::
      cfg.Sane() && cfg.window == window && cfg.limit == limit ==> InTime(cfg, steps, t, request, bound)
  }

  ghost predicate InTime(cfg: Config, steps: seq<Step>, t: int, request: nat, bound: int)
    requires cfg.Sane()
  {
    var w := End(cfg, steps);
    request in w.verdicts && w.verdicts[request].verdict.Allowed? && RevokedFrom(cfg, w.verdicts[request].Key(), t)
    ==> w.verdicts[request].nowMs < t + bound
  }

  /** What an operator can check before deploying: the configured window together with the
      longest call decides the bound, both ways. */
  lemma BoundExact(window: int, limit: int, bound: int)
    requires 0 <= window <= AUTHZ_MAX_CACHE_SECONDS && limit >= 0 && bound >= 0
    ensures MeetsBound(window, limit, bound) <==> Slack(window, limit) <= bound
  {
    if Slack(window, limit) <= bound {
      forall cfg: Config, steps: seq<Step>, t: int, request: nat
        | cfg.Sane() && cfg.window == window && cfg.limit == limit
        ensures InTime(cfg, steps, t, request, bound)
      {
        var w := End(cfg, steps);
        if request in w.verdicts && w.verdicts[request].verdict.Allowed? && RevokedFrom(cfg, w.verdicts[request].Key(), t) {
          RevocationBound(cfg, steps, t, request);
        }
      }
    } else {
      var cfg, steps, request := LateAllow(window, limit);
      assert !InTime(cfg, steps, 1, request, bound);
    }
  }

  /** The file promises 30 s. The defaults (30 s window, calls of 3 s and more) do not meet it;
      a window of 27 s does as long as no call takes longer than 3.001 s, signing included; and
      every setting meets 30 s plus its longest call. */
  lemma DocumentedBound(window: int, limit: int)
    requires 0 <= window <= AUTHZ_MAX_CACHE_SECONDS && limit >= 0
    ensures MeetsBound(30, limit, 30000) <==> limit <= 1
    ensures MeetsBound(27, limit, 30000) <==> limit <= 3001
    ensures MeetsBound(window, limit, 30000 + limit)
  {
    BoundExact(30, limit, 30000);
    BoundExact(27, limit, 30000);
    BoundExact(window, limit, 30000 + limit);
  }

  // ------------------------------------------------------------------ the latest allow there is

  lemma RunSnoc(cfg: Config, w: World, steps: seq<Step>, s: Step)
    requires cfg.Sane()
    ensures Run(cfg, w, steps + [s]) == Apply(cfg, Run(cfg, w, steps), s)
    decreases |steps|
  {
    if steps == [] {
      assert Run(cfg, Apply(cfg, w, s), []) == Apply(cfg, w, s);
      assert ([s])[1..] == [];
    } else {
      RunSnoc(cfg, Apply(cfg, w, steps[0]), steps[1..], s);
      assert (steps + [s])[1..] == steps[1..] + [s];
    }
  }

  const Granted: Reply := Http(200, Some(Body(Some(true), None, Finite(30.0))))

  /** Atlas honours the token at time 0 only. */
  function Fickle(window: int, limit: int): Config {
    Config(window, 1, limit, iset{(KeyOf("o", "t"), 0, Granted)}, imap["t" := window + limit + 1])
  }

  /** A question is sent and evaluated at 0, and its call is still open at the limit. */
  lemma {:induction false} LongCall(window: int, limit: int) returns (w: World, steps: seq<Step>)
    requires 0 <= window <= AUTHZ_MAX_CACHE_SECONDS && limit >= 0
    ensures Fickle(window, limit).Sane() && w == End(Fickle(window, limit), steps)
    ensures w == World(limit, Isolate(Decisions([], map[]), map[KeyOf("o", "t") := 0]), 1,
                       map[0 := Call(KeyOf("o", "t"), 0, Evaluated(0, Granted))],
                       map[0 := Waiter("o", "t", 0, 0, true)], map[], map[])
  {
    var cfg := Fickle(window, limit);
    var key := KeyOf("o", "t");
    steps := [Arrive(0, "o", "t")];
    RunSnoc(cfg, Start, [], steps[0]);
    assert [] + steps == steps;
    w := Apply(cfg, Start, Arrive(0, "o", "t"));
    assert w.calls == map[0 := Call(key, 0, Sent)];
    RunSnoc(cfg, Start, steps, Evaluate(0, Granted));
    w, steps := Apply(cfg, w, Evaluate(0, Granted)), steps + [Evaluate(0, Granted)];
    RunSnoc(cfg, Start, steps, Tick(limit));
    w, steps := Apply(cfg, w, Tick(limit)), steps + [Tick(limit)];
  }

  /** A question is sent and answered at 0, a second request joins the call at its very
      end, and its own clock carries the answer on. */
  lemma {:induction false} JoinedAnswer(window: int, limit: int) returns (w: World, steps: seq<Step>)
    requires 0 <= window <= AUTHZ_MAX_CACHE_SECONDS && limit >= 0
    ensures Fickle(window, limit).Sane() && w == End(Fickle(window, limit), steps)
    ensures w.clock == limit && 1 in w.verdicts && 2 !in w.waiting && 2 !in w.verdicts
    ensures w.verdicts[1].Key() == KeyOf("o", "t") && w.verdicts[1].nowMs == limit && w.verdicts[1].verdict == Allowed(false)
    ensures forall c :: c in w.calls ==> !w.calls[c].Open()
    ensures window > 0 ==> KeyOf("o", "t") in w.isolate.decisions.entries
                           && w.isolate.decisions.entries[KeyOf("o", "t")] == Entry(true, None, limit + 1000 * window)
  {
    var cfg := Fickle(window, limit);
    var key := KeyOf("o", "t");
    w, steps := LongCall(window, limit);
    hide Run, KeyOf;
    RunSnoc(cfg, Start, steps, Arrive(1, "o", "t"));
    w, steps := Apply(cfg, w, Arrive(1, "o", "t")), steps + [Arrive(1, "o", "t")];
    assert w.waiting[1] == Waiter("o", "t", limit, 0, false);
    RunSnoc(cfg, Start, steps, Deliver(0));
    w, steps := Apply(cfg, w, Deliver(0)), steps + [Deliver(0)];
    assert w.calls == map[0 := Call(key, 0, Answered(0, Granted))];
    assert w.calls[0].Answer() == Some(Answer(true, None, 30));
    RunSnoc(cfg, Start, steps, Resume(1));
    w, steps := Apply(cfg, w, Resume(1)), steps + [Resume(1)];
  }

  lemma LateAllow(window: int, limit: int) returns (cfg: Config, steps: seq<Step>, request: nat)
    requires 0 <= window <= AUTHZ_MAX_CACHE_SECONDS && limit >= 0
    ensures cfg.Sane() && cfg.window == window && cfg.limit == limit
    ensures var w := End(cfg, steps);
            && request in w.verdicts && w.verdicts[request].verdict.Allowed?
            && RevokedFrom(cfg, w.verdicts[request].Key(), 1)
            && w.verdicts[request].nowMs == Slack(window, limit)
  {
    cfg := Fickle(window, limit);
    var w;
    w, steps := JoinedAnswer(window, limit);
    if window == 0 {
      request := 1;
    } else {
      var wait := 1000 * window - 1;
      RunSnoc(cfg, Start, steps, Tick(wait));
      w, steps := Apply(cfg, w, Tick(wait)), steps + [Tick(wait)];
      RunSnoc(cfg, Start, steps, Arrive(2, "o", "t"));
      w, steps := Apply(cfg, w, Arrive(2, "o", "t")), steps + [Arrive(2, "o", "t")];
      request := 2;
    }
  }
}
