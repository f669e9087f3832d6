/** The video gate's decision cache (deploy/video-gate-worker/src/authz.js).

    `Isolate` is what one Worker isolate remembers between requests: the bounded map of
    decisions, whose keys keep their insertion order, and the calls in flight. The
    functions say what each uninterrupted piece of `authorizeWithAtlas` does to it; the
    class `DecisionCache` does the same by updating its fields in place. */
module DecisionCaches {
  import opened Prelude

  datatype Entry = Entry(allow: bool, reason: Option<string>, expiresAtMs: int)

  datatype Decisions = Decisions(order: seq<string>, entries: map<string, Entry>) {
    ghost predicate Valid() {
      Distinct(order) && Elements(order) == entries.Keys
    }
  }

  datatype Isolate = Isolate(decisions: Decisions, inFlight: map<string, nat>)

  // ------------------------------------------------------------------ Atlas's answer

  /** A JavaScript `Number(...)`. */
  datatype Num = NotFinite | Finite(value: real)

  /** What comes back over HTTP; `body` is `None` when it is not JSON or not an object,
      and its fields are `None` when they do not have the expected type. */
  datatype Reply = Http(status: int, body: Option<Body>)
  datatype Body = Body(allow: Option<bool>, reason: Option<string>, ttlSeconds: Num)

  datatype Answer = Answer(allow: bool, reason: Option<string>, ttlSeconds: int)

  const AUTHZ_MAX_CACHE_SECONDS := 30

  function Clamp(seconds: int): int {
    Min(AUTHZ_MAX_CACHE_SECONDS, Max(0, seconds))
  }

  /** `cacheWindowSeconds`: the configured window. */
  function CacheWindowSeconds(raw: Num): (seconds: int)
    ensures 0 <= seconds <= AUTHZ_MAX_CACHE_SECONDS
    ensures raw.NotFinite? ==> seconds == 30
    ensures raw.Finite? && seconds as real > raw.value ==> seconds == 0
    ensures raw.Finite? && seconds < 30 ==> raw.value < (seconds + 1) as real
  {
    if raw.NotFinite? then AUTHZ_MAX_CACHE_SECONDS else Clamp(raw.value.Floor)
  }

  /** The second half of `askAtlas`: anything but a well-formed 200 is no answer. */
  function ParseReply(reply: Reply): (answer: Option<Answer>)
    ensures answer.Some? ==> reply.status == 200 && 0 <= answer.value.ttlSeconds <= AUTHZ_MAX_CACHE_SECONDS
    ensures answer.Some? && answer.value.allow <==> Allows(reply)
  {
    if reply.status != 200 || reply.body.None? || reply.body.value.allow.None? then None
    else
      var body := reply.body.value;
      Some(Answer(
             body.allow.value,
             match body.reason { case Some(text) => Some(text[..Min(64, |text|)]) case None => None },
             if body.ttlSeconds.Finite? then Clamp(body.ttlSeconds.value.Floor) else 0))
  }

  predicate Allows(reply: Reply) {
    reply.status == 200 && reply.body.Some? && reply.body.value.allow == Some(true)
  }

  /** The cache key of an (object, token) pair. */
  function KeyOf(objectKey: string, token: string): string {
    objectKey + "\n" + token
  }

  lemma LastBreak(objectKey: string, token: string)
    requires '\n' !in token
    ensures var key := KeyOf(objectKey, token);
            && key[|objectKey|] == '\n'
            && forall j :: |objectKey| < j < |key| ==> key[j] != '\n'
  {
    var key := KeyOf(objectKey, token);
    forall j | |objectKey| < j < |key| ensures key[j] != '\n' {
      assert key[j] == token[j - |objectKey| - 1];
    }
  }

  /** A verified token is base64url text and dots, so the last line break ends the object
      key: two pairs never share a cache entry, whatever the object keys contain. */
  lemma KeyOfInjective(o1: string, t1: string, o2: string, t2: string)
    requires '\n' !in t1 && '\n' !in t2
    requires KeyOf(o1, t1) == KeyOf(o2, t2)
    ensures o1 == o2 && t1 == t2
  {
    var key := KeyOf(o1, t1);
    LastBreak(o1, t1);
    LastBreak(o2, t2);
    assert |o1| == |o2|;
    assert o1 == key[..|o1|] == o2;
    assert t1 == key[|o1| + 1..] == t2;
  }

  // ------------------------------------------------------------------ the map operations

  function Delete(d: Decisions, key: string): Decisions {
    Decisions(Without(d.order, key), d.entries - {key})
  }

  /** The map without its `n` oldest insertions. */
  function DropOldest(d: Decisions, n: nat): Decisions
    requires n <= |d.order|
  {
    Decisions(d.order[n..], d.entries - Elements(d.order[..n]))
  }

  /** `DecisionCache.get`: an expired entry is deleted and is not a hit. */
  function Get(d: Decisions, key: string, nowMs: int): (Option<Entry>, Decisions) {
    if key !in d.entries then (None, d)
    else if d.entries[key].expiresAtMs <= nowMs then (None, Delete(d, key))
    else (Some(d.entries[key]), d)
  }

  /** `DecisionCache.set` on a cache that may hold `maxEntries` decisions. */
  function Set(d: Decisions, key: string, entry: Entry, maxEntries: nat): Decisions
    requires maxEntries >= 1
  {
    var rest := Delete(d, key);
    var kept := DropOldest(rest, Max(0, |rest.order| - (maxEntries - 1)));
    Decisions(kept.order + [key], kept.entries[key := entry])
  }

  /** A lookup hits exactly while the entry lives; an entry that has expired is gone afterwards,
      and nothing else is. */
  lemma LookupExactly(d: Decisions, key: string, nowMs: int)
    requires d.Valid()
    ensures var (hit, after) := Get(d, key, nowMs);
            && (hit.Some? <==> key in d.entries && nowMs < d.entries[key].expiresAtMs)
            && (hit.Some? ==> hit.value == d.entries[key])
            && after.entries == (if hit.Some? then d.entries else d.entries - {key})
            && (forall k :: k in after.order <==> k in d.order && k in after.entries)
  {
    WithoutElements(d.order, key);
    assert forall k :: k in d.order <==> k in Elements(d.order);
  }

  lemma DeleteValid(d: Decisions, key: string)
    requires d.Valid()
    ensures Delete(d, key).Valid()
    ensures Delete(d, key).entries.Keys == d.entries.Keys - {key}
  {
    WithoutElements(d.order, key);
    WithoutDistinct(d.order, key);
  }

  lemma DropOldestValid(d: Decisions, n: nat)
    requires d.Valid() && n <= |d.order|
    ensures DropOldest(d, n).Valid()
    ensures n == 0 ==> DropOldest(d, n) == d
  {
    assert d.order == d.order[..n] + d.order[n..];
    forall key | key in d.order[n..] ensures key !in d.order[..n] {
      var j :| n <= j < |d.order| && d.order[j] == key;
    }
  }

  lemma DropOneMore(d: Decisions, n: nat)
    requires d.Valid() && n < |d.order|
    ensures var kept := DropOldest(d, n);
            DropOldest(d, n + 1) == Decisions(kept.order[1..], kept.entries - {kept.order[0]})
  {
    assert d.order[..n + 1] == d.order[..n] + [d.order[n]];
    assert Elements(d.order[..n + 1]) == Elements(d.order[..n]) + {d.order[n]};
  }

  lemma AppendValid(d: Decisions, key: string, entry: Entry)
    requires d.Valid() && key !in d.entries
    ensures Decisions(d.order + [key], d.entries[key := entry]).Valid()
  {
    assert Elements(d.order + [key]) == Elements(d.order) + {key};
    assert key !in d.order;
  }

  lemma SizeIsOrder(d: Decisions)
    requires d.Valid()
    ensures |d.entries| == |d.order|
  {
    DistinctSize(d.order);
    assert |d.entries| == |d.entries.Keys|;
  }

  /** Dropping the `n` oldest and adding a new key. */
  lemma {:induction false} DropAndAppend(d: Decisions, n: nat, key: string, entry: Entry)
    requires d.Valid() && n <= |d.order| && key !in d.entries
    ensures var kept := DropOldest(d, n);
            var after := Decisions(kept.order + [key], kept.entries[key := entry]);
            && after.Valid() && |after.entries| == |d.order| - n + 1
            && forall k :: k in kept.entries ==> k in d.entries && kept.entries[k] == d.entries[k]
  {
    var kept := DropOldest(d, n);
    DropOldestValid(d, n);
    assert |kept.order| == |d.order| - n;
    assert forall k :: k in kept.entries ==> k in d.entries && kept.entries[k] == d.entries[k];
    hide DropOldest, Decisions.Valid;
    AppendValid(kept, key, entry);
    SizeIsOrder(Decisions(kept.order + [key], kept.entries[key := entry]));
  }

  /** A write keeps the bound, and makes room only by dropping whole entries, the oldest
      insertions first: an entry still there is the entry that was there. */
  lemma {:induction false} SetBounded(d: Decisions, key: string, entry: Entry, maxEntries: nat)
    requires d.Valid() && maxEntries >= 1
    ensures Set(d, key, entry, maxEntries).Valid()
    ensures |Set(d, key, entry, maxEntries).entries| <= maxEntries
    ensures key in Set(d, key, entry, maxEntries).entries
    ensures forall k :: k in Set(d, key, entry, maxEntries).entries && k != key
                        ==> k in d.entries && Set(d, key, entry, maxEntries).entries[k] == d.entries[k]
  {
    var rest := Delete(d, key);
    DeleteValid(d, key);
    assert forall k :: k in rest.entries ==> k in d.entries && rest.entries[k] == d.entries[k];
    hide Delete, DropOldest, Decisions.Valid;
    DropAndAppend(rest, Max(0, |rest.order| - (maxEntries - 1)), key, entry);
  }

  lemma {:induction false} RoomLeft(d: Decisions, key: string)
    requires d.Valid()
    ensures |Delete(d, key).order| + 1 == |d.entries.Keys + {key}|
  {
    DeleteValid(d, key);
    var rest := Delete(d, key);
    SizeIsOrder(rest);
    var others := rest.entries.Keys;
    assert key !in others;
    assert |others + {key}| == |others| + 1;
    assert d.entries.Keys + {key} == others + {key};
  }

  lemma {:induction false} SetWithRoom(d: Decisions, key: string, entry: Entry, maxEntries: nat)
    requires d.Valid() && maxEntries >= 1
    requires |Delete(d, key).order| + 1 <= maxEntries
    ensures Set(d, key, entry, maxEntries).entries == d.entries[key := entry]
  {
    var rest := Delete(d, key);
    DeleteValid(d, key);
    DropOldestValid(rest, 0);
    assert Set(d, key, entry, maxEntries).entries == rest.entries[key := entry];
  }

  /** Nothing is dropped while the keys fit. */
  lemma {:induction false} SetDropsOnlyWhenFull(d: Decisions, key: string, entry: Entry, maxEntries: nat)
    requires d.Valid() && maxEntries >= 1
    requires |d.entries.Keys + {key}| <= maxEntries
    ensures Set(d, key, entry, maxEntries).entries == d.entries[key := entry]
  {
    RoomLeft(d, key);
    SetWithRoom(d, key, entry, maxEntries);
  }

  /** What goes is what was inserted first, and no more than has to: of two other keys the later
      one never goes alone, the written key is the latest, and the cache stays as full as it may. */
  lemma {:induction false} SetDropsTheOldest(d: Decisions, key: string, entry: Entry, maxEntries: nat, i: nat, j: nat)
    requires d.Valid() && maxEntries >= 1 && i < j < |d.order| && d.order[i] != key && d.order[j] != key
    ensures var after := Set(d, key, entry, maxEntries);
            && (d.order[i] in after.entries ==> d.order[j] in after.entries)
            && after.order != [] && after.order[|after.order| - 1] == key && after.entries[key] == entry
            && |after.entries| == Min(maxEntries, |d.entries.Keys + {key}|)
  {
    SetFills(d, key, entry, maxEntries);
    DeleteValid(d, key);
    var a, b := WithoutKeepsOrder(d.order, key, i, j);
    SurvivesInOrder(Delete(d, key), Max(0, |Delete(d, key).order| - (maxEntries - 1)), a, b);
    hide DropOldest, Without, Elements, Decisions.Valid;
  }

  lemma {:induction false} SetFills(d: Decisions, key: string, entry: Entry, maxEntries: nat)
    requires d.Valid() && maxEntries >= 1
    ensures var after := Set(d, key, entry, maxEntries);
            && after.order != [] && after.order[|after.order| - 1] == key && after.entries[key] == entry
            && |after.entries| == Min(maxEntries, |d.entries.Keys + {key}|)
  {
    hide Delete, DropOldest, Decisions.Valid, Without;
    DeleteValid(d, key);
    RoomLeft(d, key);
    DropAndAppend(Delete(d, key), Max(0, |Delete(d, key).order| - (maxEntries - 1)), key, entry);
  }

  lemma {:induction false} WithoutKeepsOrder(order: seq<string>, key: string, i: nat, j: nat) returns (a: nat, b: nat)
    requires i < j < |order| && order[i] != key && order[j] != key
    ensures a < b < |Without(order, key)| && Without(order, key)[a] == order[i] && Without(order, key)[b] == order[j]
    decreases |order|
  {
    var rest := Without(order[1..], key);
    if i > 0 {
      a, b := WithoutKeepsOrder(order[1..], key, i - 1, j - 1);
      if order[0] != key {
        a, b := a + 1, b + 1;
      }
    } else {
      WithoutElements(order[1..], key);
      assert order[1..][j - 1] == order[j];
      assert order[j] in order[1..];
      assert order[j] in rest;
      var k :| 0 <= k < |rest| && rest[k] == order[j];
      a, b := 0, k + 1;
    }
  }

  lemma {:induction false} SurvivesInOrder(rest: Decisions, n: nat, a: nat, b: nat)
    requires rest.Valid() && n <= |rest.order| && a < b < |rest.order|
    ensures rest.order[a] in DropOldest(rest, n).entries ==> rest.order[b] in DropOldest(rest, n).entries
  {
    assert rest.order[b] in Elements(rest.order);
    if a < n {
      assert rest.order[..n][a] == rest.order[a];
      assert rest.order[a] in Elements(rest.order[..n]);
    } else {
      forall k | 0 <= k < n ensures rest.order[..n][k] != rest.order[b] {
        assert rest.order[..n][k] == rest.order[k];
      }
    }
  }

  // ------------------------------------------------------------------ authorizeWithAtlas

  /** What `authorizeWithAtlas` has decided when it first yields. */
  datatype Begun = Hit(entry: Entry) | Joined(call: nat) | Asked(call: nat)

  datatype Verdict =
    | Allowed(cached: bool)
    | Revoked(detail: Option<string>, cached: bool)
    | Unavailable

  function VerdictFrom(entry: Entry, cached: bool): Verdict {
    if entry.allow then Allowed(cached) else Revoked(entry.reason, cached)
  }

  /** Up to the `await`: a hit, the call already in flight for this key, or a new one. */
  function Begin(i: Isolate, key: string, nowMs: int, callId: nat): (Isolate, Begun) {
    var (hit, decisions) := Get(i.decisions, key, nowMs);
    var seen := i.(decisions := decisions);
    if hit.Some? then (seen, Hit(hit.value))
    else if key in i.inFlight then (seen, Joined(i.inFlight[key]))
    else (seen.(inFlight := i.inFlight[key := callId]), Asked(callId))
  }

  /** A live decision is a hit, whatever is in flight; without one a request joins its key's call,
      and only without that is a question asked. An expired decision goes either way. */
  lemma BeginExactly(i: Isolate, key: string, nowMs: int, callId: nat)
    requires i.decisions.Valid()
    ensures var (after, begun) := Begin(i, key, nowMs, callId);
            var before := i.decisions.entries;
            var live := key in before && nowMs < before[key].expiresAtMs;
            && (begun.Hit? <==> live) && (live ==> begun == Hit(before[key]))
            && (begun.Joined? <==> !live && key in i.inFlight) && (begun.Joined? ==> begun == Joined(i.inFlight[key]))
            && (begun.Asked? <==> !live && key !in i.inFlight) && (begun.Asked? ==> begun == Asked(callId))
            && after.decisions.entries == (if live then before else before - {key})
            && after.inFlight == (if begun.Asked? then i.inFlight[key := callId] else i.inFlight)
  {
    LookupExactly(i.decisions, key, nowMs);
    hide Decisions.Valid, Get;
  }

  /** The `finally` of the call: it is no longer in flight. */
  function Settle(i: Isolate, key: string): Isolate {
    i.(inFlight := i.inFlight - {key})
  }

  /** The entry one waiter computes from the shared answer and its OWN `nowMs`. */
  function EntryFor(answer: Answer, nowMs: int, window: int, expirySeconds: int): Entry {
    var windowSeconds := Min(window, answer.ttlSeconds);
    Entry(answer.allow, answer.reason, Min(nowMs + windowSeconds * 1000, expirySeconds * 1000))
  }

  /** After the `await`. */
  function Finish(i: Isolate, key: string, answer: Option<Answer>, nowMs: int, window: int,
                  expirySeconds: int, maxEntries: nat): (Isolate, Verdict)
    requires maxEntries >= 1
  {
    if answer.None? then (i, Unavailable)
    else
      var entry := EntryFor(answer.value, nowMs, window, expirySeconds);
      (if entry.expiresAtMs > nowMs then i.(decisions := Set(i.decisions, key, entry, maxEntries)) else i,
       VerdictFrom(entry, false))
  }

  /** An entry is stored exactly when there is a window and the token has not expired. */
  lemma StoresWithTimeLeft(
    i: Isolate, key: string, answer: Answer, nowMs: int, window: int, expirySeconds: int, maxEntries: nat)
    requires maxEntries >= 1 && window >= 0 && answer.ttlSeconds >= 0
    ensures Finish(i, key, Some(answer), nowMs, window, expirySeconds, maxEntries).0
         == if window > 0 && answer.ttlSeconds > 0 && nowMs < 1000 * expirySeconds
            then i.(decisions := Set(i.decisions, key, EntryFor(answer, nowMs, window, expirySeconds), maxEntries))
            else i
    ensures EntryFor(answer, nowMs, window, expirySeconds).expiresAtMs > nowMs
            <==> window > 0 && answer.ttlSeconds > 0 && nowMs < 1000 * expirySeconds
  {
    hide Set;
  }

  lemma {:induction false} FinishStores(
    i: Isolate, key: string, answer: Option<Answer>, nowMs: int, window: int, expirySeconds: int, maxEntries: nat)
    requires maxEntries >= 1 && window >= 0 && i.decisions.Valid() && (answer.Some? ==> answer.value.ttlSeconds >= 0)
    ensures var after := Finish(i, key, answer, nowMs, window, expirySeconds, maxEntries).0;
            if answer.Some? && window > 0 && answer.value.ttlSeconds > 0 && nowMs < 1000 * expirySeconds
            then key in after.decisions.entries && EntryFor(answer.value, nowMs, window, expirySeconds).expiresAtMs > nowMs
            else after == i && (answer.Some? ==> EntryFor(answer.value, nowMs, window, expirySeconds).expiresAtMs <= nowMs)
  {
    if answer.Some? {
      StoresWithTimeLeft(i, key, answer.value, nowMs, window, expirySeconds, maxEntries);
      hide EntryFor, Set, Decisions.Valid;
      SetBounded(i.decisions, key, EntryFor(answer.value, nowMs, window, expirySeconds), maxEntries);
    }
  }

  // ------------------------------------------------------------------ in place

  class DecisionCache {
    const maxEntries: nat
    var order: seq<string>
    var entries: map<string, Entry>
    var inFlight: map<string, nat>

    ghost predicate Valid()
      reads this
    {
      maxEntries >= 1 && View().decisions.Valid()
    }

    ghost function View(): Isolate
      reads this
    {
      Isolate(Decisions(order, entries), inFlight)
    }

    constructor (requested: int)
      ensures Valid() && maxEntries == Max(1, requested)
      ensures View() == Isolate(Decisions([], map[]), map[])
    {
      maxEntries := Max(1, requested);
      order, entries, inFlight := [], map[], map[];
    }

    method DeleteKey(key: string)
      requires Valid()
      modifies `order, `entries
      ensures Valid()
      ensures View().decisions == Delete(old(View().decisions), key)
    {
      DeleteValid(View().decisions, key);
      order := Without(order, key);
      entries := entries - {key};
    }

    method Lookup(key: string, nowMs: int) returns (hit: Option<Entry>)
      requires Valid()
      modifies `order, `entries
      ensures Valid()
      ensures (hit, View().decisions) == Get(old(View().decisions), key, nowMs)
    {
      if key !in entries {
        return None;
      }
      var entry := entries[key];
      if entry.expiresAtMs <= nowMs {
        DeleteKey(key);
        return None;
      }
      return Some(entry);
    }

    method Store(key: string, entry: Entry)
      requires Valid()
      modifies `order, `entries
      ensures Valid()
      ensures View().decisions == Set(old(View().decisions), key, entry, maxEntries)
    {
      DeleteValid(View().decisions, key);
      DeleteKey(key);
      ghost var rest := View().decisions;
      ghost var dropped: nat := 0;
      DropOldestValid(rest, 0);
      while |order| >= maxEntries
        invariant dropped <= |rest.order|
        invariant dropped > 0 ==> |order| >= maxEntries - 1
        invariant View().decisions == DropOldest(rest, dropped)
        decreases |order|
      {
        var oldest := order[0];
        DropOneMore(rest, dropped);
        order, entries := order[1..], entries - {oldest};
        dropped := dropped + 1;
      }
      DropOldestValid(rest, dropped);
      AppendValid(View().decisions, key, entry);
      order, entries := order + [key], entries[key := entry];
    }

    method BeginAuthorize(key: string, nowMs: int, callId: nat) returns (begun: Begun)
      requires Valid()
      modifies this
      ensures Valid()
      ensures (View(), begun) == Begin(old(View()), key, nowMs, callId)
    {
      var hit := Lookup(key, nowMs);
      if hit.Some? {
        return Hit(hit.value);
      }
      if key in inFlight {
        return Joined(inFlight[key]);
      }
      inFlight := inFlight[key := callId];
      return Asked(callId);
    }

    method SettleCall(key: string)
      requires Valid()
      modifies `inFlight
      ensures Valid()
      ensures View() == Settle(old(View()), key)
    {
      inFlight := inFlight - {key};
    }

    method FinishAuthorize(key: string, answer: Option<Answer>, nowMs: int, window: int, expirySeconds: int)
      returns (verdict: Verdict)
      requires Valid()
      modifies `order, `entries
      ensures Valid()
      ensures (View(), verdict)
           == Finish(old(View()), key, answer, nowMs, window, expirySeconds, maxEntries)
    {
      if answer.None? {
        return Unavailable;
      }
      var windowSeconds := Min(window, answer.value.ttlSeconds);
      var expiresAtMs := Min(nowMs + windowSeconds * 1000, expirySeconds * 1000);
      var entry := Entry(answer.value.allow, answer.value.reason, expiresAtMs);
      if expiresAtMs > nowMs {
        Store(key, entry);
      }
      return VerdictFrom(entry, false);
    }
  }
}
