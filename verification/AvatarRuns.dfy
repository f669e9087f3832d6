/** Any number of uploads and removals of one user's photo, interleaved at every await
    (src/profile-photo/user-avatar.service.ts:129-217). Every call to a store may be done,
    be refused, or take effect and then fail; a step that is not possible changes nothing.

    An operation is what it still has to do. `leaked` records the objects nobody will delete:
    a quiet delete of it was refused, its put took effect and failed, or a change that took
    effect and failed displaced it. `lost` records the keys deleted while the row may still
    name them: by a removal whose row change did not follow, or by an upload cleaning up after
    a change that had taken effect. */
module AvatarRuns {
  import opened Prelude
  import opened Avatar

  datatype Op =
    | Uploading(key: string)                 // object written, row change to come
    | Discarding(key: string)                // unreferenced object, quiet delete to come
    | Cleaning(key: string)                  // the same, but the change it failed at took effect
    | Reading(current: string, key: string)  // removal: delete of the photo it read to come
    | Clearing(deleted: Option<string>)      // removal: row change to come

  datatype World = World(disk: Disk, ops: map<nat, Op>, used: set<string>, leaked: set<string>, lost: set<string>)

  datatype Step =
    | Put(op: nat, uuid: string, effect: Effect)
    | Point(op: nat, effect: Effect)
    | Discard(op: nat, effect: Effect)
    | Read(op: nat)
    | DeleteRead(op: nat, effect: Effect)
    | Clear(op: nat, effect: Effect)

  predicate Possible(w: World, s: Step) {
    match s
    case Put(op, uuid, effect) => op !in w.ops && IsUuid(uuid) && KeyFor(uuid) !in w.used
    case Point(op, effect) => op in w.ops && w.ops[op].Uploading?
    case Discard(op, effect) => op in w.ops && (w.ops[op].Discarding? || w.ops[op].Cleaning?)
    case Read(op) => op !in w.ops
    case DeleteRead(op, effect) => op in w.ops && w.ops[op].Reading?
    case Clear(op, effect) => op in w.ops && w.ops[op].Clearing?
  }

  /** The operation goes on to delete `key`, or is finished. */
  function Then(w: World, op: nat, key: Option<string>): World {
    if key.Some? then w.(ops := w.ops[op := Discarding(key.value)]) else w.(ops := w.ops - {op})
  }

  function Erase(w: World, key: string): World {
    w.(disk := DeleteObject(w.disk, key), leaked := w.leaked - {key})
  }

  function PutAt(w: World, op: nat, key: string, effect: Effect): World {
    var known := w.(used := w.used + {key});
    match effect
    case Done => known.(disk := PutObject(w.disk, key), ops := w.ops[op := Uploading(key)])
    case Refused => known
    case DoneThenFailed => known.(disk := PutObject(w.disk, key), leaked := w.leaked + {key})
  }

  function PointAt(w: World, op: nat, effect: Effect): World
    requires op in w.ops && w.ops[op].Uploading?
  {
    var key := w.ops[op].key;
    var (disk, displaced) := Change(w.disk, Some(ToMediaAssetUrl(key)));
    match effect
    case Done => Then(w.(disk := disk), op, AvatarKeyOf(displaced))
    case Refused => Then(w, op, Some(key))
    case DoneThenFailed =>
      w.(disk := disk, ops := w.ops[op := Cleaning(key)], leaked := w.leaked + w.disk.Named() * w.disk.objects)
  }

  function DiscardAt(w: World, op: nat, effect: Effect): World
    requires op in w.ops && (w.ops[op].Discarding? || w.ops[op].Cleaning?)
  {
    var key := w.ops[op].key;
    var done := w.(ops := w.ops - {op});
    if effect != Refused then Erase(done.(lost := w.lost + {key} * w.disk.Named()), key)
    else if w.ops[op].Cleaning? then done
    else done.(leaked := w.leaked + {key} * w.disk.objects)
  }

  function ReadAt(w: World, op: nat): World {
    var current := w.disk.avatarUrl;
    var key := AvatarKeyOf(current);
    if key.Some? then w.(ops := w.ops[op := Reading(current.value, key.value)])
    else if Truthy(current) then w.(ops := w.ops[op := Clearing(None)])
    else w
  }

  function DeleteReadAt(w: World, op: nat, effect: Effect): World
    requires op in w.ops && w.ops[op].Reading?
  {
    var key := w.ops[op].key;
    match effect
    case Done => Erase(w.(ops := w.ops[op := Clearing(Some(key))]), key)
    case Refused => w.(ops := w.ops - {op})
    case DoneThenFailed => Erase(w.(ops := w.ops - {op}, lost := w.lost + {key}), key)
  }

  function ClearAt(w: World, op: nat, effect: Effect): World
    requires op in w.ops && w.ops[op].Clearing?
  {
    var key := w.ops[op].deleted;
    var (disk, displaced) := Change(w.disk, None);
    var other := AvatarKeyOf(displaced);
    match effect
    case Done => Then(w.(disk := disk), op, if other != key then other else None)
    case Refused => w.(ops := w.ops - {op}, lost := w.lost + (if key.Some? then {key.value} else {}))
    case DoneThenFailed => w.(disk := disk, ops := w.ops - {op}, leaked := w.leaked + w.disk.Named() * w.disk.objects)
  }

  function Apply(w: World, s: Step): World {
    if !Possible(w, s) then w else
    match s
    case Put(op, uuid, effect) => PutAt(w, op, KeyFor(uuid), effect)
    case Point(op, effect) => PointAt(w, op, effect)
    case Discard(op, effect) => DiscardAt(w, op, effect)
    case Read(op) => ReadAt(w, op)
    case DeleteRead(op, effect) => DeleteReadAt(w, op, effect)
    case Clear(op, effect) => ClearAt(w, op, effect)
  }

  function Run(w: World, steps: seq<Step>): World
    decreases |steps|
  {
    if steps == [] then w else Run(Apply(w, steps[0]), steps[1..])
  }

  // ------------------------------------------------------------------ ownership

  /** The operation that has to delete this object, or to point the row at it. */
  predicate Owns(op: Op, key: string) {
    (op.Uploading? || op.Discarding?) && op.key == key
  }

  predicate Mentions(op: Op, key: string) {
    match op
    case Uploading(k) => k == key
    case Discarding(k) => k == key
    case Cleaning(k) => k == key
    case Reading(_, k) => k == key
    case Clearing(k) => k == Some(key)
  }

  ghost predicate KeysKnown(w: World) {
    && w.disk.objects <= w.used && w.disk.Named() <= w.used && w.leaked <= w.disk.objects && w.lost <= w.used
    && (forall op, key :: op in w.ops && Mentions(w.ops[op], key) ==> key in w.used)
    && (forall op :: op in w.ops && w.ops[op].Uploading? ==> IsAvatarKey(w.ops[op].key))
  }

  /** Nobody owns what the row names or what has leaked; nobody shares; and only its own
      upload knows an object no row has named yet. */
  ghost predicate Exclusive(w: World) {
    && (forall op, key :: op in w.ops && Owns(w.ops[op], key) ==> key !in w.disk.Named() && key !in w.leaked)
    && (forall p, q, key :: p in w.ops && q in w.ops && p != q && Owns(w.ops[p], key) ==> !Owns(w.ops[q], key))
    && (forall p, q :: p in w.ops && q in w.ops && p != q && w.ops[p].Uploading? ==> !Mentions(w.ops[q], w.ops[p].key))
    && (forall key :: key in w.leaked ==> key !in w.disk.Named())
  }

  /** Every object is named, owned or leaked. */
  ghost predicate Accounted(w: World) {
    forall key :: key in w.disk.objects ==>
      key in w.disk.Named() || key in w.leaked || exists op :: op in w.ops && Owns(w.ops[op], key)
  }

  /** An upload's object is there; what the row names is there, unless a removal deleted it
      and its row change is still to come, or it is lost. */
  ghost predicate Present(w: World) {
    && (forall op :: op in w.ops && w.ops[op].Uploading? ==> w.ops[op].key in w.disk.objects && w.ops[op].key !in w.lost)
    && (forall op, key :: op in w.ops && w.ops[op] == Clearing(Some(key)) ==> key !in w.disk.objects)
    && (forall key :: key in w.lost ==> key !in w.disk.objects)
    && (forall key :: key in w.disk.Named() && key !in w.disk.objects ==>
          key in w.lost || exists op :: op in w.ops && w.ops[op] == Clearing(Some(key)))
  }

  ghost predicate Inv(w: World) {
    KeysKnown(w) && Exclusive(w) && Accounted(w) && Present(w)
  }

  ghost predicate Fresh(w: World) {
    && w.disk.objects == w.disk.Named() && w.ops == map[] && w.leaked == {} && w.lost == {}
    && w.disk.objects <= w.used
  }

  lemma NamedStays(d: Disk, e: Disk)
    requires d.avatarUrl == e.avatarUrl
    ensures d.Named() == e.Named()
  {
  }

  lemma {:induction false} PutDoneExclusive(w: World, op: nat, uuid: string, effect: Effect)
    requires KeysKnown(w) && Exclusive(w) && Possible(w, Put(op, uuid, effect)) && effect == Done
    ensures var v := Apply(w, Put(op, uuid, effect)); KeysKnown(v) && Exclusive(v)
  {
    var v := Apply(w, Put(op, uuid, effect));
    NamedStays(w.disk, v.disk);
    assert forall o :: o in w.ops ==> o in v.ops && v.ops[o] == w.ops[o];
    assert forall o :: o in v.ops && o != op ==> o in w.ops;
    assert IsAvatarKey(KeyFor(uuid));
    assert Owns(v.ops[op], KeyFor(uuid));
    hide Disk.Named, IsAvatarKey, KeyFor;
  }

  lemma {:induction false} PutDoneAccounted(w: World, op: nat, uuid: string, effect: Effect)
    requires KeysKnown(w) && Exclusive(w) && Accounted(w) && Present(w) && Possible(w, Put(op, uuid, effect)) && effect == Done
    ensures var v := Apply(w, Put(op, uuid, effect)); Accounted(v) && Present(v)
  {
    var v := Apply(w, Put(op, uuid, effect));
    NamedStays(w.disk, v.disk);
    assert forall o :: o in w.ops ==> o in v.ops && v.ops[o] == w.ops[o];
    assert forall o :: o in v.ops && o != op ==> o in w.ops;
    assert IsAvatarKey(KeyFor(uuid));
    assert Owns(v.ops[op], KeyFor(uuid));
    hide Disk.Named, IsAvatarKey, KeyFor;
    forall key | key in v.disk.objects && key !in v.disk.Named() && key !in v.leaked
      ensures exists o :: o in v.ops && Owns(v.ops[o], key)
    {
      if key in w.disk.objects {
        var o :| o in w.ops && Owns(w.ops[o], key);
        assert Owns(v.ops[o], key);
      }
    }
  }

  lemma {:induction false} PutFailedExclusive(w: World, op: nat, uuid: string, effect: Effect)
    requires KeysKnown(w) && Exclusive(w) && Possible(w, Put(op, uuid, effect)) && effect != Done
    ensures var v := Apply(w, Put(op, uuid, effect)); KeysKnown(v) && Exclusive(v)
  {
    var v := Apply(w, Put(op, uuid, effect));
    NamedStays(w.disk, v.disk);
    assert forall o :: o in w.ops ==> o in v.ops && v.ops[o] == w.ops[o];
    assert forall o :: o in v.ops && o != op ==> o in w.ops;
    hide Disk.Named, IsAvatarKey;
  }

  lemma {:induction false} PutFailedAccounted(w: World, op: nat, uuid: string, effect: Effect)
    requires KeysKnown(w) && Exclusive(w) && Accounted(w) && Present(w) && Possible(w, Put(op, uuid, effect)) && effect != Done
    ensures var v := Apply(w, Put(op, uuid, effect)); Accounted(v) && Present(v)
  {
    var v := Apply(w, Put(op, uuid, effect));
    NamedStays(w.disk, v.disk);
    assert forall o :: o in w.ops ==> o in v.ops && v.ops[o] == w.ops[o];
    assert forall o :: o in v.ops && o != op ==> o in w.ops;
    hide Disk.Named, IsAvatarKey;
  }

  lemma {:induction false} PutKeeps(w: World, op: nat, uuid: string, effect: Effect)
    requires Inv(w) && Possible(w, Put(op, uuid, effect))
    ensures Inv(Apply(w, Put(op, uuid, effect)))
  {
    hide KeysKnown, Exclusive, Accounted, Present, Apply, Possible;
    if effect == Done {
      PutDoneExclusive(w, op, uuid, effect);
      PutDoneAccounted(w, op, uuid, effect);
    } else {
      PutFailedExclusive(w, op, uuid, effect);
      PutFailedAccounted(w, op, uuid, effect);
    }
  }

  /** The row has changed over to the upload's own object, and the operation takes on the
      one the row named before. */
  ghost predicate Pointed(w: World, op: nat, v: World) {
    && op in w.ops && w.ops[op].Uploading?
    && v.disk.objects == w.disk.objects && v.used == w.used && v.leaked == w.leaked && v.lost == w.lost
    && v.disk.Named() == {w.ops[op].key}
    && (forall o :: o != op ==> (o in v.ops <==> o in w.ops) && (o in w.ops ==> v.ops[o] == w.ops[o]))
    && (op in v.ops ==> v.ops[op].Discarding? && w.disk.Named() == {v.ops[op].key})
    && (op !in v.ops ==> w.disk.Named() == {})
  }

  lemma {:induction false} PointedExclusive(w: World, op: nat, v: World)
    requires KeysKnown(w) && Exclusive(w) && Pointed(w, op, v)
    ensures KeysKnown(v) && Exclusive(v)
  {
    hide Disk.Named, IsAvatarKey;
    assert Owns(w.ops[op], w.ops[op].key) && Mentions(w.ops[op], w.ops[op].key);
    forall o, key | o in v.ops && Mentions(v.ops[o], key) ensures key in v.used {
      assert o != op ==> Mentions(w.ops[o], key);
    }
    forall o, key | o in v.ops && Owns(v.ops[o], key) ensures key != w.ops[op].key {
      assert o != op ==> Mentions(w.ops[o], key);
    }
    forall p, q, key | p in v.ops && q in v.ops && p != q && Owns(v.ops[p], key) ensures !Owns(v.ops[q], key) {
      assert p != op ==> Owns(w.ops[p], key);
      assert q != op ==> w.ops[q] == v.ops[q];
    }
  }

  lemma {:induction false} PointedAccounted(w: World, op: nat, v: World)
    requires Accounted(w) && Present(w) && Pointed(w, op, v)
    ensures Accounted(v) && Present(v)
  {
    hide Disk.Named;
    assert op in v.ops ==> Owns(v.ops[op], v.ops[op].key);
    forall key | key in v.disk.objects && key !in v.disk.Named() && key !in v.leaked
      ensures exists o :: o in v.ops && Owns(v.ops[o], key)
    {
      if key !in w.disk.Named() {
        var o :| o in w.ops && Owns(w.ops[o], key);
        assert Owns(v.ops[o], key);
      }
    }
  }

  lemma {:induction false} RefusedExclusive(w: World, op: nat)
    requires KeysKnown(w) && Exclusive(w) && Possible(w, Point(op, Refused))
    ensures var v := Apply(w, Point(op, Refused)); KeysKnown(v) && Exclusive(v)
  {
    hide Disk.Named, IsAvatarKey;
    var key := w.ops[op].key;
    var v := Apply(w, Point(op, Refused));
    assert v == w.(ops := w.ops[op := Discarding(key)]);
    assert forall o, k :: o in w.ops ==> (Owns(v.ops[o], k) <==> Owns(w.ops[o], k)) && (Mentions(v.ops[o], k) <==> Mentions(w.ops[o], k));
    assert forall o :: o in v.ops <==> o in w.ops;
    assert forall o :: o in v.ops && o != op ==> v.ops[o] == w.ops[o];
    hide Owns, Mentions;
  }

  lemma {:induction false} RefusedAccounted(w: World, op: nat)
    requires KeysKnown(w) && Exclusive(w) && Accounted(w) && Present(w) && Possible(w, Point(op, Refused))
    ensures var v := Apply(w, Point(op, Refused)); Accounted(v) && Present(v)
  {
    hide Disk.Named, IsAvatarKey;
    var key := w.ops[op].key;
    var v := Apply(w, Point(op, Refused));
    assert v == w.(ops := w.ops[op := Discarding(key)]);
    assert forall o, k :: o in w.ops ==> (Owns(v.ops[o], k) <==> Owns(w.ops[o], k)) && (Mentions(v.ops[o], k) <==> Mentions(w.ops[o], k));
    assert forall o :: o in v.ops <==> o in w.ops;
    assert forall o :: o in v.ops && o != op ==> v.ops[o] == w.ops[o];
    hide Owns, Mentions;
  }

  lemma {:induction false} RefusedKeeps(w: World, op: nat)
    requires Inv(w) && Possible(w, Point(op, Refused))
    ensures Inv(Apply(w, Point(op, Refused)))
  {
    hide KeysKnown, Exclusive, Accounted, Present, Apply, Possible;
    RefusedExclusive(w, op);
    RefusedAccounted(w, op);
  }

  /** The change took effect and failed: the row names the upload's object, the upload is about
      to delete it, and nobody knows of the one it displaced. */
  ghost predicate Torn(w: World, op: nat, v: World) {
    && op in w.ops && w.ops[op].Uploading?
    && v.disk.objects == w.disk.objects && v.used == w.used && v.lost == w.lost
    && v.disk.Named() == {w.ops[op].key}
    && v.leaked == w.leaked + w.disk.Named() * w.disk.objects
    && v.ops == w.ops[op := Cleaning(w.ops[op].key)]
  }

  lemma {:induction false} TornExclusive(w: World, op: nat, v: World)
    requires KeysKnown(w) && Exclusive(w) && Torn(w, op, v)
    ensures KeysKnown(v) && Exclusive(v)
  {
    hide Disk.Named, IsAvatarKey;
    var key := w.ops[op].key;
    assert Owns(w.ops[op], key) && Mentions(w.ops[op], key);
    assert forall o :: o in v.ops && o != op ==> o in w.ops && v.ops[o] == w.ops[o];
    forall o, k | o in v.ops && Owns(v.ops[o], k) ensures o != op && k != key && k !in v.leaked {
      assert o != op ==> Mentions(w.ops[o], k);
    }
  }

  lemma {:induction false} TornAccounted(w: World, op: nat, v: World)
    requires KeysKnown(w) && Exclusive(w) && Accounted(w) && Present(w) && Torn(w, op, v)
    ensures Accounted(v) && Present(v)
  {
    hide Disk.Named, IsAvatarKey;
    assert Owns(w.ops[op], w.ops[op].key);
    forall key | key in v.disk.objects && key !in v.disk.Named() && key !in v.leaked
      ensures exists o :: o in v.ops && Owns(v.ops[o], key)
    {
      var o :| o in w.ops && Owns(w.ops[o], key);
      assert Owns(v.ops[o], key);
    }
  }

  lemma {:induction false} PointKeeps(w: World, op: nat, effect: Effect)
    requires Inv(w) && Possible(w, Point(op, effect))
    ensures Inv(Apply(w, Point(op, effect)))
  {
    hide Exclusive, Accounted, Present;
    var key := w.ops[op].key;
    if effect == Refused {
      RefusedKeeps(w, op);
    } else {
      AvatarKeyExact(ToMediaAssetUrl(key), key);
      var v := Apply(w, Point(op, effect));
      hide KeysKnown;
      if effect == Done {
        assert Pointed(w, op, v);
        PointedExclusive(w, op, v);
        PointedAccounted(w, op, v);
      } else {
        assert Torn(w, op, v);
        TornExclusive(w, op, v);
        TornAccounted(w, op, v);
      }
    }
  }

  lemma {:induction false} DiscardExclusive(w: World, op: nat, effect: Effect)
    requires KeysKnown(w) && Exclusive(w) && Possible(w, Discard(op, effect))
    ensures var v := Apply(w, Discard(op, effect)); KeysKnown(v) && Exclusive(v)
  {
    hide Disk.Named, IsAvatarKey;
    var key := w.ops[op].key;
    var v := Apply(w, Discard(op, effect));
    NamedStays(w.disk, v.disk);
    assert Mentions(w.ops[op], key) && (w.ops[op].Discarding? ==> Owns(w.ops[op], key));
    assert forall o :: o in v.ops <==> o in w.ops && o != op;
    assert forall o :: o in v.ops ==> v.ops[o] == w.ops[o];
  }

  lemma {:induction false} DiscardAccounted(w: World, op: nat, effect: Effect)
    requires KeysKnown(w) && Exclusive(w) && Accounted(w) && Present(w) && Possible(w, Discard(op, effect))
    ensures var v := Apply(w, Discard(op, effect)); Accounted(v) && Present(v)
  {
    hide Disk.Named, IsAvatarKey;
    var key := w.ops[op].key;
    var v := Apply(w, Discard(op, effect));
    NamedStays(w.disk, v.disk);
    assert Mentions(w.ops[op], key) && (w.ops[op].Discarding? ==> Owns(w.ops[op], key));
    assert forall o :: o in v.ops <==> o in w.ops && o != op;
    assert forall o :: o in v.ops ==> v.ops[o] == w.ops[o];
  }

  lemma {:induction false} DiscardKeeps(w: World, op: nat, effect: Effect)
    requires Inv(w) && Possible(w, Discard(op, effect))
    ensures Inv(Apply(w, Discard(op, effect)))
  {
    hide KeysKnown, Exclusive, Accounted, Present, Apply, Possible;
    DiscardExclusive(w, op, effect);
    DiscardAccounted(w, op, effect);
  }

  lemma {:induction false} ReadExclusive(w: World, op: nat)
    requires KeysKnown(w) && Exclusive(w) && Possible(w, Read(op))
    ensures var v := Apply(w, Read(op)); KeysKnown(v) && Exclusive(v)
  {
    var v := Apply(w, Read(op));
    assert forall o :: o in w.ops ==> o in v.ops && v.ops[o] == w.ops[o];
    assert op in v.ops && v.ops[op].Reading? ==> w.disk.Named() == {v.ops[op].key};
    hide Disk.Named, IsAvatarKey, AvatarKeyOf;
  }

  lemma {:induction false} ReadAccounted(w: World, op: nat)
    requires KeysKnown(w) && Exclusive(w) && Accounted(w) && Present(w) && Possible(w, Read(op))
    ensures var v := Apply(w, Read(op)); Accounted(v) && Present(v)
  {
    var v := Apply(w, Read(op));
    assert forall o :: o in w.ops ==> o in v.ops && v.ops[o] == w.ops[o];
    assert op in v.ops && v.ops[op].Reading? ==> w.disk.Named() == {v.ops[op].key};
    hide Disk.Named, IsAvatarKey, AvatarKeyOf;
  }

  lemma {:induction false} ReadKeeps(w: World, op: nat)
    requires Inv(w) && Possible(w, Read(op))
    ensures Inv(Apply(w, Read(op)))
  {
    hide KeysKnown, Exclusive, Accounted, Present, Apply, Possible;
    ReadExclusive(w, op);
    ReadAccounted(w, op);
  }

  lemma {:induction false} DeleteReadExclusive(w: World, op: nat, effect: Effect)
    requires KeysKnown(w) && Exclusive(w) && Possible(w, DeleteRead(op, effect))
    ensures var v := Apply(w, DeleteRead(op, effect)); KeysKnown(v) && Exclusive(v)
  {
    hide Disk.Named, IsAvatarKey;
    var key := w.ops[op].key;
    var v := Apply(w, DeleteRead(op, effect));
    NamedStays(w.disk, v.disk);
    assert Mentions(w.ops[op], key);
    assert forall o :: o in v.ops && o != op ==> o in w.ops;
    assert forall o :: o in w.ops && o != op ==> o in v.ops && v.ops[o] == w.ops[o];
    if effect == Done {
      assert v.ops[op] == Clearing(Some(key));
    }
  }

  lemma {:induction false} DeleteReadAccounted(w: World, op: nat, effect: Effect)
    requires KeysKnown(w) && Exclusive(w) && Accounted(w) && Present(w) && Possible(w, DeleteRead(op, effect))
    ensures var v := Apply(w, DeleteRead(op, effect)); Accounted(v) && Present(v)
  {
    hide Disk.Named, IsAvatarKey;
    var key := w.ops[op].key;
    var v := Apply(w, DeleteRead(op, effect));
    NamedStays(w.disk, v.disk);
    assert Mentions(w.ops[op], key);
    assert forall o :: o in v.ops && o != op ==> o in w.ops;
    assert forall o :: o in w.ops && o != op ==> o in v.ops && v.ops[o] == w.ops[o];
    if effect == Done {
      assert v.ops[op] == Clearing(Some(key));
    }
  }

  lemma {:induction false} DeleteReadKeeps(w: World, op: nat, effect: Effect)
    requires Inv(w) && Possible(w, DeleteRead(op, effect))
    ensures Inv(Apply(w, DeleteRead(op, effect)))
  {
    hide KeysKnown, Exclusive, Accounted, Present, Apply, Possible;
    DeleteReadExclusive(w, op, effect);
    DeleteReadAccounted(w, op, effect);
  }

  lemma {:induction false} UnclearedExclusive(w: World, op: nat, effect: Effect)
    requires KeysKnown(w) && Exclusive(w) && Possible(w, Clear(op, effect)) && effect == Refused
    ensures var v := Apply(w, Clear(op, effect)); KeysKnown(v) && Exclusive(v)
  {
    var v := Apply(w, Clear(op, effect));
    assert forall o :: o in v.ops && o != op ==> o in w.ops;
    assert forall o :: o in w.ops && o != op ==> o in v.ops && v.ops[o] == w.ops[o];
    if w.ops[op].deleted.Some? {
      assert Mentions(w.ops[op], w.ops[op].deleted.value);
    }
    NamedStays(w.disk, v.disk);
    hide Disk.Named, IsAvatarKey, AvatarKeyOf;
  }

  lemma {:induction false} UnclearedAccounted(w: World, op: nat, effect: Effect)
    requires KeysKnown(w) && Exclusive(w) && Accounted(w) && Present(w) && Possible(w, Clear(op, effect)) && effect == Refused
    ensures var v := Apply(w, Clear(op, effect)); Accounted(v) && Present(v)
  {
    var v := Apply(w, Clear(op, effect));
    assert forall o :: o in v.ops && o != op ==> o in w.ops;
    assert forall o :: o in w.ops && o != op ==> o in v.ops && v.ops[o] == w.ops[o];
    if w.ops[op].deleted.Some? {
      assert Mentions(w.ops[op], w.ops[op].deleted.value);
    }
    NamedStays(w.disk, v.disk);
    hide Disk.Named, IsAvatarKey, AvatarKeyOf;
  }

  /** The row is cleared, and what it named is deleted already, taken on or leaked. */
  ghost predicate Cleared(w: World, op: nat, v: World) {
    && op in w.ops && w.ops[op].Clearing?
    && v.disk.objects == w.disk.objects && v.disk.Named() == {} && v.used == w.used && v.lost == w.lost
    && (forall o :: o != op ==> (o in v.ops <==> o in w.ops) && (o in w.ops ==> v.ops[o] == w.ops[o]))
    && (op in v.ops ==> v.ops[op].Discarding? && w.disk.Named() == {v.ops[op].key} && v.leaked == w.leaked)
    && (op !in v.ops ==>
          || v.leaked == w.leaked + w.disk.Named() * w.disk.objects
          || (v.leaked == w.leaked && forall key :: key in w.disk.Named() ==> w.ops[op] == Clearing(Some(key))))
  }

  lemma {:induction false} ClearedExclusive(w: World, op: nat, v: World)
    requires KeysKnown(w) && Exclusive(w) && Cleared(w, op, v)
    ensures KeysKnown(v) && Exclusive(v)
  {
    hide Disk.Named, IsAvatarKey;
    forall o, key | o in v.ops && Mentions(v.ops[o], key) ensures key in v.used {
      assert o != op ==> Mentions(w.ops[o], key);
    }
    forall o, key | o in v.ops && Owns(v.ops[o], key) ensures key !in v.leaked {
      assert o != op ==> Owns(w.ops[o], key);
    }
    forall p, q, key | p in v.ops && q in v.ops && p != q && Owns(v.ops[p], key) ensures !Owns(v.ops[q], key) {
      assert p != op ==> Owns(w.ops[p], key);
      assert q != op ==> w.ops[q] == v.ops[q];
    }
    forall p, q | p in v.ops && q in v.ops && p != q && v.ops[p].Uploading? ensures !Mentions(v.ops[q], v.ops[p].key) {
      assert Owns(w.ops[p], w.ops[p].key);
    }
  }

  lemma {:induction false} ClearedAccounted(w: World, op: nat, v: World)
    requires Accounted(w) && Present(w) && Cleared(w, op, v)
    ensures Accounted(v) && Present(v)
  {
    hide Disk.Named;
    assert op in v.ops ==> Owns(v.ops[op], v.ops[op].key);
    forall key | key in v.disk.objects && key !in v.leaked ensures exists o :: o in v.ops && Owns(v.ops[o], key) {
      if key !in w.disk.Named() {
        var o :| o in w.ops && Owns(w.ops[o], key);
        assert Owns(v.ops[o], key);
      }
    }
  }

  lemma ClearIsCleared(w: World, op: nat, effect: Effect)
    requires Possible(w, Clear(op, effect)) && effect != Refused
    ensures Cleared(w, op, Apply(w, Clear(op, effect)))
  {
  }

  lemma {:induction false} ClearKeeps(w: World, op: nat, effect: Effect)
    requires Inv(w) && Possible(w, Clear(op, effect))
    ensures Inv(Apply(w, Clear(op, effect)))
  {
    hide KeysKnown, Exclusive, Accounted, Present, Apply, Possible;
    if effect == Refused {
      UnclearedExclusive(w, op, effect);
      UnclearedAccounted(w, op, effect);
    } else {
      ClearIsCleared(w, op, effect);
      ClearedExclusive(w, op, Apply(w, Clear(op, effect)));
      ClearedAccounted(w, op, Apply(w, Clear(op, effect)));
    }
  }

  lemma ImpossibleStays(w: World, s: Step)
    requires !Possible(w, s)
    ensures Apply(w, s) == w
  {
  }

  lemma {:induction false} RunKeeps(w: World, steps: seq<Step>)
    requires Inv(w)
    ensures Inv(Run(w, steps))
    decreases |steps|
  {
    hide Inv, Apply;
    if steps != [] {
      if Possible(w, steps[0]) {
        match steps[0]
        case Put(op, uuid, effect) => PutKeeps(w, op, uuid, effect);
        case Point(op, effect) => PointKeeps(w, op, effect);
        case Discard(op, effect) => DiscardKeeps(w, op, effect);
        case Read(op) => ReadKeeps(w, op);
        case DeleteRead(op, effect) => DeleteReadKeeps(w, op, effect);
        case Clear(op, effect) => ClearKeeps(w, op, effect);
      } else {
        ImpossibleStays(w, steps[0]);
      }
      RunKeeps(Apply(w, steps[0]), steps[1..]);
    }
  }

  // ------------------------------------------------------------------ what it promises

  /** On the way: an object the row does not name has leaked, or exactly one operation is
      there to point the row at it or to delete it. */
  lemma OwnedByExactlyOne(w: World, steps: seq<Step>, key: string)
    requires Fresh(w)
    requires key in Run(w, steps).disk.objects && key !in Run(w, steps).disk.Named() && key !in Run(w, steps).leaked
    ensures var v := Run(w, steps);
            exists op :: op in v.ops && Owns(v.ops[op], key)
                         && forall other :: other in v.ops && Owns(v.ops[other], key) ==> other == op
  {
    RunKeeps(w, steps);
    var v := Run(w, steps);
    var op :| op in v.ops && Owns(v.ops[op], key);
  }

  /** Once everything has finished, whatever failed on the way and however: the orphans are
      exactly the leaked objects, and the row dangles exactly when what it names is lost. */
  lemma ConservationExact(w: World, steps: seq<Step>)
    requires Fresh(w) && Run(w, steps).ops == map[]
    ensures var v := Run(w, steps);
            && v.disk.objects - v.disk.Named() == v.leaked
            && v.disk.Named() - v.disk.objects == v.disk.Named() * v.lost
  {
    RunKeeps(w, steps);
  }

  /** Uploads may be refused, and so may a removal's first delete; nothing takes effect and then
      fails, and quiet deletes and removals' row changes are done. */
  predicate Reliable(s: Step) {
    match s
    case Put(_, _, effect) => effect != DoneThenFailed
    case Point(_, effect) => effect != DoneThenFailed
    case Discard(_, effect) => effect == Done
    case DeleteRead(_, effect) => effect != DoneThenFailed
    case Clear(_, effect) => effect == Done
    case _ => true
  }

  ghost predicate Harmless(w: World) {
    && w.leaked == {} && w.lost == {}
    && (forall op :: op in w.ops ==> !w.ops[op].Cleaning?)
    && (forall op :: op in w.ops && w.ops[op].Discarding? ==> w.ops[op].key !in w.disk.Named())
  }

  lemma {:induction false} ReliableStep(w: World, s: Step)
    requires Inv(w) && Harmless(w) && Reliable(s)
    ensures Apply(w, s).leaked == {} && Apply(w, s).lost == {}
    ensures forall op :: op in Apply(w, s).ops ==> !Apply(w, s).ops[op].Cleaning?
  {
    hide Disk.Named, KeysKnown, Exclusive, Accounted, Present;
  }

  lemma {:induction false} ReliableLosesNothing(w: World, steps: seq<Step>)
    requires Inv(w) && Harmless(w)
    requires forall i :: 0 <= i < |steps| ==> Reliable(steps[i])
    ensures Run(w, steps).leaked == {} && Run(w, steps).lost == {}
    decreases |steps|
  {
    if steps != [] {
      assert Reliable(steps[0]);
      ReliableStep(w, steps[0]);
      RunKeeps(w, [steps[0]]);
      assert Run(w, [steps[0]]) == Apply(w, steps[0]) by {
        assert [steps[0]][1..] == [];
        assert Run(Apply(w, steps[0]), []) == Apply(w, steps[0]);
      }
      StillHarmless(Apply(w, steps[0]));
      ReliableLosesNothing(Apply(w, steps[0]), steps[1..]);
    }
  }

  lemma StillHarmless(w: World)
    requires Inv(w) && w.leaked == {} && w.lost == {} && forall op :: op in w.ops ==> !w.ops[op].Cleaning?
    ensures Harmless(w)
  {
    forall op | op in w.ops && w.ops[op].Discarding? ensures w.ops[op].key !in w.disk.Named() {
      assert Owns(w.ops[op], w.ops[op].key);
    }
  }

  /** When that is so, the store ends up holding exactly the object `avatar_url` names. */
  lemma Conservation(w: World, steps: seq<Step>)
    requires Fresh(w) && Run(w, steps).ops == map[]
    requires forall i :: 0 <= i < |steps| ==> Reliable(steps[i])
    ensures Run(w, steps).disk.objects == Run(w, steps).disk.Named()
  {
    ConservationExact(w, steps);
    ReliableLosesNothing(w, steps);
    var v := Run(w, steps);
    var objects, named := v.disk.objects, v.disk.Named();
    hide *;
    assert objects - named == {} && named - objects == {};
    assert objects == named;
  }

  /** An upload with nothing else going on is the run of its own steps, whatever fails. */
  lemma {:induction false} UploadAloneIsARun(w: World, uuid: string, put: Effect, change: Effect, delete: Effect)
    requires Fresh(w) && IsUuid(uuid) && KeyFor(uuid) !in w.used
    ensures Run(w, [Put(0, uuid, put), Point(0, change), Discard(0, delete)]).disk
         == UploadAlone(w.disk, KeyFor(uuid), put, change, delete)
    ensures Run(w, [Put(0, uuid, put), Point(0, change), Discard(0, delete)]).ops == map[]
  {
    var s0, s1, s2 := Put(0, uuid, put), Point(0, change), Discard(0, delete);
    var w1 := Apply(w, s0);
    var w2 := Apply(w1, s1);
    assert [s0, s1, s2][1..] == [s1, s2] && [s1, s2][1..] == [s2] && [s2][1..] == [];
    assert Run(w, [s0, s1, s2]) == Run(w1, [s1, s2]) == Run(w2, [s2]) == Run(Apply(w2, s2), []);
  }

  lemma RunTwo(w: World, s0: Step, s1: Step)
    ensures Run(w, [s0, s1]) == Apply(Apply(w, s0), s1)
  {
    hide Apply;
    assert [s0, s1][1..] == [s1] && [s1][1..] == [];
    assert Run(w, [s0, s1]) == Run(Apply(w, s0), [s1]) == Run(Apply(Apply(w, s0), s1), []);
  }

  lemma ReadAndDelete(w: World, delete: Effect)
    requires w.ops == map[]
    ensures var key := AvatarKeyOf(w.disk.avatarUrl);
            var v := Apply(Apply(w, Read(0)), DeleteRead(0, delete));
            && v.disk == (if key.Some? then DeleteWith(w.disk, key.value, delete) else w.disk)
            && v.ops == if (key.Some? && delete != Done) || !Truthy(w.disk.avatarUrl) then map[] else map[0 := Clearing(key)]
  {
    assert AvatarKeyOf(w.disk.avatarUrl).Some? ==> Truthy(w.disk.avatarUrl);
    hide AvatarKeyOf;
    var v := Apply(Apply(w, Read(0)), DeleteRead(0, delete));
    assert v.ops.Keys == {} || v.ops.Keys == {0};
  }

  lemma ClearAndDiscard(w: World, key: Option<string>, change: Effect, cleanup: Effect)
    requires w.ops == map[0 := Clearing(key)]
    ensures var other := AvatarKeyOf(w.disk.avatarUrl);
            var cleared := ChangeWith(w.disk, None, change);
            var v := Apply(Apply(w, Clear(0, change)), Discard(0, cleanup));
            && v.disk == (if change == Done && other.Some? && other != key then DeleteWith(cleared, other.value, cleanup) else cleared)
            && v.ops == map[]
  {
    hide AvatarKeyOf;
    var v := Apply(Apply(w, Clear(0, change)), Discard(0, cleanup));
    assert v.ops.Keys == {};
  }

  /** A removal is the run of its own steps, whatever fails and whatever others make of the two
      stores between its delete and its row change; and with them it has finished. */
  lemma {:induction false} RemoveIsARun(w: World, delete: Effect, change: Effect, cleanup: Effect, meanwhile: Disk -> Disk)
    requires w.ops == map[]
    ensures var read := Run(w, [Read(0), DeleteRead(0, delete)]);
            var found := if 0 in read.ops then read.(disk := meanwhile(read.disk)) else read;
            var v := Run(found, [Clear(0, change), Discard(0, cleanup)]);
            v.disk == RemoveAround(w.disk, delete, change, cleanup, meanwhile) && v.ops == map[]
  {
    RunTwo(w, Read(0), DeleteRead(0, delete));
    var read := Run(w, [Read(0), DeleteRead(0, delete)]);
    var found := if 0 in read.ops then read.(disk := meanwhile(read.disk)) else read;
    RunTwo(found, Clear(0, change), Discard(0, cleanup));
    ReadAndDelete(w, delete);
    if 0 in read.ops {
      ClearAndDiscard(found, AvatarKeyOf(w.disk.avatarUrl), change, cleanup);
    } else {
      assert found == read && Apply(Apply(read, Clear(0, change)), Discard(0, cleanup)) == read;
    }
    hide Run, AvatarKeyOf, Apply;
  }

  /** One upload whose change takes effect and then fails: its cleanup leaves the row naming
      nothing, and the photo it replaced behind. */
  lemma TornUpload(w: World, uuid: string)
    requires Fresh(w) && IsUuid(uuid) && KeyFor(uuid) !in w.used
    ensures var v := Run(w, [Put(0, uuid, Done), Point(0, DoneThenFailed), Discard(0, Done)]);
            && v.disk.Named() - v.disk.objects == {KeyFor(uuid)}
            && v.disk.objects - v.disk.Named() == w.disk.objects
  {
    UploadAloneIsARun(w, uuid, Done, DoneThenFailed, Done);
    AloneConserves(w.disk, uuid);
  }
}
