/** The account photo (src/profile-photo/user-avatar.service.ts): object storage, which has
    no transactions, and `avatar_url`, changed under a row lock. */
module Avatar {
  import opened Prelude

  const MEDIA_PUBLIC_PATH := "/api/v1/public/media"
  const AVATAR_PREFIX := "users/avatars"

  function ToMediaAssetUrl(storageKey: string): string {
    MEDIA_PUBLIC_PATH + "/" + storageKey
  }

  predicate IsUuid(s: string) {
    && |s| == 36
    && forall i :: 0 <= i < 36 ==>
         if i == 8 || i == 13 || i == 18 || i == 23 then s[i] == '-'
         else '0' <= s[i] <= '9' || 'a' <= s[i] <= 'f'
  }

  predicate IsAvatarFile(name: string) {
    |name| == 41 && IsUuid(name[..36]) && name[36..] == ".webp"
  }

  function KeyFor(uuid: string): string {
    AVATAR_PREFIX + "/" + uuid + ".webp"
  }

  ghost predicate IsAvatarKey(key: string) {
    exists uuid :: IsUuid(uuid) && key == KeyFor(uuid)
  }

  /** The storage key behind one of our own avatar URLs, else `None`. */
  function AvatarKeyOf(url: Option<string>): Option<string> {
    if url.None? || url.value == "" then None
    else
      var prefix := ToMediaAssetUrl(AVATAR_PREFIX) + "/";
      if !(prefix <= url.value) then None
      else
        var name := url.value[|prefix|..];
        if IsAvatarFile(name) then Some(AVATAR_PREFIX + "/" + name) else None
  }

  /** The URL and the key of an avatar determine each other, and no other URL has a key. */
  lemma AvatarKeyExact(url: string, key: string)
    ensures AvatarKeyOf(Some(url)) == Some(key) <==> IsAvatarKey(key) && url == ToMediaAssetUrl(key)
  {
    if AvatarKeyOf(Some(url)) == Some(key) {
      KeyNamesUrl(url, key);
    }
    if IsAvatarKey(key) && url == ToMediaAssetUrl(key) {
      UrlHoldsKey(url, key);
    }
  }

  lemma KeyNamesUrl(url: string, key: string)
    requires AvatarKeyOf(Some(url)) == Some(key)
    ensures IsAvatarKey(key) && url == ToMediaAssetUrl(key)
  {
    hide MEDIA_PUBLIC_PATH, AVATAR_PREFIX;
    var prefix := ToMediaAssetUrl(AVATAR_PREFIX) + "/";
    var name := url[|prefix|..];
    assert name == name[..36] + ".webp";
    assert key == KeyFor(name[..36]);
    assert url == prefix + name;
    assert url == ToMediaAssetUrl(key);
  }

  lemma UrlHoldsKey(url: string, key: string)
    requires IsAvatarKey(key) && url == ToMediaAssetUrl(key)
    ensures AvatarKeyOf(Some(url)) == Some(key)
  {
    hide MEDIA_PUBLIC_PATH, AVATAR_PREFIX;
    var prefix := ToMediaAssetUrl(AVATAR_PREFIX) + "/";
    var uuid :| IsUuid(uuid) && key == KeyFor(uuid);
    var name := uuid + ".webp";
    assert name[..36] == uuid && name[36..] == ".webp";
    assert url == prefix + name;
    assert url[|prefix|..] == name;
    assert key == AVATAR_PREFIX + "/" + name;
  }

  predicate IsHex(s: string) { forall c :: c in s ==> c in "0123456789abcdef" }

  /** Hexadecimal groups of 8, 4, 4, 4 and 12. */
  predicate Groups(uuid: string) {
    && |uuid| == 36
    && IsHex(uuid[..8]) && uuid[8] == '-' && IsHex(uuid[9..13]) && uuid[13] == '-' && IsHex(uuid[14..18])
    && uuid[18] == '-' && IsHex(uuid[19..23]) && uuid[23] == '-' && IsHex(uuid[24..])
  }

  /** Letter by letter: which URL has a key, and which. */
  lemma {:induction false} AddressExactly(url: string, key: string)
    ensures AvatarKeyOf(None) == None
    ensures AvatarKeyOf(Some(url)) == Some(key) <==>
              exists uuid :: Groups(uuid) && key == "users/avatars/" + uuid + ".webp"
                             && url == "/api/v1/public/media/users/avatars/" + uuid + ".webp"
  {
    AvatarKeyExact(url, key);
    assert "users/avatars" + "/" == "users/avatars/";
    assert "/api/v1/public/media" + "/" == "/api/v1/public/media/";
    assert "/api/v1/public/media/" + "users/avatars/" == "/api/v1/public/media/users/avatars/";
    forall uuid
      ensures Groups(uuid) <==> IsUuid(uuid)
      ensures KeyFor(uuid) == "users/avatars/" + uuid + ".webp"
      ensures ToMediaAssetUrl(KeyFor(uuid)) == "/api/v1/public/media/users/avatars/" + uuid + ".webp"
    {
      GroupsAreUuids(uuid);
      assert ToMediaAssetUrl(KeyFor(uuid)) == "/api/v1/public/media/" + ("users/avatars/" + uuid + ".webp");
    }
    hide AvatarKeyOf, Groups, IsUuid, KeyFor, ToMediaAssetUrl;
  }

  lemma GroupsAreUuids(uuid: string)
    ensures Groups(uuid) <==> IsUuid(uuid)
  {
    if |uuid| == 36 {
      HexPart(uuid, 0, 8);
      HexPart(uuid, 9, 13);
      HexPart(uuid, 14, 18);
      HexPart(uuid, 19, 23);
      HexPart(uuid, 24, 36);
      assert uuid[..8] == uuid[0..8] && uuid[24..] == uuid[24..36];
      hide IsHex;
    }
  }

  predicate HexDigit(c: char) { '0' <= c <= '9' || 'a' <= c <= 'f' }

  lemma HexPart(s: string, from: nat, to: nat)
    requires from <= to <= |s|
    ensures IsHex(s[from..to]) <==> forall i :: from <= i < to ==> HexDigit(s[i])
  {
    forall i | from <= i < to ensures HexDigit(s[i]) <==> s[i] in "0123456789abcdef" {
      HexLetters(s[i]);
    }
    assert forall i :: from <= i < to ==> s[i] == s[from..to][i - from];
    hide HexDigit;
  }

  lemma HexLetters(c: char)
    ensures c in "0123456789abcdef" <==> HexDigit(c)
  {
    var digits, letters := "0123456789", "abcdef";
    assert "0123456789abcdef" == digits + letters;
    assert '0' <= c <= '9' ==> digits[c as int - '0' as int] == c;
    assert 'a' <= c <= 'f' ==> letters[c as int - 'a' as int] == c;
  }

  // ------------------------------------------------------------------ the two stores

  datatype Disk = Disk(objects: set<string>, avatarUrl: Option<string>) {
    /** The key of the object `avatar_url` points at, when it is one of ours. */
    function Named(): set<string> {
      match AvatarKeyOf(avatarUrl) case Some(key) => {key} case None => {}
    }
  }

  /** What a call to a store did, and whether it said so: a call can take effect and then fail
      (the connection is lost at the commit, or after the object was written). */
  datatype Effect = Done | Refused | DoneThenFailed

  function PutObject(d: Disk, key: string): Disk { d.(objects := d.objects + {key}) }

  /** Deleting a missing object succeeds. */
  function DeleteObject(d: Disk, key: string): Disk { d.(objects := d.objects - {key}) }

  /** `change`: the new URL, and the one it displaced, read under the row lock. */
  function Change(d: Disk, avatarUrl: Option<string>): (Disk, Option<string>) {
    (d.(avatarUrl := avatarUrl), d.avatarUrl)
  }

  function ChangeWith(d: Disk, avatarUrl: Option<string>, effect: Effect): Disk {
    if effect == Refused then d else Change(d, avatarUrl).0
  }

  function DeleteWith(d: Disk, key: string, effect: Effect): Disk {
    if effect == Refused then d else DeleteObject(d, key)
  }

  /** One upload with nothing else going on. */
  function UploadAlone(d: Disk, key: string, put: Effect, change: Effect, delete: Effect): Disk {
    if put == Refused then d
    else
      var written := PutObject(d, key);
      if put == DoneThenFailed then written
      else
        var changed := ChangeWith(written, Some(ToMediaAssetUrl(key)), change);
        if change != Done then DeleteWith(changed, key, delete)
        else
          var replaced := AvatarKeyOf(written.avatarUrl);
          if replaced.Some? then DeleteWith(changed, replaced.value, delete) else changed
  }

  predicate Truthy(url: Option<string>) { url.Some? && url.value != "" }

  /** One removal; `meanwhile` is whatever other requests do between its delete and its
      row change, `delete` the first delete and `cleanup` the quiet one. */
  function RemoveAround(d: Disk, delete: Effect, change: Effect, cleanup: Effect, meanwhile: Disk -> Disk): Disk {
    var key := AvatarKeyOf(d.avatarUrl);
    var deleted := if key.Some? then DeleteWith(d, key.value, delete) else d;
    if (key.Some? && delete != Done) || !Truthy(d.avatarUrl) then deleted
    else
      var found := meanwhile(deleted);
      var cleared := ChangeWith(found, None, change);
      var other := AvatarKeyOf(found.avatarUrl);
      if change == Done && other.Some? && other != key then DeleteWith(cleared, other.value, cleanup) else cleared
  }

  /** What a removal reports: it is done only when every call it made was. */
  predicate RemoveAccepted(d: Disk, delete: Effect, change: Effect) {
    (AvatarKeyOf(d.avatarUrl).Some? ==> delete == Done) && (Truthy(d.avatarUrl) ==> change == Done)
  }

  /** The object goes first: when storage refuses, the photo stays set and nothing changes. */
  lemma RefusedRemovalKeeps(d: Disk, change: Effect, cleanup: Effect, meanwhile: Disk -> Disk)
    requires AvatarKeyOf(d.avatarUrl).Some?
    ensures RemoveAround(d, Refused, change, cleanup, meanwhile) == d && !RemoveAccepted(d, Refused, change)
  {
  }

  /** A removal that breaks off deletes nothing more: after its delete, whatever that did, the row
      is not touched; after its row change, what the row named by then stays in the store. */
  lemma BrokenRemoval(d: Disk, delete: Effect, change: Effect, cleanup: Effect, meanwhile: Disk -> Disk, key: string)
    requires AvatarKeyOf(d.avatarUrl) == Some(key)
    ensures delete != Done ==>
              RemoveAround(d, delete, change, cleanup, meanwhile)
              == Disk(if delete == Refused then d.objects else d.objects - {key}, d.avatarUrl)
    ensures delete == Done && change != Done ==>
              var found := meanwhile(Disk(d.objects - {key}, d.avatarUrl));
              RemoveAround(d, delete, change, cleanup, meanwhile)
              == Disk(found.objects, if change == Refused then found.avatarUrl else None)
  {
  }

  /** A removal reported as done leaves no photo set and the one it read deleted, whatever others
      do in between (no key is used twice); a photo set in between is deleted as well, and no
      other object is touched. */
  lemma AcceptedRemoval(d: Disk, delete: Effect, change: Effect, cleanup: Effect, meanwhile: Disk -> Disk, key: string)
    requires AvatarKeyOf(d.avatarUrl) == Some(key) && RemoveAccepted(d, delete, change)
    requires key !in meanwhile(DeleteObject(d, key)).objects
    ensures var found := meanwhile(DeleteObject(d, key));
            var after := RemoveAround(d, delete, change, cleanup, meanwhile);
            && after.avatarUrl == None && key !in after.objects
            && (cleanup != Refused ==> after.objects == found.objects - found.Named())
            && (cleanup == Refused ==> after.objects == found.objects)
  {
  }

  function RemoveAlone(d: Disk, delete: Effect, change: Effect): Disk {
    RemoveAround(d, delete, change, Done, found => found)
  }

  /** On a store that holds exactly what `avatar_url` names, either operation leaves the new
      photo, or none, and nothing else; an upload whose change was refused leaves no trace. But
      an upload whose change took effect and then failed deletes the photo the row now names,
      and leaves the one it replaced. */
  lemma AloneConserves(d: Disk, uuid: string)
    requires d.objects == d.Named() && IsUuid(uuid) && KeyFor(uuid) !in d.objects
    ensures UploadAlone(d, KeyFor(uuid), Done, Done, Done) == Disk({KeyFor(uuid)}, Some(ToMediaAssetUrl(KeyFor(uuid))))
    ensures UploadAlone(d, KeyFor(uuid), Done, Refused, Done) == d
    ensures RemoveAlone(d, Done, Done).objects == {} && !Truthy(RemoveAlone(d, Done, Done).avatarUrl)
    ensures UploadAlone(d, KeyFor(uuid), Done, Done, Done).Named() == {KeyFor(uuid)}
    ensures UploadAlone(d, KeyFor(uuid), Done, DoneThenFailed, Done) == Disk(d.objects, Some(ToMediaAssetUrl(KeyFor(uuid))))
    ensures UploadAlone(d, KeyFor(uuid), Done, DoneThenFailed, Done).Named() == {KeyFor(uuid)}
  {
    AvatarKeyExact(ToMediaAssetUrl(KeyFor(uuid)), KeyFor(uuid));
  }

  // ------------------------------------------------------------------ in place

  class UserAvatarService {
    var objects: set<string>
    var avatarUrl: Option<string>

    ghost function View(): Disk
      reads this
    {
      Disk(objects, avatarUrl)
    }

    constructor (objects: set<string>, avatarUrl: Option<string>)
      ensures View() == Disk(objects, avatarUrl)
    {
      this.objects, this.avatarUrl := objects, avatarUrl;
    }

    /** `None` when the transaction's outcome is an exception. */
    method ChangeUrl(url: Option<string>, effect: Effect) returns (displaced: Option<Option<string>>)
      modifies `avatarUrl
      ensures View() == ChangeWith(old(View()), url, effect)
      ensures displaced == if effect == Done then Some(old(avatarUrl)) else None
    {
      displaced := if effect == Done then Some(avatarUrl) else None;
      if effect != Refused {
        avatarUrl := url;
      }
    }

    method DeleteQuietly(key: string, effect: Effect)
      modifies `objects
      ensures View() == DeleteWith(old(View()), key, effect)
    {
      if effect != Refused {
        objects := objects - {key};
      }
    }

    method Upload(uuid: string, put: Effect, change: Effect, delete: Effect) returns (accepted: bool)
      modifies this
      ensures accepted <==> put == Done && change == Done
      ensures View() == UploadAlone(old(View()), KeyFor(uuid), put, change, delete)
    {
      var key := KeyFor(uuid);
      if put != Refused {
        objects := objects + {key};
      }
      if put != Done {
        return false;
      }
      var displaced := ChangeUrl(Some(ToMediaAssetUrl(key)), change);
      if displaced.None? {
        DeleteQuietly(key, delete);
        return false;
      }
      var replaced := AvatarKeyOf(displaced.value);
      if replaced.Some? {
        DeleteQuietly(replaced.value, delete);
      }
      return true;
    }

    method Remove(delete: Effect, change: Effect, cleanup: Effect, meanwhile: Disk -> Disk) returns (accepted: bool)
      modifies this
      ensures View() == RemoveAround(old(View()), delete, change, cleanup, meanwhile)
      ensures accepted ==> !Truthy(avatarUrl)
      ensures accepted <==> RemoveAccepted(old(View()), delete, change)
      ensures AvatarKeyOf(old(avatarUrl)).Some? && delete == Refused ==> !accepted && View() == old(View())
    {
      var current := avatarUrl;
      var key := AvatarKeyOf(current);
      if key.Some? {
        DeleteQuietly(key.value, delete);
        if delete != Done {
          return false;
        }
      }
      if Truthy(current) {
        var found := meanwhile(Disk(objects, avatarUrl));
        objects, avatarUrl := found.objects, found.avatarUrl;
        var displaced := ChangeUrl(None, change);
        if displaced.None? {
          return false;
        }
        var other := AvatarKeyOf(displaced.value);
        if other.Some? && other != key {
          DeleteQuietly(other.value, cleanup);
        }
      }
      return true;
    }
  }
}
