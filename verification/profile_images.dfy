/** Profile pictures: the upload, which stores the picture under a sanitised unique file name and
    records that name in the user's single profile-image record, and the lookup of that name.
    Both generations of the service follow the same steps. */
module ProfileImages {
  import opened Common
  import opened Tables
  import opened Records
  import opened Persistence
  import opened Catalog
  import TradeItems

  const SELECT_FILE := "Please select a file!"
  const NEEDS_NAME := "File must have a name!"
  const NO_USER := "User not found!"
  const UPLOADED := "Profile image uploaded successfully"

  /** What the upload needs of the multipart file: whether it is empty and the client's file
      name, which may be null. */
  datatype UploadedFile = UploadedFile(isEmpty: bool, originalName: Option<string>)

  // ------------------------------------------------------------------ file names

  /** The characters a stored file name may hold: `[a-zA-Z0-9._-]`. */
  predicate Allowed(c: char) {
    ('a' <= c <= 'z') || ('A' <= c <= 'Z') || ('0' <= c <= '9') || c == '.' || c == '_' || c == '-'
  }

  /** `replaceAll("[^a-zA-Z0-9._-]", "")`: drops every character outside the allowed set and
      keeps every allowed one, as often as it occurs. */
  function KeepAllowed(s: string): (r: string)
    ensures forall i :: 0 <= i < |r| ==> Allowed(r[i])
    ensures |r| <= |s|
  {
    if |s| == 0 then ""
    else
      (if Allowed(s[0]) then [s[0]] else "") + KeepAllowed(s[1..])
  }

  /** A text made of allowed characters only. */
  predicate Plain(s: string) {
    forall i :: 0 <= i < |s| ==> Allowed(s[i])
  }

  /** Sanitising leaves a plain text as it is. */
  lemma {:induction false} KeepAllowedPlain(s: string)
    requires Plain(s)
    ensures KeepAllowed(s) == s
  {
    if |s| > 0 {
      KeepAllowedPlain(s[1..]);
      assert s == [s[0]] + s[1..];
    }
  }

  /** Sanitising keeps every allowed character of the text. */
  lemma {:induction false} KeepAllowedKeeps(s: string, k: nat)
    requires k < |s| && Allowed(s[k])
    ensures s[k] in KeepAllowed(s)
  {
    if k > 0 {
      KeepAllowedKeeps(s[1..], k - 1);
    }
  }

  /** Sanitising removes both separators and keeps an allowed character such as '_'. */
  lemma KeepsSeparatorOut(s: string, k: nat)
    requires k < |s| && Allowed(s[k])
    ensures '/' !in KeepAllowed(s) && '\\' !in KeepAllowed(s)
    ensures KeepAllowed(s) != ""
  {
    var r := KeepAllowed(s);
    KeepAllowedKeeps(s, k);
    forall i | 0 <= i < |r|
      ensures r[i] != '/' && r[i] != '\\'
    {
      assert Allowed(r[i]);
    }
  }

  /** The part after the last '/': the longest suffix holding no '/' (the whole text when it has
      none). */
  function AfterLastSlash(s: string): (r: string)
    ensures '/' !in r
    ensures |r| <= |s| && r == s[|s| - |r|..]
    ensures |r| < |s| ==> s[|s| - |r| - 1] == '/'
  {
    if |s| == 0 then ""
    else if s[|s| - 1] == '/' then ""
    else
      var r := AfterLastSlash(s[..|s| - 1]);
      assert s[|s| - |r| - 1..] == s[..|s| - 1][|s| - 1 - |r|..] + [s[|s| - 1]];
      r + [s[|s| - 1]]
  }

  /** The client's file name reduced to its last path segment, either separator counting. */
  function LastSegment(original: string): (name: string)
    ensures '/' !in name && '\\' !in name
  {
    var slashed := Replace(original, "\\", "/");
    ReplaceCharRemoves(original, '\\', "/");
    var name := AfterLastSlash(slashed);
    assert forall c :: c in name ==> c in slashed;
    name
  }

  /** The name the picture is stored under: the random UUID, '_', the last segment of the
      client's name, with every character outside the allowed set dropped. It cannot name
      another folder. */
  function StoredName(uuid: string, original: string): (name: string)
    ensures forall i :: 0 <= i < |name| ==> Allowed(name[i])
    ensures '/' !in name && '\\' !in name
    ensures name != ""
  {
    var joined := uuid + "_" + LastSegment(original);
    assert joined[|uuid|] == '_';
    KeepsSeparatorOut(joined, |uuid|);
    KeepAllowed(joined)
  }

  /** A plain client name is stored as it is, behind the UUID and '_'. */
  lemma StoredNamePlain(uuid: string, name: string)
    requires Plain(uuid) && Plain(name)
    ensures StoredName(uuid, name) == uuid + "_" + name
  {
    assert '\\' !in name && '/' !in name;
    LastSegmentOfName(name);
    assert Plain(uuid + "_" + name);
    KeepAllowedPlain(uuid + "_" + name);
  }

  /** Behind the last '/' of a path comes the path's last segment. */
  lemma AfterLastSlashOf(folder: string, name: string)
    requires '/' !in name
    ensures AfterLastSlash(folder + "/" + name) == name
  {
    var path := folder + "/" + name;
    var r := AfterLastSlash(path);
    var m := |folder| + 1;
    assert path[m - 1] == '/';
    assert path[m..] == name;
    forall k | m <= k < |path|
      ensures path[k] != '/'
    {
      assert path[k] == path[m..][k - m];
    }
  }

  /** A name holding neither separator is its own last segment. */
  lemma LastSegmentOfName(name: string)
    requires '/' !in name && '\\' !in name
    ensures LastSegment(name) == name
  {
    MissingCharNotContained(name, "\\", '\\');
    ReplaceAbsent(name, "\\", "/");
  }

  /** Backslashes of a path turn into slashes; the separator before a plain name is one of them. */
  lemma SlashedPath(folder: string, sep: char, name: string)
    requires sep == '/' || sep == '\\'
    requires '\\' !in name
    ensures Replace(folder + [sep] + name, "\\", "/") == Replace(folder, "\\", "/") + "/" + name
  {
    MissingCharNotContained(name, "\\", '\\');
    ReplaceAbsent(name, "\\", "/");
    ReplaceCharConcat(folder + [sep], name, '\\', "/");
    ReplaceCharConcat(folder, [sep], '\\', "/");
    assert Replace([sep], "\\", "/") == "/";
  }

  /** The folders of the client's path are dropped, whichever separator precedes the name. */
  lemma StoredNameDropsFolders(uuid: string, folder: string, sep: char, name: string)
    requires sep == '/' || sep == '\\'
    requires '/' !in name && '\\' !in name
    ensures StoredName(uuid, folder + [sep] + name) == StoredName(uuid, name)
  {
    SlashedPath(folder, sep, name);
    AfterLastSlashOf(Replace(folder, "\\", "/"), name);
    LastSegmentOfName(name);
  }

  // ------------------------------------------------------------------ the record

  /** Position of the user's first profile-image record (what `findByUserId` returns). */
  function RecordIndex(t: Table<nat, UserProfileImage>, userId: Id): (i: Option<nat>)
    ensures i.Some? ==> i.value < |t| && t[i.value].rec.userId == userId
    ensures forall j :: 0 <= j < |t| && (i.None? || j < i.value) ==> t[j].rec.userId != userId
  {
    if |t| == 0 then None
    else if t[0].rec.userId == userId then Some(0)
    else
      match RecordIndex(t[1..], userId)
      case None => None
      case Some(k) => Some(k + 1)
  }

  /** The record at that position is the one the profile lookup of the listings reads. */
  lemma {:induction false} RecordAtIndex(t: Table<nat, UserProfileImage>, userId: Id)
    ensures ProfileRecordOf(t, userId) == (if RecordIndex(t, userId).Some? then Some(t[RecordIndex(t, userId).value].rec) else None)
  {
    if |t| > 0 && t[0].rec.userId != userId {
      RecordAtIndex(t[1..], userId);
    }
  }

  /** Two tables whose rows belong to the same users position by position find a user's first
      record at the same place. */
  lemma SameOwners(t: Table<nat, UserProfileImage>, t': Table<nat, UserProfileImage>, userId: Id)
    requires |t| == |t'| && forall j :: 0 <= j < |t| ==> t[j].rec.userId == t'[j].rec.userId
    ensures RecordIndex(t, userId) == RecordIndex(t', userId)
  {
    var a, b := RecordIndex(t, userId), RecordIndex(t', userId);
    if a.Some? && b.Some? {
      assert !(a.value < b.value) && !(b.value < a.value);
    }
  }


  /** The table after the upload records `name` for `userId`: the user's first record gets the
      new path; a user without one gets a new record under the next generated id. */
  function Upsert(t: Table<nat, UserProfileImage>, userId: Id, name: string): (r: Table<nat, UserProfileImage>)
    ensures UniqueKeys(t) ==> UniqueKeys(r)
    ensures RecordIndex(t, userId).Some? ==> |r| == |t|
    ensures RecordIndex(t, userId).None? ==> r == t + [Row(NextKey(t), UserProfileImage(userId, Some(name)))]
  {
    match RecordIndex(t, userId)
    case Some(i) => Save(t, t[i].key, t[i].rec.(imagePath := Some(name)))
    case None => Save(t, NextKey(t), UserProfileImage(userId, Some(name)))
  }

  /** With distinct ids, the user's first record is rewritten where it stands. */
  lemma UpsertInPlace(t: Table<nat, UserProfileImage>, userId: Id, name: string)
    requires UniqueKeys(t) && RecordIndex(t, userId).Some?
    ensures var i := RecordIndex(t, userId).value;
      Upsert(t, userId, name) == t[i := Row(t[i].key, t[i].rec.(imagePath := Some(name)))]
  {
    var i := RecordIndex(t, userId).value;
    SaveInPlace(t, i, t[i].rec.(imagePath := Some(name)));
  }

  // ------------------------------------------------------------------ uploadProfileImage

  /** `uploadProfileImage`: an empty file, a file without a name, or an unknown user fails with
      an invalid-argument error and leaves the records as they are; otherwise the user's record
      holds the stored name. `uuid` is the random UUID the service draws. */
  function Upload(s: Store, userId: Id, file: UploadedFile, uuid: string): (o: Outcome<string>)
    ensures file.isEmpty ==> o == Outcome(Err(InvalidArgument(SELECT_FILE)), s)
    ensures !file.isEmpty && file.originalName.None? ==> o == Outcome(Err(InvalidArgument(NEEDS_NAME)), s)
    ensures !file.isEmpty && file.originalName.Some? && userId !in Keys(s.users) ==>
      o == Outcome(Err(InvalidArgument(NO_USER)), s)
    ensures o.result.Ok? <==> !file.isEmpty && file.originalName.Some? && userId in Keys(s.users)
    ensures o.result.Ok? ==>
      && o.result.value == UPLOADED
      && o.store == s.(profileImages := Upsert(s.profileImages, userId, StoredName(uuid, file.originalName.value)))
  {
    if file.isEmpty then Outcome(Err(InvalidArgument(SELECT_FILE)), s)
    else if file.originalName.None? then Outcome(Err(InvalidArgument(NEEDS_NAME)), s)
    else if userId !in Keys(s.users) then Outcome(Err(InvalidArgument(NO_USER)), s)
    else
      var name := StoredName(uuid, file.originalName.value);
      Outcome(Ok(UPLOADED), s.(profileImages := Upsert(s.profileImages, userId, name)))
  }

  method UploadProfileImage(db: Repositories, userId: Id, file: UploadedFile, uuid: string) returns (r: Result<string>)
    requires db.Valid()
    modifies db
    ensures db.Valid()
    ensures Outcome(r, db.store) == Upload(old(db.store), userId, file, uuid)
  {
    if file.isEmpty {
      return Err(InvalidArgument(SELECT_FILE));
    }
    if file.originalName.None? {
      return Err(InvalidArgument(NEEDS_NAME));
    }
    var name := StoredName(uuid, file.originalName.value);
    if Get(db.store.users, userId).None? {
      return Err(InvalidArgument(NO_USER));
    }
    var t := db.store.profileImages;
    var found := RecordIndex(t, userId);
    var key, record;
    if found.Some? {
      key, record := t[found.value].key, t[found.value].rec;
    } else {
      key, record := NextKey(t), UserProfileImage(userId, None);
    }
    record := record.(imagePath := Some(name));
    UpsertKeepsOnePerUser(t, userId, name);
    db.store := db.store.(profileImages := Save(t, key, record));
    r := Ok(UPLOADED);
  }

  // ------------------------------------------------------------------ getProfileImage

  /** `getProfileImage`: the stored name from the user's record, or "" when the user has no
      record or the record holds no path. */
  function ProfileImage(s: Store, userId: Id): (path: string)
    ensures ProfileRecordOf(s.profileImages, userId).None? ==> path == ""
    ensures path != "" ==> ProfileRecordOf(s.profileImages, userId) == Some(UserProfileImage(userId, Some(path)))
  {
    match ProfileRecordOf(s.profileImages, userId)
    case None => ""
    case Some(record) => if record.imagePath.Some? then record.imagePath.value else ""
  }

  // ------------------------------------------------------------------ properties

  /** Rewriting a record in place, for the same user, changes only what the lookup of that
      user reads, and only when it is that user's first record. */
  lemma RewriteRecord(t: Table<nat, UserProfileImage>, i: nat, record: UserProfileImage, u: Id)
    requires i < |t| && record.userId == t[i].rec.userId
    ensures ProfileRecordOf(t[i := Row(t[i].key, record)], u)
      == if RecordIndex(t, u) == Some(i) then Some(record) else ProfileRecordOf(t, u)
  {
    var after := t[i := Row(t[i].key, record)];
    SameOwners(t, after, u);
    RecordAtIndex(t, u);
    RecordAtIndex(after, u);
  }

  /** A record added last for a user who had none is what the lookup of that user reads. */
  lemma AddRecordSelf(t: Table<nat, UserProfileImage>, key: nat, record: UserProfileImage)
    requires RecordIndex(t, record.userId).None?
    ensures ProfileRecordOf(t + [Row(key, record)], record.userId) == Some(record)
  {
    var after := t + [Row(key, record)];
    assert forall j :: 0 <= j < |t| ==> after[j] == t[j];
    assert after[|t|] == Row(key, record);
    assert RecordIndex(after, record.userId) == Some(|t|);
    RecordAtIndex(after, record.userId);
  }

  /** Adding a record for one user leaves the lookup of every other user as it was. */
  lemma AddRecordOther(t: Table<nat, UserProfileImage>, key: nat, record: UserProfileImage, u: Id)
    requires u != record.userId
    ensures ProfileRecordOf(t + [Row(key, record)], u) == ProfileRecordOf(t, u)
  {
    var after := t + [Row(key, record)];
    assert forall j :: 0 <= j < |t| ==> after[j] == t[j];
    assert RecordIndex(after, u) == RecordIndex(t, u);
    RecordAtIndex(t, u);
    RecordAtIndex(after, u);
  }

  /** The upload's record is the one later lookups read, and no other user's record changes. */
  lemma UpsertRecord(t: Table<nat, UserProfileImage>, userId: Id, name: string, other: Id)
    requires UniqueKeys(t)
    ensures ProfileRecordOf(Upsert(t, userId, name), userId).Some?
    ensures ProfileRecordOf(Upsert(t, userId, name), userId).value.imagePath == Some(name)
    ensures other != userId ==> ProfileRecordOf(Upsert(t, userId, name), other) == ProfileRecordOf(t, other)
  {
    var found := RecordIndex(t, userId);
    if found.Some? {
      var i := found.value;
      UpsertInPlace(t, userId, name);
      RewriteRecord(t, i, t[i].rec.(imagePath := Some(name)), userId);
      RewriteRecord(t, i, t[i].rec.(imagePath := Some(name)), other);
    } else {
      AddRecordSelf(t, NextKey(t), UserProfileImage(userId, Some(name)));
      if other != userId {
        AddRecordOther(t, NextKey(t), UserProfileImage(userId, Some(name)), other);
      }
    }
  }

  /** After a successful upload the lookup answers with the stored name. */
  lemma UploadThenLookup(s: Store, userId: Id, file: UploadedFile, uuid: string)
    requires UniqueKeys(s.profileImages)
    requires Upload(s, userId, file, uuid).result.Ok?
    ensures ProfileImage(Upload(s, userId, file, uuid).store, userId) == StoredName(uuid, file.originalName.value)
  {
    var name := StoredName(uuid, file.originalName.value);
    UpsertRecord(s.profileImages, userId, name, userId);
    ImageOfRecord(Upload(s, userId, file, uuid).store, userId, name);
  }

  /** A record holding a path makes the lookup answer with that path. */
  lemma ImageOfRecord(s: Store, userId: Id, path: string)
    requires ProfileRecordOf(s.profileImages, userId).Some?
    requires ProfileRecordOf(s.profileImages, userId).value.imagePath == Some(path)
    ensures ProfileImage(s, userId) == path
  {
  }

  /** A successful upload leaves every other user's lookup as it was. */
  lemma UploadLeavesOthers(s: Store, userId: Id, file: UploadedFile, uuid: string, other: Id)
    requires UniqueKeys(s.profileImages)
    requires Upload(s, userId, file, uuid).result.Ok? && other != userId
    ensures ProfileImage(Upload(s, userId, file, uuid).store, other) == ProfileImage(s, other)
  {
    var name := StoredName(uuid, file.originalName.value);
    UpsertRecord(s.profileImages, userId, name, other);
    SameRecordSameImage(Upload(s, userId, file, uuid).store, s, other);
  }

  /** The lookup reads nothing but the user's first record. */
  lemma SameRecordSameImage(s: Store, s': Store, userId: Id)
    requires ProfileRecordOf(s.profileImages, userId) == ProfileRecordOf(s'.profileImages, userId)
    ensures ProfileImage(s, userId) == ProfileImage(s', userId)
  {
  }

  /** Rewriting records without changing whose they are keeps one record per user. */
  lemma OnePerUserRewrite(t: Table<nat, UserProfileImage>, i: nat, record: UserProfileImage)
    requires OnePerUser(t) && i < |t| && record.userId == t[i].rec.userId
    ensures OnePerUser(t[i := Row(t[i].key, record)])
  {
    var after := t[i := Row(t[i].key, record)];
    assert forall j :: 0 <= j < |t| ==> after[j].rec.userId == t[j].rec.userId;
  }

  /** Adding a record for a user who had none keeps one record per user. */
  lemma OnePerUserAppend(t: Table<nat, UserProfileImage>, row: Row<nat, UserProfileImage>)
    requires OnePerUser(t) && RecordIndex(t, row.rec.userId).None?
    ensures OnePerUser(t + [row])
  {
    var after := t + [row];
    forall i, j | 0 <= i < j < |after|
      ensures after[i].rec.userId != after[j].rec.userId
    {
      assert after[i] == t[i];
      if j < |t| {
        assert after[j] == t[j];
      }
    }
  }

  /** The upload keeps one record per user: a user with a record has it rewritten in place, a
      user without one gets a single new record. */
  lemma UpsertKeepsOnePerUser(t: Table<nat, UserProfileImage>, userId: Id, name: string)
    requires UniqueKeys(t) && OnePerUser(t)
    ensures OnePerUser(Upsert(t, userId, name))
  {
    if RecordIndex(t, userId).Some? {
      var i := RecordIndex(t, userId).value;
      UpsertInPlace(t, userId, name);
      OnePerUserRewrite(t, i, t[i].rec.(imagePath := Some(name)));
    } else {
      OnePerUserAppend(t, Row(NextKey(t), UserProfileImage(userId, Some(name))));
    }
  }

  /** After the upload the user's items are listed with the new picture. */
  lemma UploadThenOwnerPicture(s: Store, userId: Id, file: UploadedFile, uuid: string)
    requires UniqueKeys(s.profileImages)
    requires Upload(s, userId, file, uuid).result.Ok?
    ensures TradeItems.ProfileUrl(Upload(s, userId, file, uuid).store, userId)
      == PROFILE_IMAGE_BASE + StoredName(uuid, file.originalName.value)
  {
    var name := StoredName(uuid, file.originalName.value);
    UpsertRecord(s.profileImages, userId, name, userId);
    MissingCharNotContained(name, ASSETS_PREFIX, '/');
    ReplaceAbsent(name, ASSETS_PREFIX, "");
  }
}
