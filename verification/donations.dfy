/** Donation listings: creating one with up to five pictures, the owner's and the public
    listings, the owner-only detail view and edit (which removes pictures by id and adds new
    ones while fewer than five are attached), and the response every endpoint returns. */
module Donations {
  import opened Common
  import opened Tables
  import opened Records
  import opened Persistence
  import opened Catalog

  const DONATION := "Donation"

  /** The form fields of a new donation. */
  datatype DonationInput = DonationInput(title: string, description: string)

  /** One entry of the response's detailed picture list. */
  datatype ImageEntry = ImageEntry(imageId: nat, url: string)

  /** A donation as the endpoints return it; `createdAt` stands for its formatted text. */
  datatype DonationResponse = DonationResponse(
    donationId: Id,
    title: string,
    description: string,
    status: string,
    createdAt: Option<Timestamp>,
    images: seq<string>,
    imageList: seq<ImageEntry>,
    ownerId: Id,
    ownerFullName: Option<string>,
    ownerEmail: Option<string>)

  // ------------------------------------------------------------------ response

  /** `toDonationResponse` for a donation whose picture collection is `images`: the URL list
      and the detailed list run in parallel, one entry per picture in order, and an owner
      that does not resolve reads "Unknown" / "-". */
  function ResponseOf(row: Row<Id, DonationItem>, images: Table<nat, DonationItemImage>, users: Table<Id, User>): (r: DonationResponse)
    ensures r.donationId == row.key && r.ownerId == row.rec.ownerId
    ensures r.title == row.rec.title && r.description == row.rec.description
    ensures r.status == row.rec.status && r.createdAt == row.rec.createdAt
    ensures |r.images| == |images| && |r.imageList| == |images|
    ensures forall i :: 0 <= i < |images| ==>
      r.images[i] == DonationImageUrl(images[i].rec.imagePath) && r.imageList[i] == ImageEntry(images[i].key, r.images[i])
    ensures Get(users, row.rec.ownerId).None? ==> r.ownerFullName == Some("Unknown") && r.ownerEmail == Some("-")
    ensures Get(users, row.rec.ownerId).Some? ==>
      r.ownerFullName == Get(users, row.rec.ownerId).value.fullName && r.ownerEmail == Get(users, row.rec.ownerId).value.email
  {
    var urls := DonationImageUrls(images);
    var entries := seq(|images|, i requires 0 <= i < |images| => ImageEntry(images[i].key, urls[i]));
    var owner := Get(users, row.rec.ownerId);
    DonationResponse(row.key, row.rec.title, row.rec.description, row.rec.status, row.rec.createdAt, urls, entries,
                     row.rec.ownerId,
                     if owner.Some? then owner.value.fullName else Some("Unknown"),
                     if owner.Some? then owner.value.email else Some("-"))
  }

  /** The loop of `toDonationResponse`, which builds both picture lists side by side. */
  method ToDonationResponse(row: Row<Id, DonationItem>, images: Table<nat, DonationItemImage>, users: Table<Id, User>)
    returns (r: DonationResponse)
    ensures r == ResponseOf(row, images, users)
  {
    var urls: seq<string> := [];
    var entries: seq<ImageEntry> := [];
    for i := 0 to |images|
      invariant |urls| == i && |entries| == i
      invariant forall j :: 0 <= j < i ==> urls[j] == DonationImageUrl(images[j].rec.imagePath)
      invariant forall j :: 0 <= j < i ==> entries[j] == ImageEntry(images[j].key, urls[j])
    {
      var url := DONATION_IMAGE_BASE + Replace(images[i].rec.imagePath, DONATIONS_PREFIX, "");
      urls := urls + [url];
      entries := entries + [ImageEntry(images[i].key, url)];
    }
    var owner := Get(users, row.rec.ownerId);
    var ownerName := if owner.Some? then owner.value.fullName else Some("Unknown");
    var ownerEmail := if owner.Some? then owner.value.email else Some("-");
    r := DonationResponse(row.key, row.rec.title, row.rec.description, row.rec.status, row.rec.createdAt, urls, entries,
                          row.rec.ownerId, ownerName, ownerEmail);
  }

  // ------------------------------------------------------------------ pictures

  /** The picture rows `saveDonationFile` records for a donation: one per stored file name,
      under the "Donations/" folder. */
  function NewImages(donationId: Id, names: seq<string>): (recs: seq<DonationItemImage>)
    ensures |recs| == |names|
    ensures forall i :: 0 <= i < |names| ==> recs[i] == DonationItemImage(donationId, DONATIONS_PREFIX + names[i])
  {
    MapSeq(names, (name: string) => DonationItemImage(donationId, DONATIONS_PREFIX + name))
  }

  /** Taking one more file name adds one more picture row at the end. */
  lemma NewImagesStep(donationId: Id, names: seq<string>, i: nat)
    requires i < |names|
    ensures NewImages(donationId, names[..i + 1]) == NewImages(donationId, names[..i]) + [DonationItemImage(donationId, DONATIONS_PREFIX + names[i])]
  {
  }

  /** Appending a donation's new pictures appends them to that donation's picture list, in
      order. */
  lemma ImagesAfterAppend(t: Table<nat, DonationItemImage>, donationId: Id, names: seq<string>)
    ensures var after := Append(t, NewImages(donationId, names));
      DonationImagesOf(after, donationId) == DonationImagesOf(t, donationId) + after[|t|..]
  {
    var recs := NewImages(donationId, names);
    AppendAddsRows(t, recs);
    SelectAppendedAll(t, recs, OfDonation(donationId));
  }

  /** ... and leaves every other donation's picture list as it was. */
  lemma OtherImagesAfterAppend(t: Table<nat, DonationItemImage>, donationId: Id, names: seq<string>, other: Id)
    requires other != donationId
    ensures DonationImagesOf(Append(t, NewImages(donationId, names)), other) == DonationImagesOf(t, other)
  {
    var recs := NewImages(donationId, names);
    AppendAddsRows(t, recs);
    SelectAppendedNone(t, recs, OfDonation(other));
  }

  /** Those appended pictures carry the given file names, in order. */
  lemma AppendedImagePaths(t: Table<nat, DonationItemImage>, donationId: Id, names: seq<string>)
    ensures var added := Append(t, NewImages(donationId, names))[|t|..];
      |added| == |names| && forall i :: 0 <= i < |names| ==> added[i].rec.imagePath == DONATIONS_PREFIX + names[i]
  {
    var recs := NewImages(donationId, names);
    AppendAddsRows(t, recs);
    var after := Append(t, recs);
    forall i | 0 <= i < |names| ensures after[|t|..][i].rec.imagePath == DONATIONS_PREFIX + names[i] {
      assert after[|t|..][i] == after[|t| + i];
    }
  }

  /** One more file recorded by the upload loop is one more `save` under the next key. */
  lemma AttachStep(t: Table<nat, DonationItemImage>, donationId: Id, files: seq<string>, i: nat)
    requires i < |files|
    ensures var prev := Append(t, NewImages(donationId, files[..i]));
      Append(t, NewImages(donationId, files[..i + 1])) == Save(prev, NextKey(prev), DonationItemImage(donationId, DONATIONS_PREFIX + files[i]))
  {
    NewImagesStep(donationId, files, i);
    AppendStep(t, NewImages(donationId, files[..i]), DonationItemImage(donationId, DONATIONS_PREFIX + files[i]));
  }

  /** The upload loop `addDonation` and `updateDonation` share: starting from `existing`
      attached pictures, the files are recorded one after another, in order, until five are
      attached; `count` ends as the number attached. */
  method AttachImages(db: Repositories, donationId: Id, files: seq<string>, existing: nat) returns (count: nat)
    requires UniqueKeys(db.store.donationImages)
    modifies db
    ensures UniqueKeys(db.store.donationImages)
    ensures count == existing + AddedCount(existing, |files|)
    ensures db.store == old(db.store).(donationImages :=
      Append(old(db.store.donationImages), NewImages(donationId, files[..AddedCount(existing, |files|)])))
  {
    ghost var s := db.store;
    count := existing;
    var i := 0;
    while i < |files|
      invariant i <= |files| && count == existing + i
      invariant i == 0 || count <= MAX_IMAGES
      invariant db.store == s.(donationImages := Append(s.donationImages, NewImages(donationId, files[..i])))
      invariant UniqueKeys(db.store.donationImages)
    {
      if count >= MAX_IMAGES {
        break;
      }
      AttachStep(s.donationImages, donationId, files, i);
      var images := db.store.donationImages;
      db.store := db.store.(donationImages := Save(images, NextKey(images), DonationItemImage(donationId, DONATIONS_PREFIX + files[i])));
      count := count + 1;
      i := i + 1;
    }
    NoRoomLeft(existing, |files|, i);
  }

  // ------------------------------------------------------------------ addDonation

  /** `addDonation`: without an authenticated user nothing is stored. Otherwise a new ACTIVE
      donation owned by the caller is stored and the first five files (at most), in order, are
      recorded as its pictures. The response is built from the entity as saved, whose picture
      collection the upload loop does not fill, so it lists no pictures. */
  function Add(s: Store, input: DonationInput, files: seq<string>, caller: Option<Id>, newId: Id): (o: Outcome<DonationResponse>)
    requires newId !in Keys(s.donationItems)
    ensures caller.None? ==> o == Outcome(Err(NoPrincipal), s)
    ensures caller.Some? ==>
      var d := DonationItem(input.title, input.description, caller.value, ACTIVE, None);
      && o.result == Ok(ResponseOf(Row(newId, d), [], s.users))
      && o.store.donationItems == s.donationItems + [Row(newId, d)]
      && o.store.donationImages == Append(s.donationImages, NewImages(newId, files[..AddedCount(0, |files|)]))
      && o.store == s.(donationItems := o.store.donationItems, donationImages := o.store.donationImages)
  {
    match caller
    case None => Outcome(Err(NoPrincipal), s)
    case Some(owner) =>
      var d := DonationItem(input.title, input.description, owner, ACTIVE, None);
      var images := Append(s.donationImages, NewImages(newId, files[..AddedCount(0, |files|)]));
      Outcome(Ok(ResponseOf(Row(newId, d), [], s.users)),
              s.(donationItems := Save(s.donationItems, newId, d), donationImages := images))
  }

  method AddDonation(db: Repositories, input: DonationInput, files: seq<string>, caller: Option<Id>, newId: Id)
    returns (r: Result<DonationResponse>)
    requires db.Valid() && newId !in Keys(db.store.donationItems)
    modifies db
    ensures db.Valid()
    ensures Outcome(r, db.store) == Add(old(db.store), input, files, caller, newId)
  {
    if caller.None? {
      return Err(NoPrincipal);
    }
    var donation := DonationItem(input.title, input.description, caller.value, ACTIVE, None);
    db.store := db.store.(donationItems := Save(db.store.donationItems, newId, donation));
    var count := AttachImages(db, newId, files, 0);
    var response := ToDonationResponse(Row(newId, donation), [], db.store.users);
    r := Ok(response);
  }

  /** A donation with no pictures yet holds, after an append, exactly the appended ones. */
  lemma FirstImages(t: Table<nat, DonationItemImage>, donationId: Id, names: seq<string>)
    requires DonationImagesOf(t, donationId) == []
    ensures var imgs := DonationImagesOf(Append(t, NewImages(donationId, names)), donationId);
      && |imgs| == |names|
      && forall i :: 0 <= i < |names| ==> imgs[i].rec.imagePath == DONATIONS_PREFIX + names[i]
  {
    var after := Append(t, NewImages(donationId, names));
    ImagesAfterAppend(t, donationId, names);
    AppendedImagePaths(t, donationId, names);
    assert DonationImagesOf(after, donationId) == [] + after[|t|..];
    assert [] + after[|t|..] == after[|t|..];
  }

  /** A new donation (whose id no stored picture refers to yet) ends up with exactly the first
      five files, or all of them when there are fewer, as its pictures, in order. */
  lemma AddedDonationImages(s: Store, input: DonationInput, files: seq<string>, caller: Id, newId: Id)
    requires newId !in Keys(s.donationItems)
    requires DonationImagesOf(s.donationImages, newId) == []
    ensures var imgs := DonationImagesOf(Add(s, input, files, Some(caller), newId).store.donationImages, newId);
      && |imgs| == Min(|files|, MAX_IMAGES)
      && forall i :: 0 <= i < |imgs| ==> imgs[i].rec.imagePath == DONATIONS_PREFIX + files[i]
  {
    var names := files[..AddedCount(0, |files|)];
    var after := Append(s.donationImages, NewImages(newId, names));
    assert Add(s, input, files, Some(caller), newId).store.donationImages == after;
    FirstImages(s.donationImages, newId, names);
    var imgs := DonationImagesOf(after, newId);
    assert |imgs| == |names| == Min(|files|, MAX_IMAGES);
    forall i | 0 <= i < |imgs| ensures imgs[i].rec.imagePath == DONATIONS_PREFIX + files[i] {
      assert names[i] == files[i];
    }
  }

  // ------------------------------------------------------------------ listings

  /** `getMyDonations`: one response per donation of the caller, in storage order. */
  function MyDonations(s: Store, caller: Id): (rs: seq<DonationResponse>)
    ensures |rs| == |DonationsOwnedBy(s.donationItems, caller)|
    ensures forall i :: 0 <= i < |rs| ==> rs[i].ownerId == caller
    ensures forall i :: 0 <= i < |rs| ==>
      var row := DonationsOwnedBy(s.donationItems, caller)[i];
      rs[i] == ResponseOf(row, DonationImagesOf(s.donationImages, row.key), s.users)
  {
    var owned := DonationsOwnedBy(s.donationItems, caller);
    MapSeq(owned, (row: Row<Id, DonationItem>) => ResponseOf(row, DonationImagesOf(s.donationImages, row.key), s.users))
  }

  /** `findByStatus("ACTIVE")` on the donation repository. */
  function ActiveDonations(t: Table<Id, DonationItem>): (rows: Table<Id, DonationItem>)
    ensures forall row :: row in rows <==> row in t && row.rec.status == ACTIVE
    ensures forall row {:trigger multiset(rows)[row]} :: multiset(rows)[row] == if row.rec.status == ACTIVE then multiset(t)[row] else 0
    ensures UniqueKeys(t) ==> UniqueKeys(rows)
  {
    var active := (row: Row<Id, DonationItem>) => row.rec.status == ACTIVE;
    SelectKeys(t, active);
    Select(t, active)
  }

  /** `getAllActiveDonations`: one response per ACTIVE donation of any owner, in storage order. */
  function AllActiveDonations(s: Store): (rs: seq<DonationResponse>)
    ensures |rs| == |ActiveDonations(s.donationItems)|
    ensures forall i :: 0 <= i < |rs| ==> rs[i].status == ACTIVE
    ensures forall i :: 0 <= i < |rs| ==>
      var row := ActiveDonations(s.donationItems)[i];
      rs[i] == ResponseOf(row, DonationImagesOf(s.donationImages, row.key), s.users)
  {
    var active := ActiveDonations(s.donationItems);
    assert forall i :: 0 <= i < |active| ==> active[i] in active;
    MapSeq(active, (row: Row<Id, DonationItem>) => ResponseOf(row, DonationImagesOf(s.donationImages, row.key), s.users))
  }

  /** `getDonationById`: an unknown id fails with not-found and a donation of someone else is
      refused; the owner gets the donation with its pictures. */
  function ById(s: Store, donationId: Id, caller: Id): (r: Result<DonationResponse>)
    ensures Get(s.donationItems, donationId).None? ==> r == Err(NotFound(DONATION))
    ensures Get(s.donationItems, donationId).Some? && Get(s.donationItems, donationId).value.ownerId != caller ==>
      r == Err(NotAuthorized)
    ensures r.Ok? <==> Get(s.donationItems, donationId).Some? && Get(s.donationItems, donationId).value.ownerId == caller
    ensures r.Ok? ==>
      r.value == ResponseOf(Row(donationId, Get(s.donationItems, donationId).value),
                            DonationImagesOf(s.donationImages, donationId), s.users)
  {
    match Get(s.donationItems, donationId)
    case None => Err(NotFound(DONATION))
    case Some(d) =>
      if d.ownerId != caller then Err(NotAuthorized)
      else Ok(ResponseOf(Row(donationId, d), DonationImagesOf(s.donationImages, donationId), s.users))
  }

  // ------------------------------------------------------------------ updateDonation

  /** The removal loop of `updateDonation`: each listed picture id that resolves is deleted;
      an id that does not resolve is skipped. Any picture can be removed this way, whichever
      donation it belongs to. */
  function RemoveImages(t: Table<nat, DonationItemImage>, ids: seq<nat>): (r: Table<nat, DonationItemImage>)
    ensures forall k :: k in Keys(r) <==> k in Keys(t) && k !in ids
    ensures forall k :: k !in ids ==> Get(r, k) == Get(t, k)
    ensures |r| <= |t|
    ensures UniqueKeys(t) ==> UniqueKeys(r)
    decreases |ids|
  {
    if |ids| == 0 then t
    else
      var prev := RemoveImages(t, ids[..|ids| - 1]);
      var id := ids[|ids| - 1];
      assert ids == ids[..|ids| - 1] + [id];
      if Get(prev, id).Some? then Delete(prev, id) else prev
  }

  /** Ids of no stored picture are ignored: the picture table is left exactly as it was. */
  lemma {:induction false} RemoveUnknownIgnored(t: Table<nat, DonationItemImage>, ids: seq<nat>)
    requires forall i :: 0 <= i < |ids| ==> ids[i] !in Keys(t)
    ensures RemoveImages(t, ids) == t
    decreases |ids|
  {
    if |ids| > 0 {
      RemoveUnknownIgnored(t, ids[..|ids| - 1]);
    }
  }

  /** The removal loop of `updateDonation`, one listed id after another. */
  method RemoveImagesById(db: Repositories, ids: seq<nat>)
    requires UniqueKeys(db.store.donationImages)
    modifies db
    ensures UniqueKeys(db.store.donationImages)
    ensures db.store == old(db.store).(donationImages := RemoveImages(old(db.store.donationImages), ids))
  {
    ghost var s := db.store;
    for i := 0 to |ids|
      invariant db.store == s.(donationImages := RemoveImages(s.donationImages, ids[..i]))
      invariant UniqueKeys(db.store.donationImages)
    {
      assert ids[..i + 1][..i] == ids[..i];
      var images := db.store.donationImages;
      if Get(images, ids[i]).Some? {
        db.store := db.store.(donationImages := Delete(images, ids[i]));
      }
    }
    assert ids[..|ids|] == ids;
  }

  /** `updateDonation`: an unknown id fails with not-found and someone else's donation is
      refused, both before anything changes. Otherwise title, description and status are
      replaced, the listed pictures are removed, and new files are attached while fewer than
      five pictures remain. The response lists the pictures as they stood after the removals
      (the entity's collection is loaded then and not refreshed). */
  function Update(s: Store, donationId: Id, title: string, description: string, status: string,
                  removeIds: seq<nat>, newFiles: seq<string>, caller: Id): (o: Outcome<DonationResponse>)
    ensures Get(s.donationItems, donationId).None? ==> o == Outcome(Err(NotFound(DONATION)), s)
    ensures Get(s.donationItems, donationId).Some? && Get(s.donationItems, donationId).value.ownerId != caller ==>
      o == Outcome(Err(NotAuthorized), s)
    ensures o.result.Ok? <==> Get(s.donationItems, donationId).Some? && Get(s.donationItems, donationId).value.ownerId == caller
    ensures o.result.Ok? ==>
      var updated := Get(s.donationItems, donationId).value.(title := title, description := description, status := status);
      var kept := RemoveImages(s.donationImages, removeIds);
      var existing := |DonationImagesOf(kept, donationId)|;
      && Get(o.store.donationItems, donationId) == Some(updated)
      && (forall k :: k != donationId ==> Get(o.store.donationItems, k) == Get(s.donationItems, k))
      && |o.store.donationItems| == |s.donationItems|
      && o.store.donationImages == Append(kept, NewImages(donationId, newFiles[..AddedCount(existing, |newFiles|)]))
      && o.result.value == ResponseOf(Row(donationId, updated), DonationImagesOf(kept, donationId), s.users)
      && o.store == s.(donationItems := o.store.donationItems, donationImages := o.store.donationImages)
  {
    match Get(s.donationItems, donationId)
    case None => Outcome(Err(NotFound(DONATION)), s)
    case Some(d) =>
      if d.ownerId != caller then Outcome(Err(NotAuthorized), s)
      else
        var updated := d.(title := title, description := description, status := status);
        var kept := RemoveImages(s.donationImages, removeIds);
        var existing := |DonationImagesOf(kept, donationId)|;
        var images := Append(kept, NewImages(donationId, newFiles[..AddedCount(existing, |newFiles|)]));
        Outcome(Ok(ResponseOf(Row(donationId, updated), DonationImagesOf(kept, donationId), s.users)),
                s.(donationItems := Save(s.donationItems, donationId, updated), donationImages := images))
  }

  method UpdateDonation(db: Repositories, donationId: Id, title: string, description: string, status: string,
                        removeIds: seq<nat>, newFiles: seq<string>, caller: Id) returns (r: Result<DonationResponse>)
    requires db.Valid()
    modifies db
    ensures db.Valid()
    ensures Outcome(r, db.store) == Update(old(db.store), donationId, title, description, status, removeIds, newFiles, caller)
  {
    var found := Get(db.store.donationItems, donationId);
    if found.None? {
      return Err(NotFound(DONATION));
    }
    if found.value.ownerId != caller {
      return Err(NotAuthorized);
    }
    var updated := found.value.(title := title, description := description, status := status);
    RemoveImagesById(db, removeIds);
    var kept := DonationImagesOf(db.store.donationImages, donationId);
    var count := AttachImages(db, donationId, newFiles, |kept|);
    db.store := db.store.(donationItems := Save(db.store.donationItems, donationId, updated));
    var response := ToDonationResponse(Row(donationId, updated), kept, db.store.users);
    r := Ok(response);
  }

  /** After a successful edit the donation holds the pictures that survived the removals
      followed by the new ones, so never more than five unless more than five survived, in
      which case nothing is added; no other donation's pictures are added to. */
  lemma UpdateImageCount(s: Store, donationId: Id, title: string, description: string, status: string,
                         removeIds: seq<nat>, newFiles: seq<string>, caller: Id)
    requires Update(s, donationId, title, description, status, removeIds, newFiles, caller).result.Ok?
    ensures var kept := RemoveImages(s.donationImages, removeIds);
      var existing := |DonationImagesOf(kept, donationId)|;
      var after := Update(s, donationId, title, description, status, removeIds, newFiles, caller).store.donationImages;
      && |DonationImagesOf(after, donationId)| == existing + AddedCount(existing, |newFiles|)
      && |DonationImagesOf(after, donationId)| <= (if existing > MAX_IMAGES then existing else MAX_IMAGES)
      && |DonationImagesOf(after, donationId)| - existing <= (if existing >= MAX_IMAGES then 0 else MAX_IMAGES - existing)
  {
    var kept := RemoveImages(s.donationImages, removeIds);
    var existing := |DonationImagesOf(kept, donationId)|;
    var names := newFiles[..AddedCount(existing, |newFiles|)];
    ImagesAfterAppend(kept, donationId, names);
    AppendedImagePaths(kept, donationId, names);
  }
}
