/** Trade items as their owners manage them: listing a new item with up to five pictures, the
    owner's own list, another owner's list, the details of one item, and the public list of
    other users' active items. Both generations of the item service share `addItem`,
    `getMyItems` and `toItemResponse`; the newer one adds the detail view and the per-owner
    list, the older one the public list. */
module Items {
  import opened Common
  import opened Tables
  import opened Records
  import opened Persistence
  import opened Catalog

  const ITEM := "Item"

  /** The form fields of a new item. */
  datatype ItemInput = ItemInput(title: string, description: string, price: Amount, categoryId: Option<nat>)

  /** The item `addItem` builds: the form fields, the caller as owner, status ACTIVE. Its
      creation time is filled in by the database, so the entity in hand has none. */
  function NewItem(input: ItemInput, caller: Id): (item: Item)
    ensures item.ownerId == caller && item.status == ACTIVE && item.createdAt.None?
    ensures item.title == input.title && item.description == input.description
    ensures item.price == input.price && item.categoryId == input.categoryId
  {
    Item(input.title, input.description, input.price, input.categoryId, caller, ACTIVE, None)
  }

  /** `toItemResponse` of the item services, for an item whose picture collection is
      `images`: its fields, one URL per picture in order, and its creation time. */
  function ToResponse(row: Row<Id, Item>, images: Table<nat, ItemImage>): (r: ItemResponse)
    ensures r.itemId == row.key && r.status == row.rec.status && r.createdAt == row.rec.createdAt
    ensures r.title == row.rec.title && r.description == row.rec.description
    ensures r.price == row.rec.price && r.categoryId == row.rec.categoryId
    ensures r.images == ItemImageUrls(images) && |r.images| == |images|
    ensures forall i :: 0 <= i < |images| ==> r.images[i] == ItemImageUrl(images[i].rec.imagePath)
    ensures r.owner.None?
  {
    ItemResponse(row.key, row.rec.title, row.rec.description, row.rec.price, row.rec.categoryId,
                 ItemImageUrls(images), row.rec.status, row.rec.createdAt, None)
  }

  /** The response for a stored item: its fields, and one URL per picture row the store holds
      for it, in storage order. */
  function StoredResponse(s: Store, row: Row<Id, Item>): (r: ItemResponse)
    ensures r.itemId == row.key && r.status == row.rec.status && r.createdAt == row.rec.createdAt
    ensures r.title == row.rec.title && r.description == row.rec.description
    ensures r.price == row.rec.price && r.categoryId == row.rec.categoryId
    ensures r.images == ItemImageUrls(ItemImagesOf(s.itemImages, row.key))
    ensures |r.images| == |ItemImagesOf(s.itemImages, row.key)|
    ensures r.owner.None?
  {
    ToResponse(row, ItemImagesOf(s.itemImages, row.key))
  }

  // ------------------------------------------------------------------ pictures

  /** The picture rows `saveFileToAssets` leads to for an item: one per stored file name, under
      the "Assets/" folder. */
  function NewImages(itemId: Id, names: seq<string>): (recs: seq<ItemImage>)
    ensures |recs| == |names|
    ensures forall i :: 0 <= i < |names| ==> recs[i] == ItemImage(itemId, ASSETS_PREFIX + names[i])
  {
    MapSeq(names, (name: string) => ItemImage(itemId, ASSETS_PREFIX + name))
  }

  /** Taking one more file name adds one more picture row at the end. */
  lemma NewImagesStep(itemId: Id, names: seq<string>, i: nat)
    requires i < |names|
    ensures NewImages(itemId, names[..i + 1]) == NewImages(itemId, names[..i]) + [ItemImage(itemId, ASSETS_PREFIX + names[i])]
  {
  }

  /** One more file recorded by the upload loop is one more `save` under the next key. */
  lemma AttachStep(t: Table<nat, ItemImage>, itemId: Id, files: seq<string>, i: nat)
    requires i < |files|
    ensures var prev := Append(t, NewImages(itemId, files[..i]));
      Append(t, NewImages(itemId, files[..i + 1])) == Save(prev, NextKey(prev), ItemImage(itemId, ASSETS_PREFIX + files[i]))
  {
    NewImagesStep(itemId, files, i);
    AppendStep(t, NewImages(itemId, files[..i]), ItemImage(itemId, ASSETS_PREFIX + files[i]));
  }

  /** An item with no pictures yet holds, after an append, exactly the appended ones, whose
      URLs serve the stored file names. */
  lemma FirstImages(t: Table<nat, ItemImage>, itemId: Id, names: seq<string>)
    requires ItemImagesOf(t, itemId) == []
    requires forall i :: 0 <= i < |names| ==> !Contains(names[i], ASSETS_PREFIX)
    ensures var urls := ItemImageUrls(ItemImagesOf(Append(t, NewImages(itemId, names)), itemId));
      && |urls| == |names|
      && forall i :: 0 <= i < |names| ==> urls[i] == ITEM_IMAGE_BASE + names[i]
  {
    var recs := NewImages(itemId, names);
    var after := Append(t, recs);
    AppendAddsRows(t, recs);
    SelectAppendedAll(t, recs, OfItem(itemId));
    var added := after[|t|..];
    assert ItemImagesOf(after, itemId) == [] + added;
    assert [] + added == added;
    forall i | 0 <= i < |names| ensures ItemImageUrl(added[i].rec.imagePath) == ITEM_IMAGE_BASE + names[i] {
      assert added[i] == after[|t| + i];
      ItemImageUrlRoundTrip(names[i]);
    }
  }

  /** Appending an item's pictures leaves every other item's pictures as they were. */
  lemma OtherImagesAfterAppend(t: Table<nat, ItemImage>, itemId: Id, names: seq<string>, other: Id)
    requires other != itemId
    ensures ItemImagesOf(Append(t, NewImages(itemId, names)), other) == ItemImagesOf(t, other)
  {
    var recs := NewImages(itemId, names);
    AppendAddsRows(t, recs);
    SelectAppendedNone(t, recs, OfItem(other));
  }

  /** The upload loop of `addItem`: the files are recorded one after another, in order, until
      five are; `count` ends as the number recorded. */
  method AttachImages(db: Repositories, itemId: Id, files: seq<string>) returns (count: nat)
    requires UniqueKeys(db.store.itemImages)
    modifies db
    ensures UniqueKeys(db.store.itemImages)
    ensures count == AddedCount(0, |files|) <= MAX_IMAGES
    ensures db.store == old(db.store).(itemImages :=
      Append(old(db.store.itemImages), NewImages(itemId, files[..AddedCount(0, |files|)])))
  {
    ghost var s := db.store;
    count := 0;
    var i := 0;
    while i < |files|
      invariant i <= |files| && count == i
      invariant i == 0 || count <= MAX_IMAGES
      invariant db.store == s.(itemImages := Append(s.itemImages, NewImages(itemId, files[..i])))
      invariant UniqueKeys(db.store.itemImages)
    {
      if count >= MAX_IMAGES {
        break;
      }
      AttachStep(s.itemImages, itemId, files, i);
      var images := db.store.itemImages;
      db.store := db.store.(itemImages := Save(images, NextKey(images), ItemImage(itemId, ASSETS_PREFIX + files[i])));
      count := count + 1;
      i := i + 1;
    }
    NoRoomLeft(0, |files|, i);
  }

  // ------------------------------------------------------------------ addItem

  /** `addItem`: the new item is stored under a fresh id and the first five files (at most), in
      order, are recorded as its pictures. The response is built from the entity as saved,
      whose picture collection the loop does not fill, so it lists no pictures. */
  function Add(s: Store, input: ItemInput, files: seq<string>, caller: Id, newId: Id): (o: Outcome<ItemResponse>)
    requires newId !in Keys(s.items)
    ensures o.result == Ok(ToResponse(Row(newId, NewItem(input, caller)), []))
    ensures o.store.items == s.items + [Row(newId, NewItem(input, caller))]
    ensures o.store.itemImages == Append(s.itemImages, NewImages(newId, files[..AddedCount(0, |files|)]))
    ensures o.store == s.(items := o.store.items, itemImages := o.store.itemImages)
  {
    var item := NewItem(input, caller);
    var images := Append(s.itemImages, NewImages(newId, files[..AddedCount(0, |files|)]));
    Outcome(Ok(ToResponse(Row(newId, item), [])), s.(items := Save(s.items, newId, item), itemImages := images))
  }

  method AddItem(db: Repositories, input: ItemInput, files: seq<string>, caller: Id, newId: Id)
    returns (r: Result<ItemResponse>)
    requires db.Valid() && newId !in Keys(db.store.items)
    modifies db
    ensures db.Valid()
    ensures Outcome(r, db.store) == Add(old(db.store), input, files, caller, newId)
  {
    var item := NewItem(input, caller);
    db.store := db.store.(items := Save(db.store.items, newId, item));
    var count := AttachImages(db, newId, files);
    r := Ok(ToResponse(Row(newId, item), []));
  }

  // ------------------------------------------------------------------ queries

  /** `getMyItems` and `getItemsByOwner`: one response per item of the owner, in storage order. */
  function OwnedItems(s: Store, ownerId: Id): (rs: seq<ItemResponse>)
    ensures |rs| == |ItemsOwnedBy(s.items, ownerId)|
    ensures forall i :: 0 <= i < |rs| ==> rs[i] == StoredResponse(s, ItemsOwnedBy(s.items, ownerId)[i])
  {
    MapSeq(ItemsOwnedBy(s.items, ownerId), (row: Row<Id, Item>) => StoredResponse(s, row))
  }

  /** `getItemDetails`: an unknown id fails with not-found; otherwise the item's response. */
  function Details(s: Store, itemId: Id): (r: Result<ItemResponse>)
    ensures r.Err? <==> itemId !in Keys(s.items)
    ensures r.Err? ==> r.error == NotFound(ITEM)
    ensures r.Ok? ==> r.value == StoredResponse(s, Row(itemId, Get(s.items, itemId).value))
  {
    match Get(s.items, itemId)
    case None => Err(NotFound(ITEM))
    case Some(item) => Ok(StoredResponse(s, Row(itemId, item)))
  }

  /** `getAllActiveExceptUser` of the older item service: one response per ACTIVE item of
      another user (in the given category, if any), in storage order. */
  function ActiveListing(s: Store, caller: Id, categoryId: Option<nat>): (rs: seq<ItemResponse>)
    ensures |rs| == |ActiveExceptUser(s.items, caller, categoryId)|
    ensures forall i :: 0 <= i < |rs| ==> rs[i] == StoredResponse(s, ActiveExceptUser(s.items, caller, categoryId)[i])
  {
    MapSeq(ActiveExceptUser(s.items, caller, categoryId), (row: Row<Id, Item>) => StoredResponse(s, row))
  }

  /** The public listing never shows the caller's own items, only ACTIVE ones, and only the
      requested category. */
  lemma ActiveListingExcludesCaller(s: Store, caller: Id, categoryId: Option<nat>)
    ensures var rows := ActiveExceptUser(s.items, caller, categoryId);
      forall i :: 0 <= i < |rows| ==>
        && rows[i].rec.ownerId != caller
        && ActiveListing(s, caller, categoryId)[i].status == ACTIVE
        && (categoryId.Some? ==> ActiveListing(s, caller, categoryId)[i].categoryId == categoryId)
  {
    var rows := ActiveExceptUser(s.items, caller, categoryId);
    forall i | 0 <= i < |rows|
      ensures rows[i].rec.ownerId != caller && rows[i].rec.status == ACTIVE
      ensures categoryId.Some? ==> rows[i].rec.categoryId == categoryId
    {
      assert rows[i] in rows;
    }
  }

  // ------------------------------------------------------------------ lifecycle

  /** After `addItem`, the new item is the last of its owner's items, behind the ones listed
      before. */
  lemma AddedItemListedLast(s: Store, input: ItemInput, files: seq<string>, caller: Id, newId: Id)
    requires newId !in Keys(s.items)
    ensures ItemsOwnedBy(Add(s, input, files, caller, newId).store.items, caller)
         == ItemsOwnedBy(s.items, caller) + [Row(newId, NewItem(input, caller))]
  {
    var row := Row(newId, NewItem(input, caller));
    SelectConcat(s.items, [row], OwnedBy(caller));
    SelectAll([row], OwnedBy(caller));
  }

  /** After `addItem` the new item resolves, with the pictures the store now holds for it. */
  lemma AddedItemResolves(s: Store, input: ItemInput, files: seq<string>, caller: Id, newId: Id)
    requires newId !in Keys(s.items)
    ensures var o := Add(s, input, files, caller, newId);
      Details(o.store, newId) == Ok(ToResponse(Row(newId, NewItem(input, caller)), ItemImagesOf(o.store.itemImages, newId)))
  {
    var o := Add(s, input, files, caller, newId);
    KeysAppend(s.items, Row(newId, NewItem(input, caller)));
    assert Get(o.store.items, newId) == Some(NewItem(input, caller));
  }

  /** After `addItem`, fetching the new item (whose id no stored picture refers to yet) gives its
      form fields, status ACTIVE, and one URL per stored file name for the first five files,
      in order. */
  lemma AddThenDetails(s: Store, input: ItemInput, files: seq<string>, caller: Id, newId: Id)
    requires newId !in Keys(s.items)
    requires ItemImagesOf(s.itemImages, newId) == []
    requires forall i :: 0 <= i < |files| ==> !Contains(files[i], ASSETS_PREFIX)
    ensures var r := Details(Add(s, input, files, caller, newId).store, newId);
      && r.Ok?
      && r.value.title == input.title && r.value.price == input.price && r.value.status == ACTIVE
      && |r.value.images| == Min(|files|, MAX_IMAGES)
      && forall i :: 0 <= i < |r.value.images| ==> r.value.images[i] == ITEM_IMAGE_BASE + files[i]
  {
    AddedItemResolves(s, input, files, caller, newId);
    AddedItemUrls(s, input, files, caller, newId);
  }

  /** The URLs of the new item's pictures serve the first five stored file names, in order. */
  lemma AddedItemUrls(s: Store, input: ItemInput, files: seq<string>, caller: Id, newId: Id)
    requires newId !in Keys(s.items)
    requires ItemImagesOf(s.itemImages, newId) == []
    requires forall i :: 0 <= i < |files| ==> !Contains(files[i], ASSETS_PREFIX)
    ensures var urls := ItemImageUrls(ItemImagesOf(Add(s, input, files, caller, newId).store.itemImages, newId));
      && |urls| == Min(|files|, MAX_IMAGES)
      && forall i :: 0 <= i < |urls| ==> urls[i] == ITEM_IMAGE_BASE + files[i]
  {
    var names := files[..AddedCount(0, |files|)];
    FirstImages(s.itemImages, newId, names);
    var urls := ItemImageUrls(ItemImagesOf(Append(s.itemImages, NewImages(newId, names)), newId));
    assert |urls| == |names| == Min(|files|, MAX_IMAGES);
    forall i | 0 <= i < |urls| ensures urls[i] == ITEM_IMAGE_BASE + files[i] {
      assert names[i] == files[i];
    }
  }

  /** `addItem` leaves every other item's response as it was. */
  lemma AddKeepsOtherItems(s: Store, input: ItemInput, files: seq<string>, caller: Id, newId: Id, row: Row<Id, Item>)
    requires newId !in Keys(s.items) && row in s.items
    ensures StoredResponse(Add(s, input, files, caller, newId).store, row) == StoredResponse(s, row)
  {
    assert row.key != newId;
    OtherImagesAfterAppend(s.itemImages, newId, files[..AddedCount(0, |files|)], row.key);
  }
}
