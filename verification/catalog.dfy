/** Listing helpers the item, donation and request services share: the public image URLs
    built from stored image paths, the images and profile record belonging to an entity,
    and the derived repository queries used for listings. */
module Catalog {
  import opened Common
  import opened Tables
  import opened Records

  const ITEM_IMAGE_BASE := "http://10.0.2.2:8080/api/items/image/"
  const DONATION_IMAGE_BASE := "http://10.0.2.2:8080/api/donations/image/"
  const PROFILE_IMAGE_BASE := "http://10.0.2.2:8080/image/"

  /** Folder prefixes under which uploaded files are recorded. */
  const ASSETS_PREFIX := "Assets/"
  const DONATIONS_PREFIX := "Donations/"

  /** The cap on images stored per item or donation by one upload. */
  const MAX_IMAGES := 5

  /** How many new pictures an upload loop stores: while fewer than five are attached, one per
      file, so `min(n, max(0, 5 - existing))`. */
  function AddedCount(existing: nat, n: nat): (k: nat)
    ensures k <= n
    ensures existing >= MAX_IMAGES ==> k == 0
    ensures existing < MAX_IMAGES ==> k == Min(n, MAX_IMAGES - existing)
    ensures existing + k <= MAX_IMAGES || k == 0
  {
    if existing >= MAX_IMAGES then 0 else Min(n, MAX_IMAGES - existing)
  }

  /** The loop stops with every file recorded or five pictures attached, having recorded
      exactly `AddedCount` of them. */
  lemma NoRoomLeft(existing: nat, n: nat, i: nat)
    requires i <= n && (i == 0 || existing + i <= MAX_IMAGES)
    requires i == n || existing + i >= MAX_IMAGES
    ensures i == AddedCount(existing, n)
  {
  }

  /** The contact block of an item's owner, as the item listings return it. */
  datatype OwnerInfo = OwnerInfo(
    fullName: Option<string>,
    email: Option<string>,
    phone: Option<string>,
    address: string,
    profileImage: string)

  /** An item as the listing endpoints return it. `createdAt` and `owner` are absent where a
      service does not fill them in. */
  datatype ItemResponse = ItemResponse(
    itemId: Id,
    title: string,
    description: string,
    price: Amount,
    categoryId: Option<nat>,
    images: seq<string>,
    status: string,
    createdAt: Option<Timestamp>,
    owner: Option<OwnerInfo>)

  /** Public URL of a stored item image: the "Assets/" prefix is removed from the path. */
  function ItemImageUrl(path: string): string {
    ITEM_IMAGE_BASE + Replace(path, ASSETS_PREFIX, "")
  }

  /** Public URL of a stored donation image: the "Donations/" prefix is removed from the path. */
  function DonationImageUrl(path: string): string {
    DONATION_IMAGE_BASE + Replace(path, DONATIONS_PREFIX, "")
  }

  /** A path recorded by the item upload (prefix plus stored file name) is served under
      exactly that file name, provided the name does not itself hold the prefix. */
  lemma ItemImageUrlRoundTrip(name: string)
    requires !Contains(name, ASSETS_PREFIX)
    ensures ItemImageUrl(ASSETS_PREFIX + name) == ITEM_IMAGE_BASE + name
  {
    RemoveLeadingOnly(ASSETS_PREFIX, name);
  }

  /** The same round trip for donation images. */
  lemma DonationImageUrlRoundTrip(name: string)
    requires !Contains(name, DONATIONS_PREFIX)
    ensures DonationImageUrl(DONATIONS_PREFIX + name) == DONATION_IMAGE_BASE + name
  {
    RemoveLeadingOnly(DONATIONS_PREFIX, name);
  }

  /** The image rows belonging to an item. */
  function OfItem(itemId: Id): Row<nat, ItemImage> -> bool {
    (row: Row<nat, ItemImage>) => row.rec.itemId == itemId
  }

  /** The image rows belonging to a donation. */
  function OfDonation(donationId: Id): Row<nat, DonationItemImage> -> bool {
    (row: Row<nat, DonationItemImage>) => row.rec.donationId == donationId
  }

  /** The image rows of one item, in storage order (the item's `images` collection). */
  function ItemImagesOf(t: Table<nat, ItemImage>, itemId: Id): (rows: Table<nat, ItemImage>)
    ensures forall row :: row in rows <==> row in t && row.rec.itemId == itemId
    ensures forall row {:trigger multiset(rows)[row]} :: multiset(rows)[row] == if row.rec.itemId == itemId then multiset(t)[row] else 0
  {
    Select(t, OfItem(itemId))
  }

  /** The image rows of one donation, in storage order (the donation's `images` collection). */
  function DonationImagesOf(t: Table<nat, DonationItemImage>, donationId: Id): (rows: Table<nat, DonationItemImage>)
    ensures forall row :: row in rows <==> row in t && row.rec.donationId == donationId
    ensures forall row {:trigger multiset(rows)[row]} :: multiset(rows)[row] == if row.rec.donationId == donationId then multiset(t)[row] else 0
  {
    Select(t, OfDonation(donationId))
  }

  /** One URL per item image, in the same order. */
  function ItemImageUrls(images: Table<nat, ItemImage>): (urls: seq<string>)
    ensures |urls| == |images|
    ensures forall i :: 0 <= i < |images| ==> urls[i] == ItemImageUrl(images[i].rec.imagePath)
  {
    MapSeq(images, (row: Row<nat, ItemImage>) => ItemImageUrl(row.rec.imagePath))
  }

  /** One URL per donation image, in the same order. */
  function DonationImageUrls(images: Table<nat, DonationItemImage>): (urls: seq<string>)
    ensures |urls| == |images|
    ensures forall i :: 0 <= i < |images| ==> urls[i] == DonationImageUrl(images[i].rec.imagePath)
  {
    MapSeq(images, (row: Row<nat, DonationItemImage>) => DonationImageUrl(row.rec.imagePath))
  }

  /** `mapImagesToPaths` of the trade-request services: a null image list gives no URLs. */
  function MapImagesToPaths(images: Option<Table<nat, ItemImage>>): (urls: seq<string>)
    ensures images.None? ==> urls == []
    ensures images.Some? ==> |urls| == |images.value|
    ensures images.Some? ==> forall i :: 0 <= i < |urls| ==> urls[i] == ItemImageUrl(images.value[i].rec.imagePath)
  {
    match images
    case None => []
    case Some(rows) => ItemImageUrls(rows)
  }

  /** `findByUserId` on the profile-image repository: the first record of that user. */
  function ProfileRecordOf(t: Table<nat, UserProfileImage>, userId: Id): (r: Option<UserProfileImage>)
    ensures r.Some? <==> exists row :: row in t && row.rec.userId == userId
    ensures r.Some? ==> r.value.userId == userId && exists row :: row in t && row.rec == r.value
  {
    if |t| == 0 then None
    else if t[0].rec.userId == userId then Some(t[0].rec)
    else
      ProfileRecordOf(t[1..], userId)
  }

  /** The item rows of one owner. */
  function OwnedBy(ownerId: Id): Row<Id, Item> -> bool {
    (row: Row<Id, Item>) => row.rec.ownerId == ownerId
  }

  /** `findByOwnerId` on the item repository. */
  function ItemsOwnedBy(t: Table<Id, Item>, ownerId: Id): (rows: Table<Id, Item>)
    ensures forall row :: row in rows <==> row in t && row.rec.ownerId == ownerId
    ensures forall row {:trigger multiset(rows)[row]} :: multiset(rows)[row] == if row.rec.ownerId == ownerId then multiset(t)[row] else 0
    ensures UniqueKeys(t) ==> UniqueKeys(rows)
  {
    SelectKeys(t, OwnedBy(ownerId));
    Select(t, OwnedBy(ownerId))
  }

  /** `findByOwnerId` on the donation repository. */
  function DonationsOwnedBy(t: Table<Id, DonationItem>, ownerId: Id): (rows: Table<Id, DonationItem>)
    ensures forall row :: row in rows <==> row in t && row.rec.ownerId == ownerId
    ensures forall row {:trigger multiset(rows)[row]} :: multiset(rows)[row] == if row.rec.ownerId == ownerId then multiset(t)[row] else 0
    ensures UniqueKeys(t) ==> UniqueKeys(rows)
  {
    var owned := (row: Row<Id, DonationItem>) => row.rec.ownerId == ownerId;
    SelectKeys(t, owned);
    Select(t, owned)
  }

  /** The condition of the public listing: ACTIVE, someone else's, and in the category when
      one is given. */
  predicate Listed(row: Row<Id, Item>, caller: Id, categoryId: Option<nat>) {
    row.rec.status == ACTIVE && row.rec.ownerId != caller && (categoryId.None? || row.rec.categoryId == categoryId)
  }

  /** `findByStatusAndOwnerIdNot("ACTIVE", caller)` and, given a category,
      `findByStatusAndOwnerIdNotAndCategoryId("ACTIVE", caller, category)`. */
  function ActiveExceptUser(t: Table<Id, Item>, caller: Id, categoryId: Option<nat>): (rows: Table<Id, Item>)
    ensures forall row :: row in rows <==>
      && row in t
      && row.rec.status == ACTIVE
      && row.rec.ownerId != caller
      && (categoryId.Some? ==> row.rec.categoryId == categoryId)
    ensures forall row {:trigger multiset(rows)[row]} :: multiset(rows)[row] == if Listed(row, caller, categoryId) then multiset(t)[row] else 0
    ensures UniqueKeys(t) ==> UniqueKeys(rows)
  {
    var listed := (row: Row<Id, Item>) => Listed(row, caller, categoryId);
    SelectKeys(t, listed);
    Select(t, listed)
  }
}
