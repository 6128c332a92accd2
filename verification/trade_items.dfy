/** The public trade-item views: other users' active items and the details of one item, each
    with a contact block for the item's owner. Both generations list items the same way; the
    newer one fails on an unknown id where the older one answers null. */
module TradeItems {
  import opened Common
  import opened Tables
  import opened Records
  import opened Persistence
  import opened Catalog
  import Items

  /** The profile picture URL of a user: set only when the user's profile record holds a
      non-empty path, which is served with any "Assets/" removed; otherwise empty. */
  function ProfileUrl(s: Store, userId: Id): (url: string)
    ensures url != "" <==>
      ProfileRecordOf(s.profileImages, userId).Some?
      && ProfileRecordOf(s.profileImages, userId).value.imagePath.Some?
      && ProfileRecordOf(s.profileImages, userId).value.imagePath.value != ""
    ensures url != "" ==>
      url == PROFILE_IMAGE_BASE + Replace(ProfileRecordOf(s.profileImages, userId).value.imagePath.value, ASSETS_PREFIX, "")
  {
    match ProfileRecordOf(s.profileImages, userId)
    case None => ""
    case Some(upi) =>
      if upi.imagePath.Some? && upi.imagePath.value != "" then
        PROFILE_IMAGE_BASE + Replace(upi.imagePath.value, ASSETS_PREFIX, "")
      else ""
  }

  /** The owner block of `toItemResponseWithOwner`: every field is empty when the owner does
      not resolve; otherwise the owner's name, email and phone as stored, the address with
      null read as empty, and the profile picture URL. */
  function OwnerBlock(s: Store, ownerId: Id): (info: OwnerInfo)
    ensures Get(s.users, ownerId).None? ==> info == OwnerInfo(Some(""), Some(""), Some(""), "", "")
    ensures Get(s.users, ownerId).Some? ==>
      var u := Get(s.users, ownerId).value;
      && info.fullName == u.fullName && info.email == u.email && info.phone == u.phone
      && info.address == (if u.address.Some? then u.address.value else "")
      && info.profileImage == ProfileUrl(s, ownerId)
  {
    match Get(s.users, ownerId)
    case None => OwnerInfo(Some(""), Some(""), Some(""), "", "")
    case Some(u) =>
      OwnerInfo(u.fullName, u.email, u.phone, if u.address.Some? then u.address.value else "", ProfileUrl(s, ownerId))
  }

  /** `toItemResponseWithOwner`: the item's response with its creation time, plus the owner
      block. */
  function WithOwner(s: Store, row: Row<Id, Item>): (r: ItemResponse)
    ensures r.owner == Some(OwnerBlock(s, row.rec.ownerId))
    ensures r.(owner := None) == Items.StoredResponse(s, row)
  {
    Items.StoredResponse(s, row).(owner := Some(OwnerBlock(s, row.rec.ownerId)))
  }

  /** `getAllActiveExceptUser` (both generations): one response per ACTIVE item of another
      user, in the given category if one is given, in storage order. */
  function ActiveListing(s: Store, caller: Id, categoryId: Option<nat>): (rs: seq<ItemResponse>)
    ensures |rs| == |ActiveExceptUser(s.items, caller, categoryId)|
    ensures forall i :: 0 <= i < |rs| ==> rs[i] == WithOwner(s, ActiveExceptUser(s.items, caller, categoryId)[i])
  {
    MapSeq(ActiveExceptUser(s.items, caller, categoryId), (row: Row<Id, Item>) => WithOwner(s, row))
  }

  /** The listing with owners is the item service's listing entry for entry, each with the
      owner block added; so it too shows only other users' ACTIVE items. */
  lemma ListingsAgree(s: Store, caller: Id, categoryId: Option<nat>)
    ensures |ActiveListing(s, caller, categoryId)| == |Items.ActiveListing(s, caller, categoryId)|
    ensures forall i :: 0 <= i < |ActiveListing(s, caller, categoryId)| ==>
      ActiveListing(s, caller, categoryId)[i].(owner := None) == Items.ActiveListing(s, caller, categoryId)[i]
  {
  }

  /** `getItemDetails` of the newer generation: an unknown id fails with not-found. */
  function Details(s: Store, itemId: Id): (r: Result<ItemResponse>)
    ensures r.Err? <==> itemId !in Keys(s.items)
    ensures r.Err? ==> r.error == NotFound(Items.ITEM)
    ensures r.Ok? ==> r.value == WithOwner(s, Row(itemId, Get(s.items, itemId).value))
  {
    match Get(s.items, itemId)
    case None => Err(NotFound(Items.ITEM))
    case Some(item) => Ok(WithOwner(s, Row(itemId, item)))
  }

  /** `getItemDetails` of the older generation: an unknown id gives null. */
  function LegacyDetails(s: Store, itemId: Id): (r: Option<ItemResponse>)
    ensures r.None? <==> itemId !in Keys(s.items)
    ensures r.Some? ==> r.value == WithOwner(s, Row(itemId, Get(s.items, itemId).value))
  {
    match Get(s.items, itemId)
    case None => None
    case Some(item) => Some(WithOwner(s, Row(itemId, item)))
  }

  /** The two generations answer alike: null exactly where the newer one fails, the same
      response otherwise; and without the owner block it is the item service's detail view. */
  lemma DetailsAgree(s: Store, itemId: Id)
    ensures LegacyDetails(s, itemId).None? <==> Details(s, itemId) == Err(NotFound(Items.ITEM))
    ensures LegacyDetails(s, itemId).Some? ==>
      && Details(s, itemId) == Ok(LegacyDetails(s, itemId).value)
      && Items.Details(s, itemId) == Ok(LegacyDetails(s, itemId).value.(owner := None))
  {
  }

  /** A user whose profile record holds a picture path is shown with that picture's URL beside
      each of their items; the stored name comes back unchanged when it holds no "Assets/". */
  lemma OwnerPictureShown(s: Store, row: Row<Id, Item>, name: string)
    requires Get(s.users, row.rec.ownerId).Some?
    requires ProfileRecordOf(s.profileImages, row.rec.ownerId) == Some(UserProfileImage(row.rec.ownerId, Some(name)))
    requires name != "" && !Contains(name, ASSETS_PREFIX)
    ensures WithOwner(s, row).owner.value.profileImage == PROFILE_IMAGE_BASE + name
  {
    ReplaceAbsent(name, ASSETS_PREFIX, "");
  }
}
