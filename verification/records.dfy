/** The persisted entities of the marketplace, as plain values. Primary keys live in the
    table row (`Tables.Row.key`), not in the record. A Java field that the services test
    for null is an `Option`; a field they only copy is a plain value. */
module Records {
  import opened Common

  // Status strings the services write and compare.
  const ACTIVE := "ACTIVE"
  const PENDING := "PENDING"
  const ACCEPTED := "ACCEPTED"
  const REJECTED := "REJECTED"
  const COMPLETED := "COMPLETED"
  const RESERVED := "RESERVED"
  const DONATED := "DONATED"

  // Trade kinds.
  const MONEY := "MONEY"
  const ITEM := "ITEM"

  /** A registered user; every profile field may be null. */
  datatype User = User(
    fullName: Option<string>,
    email: Option<string>,
    phone: Option<string>,
    address: Option<string>,
    city: Option<string>,
    province: Option<string>,
    passwordHash: string,
    isVerified: bool)

  /** A listed trade item. */
  datatype Item = Item(
    title: string,
    description: string,
    price: Amount,
    categoryId: Option<nat>,
    ownerId: Id,
    status: string,
    createdAt: Option<Timestamp>)

  /** One stored picture of a trade item; `itemId` is the owning item's key. */
  datatype ItemImage = ItemImage(itemId: Id, imagePath: string)

  /** A donation listing. */
  datatype DonationItem = DonationItem(
    title: string,
    description: string,
    ownerId: Id,
    status: string,
    createdAt: Option<Timestamp>)

  /** One stored picture of a donation; `donationId` is the owning donation's key. */
  datatype DonationItemImage = DonationItemImage(donationId: Id, imagePath: string)

  /** An offer (money or one of the offerer's items) against someone's item. */
  datatype TradeRequest = TradeRequest(
    itemId: Id,
    offeredBy: Id,
    tradeType: string,
    moneyOffer: Amount,
    receiverSelectedItemId: Option<Id>,
    status: string)

  /** A request to receive a donation. */
  datatype DonationRequest = DonationRequest(
    donationId: Id,
    requestedBy: Id,
    message: Option<string>,
    status: string,
    createdAt: Option<Timestamp>)

  /** A message in a user's mailbox. */
  datatype Notification = Notification(userId: Id, message: string, read: bool)

  /** A score given by a requester to the owner of a donation. */
  datatype Rating = Rating(
    donationRequestId: Id,
    raterId: Id,
    rateeId: Id,
    score: int,
    comment: Option<string>)

  /** A listing category. */
  datatype Category = Category(categoryName: Option<string>)

  /** The stored profile picture name of a user. */
  datatype UserProfileImage = UserProfileImage(userId: Id, imagePath: Option<string>)
}
