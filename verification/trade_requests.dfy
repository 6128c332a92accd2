/** Trade requests, current generation: an offer of money or of one of the offerer's items
    against someone's listed item. A PENDING request is approved or rejected once; each
    decision is recorded on the request and reported to the offerer by a notification.
    The incoming views list the requests against the caller's items, optionally filtered by
    status without regard to case. */
module TradeRequests {
  import opened Common
  import opened Tables
  import opened Records
  import opened Persistence
  import opened Catalog
  import opened Notifications

  const TRADE_REQUEST := "Trade request"
  const ACCEPTED_MESSAGE := ", your trade request has been accepted!"
  const REJECTED_MESSAGE := ", your trade request has been rejected."

  /** The request body of `createRequest`; the offer and the kind may be null. */
  datatype TradeRequestInput = TradeRequestInput(itemId: Id, tradeType: Option<string>, moneyOffer: Option<Amount>)

  /** The caller owns the item stored under `itemId`. */
  ghost predicate OwnsItem(s: Store, itemId: Id, caller: Id) {
    Get(s.items, itemId).Some? && Get(s.items, itemId).value.ownerId == caller
  }

  // ------------------------------------------------------------------ create

  /** `createRequest` (both generations): a PENDING request by the caller is appended; a null
      offer becomes 0.0 and a null kind becomes MONEY. Neither the item's existence nor its
      owner is checked. */
  function Create(s: Store, input: TradeRequestInput, caller: Id, newId: Id): (o: Outcome<Row<Id, TradeRequest>>)
    requires newId !in Keys(s.tradeRequests)
    ensures o.result.Ok? && o.result.value.key == newId
    ensures o.result.value.rec.status == PENDING
    ensures o.result.value.rec.offeredBy == caller
    ensures o.result.value.rec.itemId == input.itemId
    ensures o.result.value.rec.moneyOffer == input.moneyOffer.GetOr(0.0)
    ensures o.result.value.rec.tradeType == input.tradeType.GetOr(MONEY)
    ensures o.result.value.rec.receiverSelectedItemId.None?
    ensures o.store == s.(tradeRequests := s.tradeRequests + [o.result.value])
  {
    var req := TradeRequest(input.itemId, caller, input.tradeType.GetOr(MONEY), input.moneyOffer.GetOr(0.0), None, PENDING);
    Outcome(Ok(Row(newId, req)), s.(tradeRequests := Save(s.tradeRequests, newId, req)))
  }

  method CreateRequest(db: Repositories, input: TradeRequestInput, caller: Id, newId: Id) returns (r: Row<Id, TradeRequest>)
    requires db.Valid() && newId !in Keys(db.store.tradeRequests)
    modifies db
    ensures db.Valid()
    ensures Outcome(Ok(r), db.store) == Create(old(db.store), input, caller, newId)
  {
    var req := TradeRequest(input.itemId, caller, input.tradeType.GetOr(MONEY), input.moneyOffer.GetOr(0.0), None, PENDING);
    db.store := db.store.(tradeRequests := Save(db.store.tradeRequests, newId, req));
    r := Row(newId, req);
  }

  // ------------------------------------------------------------------ decisions

  /** The name used to address the offerer: the stored full name (Java's "null" when it is
      null), or "Sender" when the user does not resolve. */
  function SenderName(users: Table<Id, User>, userId: Id): (name: string)
    ensures Get(users, userId).None? ==> name == "Sender"
    ensures Get(users, userId).Some? ==> name == Str(Get(users, userId).value.fullName)
  {
    match Get(users, userId)
    case None => "Sender"
    case Some(u) => Str(u.fullName)
  }

  /** `after` is `before` with the request under `requestId` now `req` and exactly one more
      notification, `note`, appended; nothing else differs. */
  ghost predicate DecisionRecorded(before: Store, after: Store, requestId: Id, req: TradeRequest, note: Row<Id, Notification>) {
    && Get(after.tradeRequests, requestId) == Some(req)
    && (forall k :: k != requestId ==> Get(after.tradeRequests, k) == Get(before.tradeRequests, k))
    && |after.tradeRequests| == |before.tradeRequests|
    && after.notifications == before.notifications + [note]
    && after == before.(tradeRequests := after.tradeRequests, notifications := after.notifications)
  }

  /** `approveRequest`: an unknown request fails with not-found and a request that is not
      PENDING fails, both with no write and no notification. Otherwise the selected item
      (possibly none) is recorded, the request becomes ACCEPTED, and the offerer receives one
      unread notification. */
  function Approve(s: Store, requestId: Id, selectedItemId: Option<Id>, notificationId: Id): (o: Outcome<Row<Id, TradeRequest>>)
    requires notificationId !in Keys(s.notifications)
    ensures requestId !in Keys(s.tradeRequests) ==> o == Outcome(Err(NotFound(TRADE_REQUEST)), s)
    ensures requestId in Keys(s.tradeRequests) && Get(s.tradeRequests, requestId).value.status != PENDING ==>
      o == Outcome(Err(NotPending), s)
    ensures o.result.Ok? <==> requestId in Keys(s.tradeRequests) && Get(s.tradeRequests, requestId).value.status == PENDING
    ensures o.result.Ok? ==>
      var req := Get(s.tradeRequests, requestId).value;
      var approved := req.(receiverSelectedItemId := selectedItemId, status := ACCEPTED);
      && o.result.value == Row(requestId, approved)
      && DecisionRecorded(s, o.store, requestId, approved,
           Row(notificationId, Notification(req.offeredBy, SenderName(s.users, req.offeredBy) + ACCEPTED_MESSAGE, false)))
  {
    match Get(s.tradeRequests, requestId)
    case None => Outcome(Err(NotFound(TRADE_REQUEST)), s)
    case Some(req) =>
      if req.status != PENDING then Outcome(Err(NotPending), s)
      else
        var approved := req.(receiverSelectedItemId := selectedItemId, status := ACCEPTED);
        var saved := s.(tradeRequests := Save(s.tradeRequests, requestId, approved));
        var message := SenderName(saved.users, req.offeredBy) + ACCEPTED_MESSAGE;
        Outcome(Ok(Row(requestId, approved)), Notifications.Create(saved, NotificationInput(req.offeredBy, message), notificationId).store)
  }

  method ApproveRequest(db: Repositories, requestId: Id, selectedItemId: Option<Id>, notificationId: Id)
    returns (r: Result<Row<Id, TradeRequest>>)
    requires db.Valid() && notificationId !in Keys(db.store.notifications)
    modifies db
    ensures db.Valid()
    ensures Outcome(r, db.store) == Approve(old(db.store), requestId, selectedItemId, notificationId)
  {
    var found := Get(db.store.tradeRequests, requestId);
    if found.None? {
      return Err(NotFound(TRADE_REQUEST));
    }
    var req := found.value;
    if req.status != PENDING {
      return Err(NotPending);
    }
    var approved := req.(receiverSelectedItemId := selectedItemId, status := ACCEPTED);
    db.store := db.store.(tradeRequests := Save(db.store.tradeRequests, requestId, approved));
    var message := SenderName(db.store.users, req.offeredBy) + ACCEPTED_MESSAGE;
    var _ := CreateNotification(db, NotificationInput(req.offeredBy, message), notificationId);
    r := Ok(Row(requestId, approved));
  }

  /** `rejectRequest`: the same guards as approval. Only the status changes, to REJECTED (the
      selected item is left as it was), and the offerer receives one unread notification. */
  function Reject(s: Store, requestId: Id, notificationId: Id): (o: Outcome<Row<Id, TradeRequest>>)
    requires notificationId !in Keys(s.notifications)
    ensures requestId !in Keys(s.tradeRequests) ==> o == Outcome(Err(NotFound(TRADE_REQUEST)), s)
    ensures requestId in Keys(s.tradeRequests) && Get(s.tradeRequests, requestId).value.status != PENDING ==>
      o == Outcome(Err(NotPending), s)
    ensures o.result.Ok? <==> requestId in Keys(s.tradeRequests) && Get(s.tradeRequests, requestId).value.status == PENDING
    ensures o.result.Ok? ==>
      var req := Get(s.tradeRequests, requestId).value;
      && o.result.value == Row(requestId, req.(status := REJECTED))
      && DecisionRecorded(s, o.store, requestId, req.(status := REJECTED),
           Row(notificationId, Notification(req.offeredBy, SenderName(s.users, req.offeredBy) + REJECTED_MESSAGE, false)))
  {
    match Get(s.tradeRequests, requestId)
    case None => Outcome(Err(NotFound(TRADE_REQUEST)), s)
    case Some(req) =>
      if req.status != PENDING then Outcome(Err(NotPending), s)
      else
        var rejected := req.(status := REJECTED);
        var saved := s.(tradeRequests := Save(s.tradeRequests, requestId, rejected));
        var message := SenderName(saved.users, req.offeredBy) + REJECTED_MESSAGE;
        Outcome(Ok(Row(requestId, rejected)), Notifications.Create(saved, NotificationInput(req.offeredBy, message), notificationId).store)
  }

  method RejectRequest(db: Repositories, requestId: Id, notificationId: Id) returns (r: Result<Row<Id, TradeRequest>>)
    requires db.Valid() && notificationId !in Keys(db.store.notifications)
    modifies db
    ensures db.Valid()
    ensures Outcome(r, db.store) == Reject(old(db.store), requestId, notificationId)
  {
    var found := Get(db.store.tradeRequests, requestId);
    if found.None? {
      return Err(NotFound(TRADE_REQUEST));
    }
    var req := found.value;
    if req.status != PENDING {
      return Err(NotPending);
    }
    var rejected := req.(status := REJECTED);
    db.store := db.store.(tradeRequests := Save(db.store.tradeRequests, requestId, rejected));
    var message := SenderName(db.store.users, req.offeredBy) + REJECTED_MESSAGE;
    var _ := CreateNotification(db, NotificationInput(req.offeredBy, message), notificationId);
    r := Ok(Row(requestId, rejected));
  }

  /** A request leaves PENDING at most once: after an approval, a second approval and a
      rejection both fail and change nothing. */
  lemma NoDecisionAfterApprove(s: Store, requestId: Id, selected: Option<Id>, n1: Id, selected2: Option<Id>, n2: Id)
    requires n1 !in Keys(s.notifications)
    requires Approve(s, requestId, selected, n1).result.Ok?
    requires n2 !in Keys(Approve(s, requestId, selected, n1).store.notifications)
    ensures var after := Approve(s, requestId, selected, n1).store;
      && Approve(after, requestId, selected2, n2) == Outcome(Err(NotPending), after)
      && Reject(after, requestId, n2) == Outcome(Err(NotPending), after)
  {
    var after := Approve(s, requestId, selected, n1).store;
    assert Get(after.tradeRequests, requestId).value.status == ACCEPTED;
  }

  /** The same after a rejection. */
  lemma NoDecisionAfterReject(s: Store, requestId: Id, n1: Id, selected2: Option<Id>, n2: Id)
    requires n1 !in Keys(s.notifications)
    requires Reject(s, requestId, n1).result.Ok?
    requires n2 !in Keys(Reject(s, requestId, n1).store.notifications)
    ensures var after := Reject(s, requestId, n1).store;
      && Approve(after, requestId, selected2, n2) == Outcome(Err(NotPending), after)
      && Reject(after, requestId, n2) == Outcome(Err(NotPending), after)
  {
    var after := Reject(s, requestId, n1).store;
    assert Get(after.tradeRequests, requestId).value.status == REJECTED;
  }

  // ------------------------------------------------------------------ incoming views

  /** `getIncomingRequests` (both generations): every stored request whose item is among the
      caller's items, in storage order. */
  function IncomingRequests(s: Store, caller: Id): (rows: Table<Id, TradeRequest>)
    ensures forall row :: row in rows <==> row in s.tradeRequests && row.rec.itemId in Keys(ItemsOwnedBy(s.items, caller))
    ensures forall row {:trigger multiset(rows)[row]} :: multiset(rows)[row] ==
                          (if row.rec.itemId in Keys(ItemsOwnedBy(s.items, caller)) then multiset(s.tradeRequests)[row] else 0)
  {
    var myItemIds := Keys(ItemsOwnedBy(s.items, caller));
    Select(s.tradeRequests, (row: Row<Id, TradeRequest>) => row.rec.itemId in myItemIds)
  }

  /** The incoming requests are exactly the requests against an item the caller owns, each
      listed once. */
  lemma IncomingRequestsExactlyOnce(s: Store, caller: Id, row: Row<Id, TradeRequest>)
    requires Consistent(s)
    ensures multiset(IncomingRequests(s, caller))[row] ==
      if row in s.tradeRequests && OwnsItem(s, row.rec.itemId, caller) then 1 else 0
  {
    SelectedKeys(s.items, ItemsOwnedBy(s.items, caller), (r: Row<Id, Item>) => r.rec.ownerId == caller, row.rec.itemId);
    if row in s.tradeRequests {
      RowOccursOnce(s.tradeRequests, row);
    }
  }

  /** The optional status filter: a null or empty status keeps everything; otherwise the
      requests whose status equals it ignoring case are kept, in order. */
  function WithStatus(rows: Table<Id, TradeRequest>, status: Option<string>): (kept: Table<Id, TradeRequest>)
    ensures status.None? || status.value == "" ==> kept == rows
    ensures status.Some? && status.value != "" ==>
      forall row :: row in kept <==> row in rows && EqualsIgnoreCase(row.rec.status, status.value)
    ensures forall row {:trigger multiset(kept)[row]} :: multiset(kept)[row] ==
                          (if status.None? || status.value == "" || EqualsIgnoreCase(row.rec.status, status.value)
                           then multiset(rows)[row] else 0)
  {
    if status.Some? && status.value != "" then
      Select(rows, (row: Row<Id, TradeRequest>) => EqualsIgnoreCase(row.rec.status, status.value))
    else rows
  }

  /** With the filter, the detailed incoming list holds, once each, exactly the requests
      against the caller's items whose status matches. */
  lemma FilteredIncomingExactlyOnce(s: Store, caller: Id, status: Option<string>, row: Row<Id, TradeRequest>)
    requires Consistent(s)
    ensures multiset(WithStatus(IncomingRequests(s, caller), status))[row] ==
      if && row in s.tradeRequests
         && OwnsItem(s, row.rec.itemId, caller)
         && (status.None? || status.value == "" || EqualsIgnoreCase(row.rec.status, status.value))
      then 1 else 0
  {
    IncomingRequestsExactlyOnce(s, caller, row);
  }

  // ------------------------------------------------------------------ detailed view

  /** What the detailed view shows of an item: title, description, price and image URLs. */
  datatype ItemSnapshot = ItemSnapshot(
    title: Option<string>,
    description: Option<string>,
    price: Option<Amount>,
    images: seq<string>)

  /** The contact fields only the current generation's detailed view carries. */
  datatype Contacts = Contacts(
    senderEmail: Option<string>,
    senderPhone: Option<string>,
    senderAddress: Option<string>,
    receiverUserId: Id,
    receiverFullName: Option<string>,
    receiverEmail: Option<string>,
    receiverPhone: Option<string>,
    receiverAddress: Option<string>)

  /** One entry of the detailed incoming list; `contacts` is absent in the older generation. */
  datatype TradeRequestDetailed = TradeRequestDetailed(
    requestId: Id,
    status: string,
    moneyOffer: Amount,
    offeredByUserId: Id,
    offeredByUserName: Option<string>,
    tradeType: string,
    requestedItemId: Id,
    requestedItem: ItemSnapshot,
    offeredItemId: Option<Id>,
    offeredItem: ItemSnapshot,
    contacts: Option<Contacts>)

  /** The item a request is made against, or the "Unknown Item" fallback. */
  function RequestedItem(s: Store, itemId: Id): (snap: ItemSnapshot)
    ensures Get(s.items, itemId).None? ==> snap == ItemSnapshot(Some("Unknown Item"), None, None, [])
    ensures Get(s.items, itemId).Some? ==>
      var item := Get(s.items, itemId).value;
      snap == ItemSnapshot(Some(item.title), Some(item.description), Some(item.price),
                           MapImagesToPaths(Some(ItemImagesOf(s.itemImages, itemId))))
  {
    match Get(s.items, itemId)
    case None => ItemSnapshot(Some("Unknown Item"), None, None, [])
    case Some(item) =>
      ItemSnapshot(Some(item.title), Some(item.description), Some(item.price),
                   MapImagesToPaths(Some(ItemImagesOf(s.itemImages, itemId))))
  }

  /** The offered item: read only for an ITEM trade whose selected item is set and resolves;
      otherwise every field is null and the image list is empty. */
  function OfferedItem(s: Store, req: TradeRequest): (snap: ItemSnapshot)
    ensures !(req.tradeType == ITEM && req.receiverSelectedItemId.Some?) ==> snap == ItemSnapshot(None, None, None, [])
    ensures snap.title.Some? <==>
      req.tradeType == ITEM && req.receiverSelectedItemId.Some? && req.receiverSelectedItemId.value in Keys(s.items)
    ensures snap.title.None? ==> snap == ItemSnapshot(None, None, None, [])
    ensures snap.title.Some? ==>
      var itemId := req.receiverSelectedItemId.value;
      var item := Get(s.items, itemId).value;
      && snap.title == Some(item.title) && snap.description == Some(item.description) && snap.price == Some(item.price)
      && |snap.images| == |ItemImagesOf(s.itemImages, itemId)|
      && snap.images == MapImagesToPaths(Some(ItemImagesOf(s.itemImages, itemId)))
  {
    if req.tradeType == ITEM && req.receiverSelectedItemId.Some? then
      match Get(s.items, req.receiverSelectedItemId.value)
      case None => ItemSnapshot(None, None, None, [])
      case Some(item) =>
        ItemSnapshot(Some(item.title), Some(item.description), Some(item.price),
                     MapImagesToPaths(Some(ItemImagesOf(s.itemImages, req.receiverSelectedItemId.value))))
    else ItemSnapshot(None, None, None, [])
  }

  /** The part of `toDetailedDTO` both generations share. */
  function DetailCore(s: Store, row: Row<Id, TradeRequest>): (d: TradeRequestDetailed)
    ensures d.requestId == row.key && d.status == row.rec.status && d.moneyOffer == row.rec.moneyOffer
    ensures d.offeredByUserId == row.rec.offeredBy && d.tradeType == row.rec.tradeType
    ensures d.requestedItemId == row.rec.itemId && d.offeredItemId == row.rec.receiverSelectedItemId
    ensures Get(s.users, row.rec.offeredBy).None? ==> d.offeredByUserName == Some("Unknown User")
    ensures Get(s.users, row.rec.offeredBy).Some? ==> d.offeredByUserName == Get(s.users, row.rec.offeredBy).value.fullName
    ensures d.requestedItem == RequestedItem(s, row.rec.itemId) && d.offeredItem == OfferedItem(s, row.rec)
    ensures d.contacts.None?
  {
    var req := row.rec;
    var sender := Get(s.users, req.offeredBy);
    TradeRequestDetailed(
      row.key, req.status, req.moneyOffer, req.offeredBy,
      if sender.Some? then sender.value.fullName else Some("Unknown User"),
      req.tradeType, req.itemId, RequestedItem(s, req.itemId),
      req.receiverSelectedItemId, OfferedItem(s, req), None)
  }

  /** The sender's and the receiver's contact fields, "" for a user that does not resolve;
      the receiver is the owner of the requested item. */
  function ContactsOf(s: Store, req: TradeRequest): (c: Contacts)
    ensures Get(s.users, req.offeredBy).None? ==>
      c.senderEmail == Some("") && c.senderPhone == Some("") && c.senderAddress == Some("")
    ensures Get(s.users, req.offeredBy).Some? ==>
      var u := Get(s.users, req.offeredBy).value;
      c.senderEmail == u.email && c.senderPhone == u.phone && c.senderAddress == u.address
    ensures c.receiverUserId != "" ==> Get(s.items, req.itemId).Some? && c.receiverUserId == Get(s.items, req.itemId).value.ownerId
    ensures Get(s.items, req.itemId).None? || Get(s.users, Get(s.items, req.itemId).value.ownerId).None? ==>
      && c.receiverUserId == "" && c.receiverFullName == Some("") && c.receiverEmail == Some("")
      && c.receiverPhone == Some("") && c.receiverAddress == Some("")
    ensures Get(s.items, req.itemId).Some? && Get(s.users, Get(s.items, req.itemId).value.ownerId).Some? ==>
      var ownerId := Get(s.items, req.itemId).value.ownerId;
      var owner := Get(s.users, ownerId).value;
      && c.receiverUserId == ownerId && c.receiverFullName == owner.fullName && c.receiverEmail == owner.email
      && c.receiverPhone == owner.phone && c.receiverAddress == owner.address
  {
    var sender := Get(s.users, req.offeredBy);
    var item := Get(s.items, req.itemId);
    var receiver := if item.Some? then Get(s.users, item.value.ownerId) else None;
    Contacts(
      if sender.Some? then sender.value.email else Some(""),
      if sender.Some? then sender.value.phone else Some(""),
      if sender.Some? then sender.value.address else Some(""),
      if receiver.Some? then item.value.ownerId else "",
      if receiver.Some? then receiver.value.fullName else Some(""),
      if receiver.Some? then receiver.value.email else Some(""),
      if receiver.Some? then receiver.value.phone else Some(""),
      if receiver.Some? then receiver.value.address else Some(""))
  }

  /** `toDetailedDTO` of the current generation: the shared part plus the contacts. */
  function ToDetailed(s: Store, row: Row<Id, TradeRequest>): (d: TradeRequestDetailed)
    ensures d.requestId == row.key && d.status == row.rec.status && d.moneyOffer == row.rec.moneyOffer
    ensures d.offeredByUserId == row.rec.offeredBy && d.tradeType == row.rec.tradeType
    ensures d.requestedItemId == row.rec.itemId && d.offeredItemId == row.rec.receiverSelectedItemId
    ensures Get(s.users, row.rec.offeredBy).None? ==> d.offeredByUserName == Some("Unknown User")
    ensures Get(s.users, row.rec.offeredBy).Some? ==> d.offeredByUserName == Get(s.users, row.rec.offeredBy).value.fullName
    ensures d.requestedItem == RequestedItem(s, row.rec.itemId) && d.offeredItem == OfferedItem(s, row.rec)
    ensures d.contacts == Some(ContactsOf(s, row.rec))
    ensures d.(contacts := None) == DetailCore(s, row)
  {
    DetailCore(s, row).(contacts := Some(ContactsOf(s, row.rec)))
  }

  /** `getIncomingRequestsDetailed`: the filtered incoming requests, each detailed, in order. */
  function IncomingDetailed(s: Store, caller: Id, status: Option<string>): (views: seq<TradeRequestDetailed>)
    ensures |views| == |WithStatus(IncomingRequests(s, caller), status)|
    ensures forall i :: 0 <= i < |views| ==> views[i] == ToDetailed(s, WithStatus(IncomingRequests(s, caller), status)[i])
    ensures forall i :: 0 <= i < |views| ==> views[i].contacts.Some?
  {
    MapSeq(WithStatus(IncomingRequests(s, caller), status), (row: Row<Id, TradeRequest>) => ToDetailed(s, row))
  }

  /** `toItemResponse` of both trade-request services: no creation time and no owner block. */
  function ToItemResponse(s: Store, row: Row<Id, Item>): (r: ItemResponse)
    ensures r.itemId == row.key && r.title == row.rec.title && r.status == row.rec.status
    ensures r.description == row.rec.description && r.price == row.rec.price && r.categoryId == row.rec.categoryId
    ensures r.images == ItemImageUrls(ItemImagesOf(s.itemImages, row.key))
    ensures r.createdAt.None? && r.owner.None?
  {
    ItemResponse(row.key, row.rec.title, row.rec.description, row.rec.price, row.rec.categoryId,
                 ItemImageUrls(ItemImagesOf(s.itemImages, row.key)), row.rec.status, None, None)
  }

  /** `getItemsByOwner` (both generations): one response per item of that owner, in order. */
  function ItemsByOwner(s: Store, userId: Id): (rs: seq<ItemResponse>)
    ensures |rs| == |ItemsOwnedBy(s.items, userId)|
    ensures forall i :: 0 <= i < |rs| ==> rs[i] == ToItemResponse(s, ItemsOwnedBy(s.items, userId)[i])
  {
    MapSeq(ItemsOwnedBy(s.items, userId), (row: Row<Id, Item>) => ToItemResponse(s, row))
  }
}
