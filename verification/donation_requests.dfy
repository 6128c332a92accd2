/** Requests to receive a donation: creation by a would-be recipient, acceptance or
    rejection by the donation's owner, completion by the requester, and the read-only views
    that join a request with its donation and with the other party's contact details. */
module DonationRequests {
  import opened Common
  import opened Tables
  import opened Records
  import opened Persistence
  import opened Catalog

  const DONATION_REQUEST := "Donation request"
  const DONATION_ITEM := "Donation item"
  const USER := "User"

  /** The request body of `createDonationRequest`. */
  datatype DonationRequestInput = DonationRequestInput(donationId: Id, message: Option<string>)

  /** The caller owns the donation stored under `donationId`. */
  ghost predicate OwnsDonation(s: Store, donationId: Id, caller: Id) {
    Get(s.donationItems, donationId).Some? && Get(s.donationItems, donationId).value.ownerId == caller
  }

  /** `after` is `before` with the request under `requestId` now `req` and the donation under
      `donationId` now `d`; every other row of every table is as it was. */
  ghost predicate UpdatedOnly(before: Store, after: Store, requestId: Id, req: DonationRequest, donationId: Id, d: DonationItem) {
    && Get(after.donationRequests, requestId) == Some(req)
    && (forall k :: k != requestId ==> Get(after.donationRequests, k) == Get(before.donationRequests, k))
    && |after.donationRequests| == |before.donationRequests|
    && Get(after.donationItems, donationId) == Some(d)
    && (forall k :: k != donationId ==> Get(after.donationItems, k) == Get(before.donationItems, k))
    && |after.donationItems| == |before.donationItems|
    && after == before.(donationRequests := after.donationRequests, donationItems := after.donationItems)
  }

  // ------------------------------------------------------------------ create

  /** `createDonationRequest`: the donation must exist (checked first) and must not be the
      caller's own; a new PENDING request by the caller is then appended. */
  function Create(s: Store, input: DonationRequestInput, caller: Id, newId: Id): (o: Outcome<Row<Id, DonationRequest>>)
    requires newId !in Keys(s.donationRequests)
    ensures input.donationId !in Keys(s.donationItems) ==> o == Outcome(Err(NotFound(DONATION_ITEM)), s)
    ensures OwnsDonation(s, input.donationId, caller) ==> o == Outcome(Err(OwnDonation), s)
    ensures o.result.Ok? <==> input.donationId in Keys(s.donationItems) && !OwnsDonation(s, input.donationId, caller)
    ensures o.result.Ok? ==>
      && o.result.value.key == newId
      && o.result.value.rec.status == PENDING
      && o.result.value.rec.requestedBy == caller
      && o.result.value.rec.donationId == input.donationId
      && o.result.value.rec.message == input.message
      && o.store == s.(donationRequests := s.donationRequests + [o.result.value])
  {
    match Get(s.donationItems, input.donationId)
    case None => Outcome(Err(NotFound(DONATION_ITEM)), s)
    case Some(donation) =>
      if donation.ownerId == caller then Outcome(Err(OwnDonation), s)
      else
        var request := DonationRequest(input.donationId, caller, input.message, PENDING, None);
        Outcome(Ok(Row(newId, request)), s.(donationRequests := Save(s.donationRequests, newId, request)))
  }

  method CreateDonationRequest(db: Repositories, input: DonationRequestInput, caller: Id, newId: Id)
    returns (r: Result<Row<Id, DonationRequest>>)
    requires db.Valid() && newId !in Keys(db.store.donationRequests)
    modifies db
    ensures db.Valid()
    ensures Outcome(r, db.store) == Create(old(db.store), input, caller, newId)
  {
    var donation := Get(db.store.donationItems, input.donationId);
    if donation.None? {
      return Err(NotFound(DONATION_ITEM));
    }
    if donation.value.ownerId == caller {
      return Err(OwnDonation);
    }
    var request := DonationRequest(input.donationId, caller, input.message, PENDING, None);
    db.store := db.store.(donationRequests := Save(db.store.donationRequests, newId, request));
    r := Ok(Row(newId, request));
  }

  // ------------------------------------------------------------------ owner's decision

  /** `acceptDonationRequest`: the request and its donation must exist and the caller must own
      the donation. The request becomes ACCEPTED and the donation RESERVED together; the
      request's previous status is not examined. */
  function Accept(s: Store, requestId: Id, caller: Id): (o: Outcome<Row<Id, DonationRequest>>)
    ensures requestId !in Keys(s.donationRequests) ==> o == Outcome(Err(NotFound(DONATION_REQUEST)), s)
    ensures requestId in Keys(s.donationRequests) ==>
      var req := Get(s.donationRequests, requestId).value;
      && (req.donationId !in Keys(s.donationItems) ==> o == Outcome(Err(NotFound(DONATION_ITEM)), s))
      && (req.donationId in Keys(s.donationItems) && !OwnsDonation(s, req.donationId, caller) ==> o == Outcome(Err(NotAuthorized), s))
      && (OwnsDonation(s, req.donationId, caller) ==>
            var d := Get(s.donationItems, req.donationId).value;
            && o.result == Ok(Row(requestId, req.(status := ACCEPTED)))
            && UpdatedOnly(s, o.store, requestId, req.(status := ACCEPTED), req.donationId, d.(status := RESERVED)))
  {
    match Get(s.donationRequests, requestId)
    case None => Outcome(Err(NotFound(DONATION_REQUEST)), s)
    case Some(req) =>
      match Get(s.donationItems, req.donationId)
      case None => Outcome(Err(NotFound(DONATION_ITEM)), s)
      case Some(donation) =>
        if donation.ownerId != caller then Outcome(Err(NotAuthorized), s)
        else
          var accepted := req.(status := ACCEPTED);
          Outcome(Ok(Row(requestId, accepted)),
                  s.(donationItems := Save(s.donationItems, req.donationId, donation.(status := RESERVED)),
                     donationRequests := Save(s.donationRequests, requestId, accepted)))
  }

  method AcceptDonationRequest(db: Repositories, requestId: Id, caller: Id) returns (r: Result<Row<Id, DonationRequest>>)
    requires db.Valid()
    modifies db
    ensures db.Valid()
    ensures Outcome(r, db.store) == Accept(old(db.store), requestId, caller)
  {
    var request := Get(db.store.donationRequests, requestId);
    if request.None? {
      return Err(NotFound(DONATION_REQUEST));
    }
    var donation := Get(db.store.donationItems, request.value.donationId);
    if donation.None? {
      return Err(NotFound(DONATION_ITEM));
    }
    if donation.value.ownerId != caller {
      return Err(NotAuthorized);
    }
    var accepted := request.value.(status := ACCEPTED);
    db.store := db.store.(donationItems := Save(db.store.donationItems, request.value.donationId, donation.value.(status := RESERVED)));
    db.store := db.store.(donationRequests := Save(db.store.donationRequests, requestId, accepted));
    r := Ok(Row(requestId, accepted));
  }

  /** `rejectDonationRequest`: the same three checks as acceptance; only the request changes,
      to REJECTED, and the donation keeps its status. */
  function Reject(s: Store, requestId: Id, caller: Id): (o: Outcome<Row<Id, DonationRequest>>)
    ensures requestId !in Keys(s.donationRequests) ==> o == Outcome(Err(NotFound(DONATION_REQUEST)), s)
    ensures requestId in Keys(s.donationRequests) ==>
      var req := Get(s.donationRequests, requestId).value;
      && (req.donationId !in Keys(s.donationItems) ==> o == Outcome(Err(NotFound(DONATION_ITEM)), s))
      && (req.donationId in Keys(s.donationItems) && !OwnsDonation(s, req.donationId, caller) ==> o == Outcome(Err(NotAuthorized), s))
      && (OwnsDonation(s, req.donationId, caller) ==>
            && o.result == Ok(Row(requestId, req.(status := REJECTED)))
            && UpdatedOnly(s, o.store, requestId, req.(status := REJECTED), req.donationId, Get(s.donationItems, req.donationId).value))
  {
    match Get(s.donationRequests, requestId)
    case None => Outcome(Err(NotFound(DONATION_REQUEST)), s)
    case Some(req) =>
      match Get(s.donationItems, req.donationId)
      case None => Outcome(Err(NotFound(DONATION_ITEM)), s)
      case Some(donation) =>
        if donation.ownerId != caller then Outcome(Err(NotAuthorized), s)
        else
          var rejected := req.(status := REJECTED);
          Outcome(Ok(Row(requestId, rejected)), s.(donationRequests := Save(s.donationRequests, requestId, rejected)))
  }

  method RejectDonationRequest(db: Repositories, requestId: Id, caller: Id) returns (r: Result<Row<Id, DonationRequest>>)
    requires db.Valid()
    modifies db
    ensures db.Valid()
    ensures Outcome(r, db.store) == Reject(old(db.store), requestId, caller)
  {
    var request := Get(db.store.donationRequests, requestId);
    if request.None? {
      return Err(NotFound(DONATION_REQUEST));
    }
    var donation := Get(db.store.donationItems, request.value.donationId);
    if donation.None? {
      return Err(NotFound(DONATION_ITEM));
    }
    if donation.value.ownerId != caller {
      return Err(NotAuthorized);
    }
    var rejected := request.value.(status := REJECTED);
    db.store := db.store.(donationRequests := Save(db.store.donationRequests, requestId, rejected));
    r := Ok(Row(requestId, rejected));
  }

  // ------------------------------------------------------------------ requester's completion

  /** `completeDonation`: only the requester may complete, and that is checked before the
      donation is looked up. The donation becomes DONATED and the request COMPLETED, whatever
      their previous statuses. */
  function Complete(s: Store, requestId: Id, caller: Id): (o: Outcome<Row<Id, DonationRequest>>)
    ensures requestId !in Keys(s.donationRequests) ==> o == Outcome(Err(NotFound(DONATION_REQUEST)), s)
    ensures requestId in Keys(s.donationRequests) ==>
      var req := Get(s.donationRequests, requestId).value;
      && (caller != req.requestedBy ==> o == Outcome(Err(NotAuthorized), s))
      && (caller == req.requestedBy && req.donationId !in Keys(s.donationItems) ==> o == Outcome(Err(NotFound(DONATION_ITEM)), s))
      && (caller == req.requestedBy && req.donationId in Keys(s.donationItems) ==>
            var d := Get(s.donationItems, req.donationId).value;
            && o.result == Ok(Row(requestId, req.(status := COMPLETED)))
            && UpdatedOnly(s, o.store, requestId, req.(status := COMPLETED), req.donationId, d.(status := DONATED)))
  {
    match Get(s.donationRequests, requestId)
    case None => Outcome(Err(NotFound(DONATION_REQUEST)), s)
    case Some(req) =>
      if caller != req.requestedBy then Outcome(Err(NotAuthorized), s)
      else
        match Get(s.donationItems, req.donationId)
        case None => Outcome(Err(NotFound(DONATION_ITEM)), s)
        case Some(donation) =>
          var completed := req.(status := COMPLETED);
          Outcome(Ok(Row(requestId, completed)),
                  s.(donationItems := Save(s.donationItems, req.donationId, donation.(status := DONATED)),
                     donationRequests := Save(s.donationRequests, requestId, completed)))
  }

  method CompleteDonation(db: Repositories, requestId: Id, caller: Id) returns (r: Result<Row<Id, DonationRequest>>)
    requires db.Valid()
    modifies db
    ensures db.Valid()
    ensures Outcome(r, db.store) == Complete(old(db.store), requestId, caller)
  {
    var request := Get(db.store.donationRequests, requestId);
    if request.None? {
      return Err(NotFound(DONATION_REQUEST));
    }
    if caller != request.value.requestedBy {
      return Err(NotAuthorized);
    }
    var donation := Get(db.store.donationItems, request.value.donationId);
    if donation.None? {
      return Err(NotFound(DONATION_ITEM));
    }
    db.store := db.store.(donationItems := Save(db.store.donationItems, request.value.donationId, donation.value.(status := DONATED)));
    var completed := request.value.(status := COMPLETED);
    db.store := db.store.(donationRequests := Save(db.store.donationRequests, requestId, completed));
    r := Ok(Row(requestId, completed));
  }

  // ------------------------------------------------------------------ lifecycle

  /** The whole happy path: someone other than the owner requests an existing donation, the
      owner accepts, the requester completes. The request ends COMPLETED, the donation DONATED,
      and no other table is touched. */
  lemma RequestAcceptComplete(s: Store, input: DonationRequestInput, requester: Id, owner: Id, newId: Id)
    requires newId !in Keys(s.donationRequests)
    requires OwnsDonation(s, input.donationId, owner) && requester != owner
    ensures var created := Create(s, input, requester, newId);
      var accepted := Accept(created.store, newId, owner);
      var completed := Complete(accepted.store, newId, requester);
      && created.result.Ok? && accepted.result.Ok? && completed.result.Ok?
      && Get(accepted.store.donationRequests, newId).value.status == ACCEPTED
      && Get(accepted.store.donationItems, input.donationId).value.status == RESERVED
      && Get(completed.store.donationRequests, newId).value.status == COMPLETED
      && Get(completed.store.donationItems, input.donationId).value.status == DONATED
      && completed.store == s.(donationRequests := completed.store.donationRequests,
                               donationItems := completed.store.donationItems)
  {
    var created := Create(s, input, requester, newId);
    assert Get(created.store.donationRequests, newId).value.donationId == input.donationId;
    var accepted := Accept(created.store, newId, owner);
    assert Get(accepted.store.donationRequests, newId).value.requestedBy == requester;
  }

  /** Nothing stops a request from going back: once completed, the owner can still accept
      it, which puts the donated item back to RESERVED. */
  lemma AcceptAfterCompleteReservesAgain(s: Store, requestId: Id, requester: Id, owner: Id)
    requires Complete(s, requestId, requester).result.Ok?
    requires OwnsDonation(s, Get(s.donationRequests, requestId).value.donationId, owner)
    ensures var completed := Complete(s, requestId, requester).store;
      var donationId := Get(s.donationRequests, requestId).value.donationId;
      var reaccepted := Accept(completed, requestId, owner);
      && Get(completed.donationItems, donationId).value.status == DONATED
      && reaccepted.result.Ok?
      && Get(reaccepted.store.donationItems, donationId).value.status == RESERVED
      && Get(reaccepted.store.donationRequests, requestId).value.status == ACCEPTED
  {
    var donationId := Get(s.donationRequests, requestId).value.donationId;
    var completed := Complete(s, requestId, requester).store;
    assert Get(completed.donationRequests, requestId).value.donationId == donationId;
    assert Get(completed.donationItems, donationId).value.ownerId == owner;
  }

  // ------------------------------------------------------------------ views

  /** One entry of the owner's incoming-requests screen. */
  datatype DonationRequestView = DonationRequestView(
    requestId: Id,
    donationId: Id,
    message: Option<string>,
    status: string,
    createdAt: Option<Timestamp>,
    donationTitle: string,
    donationImages: seq<string>,
    donationStatus: string,
    requestedBy: Id,
    requesterFullName: Option<string>,
    requesterEmail: Option<string>,
    requesterPhone: Option<string>,
    requesterProfile: string)

  /** One entry of the requester's sent-requests screen. */
  datatype DonationRequestSentView = DonationRequestSentView(
    requestId: Id,
    donationId: Id,
    donationTitle: string,
    donationImages: seq<string>,
    donationStatus: string,
    message: Option<string>,
    status: string,
    createdAt: Option<Timestamp>,
    receiverId: Id,
    receiverFullName: Option<string>,
    receiverEmail: Option<string>,
    receiverPhone: Option<string>,
    receiverProfile: string)

  /** The completion screen: the donation and its donor. */
  datatype DonationCompleteDetails = DonationCompleteDetails(
    donationId: Id,
    title: string,
    images: seq<string>,
    donorId: Id,
    donorFullName: Option<string>,
    donorEmail: Option<string>,
    donorPhone: Option<string>,
    donorProfileImage: string)

  /** The requester's profile picture URL on the incoming screen: set only when a profile
      record exists and its path is non-null and non-empty. */
  function RequesterProfileUrl(s: Store, userId: Id): (url: string)
    ensures url != "" <==>
      && ProfileRecordOf(s.profileImages, userId).Some?
      && ProfileRecordOf(s.profileImages, userId).value.imagePath.Some?
      && ProfileRecordOf(s.profileImages, userId).value.imagePath.value != ""
    ensures url != "" ==> url == PROFILE_IMAGE_BASE + ProfileRecordOf(s.profileImages, userId).value.imagePath.value
  {
    match ProfileRecordOf(s.profileImages, userId)
    case Some(UserProfileImage(_, Some(path))) => if path != "" then PROFILE_IMAGE_BASE + path else ""
    case _ => ""
  }

  /** `toViewDTO`: the request joined with its donation and its requester, with fallbacks
      for a record that does not resolve. */
  function ToView(s: Store, row: Row<Id, DonationRequest>): (v: DonationRequestView)
    ensures v.requestId == row.key && v.donationId == row.rec.donationId && v.requestedBy == row.rec.requestedBy
    ensures v.message == row.rec.message && v.status == row.rec.status && v.createdAt == row.rec.createdAt
    ensures Get(s.donationItems, row.rec.donationId).None? ==>
      v.donationTitle == "Unknown item" && v.donationStatus == "UNKNOWN" && v.donationImages == []
    ensures Get(s.donationItems, row.rec.donationId).Some? ==>
      && v.donationTitle == Get(s.donationItems, row.rec.donationId).value.title
      && v.donationStatus == Get(s.donationItems, row.rec.donationId).value.status
      && v.donationImages == DonationImageUrls(DonationImagesOf(s.donationImages, row.rec.donationId))
    ensures Get(s.users, row.rec.requestedBy).None? ==>
      && v.requesterFullName == Some("Unknown") && v.requesterEmail == Some("")
      && v.requesterPhone == Some("") && v.requesterProfile == ""
    ensures Get(s.users, row.rec.requestedBy).Some? ==>
      && v.requesterFullName == Get(s.users, row.rec.requestedBy).value.fullName
      && v.requesterEmail == Get(s.users, row.rec.requestedBy).value.email
      && v.requesterPhone == Get(s.users, row.rec.requestedBy).value.phone
      && v.requesterProfile == RequesterProfileUrl(s, row.rec.requestedBy)
  {
    var req := row.rec;
    var donation := Get(s.donationItems, req.donationId);
    var requester := Get(s.users, req.requestedBy);
    DonationRequestView(
      row.key, req.donationId, req.message, req.status, req.createdAt,
      if donation.Some? then donation.value.title else "Unknown item",
      if donation.Some? then DonationImageUrls(DonationImagesOf(s.donationImages, req.donationId)) else [],
      if donation.Some? then donation.value.status else "UNKNOWN",
      req.requestedBy,
      if requester.Some? then requester.value.fullName else Some("Unknown"),
      if requester.Some? then requester.value.email else Some(""),
      if requester.Some? then requester.value.phone else Some(""),
      if requester.Some? then RequesterProfileUrl(s, req.requestedBy) else "")
  }

  /** The requests against each of `donations` in turn, concatenated (the `flatMap` over
      `findByDonationId`). */
  function RequestsForDonations(donations: Table<Id, DonationItem>, requests: Table<Id, DonationRequest>): (rows: Table<Id, DonationRequest>)
  {
    if |donations| == 0 then []
    else
      Select(requests, (row: Row<Id, DonationRequest>) => row.rec.donationId == donations[0].key)
        + RequestsForDonations(donations[1..], requests)
  }

  /** Over donations with distinct ids, a request is listed as often as it is stored if it
      targets one of them, and not at all otherwise. */
  lemma {:induction false} RequestsForDonationsCount(donations: Table<Id, DonationItem>, requests: Table<Id, DonationRequest>, row: Row<Id, DonationRequest>)
    requires UniqueKeys(donations)
    ensures multiset(RequestsForDonations(donations, requests))[row] ==
      if row.rec.donationId in Keys(donations) then multiset(requests)[row] else 0
  {
    if |donations| > 0 {
      RequestsForDonationsCount(donations[1..], requests, row);
    }
  }

  /** The requests behind the incoming screen: those against the caller's donations. */
  function IncomingRequests(s: Store, caller: Id): (rows: Table<Id, DonationRequest>)
  {
    RequestsForDonations(DonationsOwnedBy(s.donationItems, caller), s.donationRequests)
  }

  /** The incoming screen lists every request against one of the caller's donations exactly
      once, and nothing else. */
  lemma IncomingRequestsExactlyOnce(s: Store, caller: Id, row: Row<Id, DonationRequest>)
    requires Consistent(s)
    ensures multiset(IncomingRequests(s, caller))[row] ==
      if row in s.donationRequests && OwnsDonation(s, row.rec.donationId, caller) then 1 else 0
  {
    var mine := DonationsOwnedBy(s.donationItems, caller);
    RequestsForDonationsCount(mine, s.donationRequests, row);
    SelectedKeys(s.donationItems, mine, (d: Row<Id, DonationItem>) => d.rec.ownerId == caller, row.rec.donationId);
    if row in s.donationRequests {
      RowOccursOnce(s.donationRequests, row);
    }
  }

  /** `getIncomingDonationRequestsView`: one view per incoming request, in the same order. */
  function IncomingView(s: Store, caller: Id): (views: seq<DonationRequestView>)
    ensures |views| == |IncomingRequests(s, caller)|
    ensures forall i :: 0 <= i < |views| ==> views[i] == ToView(s, IncomingRequests(s, caller)[i])
  {
    MapSeq(IncomingRequests(s, caller), (row: Row<Id, DonationRequest>) => ToView(s, row))
  }

  /** The requests behind the sent screen (`findByRequestedBy`). */
  function SentRequests(s: Store, caller: Id): (rows: Table<Id, DonationRequest>)
    ensures forall row :: row in rows <==> row in s.donationRequests && row.rec.requestedBy == caller
  {
    Select(s.donationRequests, (row: Row<Id, DonationRequest>) => row.rec.requestedBy == caller)
  }

  /** The sent screen lists every request made by the caller exactly once, and nothing else. */
  lemma SentRequestsExactlyOnce(s: Store, caller: Id, row: Row<Id, DonationRequest>)
    requires Consistent(s)
    ensures multiset(SentRequests(s, caller))[row] ==
      if row in s.donationRequests && row.rec.requestedBy == caller then 1 else 0
  {
    if row in s.donationRequests {
      RowOccursOnce(s.donationRequests, row);
    }
  }

  /** `toSentViewDTO`: the request joined with its donation and the donation's owner. */
  function ToSentView(s: Store, row: Row<Id, DonationRequest>): (v: DonationRequestSentView)
    ensures v.requestId == row.key && v.donationId == row.rec.donationId
    ensures v.message == row.rec.message && v.status == row.rec.status && v.createdAt == row.rec.createdAt
    ensures Get(s.donationItems, row.rec.donationId).None? ==>
      && v.donationTitle == "Unknown" && v.donationImages == [] && v.donationStatus == ""
    ensures Get(s.donationItems, row.rec.donationId).Some? ==>
      var d := Get(s.donationItems, row.rec.donationId).value;
      && v.donationTitle == d.title && v.donationStatus == d.status
      && v.donationImages == DonationImageUrls(DonationImagesOf(s.donationImages, row.rec.donationId))
    ensures Get(s.donationItems, row.rec.donationId).None? ||
            Get(s.users, Get(s.donationItems, row.rec.donationId).value.ownerId).None? ==>
      && v.receiverId == "" && v.receiverFullName == Some("") && v.receiverEmail == Some("")
      && v.receiverPhone == Some("") && v.receiverProfile == ""
    ensures Get(s.donationItems, row.rec.donationId).Some? &&
            Get(s.users, Get(s.donationItems, row.rec.donationId).value.ownerId).Some? ==>
      var ownerId := Get(s.donationItems, row.rec.donationId).value.ownerId;
      var owner := Get(s.users, ownerId).value;
      && v.receiverId == ownerId && v.receiverFullName == owner.fullName
      && v.receiverEmail == owner.email && v.receiverPhone == owner.phone
    ensures v.receiverProfile != "" <==>
      && Get(s.donationItems, row.rec.donationId).Some?
      && Get(s.users, Get(s.donationItems, row.rec.donationId).value.ownerId).Some?
      && ProfileRecordOf(s.profileImages, Get(s.donationItems, row.rec.donationId).value.ownerId).Some?
    ensures v.receiverProfile != "" ==>
      v.receiverProfile == PROFILE_IMAGE_BASE + Str(ProfileRecordOf(s.profileImages, v.receiverId).value.imagePath)
  {
    var req := row.rec;
    var donation := Get(s.donationItems, req.donationId);
    var owner := if donation.Some? then Get(s.users, donation.value.ownerId) else None;
    var ownerId := if donation.Some? then donation.value.ownerId else "";
    var profile := ProfileRecordOf(s.profileImages, ownerId);
    DonationRequestSentView(
      row.key, req.donationId,
      if donation.Some? then donation.value.title else "Unknown",
      if donation.Some? then DonationImageUrls(DonationImagesOf(s.donationImages, req.donationId)) else [],
      if donation.Some? then donation.value.status else "",
      req.message, req.status, req.createdAt,
      if owner.Some? then ownerId else "",
      if owner.Some? then owner.value.fullName else Some(""),
      if owner.Some? then owner.value.email else Some(""),
      if owner.Some? then owner.value.phone else Some(""),
      if owner.Some? && profile.Some? then PROFILE_IMAGE_BASE + Str(profile.value.imagePath) else "")
  }

  /** `getSentDonationRequestsView`: one view per request the caller made, in storage order. */
  function SentView(s: Store, caller: Id): (views: seq<DonationRequestSentView>)
    ensures |views| == |SentRequests(s, caller)|
    ensures forall i :: 0 <= i < |views| ==> views[i] == ToSentView(s, SentRequests(s, caller)[i])
  {
    MapSeq(SentRequests(s, caller), (row: Row<Id, DonationRequest>) => ToSentView(s, row))
  }

  /** `getCompleteDetails`: the request, its donation and the donor must all resolve. */
  function CompleteDetails(s: Store, requestId: Id): (r: Result<DonationCompleteDetails>)
    ensures requestId !in Keys(s.donationRequests) ==> r == Err(NotFound(DONATION_REQUEST))
    ensures r.Ok? <==>
      && requestId in Keys(s.donationRequests)
      && Get(s.donationRequests, requestId).value.donationId in Keys(s.donationItems)
      && Get(s.donationItems, Get(s.donationRequests, requestId).value.donationId).value.ownerId in Keys(s.users)
    ensures r.Ok? ==>
      && requestId in Keys(s.donationRequests)
      && var donationId := Get(s.donationRequests, requestId).value.donationId;
      && Get(s.donationItems, donationId).Some?
      && var d := Get(s.donationItems, donationId).value;
      && Get(s.users, d.ownerId).Some?
      && r.value.donationId == donationId && r.value.title == d.title && r.value.donorId == d.ownerId
      && r.value.donorFullName == Get(s.users, d.ownerId).value.fullName
      && r.value.donorEmail == Get(s.users, d.ownerId).value.email
      && r.value.donorPhone == Get(s.users, d.ownerId).value.phone
      && r.value.images == DonationImageUrls(DonationImagesOf(s.donationImages, donationId))
      && (r.value.donorProfileImage == "" <==> ProfileRecordOf(s.profileImages, d.ownerId).None?)
      && (r.value.donorProfileImage != "" ==>
            r.value.donorProfileImage == PROFILE_IMAGE_BASE + Str(ProfileRecordOf(s.profileImages, d.ownerId).value.imagePath))
    ensures requestId in Keys(s.donationRequests) ==>
      var donationId := Get(s.donationRequests, requestId).value.donationId;
      && (donationId !in Keys(s.donationItems) ==> r == Err(NotFound(DONATION_ITEM)))
      && (donationId in Keys(s.donationItems) && Get(s.donationItems, donationId).value.ownerId !in Keys(s.users) ==>
            r == Err(NotFound(USER)))
  {
    match Get(s.donationRequests, requestId)
    case None => Err(NotFound(DONATION_REQUEST))
    case Some(req) =>
      match Get(s.donationItems, req.donationId)
      case None => Err(NotFound(DONATION_ITEM))
      case Some(d) =>
        match Get(s.users, d.ownerId)
        case None => Err(NotFound(USER))
        case Some(donor) =>
          var profile := ProfileRecordOf(s.profileImages, d.ownerId);
          Ok(DonationCompleteDetails(
            req.donationId, d.title, DonationImageUrls(DonationImagesOf(s.donationImages, req.donationId)),
            d.ownerId, donor.fullName, donor.email, donor.phone,
            if profile.Some? then PROFILE_IMAGE_BASE + Str(profile.value.imagePath) else ""))
  }

  /** The completion screen shows the same donor, pictures and title as the requester's sent
      screen shows for that request's receiver. */
  lemma DonorIsSentReceiver(s: Store, row: Row<Id, DonationRequest>)
    requires UniqueKeys(s.donationRequests) && row in s.donationRequests
    requires CompleteDetails(s, row.key).Ok?
    ensures var d := CompleteDetails(s, row.key).value;
      var v := ToSentView(s, row);
      && v.donationId == d.donationId && v.donationTitle == d.title && v.donationImages == d.images
      && v.receiverId == d.donorId && v.receiverFullName == d.donorFullName
      && v.receiverEmail == d.donorEmail && v.receiverPhone == d.donorPhone
      && v.receiverProfile == d.donorProfileImage
  {
    GetUnique(s.donationRequests, row);
  }

  /** Completing a request leaves what the completion screen shows for it unchanged: it
      displays no status, and completion changes nothing else. */
  lemma {:induction false} CompletionKeepsDetails(s: Store, requestId: Id, caller: Id)
    ensures CompleteDetails(Complete(s, requestId, caller).store, requestId) == CompleteDetails(s, requestId)
  {
    var o := Complete(s, requestId, caller);
    if o.result.Ok? {
      var req := Get(s.donationRequests, requestId).value;
      var d := Get(s.donationItems, req.donationId).value;
      DetailsIgnoreStatus(s, o.store, requestId, req, req.(status := COMPLETED), d, d.(status := DONATED));
    }
  }

  /** Two stores that agree on everything the completion screen reads give the same screen. */
  lemma DetailsIgnoreStatus(s1: Store, s2: Store, requestId: Id,
                            req1: DonationRequest, req2: DonationRequest, d1: DonationItem, d2: DonationItem)
    requires Get(s1.donationRequests, requestId) == Some(req1) && Get(s2.donationRequests, requestId) == Some(req2)
    requires req1.donationId == req2.donationId
    requires Get(s1.donationItems, req1.donationId) == Some(d1) && Get(s2.donationItems, req1.donationId) == Some(d2)
    requires d1.title == d2.title && d1.ownerId == d2.ownerId
    requires s1.users == s2.users && s1.donationImages == s2.donationImages && s1.profileImages == s2.profileImages
    ensures CompleteDetails(s1, requestId) == CompleteDetails(s2, requestId)
  {
  }
}
