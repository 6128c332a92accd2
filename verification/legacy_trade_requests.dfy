/** Trade requests, older generation. Creation and the incoming list behave as in the current
    generation; the decisions carry the same guards but write only the request (no
    notification is sent), and the detailed view has neither the status filter nor the
    contact fields. */
module LegacyTradeRequests {
  import opened Common
  import opened Tables
  import opened Records
  import opened Persistence
  import opened TradeRequests

  /** `after` is `before` with the request under `requestId` now `req`; nothing else differs. */
  ghost predicate RequestOnlyUpdated(before: Store, after: Store, requestId: Id, req: TradeRequest) {
    && Get(after.tradeRequests, requestId) == Some(req)
    && (forall k :: k != requestId ==> Get(after.tradeRequests, k) == Get(before.tradeRequests, k))
    && |after.tradeRequests| == |before.tradeRequests|
    && after == before.(tradeRequests := after.tradeRequests)
  }

  /** `approveRequest`: not-found and not-pending fail with no write; otherwise the selected
      item is recorded and the request becomes ACCEPTED. */
  function Approve(s: Store, requestId: Id, selectedItemId: Option<Id>): (o: Outcome<Row<Id, TradeRequest>>)
    ensures requestId !in Keys(s.tradeRequests) ==> o == Outcome(Err(NotFound(TRADE_REQUEST)), s)
    ensures requestId in Keys(s.tradeRequests) && Get(s.tradeRequests, requestId).value.status != PENDING ==>
      o == Outcome(Err(NotPending), s)
    ensures o.result.Ok? <==> requestId in Keys(s.tradeRequests) && Get(s.tradeRequests, requestId).value.status == PENDING
    ensures o.result.Ok? ==>
      var approved := Get(s.tradeRequests, requestId).value.(receiverSelectedItemId := selectedItemId, status := ACCEPTED);
      o.result.value == Row(requestId, approved) && RequestOnlyUpdated(s, o.store, requestId, approved)
  {
    match Get(s.tradeRequests, requestId)
    case None => Outcome(Err(NotFound(TRADE_REQUEST)), s)
    case Some(req) =>
      if req.status != PENDING then Outcome(Err(NotPending), s)
      else
        var approved := req.(receiverSelectedItemId := selectedItemId, status := ACCEPTED);
        Outcome(Ok(Row(requestId, approved)), s.(tradeRequests := Save(s.tradeRequests, requestId, approved)))
  }

  method ApproveRequest(db: Repositories, requestId: Id, selectedItemId: Option<Id>) returns (r: Result<Row<Id, TradeRequest>>)
    requires db.Valid()
    modifies db
    ensures db.Valid()
    ensures Outcome(r, db.store) == Approve(old(db.store), requestId, selectedItemId)
  {
    var found := Get(db.store.tradeRequests, requestId);
    if found.None? {
      return Err(NotFound(TRADE_REQUEST));
    }
    if found.value.status != PENDING {
      return Err(NotPending);
    }
    var approved := found.value.(receiverSelectedItemId := selectedItemId, status := ACCEPTED);
    db.store := db.store.(tradeRequests := Save(db.store.tradeRequests, requestId, approved));
    r := Ok(Row(requestId, approved));
  }

  /** `rejectRequest`: the same guards; only the status changes, to REJECTED. */
  function Reject(s: Store, requestId: Id): (o: Outcome<Row<Id, TradeRequest>>)
    ensures requestId !in Keys(s.tradeRequests) ==> o == Outcome(Err(NotFound(TRADE_REQUEST)), s)
    ensures requestId in Keys(s.tradeRequests) && Get(s.tradeRequests, requestId).value.status != PENDING ==>
      o == Outcome(Err(NotPending), s)
    ensures o.result.Ok? <==> requestId in Keys(s.tradeRequests) && Get(s.tradeRequests, requestId).value.status == PENDING
    ensures o.result.Ok? ==>
      var rejected := Get(s.tradeRequests, requestId).value.(status := REJECTED);
      o.result.value == Row(requestId, rejected) && RequestOnlyUpdated(s, o.store, requestId, rejected)
  {
    match Get(s.tradeRequests, requestId)
    case None => Outcome(Err(NotFound(TRADE_REQUEST)), s)
    case Some(req) =>
      if req.status != PENDING then Outcome(Err(NotPending), s)
      else
        var rejected := req.(status := REJECTED);
        Outcome(Ok(Row(requestId, rejected)), s.(tradeRequests := Save(s.tradeRequests, requestId, rejected)))
  }

  method RejectRequest(db: Repositories, requestId: Id) returns (r: Result<Row<Id, TradeRequest>>)
    requires db.Valid()
    modifies db
    ensures db.Valid()
    ensures Outcome(r, db.store) == Reject(old(db.store), requestId)
  {
    var found := Get(db.store.tradeRequests, requestId);
    if found.None? {
      return Err(NotFound(TRADE_REQUEST));
    }
    if found.value.status != PENDING {
      return Err(NotPending);
    }
    var rejected := found.value.(status := REJECTED);
    db.store := db.store.(tradeRequests := Save(db.store.tradeRequests, requestId, rejected));
    r := Ok(Row(requestId, rejected));
  }

  /** Both generations decide a request identically: the same result and the same requests
      table; the current one differs only in the notification it adds. */
  lemma DecisionsAgree(s: Store, requestId: Id, selected: Option<Id>, notificationId: Id)
    requires notificationId !in Keys(s.notifications)
    ensures Approve(s, requestId, selected).result == TradeRequests.Approve(s, requestId, selected, notificationId).result
    ensures Approve(s, requestId, selected).store.tradeRequests
         == TradeRequests.Approve(s, requestId, selected, notificationId).store.tradeRequests
    ensures Reject(s, requestId).result == TradeRequests.Reject(s, requestId, notificationId).result
    ensures Reject(s, requestId).store.tradeRequests == TradeRequests.Reject(s, requestId, notificationId).store.tradeRequests
  {
  }

  /** A request leaves PENDING at most once in this generation too. */
  lemma NoDecisionAfterDecision(s: Store, requestId: Id, selected: Option<Id>, selected2: Option<Id>)
    ensures Approve(s, requestId, selected).result.Ok? ==>
      var after := Approve(s, requestId, selected).store;
      Approve(after, requestId, selected2).result == Err(NotPending) && Reject(after, requestId).result == Err(NotPending)
    ensures Reject(s, requestId).result.Ok? ==>
      var after := Reject(s, requestId).store;
      Approve(after, requestId, selected2).result == Err(NotPending) && Reject(after, requestId).result == Err(NotPending)
  {
    if Approve(s, requestId, selected).result.Ok? {
      assert Get(Approve(s, requestId, selected).store.tradeRequests, requestId).value.status == ACCEPTED;
    }
    if Reject(s, requestId).result.Ok? {
      assert Get(Reject(s, requestId).store.tradeRequests, requestId).value.status == REJECTED;
    }
  }

  /** `getIncomingRequestsDetailed` of this generation: every incoming request, unfiltered,
      detailed without contacts. */
  function IncomingDetailed(s: Store, caller: Id): (views: seq<TradeRequestDetailed>)
    ensures |views| == |IncomingRequests(s, caller)|
    ensures forall i :: 0 <= i < |views| ==> views[i] == DetailCore(s, IncomingRequests(s, caller)[i])
    ensures forall i :: 0 <= i < |views| ==> views[i].contacts.None?
  {
    MapSeq(IncomingRequests(s, caller), (row: Row<Id, TradeRequest>) => DetailCore(s, row))
  }

  /** Apart from the contact fields, the current generation's unfiltered detailed list is the
      older one, entry for entry. */
  lemma DetailedViewsAgree(s: Store, caller: Id)
    ensures |TradeRequests.IncomingDetailed(s, caller, None)| == |IncomingDetailed(s, caller)|
    ensures forall i :: 0 <= i < |IncomingDetailed(s, caller)| ==>
      TradeRequests.IncomingDetailed(s, caller, None)[i].(contacts := None) == IncomingDetailed(s, caller)[i]
  {
  }
}
