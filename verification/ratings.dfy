/** Ratings a donation requester gives: the rated user is derived from the request, never
    supplied by the caller. */
module Ratings {
  import opened Common
  import opened Tables
  import opened Records
  import opened Persistence

  /** The rating body: which request it is about, the score and an optional comment. */
  datatype RatingInput = RatingInput(donationRequestId: Id, score: int, comment: Option<string>)

  /** The request exists and its donation resolves. */
  predicate ResolvesToDonation(s: Store, requestId: Id) {
    Get(s.donationRequests, requestId).Some? && Get(s.donationItems, Get(s.donationRequests, requestId).value.donationId).Some?
  }

  /** `save`: an unknown request and a request whose donation no longer resolves are both
      rejected as invalid arguments, with nothing stored. Otherwise a rating by the caller of
      the donation's owner is appended under the next generated key. */
  function Save(s: Store, input: RatingInput, raterId: Id): (o: Outcome<Row<nat, Rating>>)
    ensures Get(s.donationRequests, input.donationRequestId).None? ==>
      o == Outcome(Err(InvalidArgument("Request not found")), s)
    ensures Get(s.donationRequests, input.donationRequestId).Some? &&
            Get(s.donationItems, Get(s.donationRequests, input.donationRequestId).value.donationId).None? ==>
      o == Outcome(Err(InvalidArgument("Donation item not found")), s)
    ensures o.result.Ok? ==>
      var req := Get(s.donationRequests, input.donationRequestId).value;
      && Get(s.donationItems, req.donationId).Some?
      && o.result.value.key !in Keys(s.ratings)
      && o.result.value.rec == Rating(input.donationRequestId, raterId, Get(s.donationItems, req.donationId).value.ownerId,
                                      input.score, input.comment)
      && o.store == s.(ratings := s.ratings + [o.result.value])
    ensures o.result.Ok? <==> ResolvesToDonation(s, input.donationRequestId)
    ensures o.result.Ok? || o.store == s
  {
    match Get(s.donationRequests, input.donationRequestId)
    case None => Outcome(Err(InvalidArgument("Request not found")), s)
    case Some(req) =>
      match Get(s.donationItems, req.donationId)
      case None => Outcome(Err(InvalidArgument("Donation item not found")), s)
      case Some(item) =>
        var rating := Rating(input.donationRequestId, raterId, item.ownerId, input.score, input.comment);
        var key := NextKey(s.ratings);
        Outcome(Ok(Row(key, rating)), s.(ratings := Tables.Save(s.ratings, key, rating)))
  }

  method SaveRating(db: Repositories, input: RatingInput, raterId: Id) returns (r: Result<Row<nat, Rating>>)
    requires db.Valid()
    modifies db
    ensures db.Valid()
    ensures Outcome(r, db.store) == Save(old(db.store), input, raterId)
  {
    match Get(db.store.donationRequests, input.donationRequestId)
    case None =>
      r := Err(InvalidArgument("Request not found"));
    case Some(req) =>
      match Get(db.store.donationItems, req.donationId)
      case None =>
        r := Err(InvalidArgument("Donation item not found"));
      case Some(item) =>
        var rating := Rating(input.donationRequestId, raterId, item.ownerId, input.score, input.comment);
        var key := NextKey(db.store.ratings);
        db.store := db.store.(ratings := Tables.Save(db.store.ratings, key, rating));
        r := Ok(Row(key, rating));
  }

  /** Nothing stops a second rating of the same request: saving twice stores two ratings,
      both kept, under different keys. */
  lemma RatingTwiceKeepsBoth(s: Store, input: RatingInput, raterId: Id)
    requires ResolvesToDonation(s, input.donationRequestId)
    ensures var first := Save(s, input, raterId);
      var second := Save(first.store, input, raterId);
      && first.result.Ok? && second.result.Ok?
      && second.result.value.rec == first.result.value.rec
      && second.result.value.key != first.result.value.key
      && second.store.ratings == s.ratings + [first.result.value] + [second.result.value]
  {
    var rating := RatingFor(s, input, raterId);
    var r1 := Row(NextKey(s.ratings), rating);
    var rs := s.ratings + [r1];
    SaveResolved(s, input, raterId);
    KeysAppend(s.ratings, r1);
    var t := s.(ratings := rs);
    SaveResolved(t, input, raterId);
    assert RatingFor(t, input, raterId) == rating;
  }

  /** The rating `save` builds once the request and its donation resolve. */
  function RatingFor(s: Store, input: RatingInput, raterId: Id): (r: Rating)
    requires ResolvesToDonation(s, input.donationRequestId)
    ensures r.raterId == raterId && r.donationRequestId == input.donationRequestId
  {
    var req := Get(s.donationRequests, input.donationRequestId).value;
    Rating(input.donationRequestId, raterId, Get(s.donationItems, req.donationId).value.ownerId, input.score, input.comment)
  }

  /** When the request and its donation resolve, `save` appends `RatingFor` under the next key. */
  lemma SaveResolved(s: Store, input: RatingInput, raterId: Id)
    requires ResolvesToDonation(s, input.donationRequestId)
    ensures Save(s, input, raterId)
         == Outcome(Ok(Row(NextKey(s.ratings), RatingFor(s, input, raterId))),
                    s.(ratings := s.ratings + [Row(NextKey(s.ratings), RatingFor(s, input, raterId))]))
  {
  }

  /** `getForUser` (`findByRateeId`): the ratings received by a user, in storage order. */
  function ForUser(s: Store, userId: Id): (rows: Table<nat, Rating>)
    ensures forall row :: row in rows <==> row in s.ratings && row.rec.rateeId == userId
    ensures forall row {:trigger multiset(rows)[row]} :: multiset(rows)[row] == (if row.rec.rateeId == userId then multiset(s.ratings)[row] else 0)
  {
    Select(s.ratings, (row: Row<nat, Rating>) => row.rec.rateeId == userId)
  }

  /** A saved rating is listed for the donation's owner, and the owner's list grows by
      exactly that rating; no other user's list changes. */
  lemma SavedRatingListedForOwner(s: Store, input: RatingInput, raterId: Id, userId: Id)
    requires Save(s, input, raterId).result.Ok?
    ensures var o := Save(s, input, raterId);
      forall row {:trigger multiset(ForUser(o.store, userId))[row]} :: multiset(ForUser(o.store, userId))[row] ==
        multiset(ForUser(s, userId))[row] + (if row == o.result.value && row.rec.rateeId == userId then 1 else 0)
  {
  }
}
