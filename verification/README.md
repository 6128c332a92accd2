# Community marketplace backend — exchange-request lifecycle

This project models the core of a Spring Boot marketplace backend in Dafny. In that
marketplace, users list trade items and donations. Other users make trade requests
against those items and ask to receive donations. The owners then accept or reject the
requests. The exchange is closed by completing the donation and rating its donor.
Around that lifecycle sit:

- the notifications the trade decisions send;
- the public listings with their image URLs and owner contact blocks;
- account sign-up and partial profile update;
- category names;
- the profile-picture upload, which sanitises the client's file name and keeps one
  record per user.

Two generations of several services exist side by side in the code base: the `service`
package and the older `Service` package. Where they run the same code, they are modelled
once. Where they differ, each is modelled and a lemma relates the two:

- `LegacyTradeRequests` is the older trade-request service, which sends no notification
  and has no status filter;
- `TradeItems.LegacyDetails` is the older detail view, which answers null instead of
  failing.

## Structure

- Common (common.dfy): `Option`, `Result`, the error kinds the services throw, and Java string operations: `Str` (null concatenation), `Replace` (`String.replace`) and `EqualsIgnoreCase` (ASCII case folding)
- Tables (tables.dfy): A JPA repository as a sequence of keyed rows. `Get` is `findById`. `Save` is `save`: update the row with that key in place, or append one. `Delete` is `deleteById`. `Select` is a derived query. `NextKey` is an auto-increment id.
- Records (records.dfy): The persisted entities as datatypes, and the status strings
- Persistence (persistence.dfy): `Store`: one table per repository. `Consistent`: unique primary keys, which the database guarantees, and at most one profile-picture record per user, which the services keep (the upload rewrites a user's record rather than adding a second). `Repositories`: the mutable database object the service methods update, which keeps `Consistent`.
- Catalog (catalog.dfy): Image URLs, the five-picture cap, per-entity image collections, owner and listing queries
- One module per service: For every operation there is a pure transition function `Op(store, …) : Outcome` (the result or error, plus the new store). Beside it sits a `method` doing the same steps on `Repositories`, whose `ensures` ties the new state to that function.

Identifiers that the persistence layer assigns as random UUIDs are method parameters,
with `requires id !in Keys(table)`. Auto-increment ids are `NextKey` (one more than the
largest stored key; see `Tables.NextKey` under "Left out"). The authenticated caller is a parameter. So are the password encoder, the
UUID of an uploaded file name, and the stored file names of uploaded pictures.

## Model

| member | source | states |
|---|---|---|
| `Tables.Get` | src/main/java/com/communityappbackend/service/NotificationService.java:37-38 | `findById` finds a record exactly when the key is stored, and the row it finds is in the table |
| `Tables.Save` | src/main/java/com/communityappbackend/service/NotificationService.java:39-40 | `save` makes the key hold the new record and leaves every other key as it was. A new key appends one row; a stored key keeps the length. Primary keys stay unique. |
| `Tables.SaveInPlace` | src/main/java/com/communityappbackend/service/ProfileImageService.java:81-82 | Saving under a stored key rewrites that row where it stands |
| `Tables.SaveIdempotent` | src/main/java/com/communityappbackend/service/UserService.java:76 | Saving the same record twice under one key leaves what saving it once leaves |
| `Tables.Delete` | src/main/java/com/communityappbackend/service/NotificationService.java:47 | `deleteById` removes the key and leaves every other key as it was |
| `Tables.DeleteRemovesRow` | src/main/java/com/communityappbackend/service/NotificationService.java:43-48 | Deleting a present key removes exactly one row (a multiset difference) |
| `Tables.Select` | src/main/java/com/communityappbackend/service/NotificationService.java:32-34 | A derived query keeps, in storage order and with their multiplicities, exactly the rows meeting its condition |
| `Tables.NextKey` | src/main/java/com/communityappbackend/Service/CategoryService.java:34-36 | A generated id is positive and held by no stored row |
| `Tables.AppendAddsRows` | src/main/java/com/communityappbackend/service/DonationService.java:57-69 | Saving records one after another under fresh generated keys adds one row per record, in order, keeps key uniqueness, and leaves the old rows in front |
| `Catalog.AddedCount` | src/main/java/com/communityappbackend/service/DonationService.java:145-158 | The upload loops add `min(n, 5 - existing)` pictures, or none when five or more are attached, so the total stays at most five whenever something is added |
| `Catalog.NoRoomLeft` | src/main/java/com/communityappbackend/service/DonationService.java:57-69 | The upload loop's exit state (all files done, or five attached) has added exactly `AddedCount` files |
| `Catalog.ItemImageUrlRoundTrip` | src/main/java/com/communityappbackend/service/TradeItemService/ItemService.java:109-125 | A picture recorded as `"Assets/" + name` is served at the item image base URL followed by exactly `name`, when `name` holds no "Assets/" |
| `Catalog.DonationImageUrlRoundTrip` | src/main/java/com/communityappbackend/service/DonationService.java:174-205 | The same round trip for donation pictures under "Donations/" |
| `Catalog.ItemImagesOf` | src/main/java/com/communityappbackend/service/TradeItemService/ItemService.java:120 | An item's image collection is exactly the image rows pointing at that item, each as often as it is stored |
| `Catalog.DonationImagesOf` | src/main/java/com/communityappbackend/service/DonationService.java:203 | A donation's image collection is exactly the image rows pointing at that donation |
| `Catalog.ItemImageUrls` | src/main/java/com/communityappbackend/service/TradeItemService/ItemService.java:120-125 | One URL per item picture, in order, with "Assets/" removed from the path |
| `Catalog.DonationImageUrls` | src/main/java/com/communityappbackend/service/DonationRequestService.java:186-192 | One URL per donation picture, in order, with "Donations/" removed |
| `Catalog.MapImagesToPaths` | src/main/java/com/communityappbackend/Service/TradeRequestService.java:172-180 | A null list gives no URLs; otherwise one URL per image, in order, with "Assets/" removed. The same code is at service/TradeRequestService.java:216-224. |
| `Catalog.ProfileRecordOf` | src/main/java/com/communityappbackend/service/TradeItemService.java:97 | `findByUserId` finds a record exactly when some record belongs to the user, and that record is stored and is the user's |
| `Catalog.ItemsOwnedBy` | src/main/java/com/communityappbackend/service/TradeItemService/ItemService.java:93-95 | `findByOwnerId` keeps exactly the owner's items, each once when ids are unique |
| `Catalog.DonationsOwnedBy` | src/main/java/com/communityappbackend/service/DonationService.java:76 | `findByOwnerId` keeps exactly the owner's donations |
| `Catalog.ActiveExceptUser` | src/main/java/com/communityappbackend/Service/ItemService.java:79-84 | An item is kept, as often as it is stored, exactly when it is ACTIVE, belongs to someone other than the caller, and is in the category when one is given. Key uniqueness is kept. |
| `Notifications.Create` | src/main/java/com/communityappbackend/service/NotificationService.java:23-30 | Always succeeds. It appends one unread notification for the given user and message under the fresh id, and nothing else changes. |
| `Notifications.CreateNotification` | src/main/java/com/communityappbackend/service/NotificationService.java:24-29 | The in-place creation leaves exactly the store `Create` specifies |
| `Notifications.ByUser` | src/main/java/com/communityappbackend/service/NotificationService.java:32-34 | Exactly the user's notifications, each as often as stored |
| `Notifications.SetRead` | src/main/java/com/communityappbackend/service/NotificationService.java:36-41 | An unknown id fails with not-found and changes nothing. Otherwise only that notification's read flag changes. |
| `Notifications.UpdateNotificationReadStatus` | src/main/java/com/communityappbackend/service/NotificationService.java:37-40 | The in-place update leaves exactly the store `SetRead` specifies |
| `Notifications.SetReadIdempotent` | src/main/java/com/communityappbackend/service/NotificationService.java:39-40 | Setting the same read value twice leaves what setting it once leaves |
| `Notifications.Remove` | src/main/java/com/communityappbackend/service/NotificationService.java:43-48 | An unknown id fails and changes nothing. Otherwise that id is gone and every other notification is unchanged. |
| `Notifications.DeleteNotification` | src/main/java/com/communityappbackend/service/NotificationService.java:44-47 | The in-place deletion leaves exactly the store `Remove` specifies |
| `Notifications.RemoveDropsExactlyOne` | src/main/java/com/communityappbackend/service/NotificationService.java:47 | With unique ids, a delete removes one row: the notification stored under that id |
| `Ratings.Save` | src/main/java/com/communityappbackend/service/RatingService.java:35-56 | It fails, storing nothing, for an unknown request and for a request whose donation does not resolve; it succeeds exactly when both resolve. The rater is the caller and the ratee is the donation's owner. Request id, score and comment are copied. The rating is appended under a new key. |
| `Ratings.SaveRating` | src/main/java/com/communityappbackend/service/RatingService.java:37-55 | The in-place save leaves exactly the store `Save` specifies |
| `Ratings.RatingFor` | src/main/java/com/communityappbackend/service/RatingService.java:44-53 | The rating built carries the caller as rater and the request id as given |
| `Ratings.SaveResolved` | src/main/java/com/communityappbackend/service/RatingService.java:41-44 | Once the request and its donation resolve, the ratee is the donation's owner whatever the input holds |
| `Ratings.RatingTwiceKeepsBoth` | src/main/java/com/communityappbackend/service/RatingService.java:35-55 | There is no duplicate check: rating the same request twice stores two equal ratings under different keys |
| `Ratings.ForUser` | src/main/java/com/communityappbackend/service/RatingService.java:58-60 | Exactly the ratings whose ratee is the user |
| `Ratings.SavedRatingListedForOwner` | src/main/java/com/communityappbackend/service/RatingService.java:44-59 | A saved rating adds exactly one entry, to the donation owner's list, and no other user's list changes |
| `DonationRequests.Create` | src/main/java/com/communityappbackend/service/DonationRequestService.java:40-54 | A missing donation fails first; the caller's own donation fails next; nothing is stored in either case. Otherwise one PENDING request by the caller, with the donation id and message copied, is appended. |
| `DonationRequests.CreateDonationRequest` | src/main/java/com/communityappbackend/service/DonationRequestService.java:41-53 | The in-place creation leaves exactly the store `Create` specifies |
| `DonationRequests.Accept` | src/main/java/com/communityappbackend/service/DonationRequestService.java:140-153 | It fails with no change for a missing request, a missing donation, or a caller who is not the owner. Otherwise the request becomes ACCEPTED and the donation RESERVED, and no other row or table changes. The prior status is not checked. |
| `DonationRequests.AcceptDonationRequest` | src/main/java/com/communityappbackend/service/DonationRequestService.java:141-152 | The in-place steps leave exactly the store `Accept` specifies |
| `DonationRequests.Reject` | src/main/java/com/communityappbackend/service/DonationRequestService.java:158-169 | The same three checks. Only the request changes, to REJECTED; the donation keeps its status. |
| `DonationRequests.RejectDonationRequest` | src/main/java/com/communityappbackend/service/DonationRequestService.java:159-168 | The in-place steps leave exactly the store `Reject` specifies |
| `DonationRequests.Complete` | src/main/java/com/communityappbackend/service/DonationRequestService.java:221-239 | A caller other than the requester fails, and this is checked before the donation lookup. Otherwise the donation becomes DONATED and the request COMPLETED, from any prior status, and nothing else changes. |
| `DonationRequests.CompleteDonation` | src/main/java/com/communityappbackend/service/DonationRequestService.java:222-238 | The in-place steps leave exactly the store `Complete` specifies |
| `DonationRequests.RequestAcceptComplete` | src/main/java/com/communityappbackend/service/DonationRequestService.java:40-239 | The whole lifecycle (request, accept, complete) succeeds for a non-owner. It ends with the request COMPLETED and the donation DONATED, and only those two tables change. |
| `DonationRequests.AcceptAfterCompleteReservesAgain` | src/main/java/com/communityappbackend/service/DonationRequestService.java:140-153 | Because accept has no status guard, a completed request can be accepted again, which moves the DONATED item back to RESERVED |
| `DonationRequests.RequesterProfileUrl` | src/main/java/com/communityappbackend/service/DonationRequestService.java:108-118 | A URL is set exactly when the requester's record holds a non-null, non-empty path, and it is the base URL plus that path |
| `DonationRequests.ToView` | src/main/java/com/communityappbackend/service/DonationRequestService.java:83-135 | The request fields are copied. A missing donation gives "Unknown item" / "UNKNOWN" / no images; otherwise its title, status and picture URLs. A missing requester gives "Unknown" / "" / "" / no picture. |
| `DonationRequests.RequestsForDonationsCount` | src/main/java/com/communityappbackend/service/DonationRequestService.java:64-71 | The flat-map over distinct donations lists a request as often as it is stored if it targets one of them, otherwise not at all |
| `DonationRequests.IncomingRequestsExactlyOnce` | src/main/java/com/communityappbackend/service/DonationRequestService.java:60-77 | The incoming screen lists every request against one of the caller's donations exactly once, and nothing else |
| `DonationRequests.IncomingView` | src/main/java/com/communityappbackend/service/DonationRequestService.java:74-76 | One view per incoming request, in order |
| `DonationRequests.SentRequests` | src/main/java/com/communityappbackend/service/DonationRequestService.java:178 | Exactly the requests made by the caller |
| `DonationRequests.SentRequestsExactlyOnce` | src/main/java/com/communityappbackend/service/DonationRequestService.java:176-180 | The sent screen lists each of the caller's requests exactly once, and nothing else |
| `DonationRequests.ToSentView` | src/main/java/com/communityappbackend/service/DonationRequestService.java:182-218 | The request fields are copied. A missing donation gives "Unknown" / no images / "". When the donation or its owner is missing, the receiver id, name, email, phone and picture are all "". Otherwise they are the owner's id, name, email and phone. A picture URL appears exactly when the owner has a record, and it is then the base URL plus the path, with a null path read as "null". |
| `DonationRequests.SentView` | src/main/java/com/communityappbackend/service/DonationRequestService.java:176-180 | One view per request the caller sent, in storage order |
| `DonationRequests.CompleteDetails` | src/main/java/com/communityappbackend/service/DonationRequestService.java:242-274 | It succeeds exactly when the request, its donation and the donor all resolve. Otherwise it fails with the matching not-found, in that order. On success it returns the donation id, title and picture URLs, and the donor's id, name, email and phone. The picture URL is empty exactly when the donor has no record; otherwise it is the base URL plus the path. |
| `DonationRequests.DonorIsSentReceiver` | src/main/java/com/communityappbackend/service/DonationRequestService.java:193-204 | The completion screen shows the same donation title, pictures and donor (id, name, email, phone, picture) as the requester's sent screen shows as receiver for that request |
| `DonationRequests.CompletionKeepsDetails` | src/main/java/com/communityappbackend/service/DonationRequestService.java:221-274 | Completing a request leaves its completion screen exactly as it was, since that screen shows no status and completion changes nothing else |
| `TradeRequests.Create` | src/main/java/com/communityappbackend/service/TradeRequestService.java:39-49 | Always appends one PENDING request by the caller. A null offer becomes 0.0 and a null kind becomes MONEY; no selected item is set. The item is not checked. The same code is at Service/TradeRequestService.java:32-45. |
| `TradeRequests.CreateRequest` | src/main/java/com/communityappbackend/service/TradeRequestService.java:40-48 | The in-place creation leaves exactly the store `Create` specifies |
| `TradeRequests.SenderName` | src/main/java/com/communityappbackend/service/TradeRequestService.java:80-81 | The offerer's full name ("null" when that is null), or "Sender" when the user does not resolve |
| `TradeRequests.Approve` | src/main/java/com/communityappbackend/service/TradeRequestService.java:69-86 | An unknown id fails with not-found and a non-PENDING request fails; neither writes or notifies. Otherwise the selected item is recorded, the status becomes ACCEPTED, no other request changes, and exactly one unread "…, your trade request has been accepted!" notification is appended for the offerer. |
| `TradeRequests.ApproveRequest` | src/main/java/com/communityappbackend/service/TradeRequestService.java:70-85 | The in-place steps, including the nested notification call, leave exactly the store `Approve` specifies |
| `TradeRequests.Reject` | src/main/java/com/communityappbackend/service/TradeRequestService.java:91-107 | The same guards. Only the status changes, to REJECTED, with the selected item untouched, and one "…, your trade request has been rejected." notification is appended. |
| `TradeRequests.RejectRequest` | src/main/java/com/communityappbackend/service/TradeRequestService.java:92-106 | The in-place steps leave exactly the store `Reject` specifies |
| `TradeRequests.NoDecisionAfterApprove` | src/main/java/com/communityappbackend/service/TradeRequestService.java:73-97 | After an approval, a second approval and a rejection both fail as not pending and change nothing |
| `TradeRequests.NoDecisionAfterReject` | src/main/java/com/communityappbackend/service/TradeRequestService.java:92-97 | After a rejection, both decisions fail as not pending and change nothing |
| `TradeRequests.IncomingRequests` | src/main/java/com/communityappbackend/service/TradeRequestService.java:54-64 | Exactly the requests whose item id is among the caller's items, in storage order. The same code is at Service/TradeRequestService.java:48-63. |
| `TradeRequests.IncomingRequestsExactlyOnce` | src/main/java/com/communityappbackend/service/TradeRequestService.java:56-63 | Every request against an item the caller owns is listed exactly once, and nothing else |
| `TradeRequests.WithStatus` | src/main/java/com/communityappbackend/service/TradeRequestService.java:124-128 | A null or empty status keeps everything. Otherwise exactly the requests whose status equals it ignoring case are kept, in order. |
| `TradeRequests.FilteredIncomingExactlyOnce` | src/main/java/com/communityappbackend/service/TradeRequestService.java:113-128 | The filtered list holds, once each, exactly the requests against the caller's items whose status matches |
| `TradeRequests.RequestedItem` | src/main/java/com/communityappbackend/service/TradeRequestService.java:152-158 | A missing item gives "Unknown Item" with null fields and no images; otherwise the item's fields and picture URLs |
| `TradeRequests.OfferedItem` | src/main/java/com/communityappbackend/service/TradeRequestService.java:171-186 | Title, description, price and images are set exactly for an ITEM trade whose selected item is set and resolves, and are then that item's fields and its picture URLs (one per picture). In every other case all fields are null and the image list is empty. |
| `TradeRequests.DetailCore` | src/main/java/com/communityappbackend/Service/TradeRequestService.java:117-169 | The request fields are copied, and the sender's name is "Unknown User" when the sender does not resolve. The requested and offered items are as above, with no contact block. |
| `TradeRequests.ContactsOf` | src/main/java/com/communityappbackend/service/TradeRequestService.java:146-169 | Sender email, phone and address are the sender's, or "" when the sender does not resolve. If the requested item and its owner resolve, the receiver id is the owner's id and the name, email, phone and address are the owner's. Otherwise all five receiver fields are "". |
| `TradeRequests.ToDetailed` | src/main/java/com/communityappbackend/service/TradeRequestService.java:145-214 | Request id, status, offer, sender id, trade kind, requested id and offered id are copied. The sender name is the sender's, or "Unknown User". The requested and offered items are as `RequestedItem` and `OfferedItem` give them. The contact block is `ContactsOf`. Without the contacts, the entry is the older generation's `DetailCore`. |
| `TradeRequests.IncomingDetailed` | src/main/java/com/communityappbackend/service/TradeRequestService.java:130-132 | One detailed entry, with contacts, per filtered incoming request, in order |
| `TradeRequests.ToItemResponse` | src/main/java/com/communityappbackend/service/TradeRequestService.java:226-244 | Id, title, description, price, category and status are copied from the item, with one picture URL per stored picture. There is no creation time and no owner block. The same code is at Service/TradeRequestService.java:190-210. |
| `TradeRequests.ItemsByOwner` | src/main/java/com/communityappbackend/service/TradeRequestService.java:138-141 | One response per item of that owner, in order. The same code is at Service/TradeRequestService.java:183-188. |
| `LegacyTradeRequests.Approve` | src/main/java/com/communityappbackend/Service/TradeRequestService.java:66-81 | Not-found and not-pending fail with no write. Otherwise the selected item and ACCEPTED are recorded, and only that request changes. |
| `LegacyTradeRequests.ApproveRequest` | src/main/java/com/communityappbackend/Service/TradeRequestService.java:67-80 | The in-place steps leave exactly the store `Approve` specifies |
| `LegacyTradeRequests.Reject` | src/main/java/com/communityappbackend/Service/TradeRequestService.java:84-97 | The same guards; only the status changes, to REJECTED |
| `LegacyTradeRequests.RejectRequest` | src/main/java/com/communityappbackend/Service/TradeRequestService.java:85-96 | The in-place steps leave exactly the store `Reject` specifies |
| `LegacyTradeRequests.DecisionsAgree` | src/main/java/com/communityappbackend/Service/TradeRequestService.java:66-97 | Both generations give the same result and the same request table for every decision; only the newer one adds a notification |
| `LegacyTradeRequests.NoDecisionAfterDecision` | src/main/java/com/communityappbackend/Service/TradeRequestService.java:73-93 | In this generation too, a request leaves PENDING at most once |
| `LegacyTradeRequests.IncomingDetailed` | src/main/java/com/communityappbackend/Service/TradeRequestService.java:100-115 | Every incoming request, unfiltered, detailed without contacts, in order |
| `LegacyTradeRequests.DetailedViewsAgree` | src/main/java/com/communityappbackend/Service/TradeRequestService.java:112-114 | Without its contact fields, the newer unfiltered detailed list equals the older one entry for entry |
| `Donations.ResponseOf` | src/main/java/com/communityappbackend/service/DonationService.java:197-236 | The fields are copied. The URL list and the (id, URL) list have one entry per picture, in the same order. An owner that does not resolve reads "Unknown" / "-". |
| `Donations.ToDonationResponse` | src/main/java/com/communityappbackend/service/DonationService.java:199-212 | The loop building both lists side by side yields `ResponseOf` |
| `Donations.NewImages` | src/main/java/com/communityappbackend/service/DonationService.java:174-177 | One picture row per stored file name, under "Donations/" |
| `Donations.ImagesAfterAppend` | src/main/java/com/communityappbackend/service/DonationService.java:62-66 | The new pictures are appended to that donation's picture list, in order |
| `Donations.OtherImagesAfterAppend` | src/main/java/com/communityappbackend/service/DonationService.java:61-66 | No other donation's picture list changes |
| `Donations.AppendedImagePaths` | src/main/java/com/communityappbackend/service/DonationService.java:61-63 | The appended pictures carry the given file names, in order |
| `Donations.AttachImages` | src/main/java/com/communityappbackend/service/DonationService.java:146-158 | The counting loop records the first `AddedCount` files in order, and the count ends at existing plus added |
| `Donations.Add` | src/main/java/com/communityappbackend/service/DonationService.java:39-72 | No principal fails with nothing stored. Otherwise one ACTIVE donation owned by the caller is appended, its first five files (at most) are recorded as its pictures, and nothing else changes. |
| `Donations.AddDonation` | src/main/java/com/communityappbackend/service/DonationService.java:44-71 | The in-place steps leave exactly the store `Add` specifies |
| `Donations.AddedDonationImages` | src/main/java/com/communityappbackend/service/DonationService.java:57-69 | A new donation ends with min(files, 5) pictures, namely the first files in order |
| `Donations.FirstImages` | src/main/java/com/communityappbackend/service/DonationService.java:59-66 | A donation with no pictures holds exactly the appended ones afterwards |
| `Donations.MyDonations` | src/main/java/com/communityappbackend/service/DonationService.java:74-80 | One response per donation of the caller, in order, each owned by the caller |
| `Donations.ActiveDonations` | src/main/java/com/communityappbackend/service/DonationService.java:83 | Exactly the ACTIVE donations, each as often as it is stored, with keys kept unique |
| `Donations.AllActiveDonations` | src/main/java/com/communityappbackend/service/DonationService.java:82-86 | One response per ACTIVE donation of any owner, each ACTIVE |
| `Donations.ById` | src/main/java/com/communityappbackend/service/DonationService.java:93-104 | An unknown id fails with not-found and another owner's donation is refused. The owner gets the response with its pictures. |
| `Donations.RemoveImages` | src/main/java/com/communityappbackend/service/DonationService.java:132-143 | Exactly the listed ids that resolve are deleted, whichever donation they belong to; every other picture is unchanged |
| `Donations.RemoveUnknownIgnored` | src/main/java/com/communityappbackend/service/DonationService.java:133-135 | Ids of no stored picture leave the picture table as it was |
| `Donations.RemoveImagesById` | src/main/java/com/communityappbackend/service/DonationService.java:133-142 | The removal loop yields `RemoveImages` |
| `Donations.Update` | src/main/java/com/communityappbackend/service/DonationService.java:109-163 | Not-found and not-owner fail before any change. Otherwise title, description and status are replaced, the listed pictures removed, and new files attached while fewer than five remain. The response lists the pictures after removal. |
| `Donations.UpdateDonation` | src/main/java/com/communityappbackend/service/DonationService.java:118-162 | The in-place steps leave exactly the store `Update` specifies |
| `Donations.UpdateImageCount` | src/main/java/com/communityappbackend/service/DonationService.java:145-158 | After an edit the donation holds its kept pictures plus `AddedCount` new ones. That is at most five unless more than five were kept, and then nothing is added. |
| `Items.NewItem` | src/main/java/com/communityappbackend/service/TradeItemService/ItemService.java:44-51 | The new item is ACTIVE, owned by the caller, with title, description, price and category copied. The same code is at Service/ItemService.java:35-42. |
| `Items.ToResponse` | src/main/java/com/communityappbackend/service/TradeItemService/ItemService.java:119-143 | Id, title, description, price, category, status and creation time are copied. There is one URL per picture in order, the base URL plus the path with "Assets/" removed, and no owner block. The same code is at Service/ItemService.java:91-114. |
| `Items.StoredResponse` | src/main/java/com/communityappbackend/service/TradeItemService/ItemService.java:119-143 | A stored item's response has its fields and exactly one URL per picture row the store holds for that item, in storage order |
| `Items.NewImages` | src/main/java/com/communityappbackend/service/TradeItemService/ItemService.java:109-112 | One picture row per stored file name, under "Assets/" |
| `Items.AttachImages` | src/main/java/com/communityappbackend/service/TradeItemService/ItemService.java:55-67 | The counting loop records the first five files (at most) in order, and the count ends as the number recorded. The same loop is at Service/ItemService.java:46-58. |
| `Items.FirstImages` | src/main/java/com/communityappbackend/service/TradeItemService/ItemService.java:59-64 | An item with no pictures holds exactly the appended ones afterwards, served under their file names |
| `Items.OtherImagesAfterAppend` | src/main/java/com/communityappbackend/service/TradeItemService/ItemService.java:60-64 | No other item's pictures change |
| `Items.Add` | src/main/java/com/communityappbackend/service/TradeItemService/ItemService.java:41-70 | Appends the new item and the first five picture rows; nothing else changes. The same code is at Service/ItemService.java:32-61. |
| `Items.AddItem` | src/main/java/com/communityappbackend/service/TradeItemService/ItemService.java:42-69 | The in-place steps leave exactly the store `Add` specifies |
| `Items.OwnedItems` | src/main/java/com/communityappbackend/service/TradeItemService/ItemService.java:75-79 | One response per item of the owner, in order. The same code is at lines 93-96 and at Service/ItemService.java:64-70. |
| `Items.Details` | src/main/java/com/communityappbackend/service/TradeItemService/ItemService.java:84-88 | An unknown id fails with not-found; otherwise the stored item's response |
| `Items.ActiveListing` | src/main/java/com/communityappbackend/Service/ItemService.java:73-89 | One response per ACTIVE item of another user (in the category, if one is given), in order |
| `Items.ActiveListingExcludesCaller` | src/main/java/com/communityappbackend/Service/ItemService.java:80-84 | No listed item is the caller's; every one is ACTIVE and in the requested category |
| `Items.AddedItemListedLast` | src/main/java/com/communityappbackend/service/TradeItemService/ItemService.java:53-79 | After `addItem` the new item is the last of its owner's items, behind the ones listed before |
| `Items.AddedItemResolves` | src/main/java/com/communityappbackend/service/TradeItemService/ItemService.java:53-88 | After `addItem` the new item resolves, with the pictures now stored for it |
| `Items.AddedItemUrls` | src/main/java/com/communityappbackend/service/TradeItemService/ItemService.java:55-125 | The new item's picture URLs serve the first five file names, in order |
| `Items.AddThenDetails` | src/main/java/com/communityappbackend/service/TradeItemService/ItemService.java:41-88 | Fetching a just-added item gives its form fields, ACTIVE, and min(files, 5) URLs in file order |
| `Items.AddKeepsOtherItems` | src/main/java/com/communityappbackend/service/TradeItemService/ItemService.java:53-67 | `addItem` leaves every other item's response as it was |
| `TradeItems.ProfileUrl` | src/main/java/com/communityappbackend/service/TradeItemService.java:97-104 | A URL is set exactly when the user's record holds a non-empty path. It is the base URL plus the path with "Assets/" removed. The same code is at Service/TradeItemService.java:94-103. |
| `TradeItems.OwnerBlock` | src/main/java/com/communityappbackend/service/TradeItemService.java:83-105 | A missing owner gives all fields "". Otherwise the stored name, email and phone, the address with null read as "", and the picture URL. The same code is at Service/TradeItemService.java:79-104. |
| `TradeItems.WithOwner` | src/main/java/com/communityappbackend/service/TradeItemService.java:70-122 | The item service's response plus the owner block |
| `TradeItems.ActiveListing` | src/main/java/com/communityappbackend/service/TradeItemService.java:44-57 | One response with owner per ACTIVE item of another user, in the category if given. The same code is at Service/TradeItemService.java:35-51. |
| `TradeItems.ListingsAgree` | src/main/java/com/communityappbackend/service/TradeItemService.java:48-56 | Without the owner block, this listing is the item service's listing entry for entry |
| `TradeItems.Details` | src/main/java/com/communityappbackend/service/TradeItemService.java:62-66 | An unknown id fails with not-found; otherwise the response with owner |
| `TradeItems.LegacyDetails` | src/main/java/com/communityappbackend/Service/TradeItemService.java:53-59 | An unknown id gives null; otherwise the response with owner |
| `TradeItems.DetailsAgree` | src/main/java/com/communityappbackend/Service/TradeItemService.java:54-58 | The older view is null exactly where the newer one fails, and the same otherwise |
| `TradeItems.OwnerPictureShown` | src/main/java/com/communityappbackend/service/TradeItemService.java:99-102 | An owner whose record holds a name without "Assets/" is shown at the base URL plus exactly that name |
| `Users.NewUser` | src/main/java/com/communityappbackend/service/UserService.java:30-39 | The profile fields are copied, the password hash is the encoder's output, and the user is not verified |
| `Users.SignUp` | src/main/java/com/communityappbackend/service/UserService.java:23-42 | It fails exactly when the e-mail is taken, storing nothing. Otherwise the new user is appended under the fresh id. The same code is at Service/UserService.java:23-42. |
| `Users.SignUpUser` | src/main/java/com/communityappbackend/service/UserService.java:25-41 | The in-place steps leave exactly the store `SignUp` specifies |
| `Users.SignUpKeepsEmailsUnique` | src/main/java/com/communityappbackend/service/UserService.java:25-27 | Sign-up keeps e-mails unique, and a second sign-up with the same e-mail is refused with no change |
| `Users.FindById` | src/main/java/com/communityappbackend/service/UserService.java:48-51 | An unknown id fails with not-found; otherwise the stored user |
| `Users.Apply` | src/main/java/com/communityappbackend/service/UserService.java:60-74 | The full name changes only when given and non-empty. Phone, address, city and province change when given. E-mail, password hash and verification never change. |
| `Users.UpdateProfile` | src/main/java/com/communityappbackend/service/UserService.java:56-77 | An unknown user fails with nothing changed. Otherwise only that user's record becomes `Apply(user, req)`. The same code is at Service/UserService.java:56-77. |
| `Users.UpdateUserProfile` | src/main/java/com/communityappbackend/service/UserService.java:57-76 | The setter-by-setter steps leave exactly the store `UpdateProfile` specifies |
| `Users.UpdateIdempotent` | src/main/java/com/communityappbackend/service/UserService.java:56-77 | Applying the same update twice gives what applying it once gives |
| `Users.UpdateKeepsEmailsUnique` | src/main/java/com/communityappbackend/service/UserService.java:60-76 | A profile update never changes an e-mail, so uniqueness is kept |
| `Categories.AllCategories` | src/main/java/com/communityappbackend/Service/CategoryService.java:21-28 | One response per stored category, in order, with its id and name |
| `Categories.Add` | src/main/java/com/communityappbackend/Service/CategoryService.java:30-41 | It fails exactly when the name is taken, storing nothing. Otherwise the category is appended under a new id, which the response echoes with the name. A null name counts as taken exactly when a category without a name is stored (the IS NULL match of `existsByCategoryName`). |
| `Categories.AddCategory` | src/main/java/com/communityappbackend/Service/CategoryService.java:31-40 | The in-place steps leave exactly the store `Add` specifies |
| `Categories.AddKeepsNamesUnique` | src/main/java/com/communityappbackend/Service/CategoryService.java:31-36 | Adding keeps category names unique |
| `Categories.AddedCategoryListedLast` | src/main/java/com/communityappbackend/Service/CategoryService.java:21-40 | After an add, the listing is the old listing followed by exactly the add's response |
| `Categories.AddTwiceRefused` | src/main/java/com/communityappbackend/Service/CategoryService.java:31-33 | Adding the same name again, a null name included, is refused with no change |
| `ProfileImages.KeepAllowed` | src/main/java/com/communityappbackend/service/ProfileImageService.java:51 | Every character of the result is in `[a-zA-Z0-9._-]`, and the result is no longer than the input |
| `ProfileImages.KeepAllowedPlain` | src/main/java/com/communityappbackend/Service/ProfileImageService.java:47 | A text of allowed characters only is left as it is |
| `ProfileImages.KeepAllowedKeeps` | src/main/java/com/communityappbackend/service/ProfileImageService.java:51 | Every allowed character of the input survives |
| `ProfileImages.AfterLastSlash` | src/main/java/com/communityappbackend/service/ProfileImageService.java:46-48 | The longest suffix without '/': it holds no '/', and the character before it is a '/' when it is not the whole text |
| `ProfileImages.LastSegment` | src/main/java/com/communityappbackend/service/ProfileImageService.java:45-48 | With '\\' turned into '/', the part after the last '/' holds neither separator. The same code is at Service/ProfileImageService.java:43-44. |
| `ProfileImages.StoredName` | src/main/java/com/communityappbackend/service/ProfileImageService.java:45-51 | The stored name is non-empty, holds only allowed characters, and so holds no path separator |
| `ProfileImages.StoredNamePlain` | src/main/java/com/communityappbackend/service/ProfileImageService.java:50-51 | A plain UUID and plain name are stored as UUID + "_" + name |
| `ProfileImages.AfterLastSlashOf` | src/main/java/com/communityappbackend/service/ProfileImageService.java:46-47 | Behind the last '/' of folder + "/" + name comes exactly the name |
| `ProfileImages.LastSegmentOfName` | src/main/java/com/communityappbackend/service/ProfileImageService.java:45-46 | A name holding neither separator is its own last segment |
| `ProfileImages.StoredNameDropsFolders` | src/main/java/com/communityappbackend/Service/ProfileImageService.java:43-47 | Any folder before a '/' or '\\' is dropped: the stored name is that of the bare file name |
| `ProfileImages.RecordIndex` | src/main/java/com/communityappbackend/service/ProfileImageService.java:63-64 | The position of the user's first record, with no earlier record of that user |
| `ProfileImages.RecordAtIndex` | src/main/java/com/communityappbackend/service/ProfileImageService.java:64 | The record at that position is the one `findByUserId` returns |
| `ProfileImages.Upsert` | src/main/java/com/communityappbackend/service/ProfileImageService.java:63-82 | A user with a record keeps the table's length. A user without one gets one new record, appended under a new id, holding the name. Key uniqueness is kept. |
| `ProfileImages.UpsertInPlace` | src/main/java/com/communityappbackend/service/ProfileImageService.java:65-82 | The user's first record is rewritten where it stands, with the new path |
| `ProfileImages.Upload` | src/main/java/com/communityappbackend/service/ProfileImageService.java:29-85 | An empty file, then a null name, then an unknown user each fail with an invalid-argument error and no record change. Otherwise the user's record is upserted with the stored name. The same code is at Service/ProfileImageService.java:28-76. |
| `ProfileImages.UploadProfileImage` | src/main/java/com/communityappbackend/service/ProfileImageService.java:30-84 | The in-place steps leave exactly the store `Upload` specifies |
| `ProfileImages.ProfileImage` | src/main/java/com/communityappbackend/service/ProfileImageService.java:87-94 | No record gives "". A non-empty answer is the path of the user's record. The same code is at Service/ProfileImageService.java:78-85. |
| `ProfileImages.UpsertRecord` | src/main/java/com/communityappbackend/service/ProfileImageService.java:63-82 | After the upsert, the user's lookup finds a record holding the new name, and every other user's lookup is unchanged |
| `ProfileImages.UploadThenLookup` | src/main/java/com/communityappbackend/service/ProfileImageService.java:81-91 | After a successful upload, `getProfileImage` answers with the stored name |
| `ProfileImages.UploadLeavesOthers` | src/main/java/com/communityappbackend/service/ProfileImageService.java:63-82 | An upload leaves every other user's picture as it was |
| `ProfileImages.UpsertKeepsOnePerUser` | src/main/java/com/communityappbackend/Service/ProfileImageService.java:57-73 | The upsert keeps at most one record per user, so the upload method keeps `Consistent` |
| `ProfileImages.UploadThenOwnerPicture` | src/main/java/com/communityappbackend/service/TradeItemService.java:97-104 | After an upload, the user's items are listed with the picture URL of exactly the stored name |
| `Common.Str` | src/main/java/com/communityappbackend/service/TradeRequestService.java:81-82 | Java's string concatenation of a null string gives "null" |
| `Common.ReplaceAbsent` | src/main/java/com/communityappbackend/service/TradeItemService.java:101 | `replace` leaves a text without the target unchanged |
| `Common.RemoveLeadingOnly` | src/main/java/com/communityappbackend/service/DonationService.java:187 | Removing a prefix that occurs only at the front gives the rest |
| `Common.ReplaceCharRemoves` | src/main/java/com/communityappbackend/service/ProfileImageService.java:45 | Replacing every '\\' by '/' leaves no '\\' |

## Left out

- Tables.NextKey: a generated id is one more than the largest key stored now, not the database's identity counter, which never hands out an id twice. The two differ only after the row with the largest key is deleted. The one table where that happens is the donation pictures: `updateDonation` removes pictures by id, and the ids appear in the donation response's image list. After the newest picture is removed, the model can give its id to the next picture added, where the database would issue a new one. Every other generated-key table is only appended to, so the two coincide there.
- **File storage.** This covers the upload directories, `transferTo`, `Files.copy`, deleting the old profile picture, and removing donation files. Only the picture records and the names they hold are modelled. The stored file names of item and donation pictures are parameters. A profile-picture file is written even when the user is unknown; the record store is not touched in that case, and that is all the model shows.
- **Foreign calls.** The random UUIDs, the BCrypt encoder (an arbitrary function parameter) and the database clock are left out. `createdAt` is copied as an opaque value; its formatting with `DateTimeFormatter` is not modelled.
- **`StringUtils.cleanPath`.** It is taken as the identity on the single path segment it receives. It differs only for the segments "." and "..", and for names with ':'; those characters are then dropped by the character filter anyway, apart from the dots.
- **Security and controllers.** JWT parsing, the security configuration, the controllers and the exception-to-HTTP mapping are left out. The authenticated user is a parameter. A missing principal is modelled only where a service tests for it (`addDonation`).
- **Floating point.** `price` and `moneyOffer` are Java `Double`s and are modelled as opaque reals that are only copied.
- **Concurrency and transactions.** Two concurrent decisions on one request, and the atomicity of the two `save` calls of accept and complete, are out of scope; calls run one after another.
- **Lazily loaded collections.** The `images` collection of an entity is modelled as the image rows that point at it. The collection of an entity just saved by `addItem` or `addDonation` is never refreshed, so those responses list no pictures. `updateDonation` answers with the pictures as they stood after the removals.
- **Case folding.** `EqualsIgnoreCase` folds ASCII letters only; Java also folds other Unicode letters.
- **Null inputs.** A null file list is the empty sequence. A donation request's requester id is never null, since `createDonationRequest` always sets it to the caller's id, so it is a plain `Id`. A null category name is modelled (`Categories.Add` takes an `Option`). A null status on a trade request and a null donation owner are not modelled: the status filter calls `equalsIgnoreCase` on the stored status, and `createDonationRequest` calls `equals` on the owner id, so each would throw.
- **The older `ProfileImageService`.** Its `findByUserId` is used as if it returned the entity, but the repository returns an `Optional`, so that class does not compile as written. It is modelled with the behaviour of the newer class, which is otherwise the same code.
- **`UserService.findByEmail`** is a plain repository pass-through and is not modelled.
- **Id and status checks on trade requests.** `createRequest` stores requests without checking that the item exists or whom it belongs to, and approve and reject do not check the caller. The model follows the code in this.
- **`EqualsIgnoreCaseIsEquivalence`.** The lemma that case-insensitive comparison is an equivalence is provable without proof steps. It is kept as documentation of `WithStatus`.
- **Defaults and order of checks.** `TradeRequests.Create` defaults `moneyOffer` to 0.0 only when it is null, whatever the trade kind. `DonationRequests.Create` looks up the donation before it checks ownership.
