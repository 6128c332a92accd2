/** The JPA repositories the services share. `Store` holds one table per repository and is
    the value the operations are specified on; `Repositories` is the database the services
    update in place, holding the current `Store`. */
module Persistence {
  import opened Common
  import opened Tables
  import opened Records

  datatype Store = Store(
    users: Table<Id, User>,
    items: Table<Id, Item>,
    itemImages: Table<nat, ItemImage>,
    donationItems: Table<Id, DonationItem>,
    donationImages: Table<nat, DonationItemImage>,
    tradeRequests: Table<Id, TradeRequest>,
    donationRequests: Table<Id, DonationRequest>,
    notifications: Table<Id, Notification>,
    ratings: Table<nat, Rating>,
    categories: Table<nat, Category>,
    profileImages: Table<nat, UserProfileImage>)

  /** At most one profile-image record per user. */
  ghost predicate OnePerUser(t: Table<nat, UserProfileImage>) {
    forall i, j :: 0 <= i < j < |t| ==> t[i].rec.userId != t[j].rec.userId
  }

  /** What the database guarantees: no key twice in a table, and (as `findByUserId` returning
      one record presumes) at most one profile picture record per user. */
  ghost predicate Consistent(s: Store) {
    && UniqueKeys(s.users)
    && UniqueKeys(s.items)
    && UniqueKeys(s.itemImages)
    && UniqueKeys(s.donationItems)
    && UniqueKeys(s.donationImages)
    && UniqueKeys(s.tradeRequests)
    && UniqueKeys(s.donationRequests)
    && UniqueKeys(s.notifications)
    && UniqueKeys(s.ratings)
    && UniqueKeys(s.categories)
    && UniqueKeys(s.profileImages)
    && OnePerUser(s.profileImages)
  }

  /** The outcome of a service call: what it returns (or throws) and the store it leaves. */
  datatype Outcome<+T> = Outcome(result: Result<T>, store: Store)

  /** The database behind every repository the services hold. A service call reads tables
      from it and writes back the tables it saves to or deletes from. */
  class Repositories {
    var store: Store

    ghost predicate Valid()
      reads this
    {
      Consistent(store)
    }

    /** An empty database. */
    constructor ()
      ensures Valid()
      ensures store == Store([], [], [], [], [], [], [], [], [], [], [])
    {
      store := Store([], [], [], [], [], [], [], [], [], [], []);
    }
  }
}
