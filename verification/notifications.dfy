/** A user's mailbox of notifications: create, list by user, set the read flag, delete. */
module Notifications {
  import opened Common
  import opened Tables
  import opened Records
  import opened Persistence

  const NOTIFICATION := "Notification"

  /** The notification payload: addressee and text. */
  datatype NotificationInput = NotificationInput(userId: Id, message: string)

  /** `createNotification`: a new unread notification is appended under a fresh id. */
  function Create(s: Store, input: NotificationInput, newId: Id): (o: Outcome<Row<Id, Notification>>)
    requires newId !in Keys(s.notifications)
    ensures o.result.Ok?
    ensures o.result.value.key == newId
    ensures o.result.value.rec.userId == input.userId && o.result.value.rec.message == input.message
    ensures !o.result.value.rec.read
    ensures o.store == s.(notifications := s.notifications + [o.result.value])
  {
    var n := Notification(input.userId, input.message, false);
    Outcome(Ok(Row(newId, n)), s.(notifications := Save(s.notifications, newId, n)))
  }

  method CreateNotification(db: Repositories, input: NotificationInput, newId: Id) returns (created: Row<Id, Notification>)
    requires db.Valid() && newId !in Keys(db.store.notifications)
    modifies db
    ensures db.Valid()
    ensures Outcome(Ok(created), db.store) == Create(old(db.store), input, newId)
  {
    var notification := Notification(input.userId, input.message, false);
    db.store := db.store.(notifications := Save(db.store.notifications, newId, notification));
    created := Row(newId, notification);
  }

  /** `getNotificationsByUserId`: the user's notifications in storage order. */
  function ByUser(s: Store, userId: Id): (rows: seq<Row<Id, Notification>>)
    ensures forall row :: row in rows <==> row in s.notifications && row.rec.userId == userId
    ensures forall row {:trigger multiset(rows)[row]} :: multiset(rows)[row] == if row.rec.userId == userId then multiset(s.notifications)[row] else 0
  {
    Select(s.notifications, (row: Row<Id, Notification>) => row.rec.userId == userId)
  }

  /** `updateNotificationReadStatus`: an unknown id fails and changes nothing; otherwise
      only the read flag of that notification changes. */
  function SetRead(s: Store, id: Id, read: bool): (o: Outcome<Row<Id, Notification>>)
    ensures id !in Keys(s.notifications) ==> o == Outcome(Err(NotFound(NOTIFICATION)), s)
    ensures id in Keys(s.notifications) ==>
      && var old_ := Get(s.notifications, id).value;
      && o.result == Ok(Row(id, old_.(read := read)))
      && Get(o.store.notifications, id) == Some(old_.(read := read))
      && (forall other :: other != id ==> Get(o.store.notifications, other) == Get(s.notifications, other))
      && |o.store.notifications| == |s.notifications|
      && o.store == s.(notifications := o.store.notifications)
  {
    match Get(s.notifications, id)
    case None => Outcome(Err(NotFound(NOTIFICATION)), s)
    case Some(n) =>
      var updated := n.(read := read);
      Outcome(Ok(Row(id, updated)), s.(notifications := Save(s.notifications, id, updated)))
  }

  method UpdateNotificationReadStatus(db: Repositories, id: Id, read: bool) returns (r: Result<Row<Id, Notification>>)
    requires db.Valid()
    modifies db
    ensures db.Valid()
    ensures Outcome(r, db.store) == SetRead(old(db.store), id, read)
  {
    var found := Get(db.store.notifications, id);
    if found.None? {
      return Err(NotFound(NOTIFICATION));
    }
    var updated := found.value.(read := read);
    db.store := db.store.(notifications := Save(db.store.notifications, id, updated));
    r := Ok(Row(id, updated));
  }

  /** Setting the same read value twice leaves the mailbox as setting it once does. */
  lemma SetReadIdempotent(s: Store, id: Id, read: bool)
    ensures SetRead(SetRead(s, id, read).store, id, read).store == SetRead(s, id, read).store
  {
    if id in Keys(s.notifications) {
      var n := Get(s.notifications, id).value;
      SaveIdempotent(s.notifications, id, n.(read := read));
    }
  }

  /** `deleteNotification`: an unknown id fails and changes nothing; otherwise exactly that
      one notification is removed. */
  function Remove(s: Store, id: Id): (o: Outcome<()>)
    ensures id !in Keys(s.notifications) ==> o == Outcome(Err(NotFound(NOTIFICATION)), s)
    ensures id in Keys(s.notifications) ==>
      && o.result.Ok?
      && Keys(o.store.notifications) == Keys(s.notifications) - {id}
      && (forall other :: other != id ==> Get(o.store.notifications, other) == Get(s.notifications, other))
      && o.store == s.(notifications := o.store.notifications)
  {
    if id !in Keys(s.notifications) then Outcome(Err(NotFound(NOTIFICATION)), s)
    else Outcome(Ok(()), s.(notifications := Delete(s.notifications, id)))
  }

  method DeleteNotification(db: Repositories, id: Id) returns (r: Result<()>)
    requires db.Valid()
    modifies db
    ensures db.Valid()
    ensures Outcome(r, db.store) == Remove(old(db.store), id)
  {
    if id !in Keys(db.store.notifications) {
      return Err(NotFound(NOTIFICATION));
    }
    db.store := db.store.(notifications := Delete(db.store.notifications, id));
    r := Ok(());
  }

  /** In a consistent store a successful delete removes one row: the notification that was
      stored under that id, and no other. */
  lemma RemoveDropsExactlyOne(s: Store, id: Id)
    requires Consistent(s) && id in Keys(s.notifications)
    ensures var after := Remove(s, id).store.notifications;
      && |after| == |s.notifications| - 1
      && multiset(after) == multiset(s.notifications) - multiset{Row(id, Get(s.notifications, id).value)}
  {
    DeleteRemovesRow(s.notifications, id);
  }
}
