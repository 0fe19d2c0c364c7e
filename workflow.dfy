/**
 * The request and notification workflow of inventory/views.py, stated as
 * functions from one database state to the next. Each view that changes
 * records (request_item, approve_request, reject_request, mark_all_as_read,
 * notifications, acknowledge_notification, delete_user) is one function
 * returning the outcome the view reports and the new state; the lemmas
 * below state what the views promise about stock, statuses and read flags.
 */
module Workflow {
  import opened Text
  import opened Models

  /**
   * The tables the workflow touches, keyed by primary key, with the next
   * auto-increment value of each table that rows are added to.
   */
  datatype Db = Db(
    users: map<UserId, CustomUser>,
    items: map<ItemId, InventoryItem>,
    requests: map<RequestId, RequestItem>,
    notifications: map<NotificationId, Notification>,
    nextUserId: nat,
    nextRequestId: nat,
    nextNotificationId: nat)

  /**
   * Consistency of the tables: every key is below its table's next id, and
   * every foreign key (request requester and item, notification user) refers
   * to an existing row.
   */
  ghost predicate Valid(db: Db) {
    && (forall u :: u in db.users ==> u < db.nextUserId)
    && (forall r :: r in db.requests ==> r < db.nextRequestId)
    && (forall r :: r in db.requests ==> db.requests[r].requester in db.users)
    && (forall r :: r in db.requests ==> db.requests[r].item in db.items)
    && (forall n :: n in db.notifications ==> n < db.nextNotificationId)
    && (forall n :: n in db.notifications ==> db.notifications[n].user in db.users)
  }

  /**
   * What a view reports: success, a 404 from `get_object_or_404`, an invalid
   * form, and the two warnings of approve_request and the one of delete_user.
   */
  datatype Reply = Ok | NotFound | InvalidForm | InsufficientStock | AlreadyApproved | CannotDeleteSelf

  datatype Response = Response(reply: Reply, db: Db)

  // ---------------------------------------------------------------------
  // request_item

  /** The staff users with an id below `n`, in ascending id order. */
  function StaffRecipients(users: map<UserId, CustomUser>, n: nat): seq<UserId> {
    if n == 0 then []
    else StaffRecipients(users, n - 1) + (if n - 1 in users && users[n - 1].isStaff then [n - 1] else [])
  }

  /** The list holds only staff users below `n`, each once, in strictly ascending order. */
  lemma {:induction false} StaffRecipientsSound(users: map<UserId, CustomUser>, n: nat)
    ensures forall k :: 0 <= k < |StaffRecipients(users, n)| ==>
      StaffRecipients(users, n)[k] < n && StaffRecipients(users, n)[k] in users && users[StaffRecipients(users, n)[k]].isStaff
    ensures forall j, k :: 0 <= j < k < |StaffRecipients(users, n)| ==>
      StaffRecipients(users, n)[j] < StaffRecipients(users, n)[k]
  {
    if n > 0 {
      StaffRecipientsSound(users, n - 1);
      var prev := StaffRecipients(users, n - 1);
      var r := StaffRecipients(users, n);
      if n - 1 in users && users[n - 1].isStaff {
        assert r == prev + [n - 1];
        assert forall k :: 0 <= k < |prev| ==> r[k] == prev[k];
        assert r[|prev|] == n - 1;
      } else {
        assert r == prev;
      }
    }
  }

  /** Every staff user with an id below `n` is on the list. */
  lemma {:induction false} StaffRecipientsComplete(users: map<UserId, CustomUser>, n: nat, u: UserId)
    requires u < n && u in users && users[u].isStaff
    ensures u in StaffRecipients(users, n)
  {
    if u < n - 1 {
      StaffRecipientsComplete(users, n - 1, u);
    }
  }

  /**
   * Appends one new notification per recipient, with consecutive ids from
   * `first` on, all carrying `message`.
   */
  function Fanout(notes: map<NotificationId, Notification>, first: NotificationId, recipients: seq<UserId>, message: string)
    : map<NotificationId, Notification>
  {
    if recipients == [] then notes
    else
      var last := |recipients| - 1;
      Fanout(notes, first, recipients[..last], message)[first + last := NewNotification(recipients[last], message)]
  }

  /**
   * The fan-out keeps every existing notification outside the new id range and
   * adds exactly the ids `first` up to `first + |recipients|`, the one at
   * `first + j` being a new unread notification for `recipients[j]`.
   */
  lemma {:induction false} FanoutContents(
    notes: map<NotificationId, Notification>, first: NotificationId, recipients: seq<UserId>, message: string)
    ensures forall k :: k in Fanout(notes, first, recipients, message) <==> k in notes || first <= k < first + |recipients|
    ensures forall k :: k in notes && !(first <= k < first + |recipients|) ==>
      Fanout(notes, first, recipients, message)[k] == notes[k]
    ensures forall k :: first <= k < first + |recipients| ==>
      Fanout(notes, first, recipients, message)[k] == NewNotification(recipients[k - first], message)
  {
    if recipients != [] {
      FanoutContents(notes, first, recipients[..|recipients| - 1], message);
    }
  }

  /** A fan-out to existing users into fresh ids keeps the notification table consistent. */
  lemma FanoutWithinUsers(
    notes: map<NotificationId, Notification>, first: NotificationId, recipients: seq<UserId>, message: string,
    users: map<UserId, CustomUser>)
    requires forall n :: n in notes ==> n < first && notes[n].user in users
    requires forall k :: 0 <= k < |recipients| ==> recipients[k] in users
    ensures forall n :: n in Fanout(notes, first, recipients, message) ==>
      n < first + |recipients| && Fanout(notes, first, recipients, message)[n].user in users
  {
    FanoutContents(notes, first, recipients, message);
  }

  /** Fanning out to one more recipient adds one notification under the next id. */
  lemma FanoutSnoc(notes: map<NotificationId, Notification>, first: NotificationId, recipients: seq<UserId>, u: UserId, message: string)
    ensures Fanout(notes, first, recipients + [u], message)
         == Fanout(notes, first, recipients, message)[first + |recipients| := NewNotification(u, message)]
  {
    assert (recipients + [u])[..|recipients|] == recipients;
  }

  /** The staff list below `n + 1` extends the one below `n` by `n` exactly when `n` is a staff user. */
  lemma StaffRecipientsStep(users: map<UserId, CustomUser>, n: nat)
    ensures StaffRecipients(users, n + 1)
         == StaffRecipients(users, n) + (if n in users && users[n].isStaff then [n] else [])
  {
  }

  /** The notification text request_item sends: "<username> requested <item name>". */
  function RequestMessage(username: string, itemName: string): string {
    username + " requested " + itemName
  }

  /**
   * request_item: the form accepts an existing item and a quantity of at least
   * 0; the request is saved with the default status, then every `is_staff`
   * user receives one notification.
   */
  function Submission(db: Db, requester: UserId, item: ItemId, quantity: int): (r: Response)
    requires Valid(db) && requester in db.users
    ensures Valid(r.db)
  {
    if item !in db.items || quantity < 0 then Response(InvalidForm, db)
    else
      var rid := db.nextRequestId;
      var recipients := StaffRecipients(db.users, db.nextUserId);
      var message := RequestMessage(db.users[requester].username, db.items[item].name);
      StaffRecipientsSound(db.users, db.nextUserId);
      FanoutWithinUsers(db.notifications, db.nextNotificationId, recipients, message, db.users);
      Response(Ok, db.(
        requests := db.requests[rid := NewRequestItem(requester, item, quantity)],
        nextRequestId := rid + 1,
        notifications := Fanout(db.notifications, db.nextNotificationId, recipients, message),
        nextNotificationId := db.nextNotificationId + |recipients|))
  }

  /** The new notifications for `user` between two states. */
  function NewNotificationsFor(before: map<NotificationId, Notification>, after: map<NotificationId, Notification>, user: UserId)
    : set<NotificationId>
  {
    set n | n in after && n !in before && after[n].user == user
  }

  /** The form is refused exactly for a missing item or a negative quantity, and then nothing changes. */
  lemma SubmissionValidation(db: Db, requester: UserId, item: ItemId, quantity: int)
    requires Valid(db) && requester in db.users
    ensures var r := Submission(db, requester, item, quantity);
      (r.reply == Ok <==> item in db.items && quantity >= 0)
      && (r.reply != Ok ==> r.reply == InvalidForm && r.db == db)
  {
  }

  /**
   * A successful submission stores one new pending request under the next id,
   * with a quantity of 0 allowed, and touches no item and no other request.
   */
  lemma SubmissionCreatesPending(db: Db, requester: UserId, item: ItemId, quantity: nat)
    requires Valid(db) && requester in db.users && item in db.items
    ensures var r := Submission(db, requester, item, quantity);
      && r.reply == Ok
      && r.db.requests.Keys == db.requests.Keys + {db.nextRequestId}
      && db.nextRequestId !in db.requests
      && r.db.requests[db.nextRequestId] == RequestItem(requester, item, quantity, Pending)
      && (forall rid :: rid in db.requests ==> r.db.requests[rid] == db.requests[rid])
      && r.db.items == db.items && r.db.users == db.users
      && r.db.nextRequestId == db.nextRequestId + 1 && r.db.nextUserId == db.nextUserId
  {
  }

  /**
   * A fan-out over distinct recipients, into ids not yet used, gives each
   * recipient exactly one new notification and nobody else any.
   */
  lemma {:induction false} FanoutOnePerRecipient(
    notes: map<NotificationId, Notification>, first: NotificationId, recipients: seq<UserId>, message: string, u: UserId)
    requires forall k :: k in notes ==> k < first
    requires forall j, k :: 0 <= j < k < |recipients| ==> recipients[j] < recipients[k]
    ensures var after := Fanout(notes, first, recipients, message);
      && |NewNotificationsFor(notes, after, u)| == (if u in recipients then 1 else 0)
      && (forall n :: n in NewNotificationsFor(notes, after, u) ==> after[n] == NewNotification(u, message))
  {
    var after := Fanout(notes, first, recipients, message);
    FanoutContents(notes, first, recipients, message);
    var added := NewNotificationsFor(notes, after, u);
    forall n | n in added
      ensures first <= n < first + |recipients| && recipients[n - first] == u
    {
      assert n in after && n !in notes;
      assert after[n] == NewNotification(recipients[n - first], message);
    }
    if u in recipients {
      var j :| 0 <= j < |recipients| && recipients[j] == u;
      var k := first + j;
      assert after[k] == NewNotification(u, message);
      assert k in added;
      forall n | n in added ensures n == k {
        assert recipients[n - first] == recipients[j];
      }
      assert added == {k};
    } else {
      assert added == {};
    }
  }

  /**
   * A successful submission gives every `is_staff` user exactly one new unread
   * notification reading "<requester> requested <item name>", gives no other
   * user any, and changes no existing notification.
   */
  lemma SubmissionNotifiesEachStaffOnce(db: Db, requester: UserId, item: ItemId, quantity: nat, u: UserId)
    requires Valid(db) && requester in db.users && item in db.items
    ensures var after := Submission(db, requester, item, quantity).db.notifications;
      && |NewNotificationsFor(db.notifications, after, u)| == (if u in db.users && db.users[u].isStaff then 1 else 0)
      && (forall n :: n in NewNotificationsFor(db.notifications, after, u) ==>
            after[n] == NewNotification(u, RequestMessage(db.users[requester].username, db.items[item].name)))
      && (forall n :: n in db.notifications ==> n in after && after[n] == db.notifications[n])
  {
    var recipients := StaffRecipients(db.users, db.nextUserId);
    var message := RequestMessage(db.users[requester].username, db.items[item].name);
    StaffRecipientsSound(db.users, db.nextUserId);
    FanoutOnePerRecipient(db.notifications, db.nextNotificationId, recipients, message, u);
    FanoutContents(db.notifications, db.nextNotificationId, recipients, message);
    if u in db.users && db.users[u].isStaff {
      StaffRecipientsComplete(db.users, db.nextUserId, u);
    }
  }

  // ---------------------------------------------------------------------
  // approve_request and reject_request

  /**
   * approve_request: a request that is not yet approved (pending or rejected)
   * takes its quantity from the item's stock and becomes approved, provided
   * the stock covers it; otherwise nothing changes.
   */
  function Approval(db: Db, rid: RequestId): (r: Response)
    requires Valid(db)
    ensures Valid(r.db)
    ensures r.db.users == db.users && r.db.notifications == db.notifications
    ensures r.db.items.Keys == db.items.Keys && r.db.requests.Keys == db.requests.Keys
  {
    if rid !in db.requests then Response(NotFound, db)
    else
      var req := db.requests[rid];
      if req.status == Approved then Response(AlreadyApproved, db)
      else
        var stock := db.items[req.item];
        if stock.quantity >= req.quantity then
          Response(Ok, db.(
            items := db.items[req.item := stock.(quantity := stock.quantity - req.quantity)],
            requests := db.requests[rid := req.(status := Approved)]))
        else Response(InsufficientStock, db)
  }

  /**
   * Approving a request that is not approved, when its item holds enough
   * stock, lowers that item's quantity by exactly the requested amount and
   * marks the request approved; every other field of that item, every other
   * item and request, and the users, notifications and next ids are unchanged.
   */
  lemma ApprovalDeducts(db: Db, rid: RequestId)
    requires Valid(db) && rid in db.requests
    requires db.requests[rid].status != Approved
    requires db.items[db.requests[rid].item].quantity >= db.requests[rid].quantity
    ensures var req := db.requests[rid];
      var r := Approval(db, rid);
      && r.reply == Ok
      && r.db.items[req.item] == db.items[req.item].(quantity := db.items[req.item].quantity - req.quantity)
      && r.db.requests[rid] == req.(status := Approved)
      && (forall i :: i in db.items && i != req.item ==> r.db.items[i] == db.items[i])
      && (forall q :: q in db.requests && q != rid ==> r.db.requests[q] == db.requests[q])
      && r.db.(items := db.items, requests := db.requests) == db
  {
  }

  /** With too little stock the approval is refused and nothing changes, whatever the status was. */
  lemma ApprovalInsufficientStock(db: Db, rid: RequestId)
    requires Valid(db) && rid in db.requests
    requires db.requests[rid].status != Approved
    requires db.items[db.requests[rid].item].quantity < db.requests[rid].quantity
    ensures Approval(db, rid) == Response(InsufficientStock, db)
  {
  }

  /** An unknown request id is a 404 and an approved request is left alone. */
  lemma ApprovalGuards(db: Db, rid: RequestId)
    requires Valid(db)
    ensures rid !in db.requests ==> Approval(db, rid) == Response(NotFound, db)
    ensures rid in db.requests && db.requests[rid].status == Approved ==>
      Approval(db, rid) == Response(AlreadyApproved, db)
  {
  }

  /**
   * Approving twice deducts once: after a successful approval the second one
   * reports AlreadyApproved and changes nothing, and in every case the
   * resulting state is that of a single approval.
   */
  lemma ApprovalIdempotent(db: Db, rid: RequestId)
    requires Valid(db)
    ensures var once := Approval(db, rid);
      var twice := Approval(once.db, rid);
      && twice.db == once.db
      && (once.reply == Ok ==> twice.reply == AlreadyApproved)
  {
  }

  /**
   * The approval never takes stock it does not have: a successful approval
   * leaves the item at the old quantity minus the request, which is at least 0,
   * and no approval ever raises a quantity.
   */
  lemma ApprovalNeverOverdraws(db: Db, rid: RequestId)
    requires Valid(db)
    ensures var r := Approval(db, rid);
      && (forall i :: i in db.items ==> r.db.items[i].quantity <= db.items[i].quantity)
      && (r.reply == Ok ==>
            var req := db.requests[rid];
            db.items[req.item].quantity >= req.quantity
            && r.db.items[req.item].quantity + req.quantity == db.items[req.item].quantity)
  {
  }

  /** Two requests on one item whose stock covers either but not both: the one approved first wins. */
  lemma FirstApprovedFirstServed(db: Db, r1: RequestId, r2: RequestId)
    requires Valid(db) && r1 in db.requests && r2 in db.requests && r1 != r2
    requires db.requests[r1].item == db.requests[r2].item
    requires db.requests[r1].status == Pending && db.requests[r2].status == Pending
    requires var stock := db.items[db.requests[r1].item].quantity;
      db.requests[r1].quantity <= stock < db.requests[r1].quantity + db.requests[r2].quantity
    ensures var first := Approval(db, r1);
      var second := Approval(first.db, r2);
      var iid := db.requests[r1].item;
      && first.reply == Ok && second.reply == InsufficientStock
      && second.db.items[iid].quantity == db.items[iid].quantity - db.requests[r1].quantity
      && second.db.requests[r2].status == Pending
  {
  }

  /** reject_request: the status becomes rejected whatever it was; stock is never touched. */
  function Rejection(db: Db, rid: RequestId): (r: Response)
    requires Valid(db)
    ensures Valid(r.db)
  {
    if rid !in db.requests then Response(NotFound, db)
    else
      var req := db.requests[rid];
      Response(Ok, db.(requests := db.requests[rid := req.(status := Rejected)]))
  }

  /**
   * Rejecting an existing request always succeeds, whatever its status, and
   * leaves every item, including the stock of an already approved request,
   * and every other request unchanged.
   */
  lemma RejectionLeavesStock(db: Db, rid: RequestId)
    requires Valid(db)
    ensures var r := Rejection(db, rid);
      && r.db.items == db.items && r.db.users == db.users && r.db.notifications == db.notifications
      && (r.reply == Ok <==> rid in db.requests)
      && (rid in db.requests ==> r.db.requests[rid] == db.requests[rid].(status := Rejected))
      && r.db.(requests := db.requests) == db
      && (forall q :: q in db.requests && q != rid ==> q in r.db.requests && r.db.requests[q] == db.requests[q])
      && (rid !in db.requests ==> r.db == db)
  {
  }

  /**
   * Approved, then rejected, then approved again: the request's quantity is
   * taken from the stock twice, because rejection does not give the stock
   * back and approval only guards against the approved status.
   */
  lemma {:induction false} ReapprovalAfterRejectionDeductsAgain(db: Db, rid: RequestId)
    requires Valid(db) && rid in db.requests
    requires db.requests[rid].status == Pending
    requires db.items[db.requests[rid].item].quantity >= 2 * db.requests[rid].quantity
    ensures var iid := db.requests[rid].item;
      var a := Approval(db, rid);
      var b := Rejection(a.db, rid);
      var c := Approval(b.db, rid);
      && a.reply == Ok && b.reply == Ok && c.reply == Ok
      && c.db.items[iid].quantity == db.items[iid].quantity - 2 * db.requests[rid].quantity
      && c.db.requests[rid].status == Approved
  {
    var req := db.requests[rid];
    var a := Approval(db, rid);
    ApprovalDeducts(db, rid);
    var b := Rejection(a.db, rid);
    RejectionLeavesStock(a.db, rid);
    assert b.db.requests[rid] == req.(status := Rejected);
    ApprovalDeducts(b.db, rid);
  }

  // ---------------------------------------------------------------------
  // Notifications: mark_all_as_read, notifications, acknowledge_notification

  /** The ids of `user`'s unread notifications. */
  function UnreadOf(notes: map<NotificationId, Notification>, user: UserId): set<NotificationId> {
    set n | n in notes && notes[n].user == user && !notes[n].isRead
  }

  /** The ids of `user`'s notifications, read or not. */
  function NotificationsOf(notes: map<NotificationId, Notification>, user: UserId): set<NotificationId> {
    set n | n in notes && notes[n].user == user
  }

  /**
   * The bulk update `filter(user=..., is_read=False).update(is_read=True)`:
   * afterwards `user` has no unread notification, and every notification of
   * any other user, and everything but the flag, is as before.
   */
  function ReadAll(notes: map<NotificationId, Notification>, user: UserId): (r: map<NotificationId, Notification>)
    ensures r.Keys == notes.Keys
    ensures UnreadOf(r, user) == {}
    ensures forall n :: n in notes && notes[n].user != user ==> r[n] == notes[n]
    ensures forall n :: n in notes ==> r[n].user == notes[n].user && r[n].message == notes[n].message
    ensures forall n :: n in notes && notes[n].isRead ==> r[n] == notes[n]
  {
    map n | n in notes :: if notes[n].user == user && !notes[n].isRead then notes[n].(isRead := true) else notes[n]
  }

  /** Reading all a second time changes nothing. */
  lemma ReadAllIdempotent(notes: map<NotificationId, Notification>, user: UserId)
    ensures ReadAll(ReadAll(notes, user), user) == ReadAll(notes, user)
  {
  }

  /** Other users keep exactly the unread notifications they had. */
  lemma ReadAllKeepsOthersUnread(notes: map<NotificationId, Notification>, user: UserId, other: UserId)
    requires other != user
    ensures UnreadOf(ReadAll(notes, user), other) == UnreadOf(notes, other)
  {
  }

  /** The number of notifications the bulk update flips equals the unread count before it. */
  lemma ReadAllFlipsUnread(notes: map<NotificationId, Notification>, user: UserId)
    ensures var r := ReadAll(notes, user);
      (set n | n in notes && notes[n] != r[n]) == UnreadOf(notes, user)
  {
  }

  /** mark_all_as_read. */
  function MarkAllAsRead(db: Db, user: UserId): (r: Db)
    requires Valid(db)
    ensures Valid(r)
    ensures r == db.(notifications := ReadAll(db.notifications, user))
  {
    db.(notifications := ReadAll(db.notifications, user))
  }

  /** The notifications view: marks all read, then lists all of the user's notifications. */
  function NotificationsPage(db: Db, user: UserId): (r: (set<NotificationId>, Db))
    requires Valid(db)
    ensures Valid(r.1)
    ensures r.1 == MarkAllAsRead(db, user)
    ensures r.0 == NotificationsOf(db.notifications, user)
    ensures forall n :: n in r.0 ==> r.1.notifications[n].isRead
  {
    var after := MarkAllAsRead(db, user);
    (NotificationsOf(after.notifications, user), after)
  }

  /**
   * acknowledge_notification: a 404 unless the notification exists and belongs
   * to `user`; otherwise that one notification is marked read.
   */
  function Acknowledgement(db: Db, user: UserId, nid: NotificationId): (r: Response)
    requires Valid(db)
    ensures Valid(r.db)
  {
    if nid !in db.notifications || db.notifications[nid].user != user then Response(NotFound, db)
    else Response(Ok, db.(notifications := db.notifications[nid := db.notifications[nid].(isRead := true)]))
  }

  /**
   * Acknowledging succeeds exactly for the caller's own notification, then sets
   * only its read flag and touches no other table; a second acknowledgement
   * changes nothing more.
   */
  lemma AcknowledgementOwnOnly(db: Db, user: UserId, nid: NotificationId)
    requires Valid(db)
    ensures var r := Acknowledgement(db, user, nid);
      && (r.reply == Ok <==> nid in NotificationsOf(db.notifications, user))
      && (r.reply != Ok ==> r.reply == NotFound && r.db == db)
      && r.db.notifications.Keys == db.notifications.Keys
      && (r.reply == Ok ==> r.db.notifications[nid] == db.notifications[nid].(isRead := true))
      && r.db.(notifications := db.notifications) == db
      && (forall n :: n in db.notifications && n != nid ==> r.db.notifications[n] == db.notifications[n])
      && Acknowledgement(r.db, user, nid).db == r.db
  {
  }

  // ---------------------------------------------------------------------
  // delete_user

  /**
   * delete_user: a 404 for an unknown id, a warning when the acting user
   * targets themself; otherwise the user is deleted, and with it (the
   * foreign keys cascade) the requests they made and the notifications
   * addressed to them.
   */
  function UserDeletion(db: Db, actor: UserId, uid: UserId): (r: Response)
    requires Valid(db)
    ensures Valid(r.db)
  {
    if uid !in db.users then Response(NotFound, db)
    else if uid == actor then Response(CannotDeleteSelf, db)
    else Response(Ok, db.(
      users := db.users - {uid},
      requests := map q | q in db.requests && db.requests[q].requester != uid :: db.requests[q],
      notifications := map n | n in db.notifications && db.notifications[n].user != uid :: db.notifications[n]))
  }

  /**
   * The acting user is never deleted; any other existing user is, and exactly
   * that one; items and the rows of other users are untouched.
   */
  lemma UserDeletionSparesActor(db: Db, actor: UserId, uid: UserId)
    requires Valid(db)
    ensures var r := UserDeletion(db, actor, uid);
      && (actor in db.users ==> actor in r.db.users)
      && (r.reply == Ok <==> uid in db.users && uid != actor)
      && (r.reply == Ok ==> r.db.users == db.users - {uid})
      && (r.reply != Ok ==> r.db == db)
      && r.db.items == db.items
      && (forall q :: q in db.requests && db.requests[q].requester != uid ==>
            q in r.db.requests && r.db.requests[q] == db.requests[q])
      && (forall n :: n in db.notifications && db.notifications[n].user != uid ==>
            n in r.db.notifications && r.db.notifications[n] == db.notifications[n])
      && (r.reply == Ok ==> forall q :: q in r.db.requests <==> q in db.requests && db.requests[q].requester != uid)
      && (r.reply == Ok ==> forall n :: n in r.db.notifications <==> n in db.notifications && db.notifications[n].user != uid)
      && r.db.(users := db.users, requests := db.requests, notifications := db.notifications) == db
  {
  }
}
