/**
 * The views of inventory/views.py that change records, as methods of one
 * in-memory store whose fields are the tables. Each method updates the
 * fields the way the view updates its rows, and is proved to produce the
 * state (and the reply) that the matching function of module Workflow
 * describes; the properties of those functions are proved there.
 */
module Views {
  import opened Models
  import opened Workflow

  /**
   * The loop of request_item: `Notification.objects.create` for each staff
   * user, visiting user ids in ascending order. Returns the notification table
   * with the new rows and the next free notification id.
   */
  method NotifyStaff(
    users: map<UserId, CustomUser>, userBound: nat,
    notifications: map<NotificationId, Notification>, nextId: NotificationId, message: string)
    returns (notes: map<NotificationId, Notification>, next: NotificationId)
    ensures notes == Fanout(notifications, nextId, StaffRecipients(users, userBound), message)
    ensures next == nextId + |StaffRecipients(users, userBound)|
  {
    notes, next := notifications, nextId;
    var uid := 0;
    while uid < userBound
      invariant uid <= userBound
      invariant notes == Fanout(notifications, nextId, StaffRecipients(users, uid), message)
      invariant next == nextId + |StaffRecipients(users, uid)|
    {
      StaffRecipientsStep(users, uid);
      if uid in users && users[uid].isStaff {
        FanoutSnoc(notifications, nextId, StaffRecipients(users, uid), uid, message);
        notes := notes[next := NewNotification(uid, message)];
        next := next + 1;
      } else {
        assert StaffRecipients(users, uid + 1) == StaffRecipients(users, uid);
      }
      uid := uid + 1;
    }
  }

  class Store {
    var users: map<UserId, CustomUser>
    var items: map<ItemId, InventoryItem>
    var requests: map<RequestId, RequestItem>
    var notifications: map<NotificationId, Notification>
    var nextUserId: nat
    var nextRequestId: nat
    var nextNotificationId: nat

    /** The tables as one value. */
    ghost function State(): Db
      reads this
    {
      Db(users, items, requests, notifications, nextUserId, nextRequestId, nextNotificationId)
    }

    ghost predicate Valid()
      reads this
    {
      Workflow.Valid(State())
    }

    constructor (db: Db)
      requires Workflow.Valid(db)
      ensures Valid() && State() == db
    {
      users, items, requests, notifications := db.users, db.items, db.requests, db.notifications;
      nextUserId, nextRequestId, nextNotificationId := db.nextUserId, db.nextRequestId, db.nextNotificationId;
    }

    /**
     * request_item, posted by `requester`: saves the new request, then creates
     * one notification for each `is_staff` user, in ascending id order.
     */
    method SubmitRequest(requester: UserId, item: ItemId, quantity: int) returns (reply: Reply)
      requires Valid() && requester in users
      modifies this
      ensures Valid()
      ensures Response(reply, State()) == Submission(old(State()), requester, item, quantity)
    {
      if item !in items || quantity < 0 {
        return InvalidForm;
      }
      requests := requests[nextRequestId := NewRequestItem(requester, item, quantity)];
      nextRequestId := nextRequestId + 1;
      var message := RequestMessage(users[requester].username, items[item].name);
      notifications, nextNotificationId := NotifyStaff(users, nextUserId, notifications, nextNotificationId, message);
      reply := Ok;
      // Equating the new state with Submission first lets Valid() follow from its postcondition.
      assert Submission(old(State()), requester, item, quantity) == Response(Ok, State());
    }

    /** approve_request. */
    method ApproveRequest(rid: RequestId) returns (reply: Reply)
      requires Valid()
      modifies this
      ensures Valid()
      ensures Response(reply, State()) == Approval(old(State()), rid)
    {
      if rid !in requests {
        return NotFound;
      }
      var req := requests[rid];
      if req.status != Approved {
        var stock := items[req.item];
        if stock.quantity >= req.quantity {
          items := items[req.item := stock.(quantity := stock.quantity - req.quantity)];
          requests := requests[rid := req.(status := Approved)];
          reply := Ok;
        } else {
          reply := InsufficientStock;
        }
      } else {
        reply := AlreadyApproved;
      }
    }

    /** reject_request. */
    method RejectRequest(rid: RequestId) returns (reply: Reply)
      requires Valid()
      modifies this
      ensures Valid()
      ensures Response(reply, State()) == Rejection(old(State()), rid)
    {
      if rid !in requests {
        return NotFound;
      }
      requests := requests[rid := requests[rid].(status := Rejected)];
      reply := Ok;
    }

    /** mark_all_as_read: one bulk update of the caller's unread notifications. */
    method MarkAllAsRead(user: UserId)
      requires Valid()
      modifies this
      ensures Valid()
      ensures State() == Workflow.MarkAllAsRead(old(State()), user)
    {
      notifications := ReadAll(notifications, user);
    }

    /** notifications: the same bulk update, then the caller's notifications are listed. */
    method NotificationsPage(user: UserId) returns (listed: set<NotificationId>)
      requires Valid()
      modifies this
      ensures Valid()
      ensures (listed, State()) == Workflow.NotificationsPage(old(State()), user)
    {
      notifications := ReadAll(notifications, user);
      listed := set n | n in notifications && notifications[n].user == user;
    }

    /** acknowledge_notification. */
    method AcknowledgeNotification(user: UserId, nid: NotificationId) returns (reply: Reply)
      requires Valid()
      modifies this
      ensures Valid()
      ensures Response(reply, State()) == Acknowledgement(old(State()), user, nid)
    {
      if nid !in notifications || notifications[nid].user != user {
        return NotFound;
      }
      notifications := notifications[nid := notifications[nid].(isRead := true)];
      reply := Ok;
    }

    /** delete_user, called by `actor`. */
    method DeleteUser(actor: UserId, uid: UserId) returns (reply: Reply)
      requires Valid()
      modifies this
      ensures Valid()
      ensures Response(reply, State()) == UserDeletion(old(State()), actor, uid)
    {
      if uid !in users {
        return NotFound;
      }
      if uid == actor {
        return CannotDeleteSelf;
      }
      users := users - {uid};
      requests := map q | q in requests && requests[q].requester != uid :: requests[q];
      notifications := map n | n in notifications && notifications[n].user != uid :: notifications[n];
      reply := Ok;
    }
  }
}
