/**
 * Properties of whole sequences of view calls. The views are applied one
 * after another, each to the state the previous one left (the workflow is
 * sequential: no two views interleave). Two facts are proved for every
 * sequence: no item's stock ever grows, and the stock on hand plus the stock
 * held by approved requests never grows either, while an approval keeps that
 * sum exactly.
 */
module Traces {
  import opened Models
  import opened Workflow

  /**
   * One call of a workflow view of this model, with its arguments and the
   * signed-in user. The item and user editing views are not part of it.
   */
  datatype Action =
    | RequestItemCall(requester: UserId, item: ItemId, quantity: int)
    | ApproveRequestCall(rid: RequestId)
    | RejectRequestCall(rid: RequestId)
    | MarkAllAsReadCall(user: UserId)
    | NotificationsCall(user: UserId)
    | AcknowledgeCall(user: UserId, nid: NotificationId)
    | DeleteUserCall(actor: UserId, uid: UserId)

  /**
   * The state after one call. request_item and delete_user need a signed-in
   * caller: a call naming a requester or an acting user who does not exist is
   * turned away by the login check and changes nothing.
   */
  function Step(db: Db, a: Action): (r: Db)
    requires Valid(db)
    ensures Valid(r)
    ensures a.RequestItemCall? && a.requester !in db.users ==> r == db
    ensures a.DeleteUserCall? && a.actor !in db.users ==> r == db
  {
    match a
    case RequestItemCall(requester, item, quantity) =>
      if requester in db.users then Submission(db, requester, item, quantity).db else db
    case ApproveRequestCall(rid) => Approval(db, rid).db
    case RejectRequestCall(rid) => Rejection(db, rid).db
    case MarkAllAsReadCall(user) => MarkAllAsRead(db, user)
    case NotificationsCall(user) => NotificationsPage(db, user).1
    case AcknowledgeCall(user, nid) => Acknowledgement(db, user, nid).db
    case DeleteUserCall(actor, uid) => if actor in db.users then UserDeletion(db, actor, uid).db else db
  }

  /** The state after a sequence of calls, made in order. */
  function Run(db: Db, actions: seq<Action>): (r: Db)
    requires Valid(db)
    ensures Valid(r)
    decreases |actions|
  {
    if actions == [] then db else Run(Step(db, actions[0]), actions[1..])
  }

  // ---------------------------------------------------------------------
  // Stock never grows

  /**
   * One call keeps every item, under the same name, with no more stock than
   * before; every call but an approval leaves the items exactly as they were.
   */
  lemma StepNeverRaisesStock(db: Db, a: Action)
    requires Valid(db)
    ensures Step(db, a).items.Keys == db.items.Keys
    ensures forall i :: i in db.items ==>
      Step(db, a).items[i].quantity <= db.items[i].quantity && Step(db, a).items[i].name == db.items[i].name
    ensures !a.ApproveRequestCall? ==> Step(db, a).items == db.items
  {
    match a
    case ApproveRequestCall(rid) => ApprovalNeverOverdraws(db, rid);
    case RejectRequestCall(rid) => RejectionLeavesStock(db, rid);
    case RequestItemCall(requester, item, quantity) =>
      if requester in db.users {
        SubmissionValidation(db, requester, item, quantity);
      }
    case _ =>
  }

  /**
   * However many requests are submitted, approved, rejected or deleted, and in
   * whatever order, no item disappears and no item's quantity ever rises:
   * approval is the only change to stock, and it only ever lowers it.
   */
  lemma {:induction false} RunNeverRaisesStock(db: Db, actions: seq<Action>)
    requires Valid(db)
    ensures Run(db, actions).items.Keys == db.items.Keys
    ensures forall i :: i in db.items ==> Run(db, actions).items[i].quantity <= db.items[i].quantity
    decreases |actions|
  {
    if actions != [] {
      StepNeverRaisesStock(db, actions[0]);
      RunNeverRaisesStock(Step(db, actions[0]), actions[1..]);
    }
  }

  /** A sequence of calls with no approval among them leaves every item exactly as it was. */
  lemma {:induction false} RunWithoutApprovalKeepsStock(db: Db, actions: seq<Action>)
    requires Valid(db)
    requires forall k :: 0 <= k < |actions| ==> !actions[k].ApproveRequestCall?
    ensures Run(db, actions).items == db.items
    decreases |actions|
  {
    if actions != [] {
      StepNeverRaisesStock(db, actions[0]);
      RunWithoutApprovalKeepsStock(Step(db, actions[0]), actions[1..]);
    }
  }

  // ---------------------------------------------------------------------
  // The stock ledger

  /** How much of `item` request `req` holds: its quantity once approved, otherwise nothing. */
  function Held(req: RequestItem, item: ItemId): nat {
    if req.item == item && req.status == Approved then req.quantity else 0
  }

  /** The units of `item` held by approved requests with an id below `n`. */
  function Committed(requests: map<RequestId, RequestItem>, item: ItemId, n: nat): nat {
    if n == 0 then 0
    else Committed(requests, item, n - 1) + (if n - 1 in requests then Held(requests[n - 1], item) else 0)
  }

  /** The stock of `item` on hand plus the stock its approved requests hold. */
  function Ledger(db: Db, item: ItemId): nat
    requires item in db.items
  {
    db.items[item].quantity + Committed(db.requests, item, db.nextRequestId)
  }

  /** Replacing one request below `n` changes the sum by the difference of what the two hold. */
  lemma {:induction false} CommittedReplace(
    requests: map<RequestId, RequestItem>, item: ItemId, n: nat, rid: RequestId, req: RequestItem)
    requires rid in requests && rid < n
    ensures Committed(requests[rid := req], item, n) + Held(requests[rid], item)
         == Committed(requests, item, n) + Held(req, item)
  {
    if n - 1 != rid {
      CommittedReplace(requests, item, n - 1, rid, req);
    } else {
      CommittedAgree(requests[rid := req], requests, item, n - 1);
    }
  }

  /** Two tables that agree on every id below `n` hold the same units below `n`. */
  lemma {:induction false} CommittedAgree(
    a: map<RequestId, RequestItem>, b: map<RequestId, RequestItem>, item: ItemId, n: nat)
    requires forall q :: q < n ==> (q in a <==> q in b)
    requires forall q :: q < n && q in a ==> a[q] == b[q]
    ensures Committed(a, item, n) == Committed(b, item, n)
  {
    if n > 0 {
      CommittedAgree(a, b, item, n - 1);
    }
  }

  /** Dropping requests from the table never raises the units held. */
  lemma {:induction false} CommittedSubtable(
    a: map<RequestId, RequestItem>, b: map<RequestId, RequestItem>, item: ItemId, n: nat)
    requires forall q :: q in a ==> q in b && a[q] == b[q]
    ensures Committed(a, item, n) <= Committed(b, item, n)
  {
    if n > 0 {
      CommittedSubtable(a, b, item, n - 1);
    }
  }

  /** Adding a pending request under the next id leaves the units held unchanged. */
  lemma CommittedNewPending(requests: map<RequestId, RequestItem>, item: ItemId, n: nat, req: RequestItem)
    requires forall q :: q in requests ==> q < n
    requires req.status == Pending
    ensures Committed(requests[n := req], item, n + 1) == Committed(requests, item, n)
  {
    CommittedAgree(requests[n := req], requests, item, n);
  }

  /**
   * Approval keeps the ledger exactly: whatever it takes from an item's stock,
   * the request it approves now holds. No unit is deducted twice.
   */
  lemma ApprovalKeepsLedger(db: Db, rid: RequestId, item: ItemId)
    requires Valid(db) && item in db.items
    ensures Ledger(Approval(db, rid).db, item) == Ledger(db, item)
  {
    var r := Approval(db, rid);
    if r.reply == Ok {
      var req := db.requests[rid];
      CommittedReplace(db.requests, item, db.nextRequestId, rid, req.(status := Approved));
    }
  }

  /**
   * Rejection takes nothing back: the ledger of the rejected request's item
   * drops by the quantity the request held, which is its whole quantity when
   * it had been approved.
   */
  lemma RejectionLosesHeldStock(db: Db, rid: RequestId, item: ItemId)
    requires Valid(db) && item in db.items
    ensures Ledger(Rejection(db, rid).db, item)
         == Ledger(db, item) - (if rid in db.requests then Held(db.requests[rid], item) else 0)
  {
    if rid in db.requests {
      var req := db.requests[rid];
      CommittedReplace(db.requests, item, db.nextRequestId, rid, req.(status := Rejected));
    }
  }

  /** No call raises the ledger of any item. */
  lemma StepNeverRaisesLedger(db: Db, a: Action, item: ItemId)
    requires Valid(db) && item in db.items
    ensures item in Step(db, a).items && Ledger(Step(db, a), item) <= Ledger(db, item)
  {
    StepNeverRaisesStock(db, a);
    match a
    case RequestItemCall(requester, i, quantity) =>
      if requester in db.users && i in db.items && quantity >= 0 {
        CommittedNewPending(db.requests, item, db.nextRequestId, NewRequestItem(requester, i, quantity));
      }
    case ApproveRequestCall(rid) => ApprovalKeepsLedger(db, rid, item);
    case RejectRequestCall(rid) => RejectionLosesHeldStock(db, rid, item);
    case DeleteUserCall(actor, uid) =>
      if actor in db.users {
        CommittedSubtable(UserDeletion(db, actor, uid).db.requests, db.requests, item, db.nextRequestId);
      }
    case _ =>
  }

  /**
   * Over any sequence of calls, stock on hand plus stock held by approved
   * requests never grows: no call puts units back on the shelf, and approvals
   * move units from the shelf to the request without creating any.
   */
  lemma {:induction false} RunNeverRaisesLedger(db: Db, actions: seq<Action>, item: ItemId)
    requires Valid(db) && item in db.items
    ensures item in Run(db, actions).items && Ledger(Run(db, actions), item) <= Ledger(db, item)
    decreases |actions|
  {
    if actions != [] {
      StepNeverRaisesLedger(db, actions[0], item);
      RunNeverRaisesLedger(Step(db, actions[0]), actions[1..], item);
    }
  }
}
