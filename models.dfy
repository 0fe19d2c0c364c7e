/**
 * The records of inventory/models.py: users with a free-form role string and
 * the `is_staff` flag, inventory items, item requests with their status
 * choices, and per-user notifications, together with their defaults and
 * string forms.
 */
module Models {
  import opened Text

  datatype Option<T> = None | Some(value: T)

  // Primary keys (Django auto-increment ids).
  type UserId = nat
  type ItemId = nat
  type RequestId = nat
  type NotificationId = nat

  // ---------------------------------------------------------------------
  // CustomUser

  /** The stored values of `ROLE_CHOICES`, in declaration order. */
  const RoleChoices: seq<string> := ["admin", "user"]
  const DefaultRole: string := "user"

  /**
   * A user. `role` is a character column: the choice list is enforced by the
   * forms, not by the record, so any string can be stored. `isStaff` is the
   * separate flag inherited from Django's `AbstractUser`.
   */
  datatype CustomUser = CustomUser(username: string, role: string, isStaff: bool)

  /**
   * A user created with only a username: the role takes its default, a choice
   * that is not the admin role, and `is_staff` takes `AbstractUser`'s default,
   * false.
   */
  function NewCustomUser(username: string): (u: CustomUser)
    ensures u.username == username && u.role == DefaultRole && !u.isStaff
    ensures u.role in RoleChoices && !IsAdmin(u)
  {
    CustomUser(username, DefaultRole, false)
  }

  /** The `is_admin` property: an exact, case-sensitive comparison. */
  predicate IsAdmin(u: CustomUser) {
    u.role == "admin"
  }

  /** Among the role choices, only the first one makes a user an administrator. */
  lemma IsAdminOnChoices(u: CustomUser)
    requires u.role in RoleChoices
    ensures IsAdmin(u) <==> u.role == RoleChoices[0]
    ensures !IsAdmin(u) <==> u.role == DefaultRole
  {
  }

  /** `is_admin` does not fold case: a role stored as "Admin" is not an administrator. */
  lemma IsAdminIsCaseSensitive(name: string, staff: bool)
    ensures !IsAdmin(CustomUser(name, "Admin", staff))
  {
    assert "Admin"[0] != "admin"[0];
  }

  // ---------------------------------------------------------------------
  // InventoryItem

  /**
   * An inventory item. `quantity` is a `PositiveIntegerField`, which admits 0.
   * `createdDay` is the calendar date of `created_at`, counted in days.
   */
  datatype InventoryItem = InventoryItem(
    name: string,
    quantity: nat,
    category: Option<string>,
    location: Option<string>,
    createdDay: int)

  // ---------------------------------------------------------------------
  // RequestItem

  datatype Status = Pending | Approved | Rejected

  const DefaultStatus: Status := Pending

  /** The value stored in the `status` column for each choice. */
  function StatusCode(s: Status): string {
    match s
    case Pending => "pending"
    case Approved => "approved"
    case Rejected => "rejected"
  }

  /** Reads a stored `status` value back; anything outside `STATUS_CHOICES` is rejected. */
  function ParseStatus(code: string): (r: Option<Status>)
    ensures r.Some? ==> StatusCode(r.value) == code
    ensures r.None? ==> forall s: Status :: StatusCode(s) != code
  {
    if code == "pending" then Some(Pending)
    else if code == "approved" then Some(Approved)
    else if code == "rejected" then Some(Rejected)
    else None
  }

  /** Every status is stored as a code that reads back as that status. */
  lemma StatusCodeRoundTrip(s: Status)
    ensures ParseStatus(StatusCode(s)) == Some(s)
  {
    match s
    case Pending =>
    case Approved => assert "approved" != "pending";
    case Rejected => assert "rejected" != "pending" && "rejected" != "approved";
  }

  /** A request: who asked for how many units of which item, and where it stands. */
  datatype RequestItem = RequestItem(requester: UserId, item: ItemId, quantity: nat, status: Status)

  /** A request saved from the request form: the status column takes its default. */
  function NewRequestItem(requester: UserId, item: ItemId, quantity: nat): (r: RequestItem)
    ensures r.status == DefaultStatus == Pending
    ensures r.requester == requester && r.item == item && r.quantity == quantity
  {
    RequestItem(requester, item, quantity, DefaultStatus)
  }

  /** `RequestItem.__str__`: "<username> requested <quantity> of <item name>". */
  function RequestItemStr(requesterName: string, quantity: nat, itemName: string): string {
    requesterName + " requested " + Decimal(quantity) + " of " + itemName
  }

  /** The string form of a request names its requester and its item. */
  lemma RequestItemStrShape(requesterName: string, quantity: nat, itemName: string)
    ensures var s := RequestItemStr(requesterName, quantity, itemName);
      StartsWith(s, requesterName + " requested ") && s[|s| - |itemName|..] == itemName
  {
    var s := RequestItemStr(requesterName, quantity, itemName);
    assert s == (requesterName + " requested ") + (Decimal(quantity) + " of " + itemName);
  }

  /** For a fixed requester and item, the string form determines the quantity. */
  lemma {:induction false} RequestItemStrDeterminesQuantity(requesterName: string, q1: nat, q2: nat, itemName: string)
    requires RequestItemStr(requesterName, q1, itemName) == RequestItemStr(requesterName, q2, itemName)
    ensures q1 == q2
  {
    var head := requesterName + " requested ";
    var d1, d2 := Decimal(q1), Decimal(q2);
    var tail := " of " + itemName;
    var s1 := head + d1 + tail;
    var s2 := head + d2 + tail;
    assert s1 == RequestItemStr(requesterName, q1, itemName);
    assert s2 == RequestItemStr(requesterName, q2, itemName);
    assert |d1| == |d2|;
    assert s1[|head|..|head| + |d1|] == d1;
    assert s2[|head|..|head| + |d2|] == d2;
    DecimalInjective(q1, q2);
  }

  // ---------------------------------------------------------------------
  // Notification

  /** A message addressed to one user, with its read flag. */
  datatype Notification = Notification(user: UserId, message: string, isRead: bool)

  /** A notification as created: `is_read` takes its default, false. */
  function NewNotification(user: UserId, message: string): (n: Notification)
    ensures n.user == user && n.message == message && !n.isRead
  {
    Notification(user, message, false)
  }

  /**
   * The string Django shows for a notification as the model is written: the
   * method is spelled `_str_`, so Django's default "Notification object (<id>)"
   * is used and neither the user nor the read flag appears.
   */
  function NotificationStrAsWritten(id: NotificationId, n: Notification): string {
    "Notification object (" + Decimal(id) + ")"
  }

  /** As written, a read and an unread notification show the same string. */
  lemma NotificationStrAsWrittenHidesReadFlag(id: NotificationId, user: UserId, message: string)
    ensures NotificationStrAsWritten(id, Notification(user, message, true))
         == NotificationStrAsWritten(id, Notification(user, message, false))
  {
  }

  /** The string form the `_str_` method describes: "<username> - Read|Unread". */
  function NotificationStr(username: string, n: Notification): string {
    username + " - " + (if n.isRead then "Read" else "Unread")
  }

  /** The intended string form tells a read notification from an unread one. */
  lemma NotificationStrShowsReadFlag(username: string, n1: Notification, n2: Notification)
    requires NotificationStr(username, n1) == NotificationStr(username, n2)
    ensures n1.isRead == n2.isRead
  {
    assert |NotificationStr(username, n1)| == |username| + 3 + (if n1.isRead then 4 else 6);
    assert |NotificationStr(username, n2)| == |username| + 3 + (if n2.isRead then 4 else 6);
  }
}
