# Inventory request workflow, modelled in Dafny

This project models the request-approval and stock-deduction workflow of a
small Django inventory application (`inventory/views.py` over the records of
`inventory/models.py`), together with the per-user notification log it feeds,
the role-based dashboard redirect and the report filter.

- `text.dfy` (module `Text`): ASCII lower-casing, the decimal rendering of a
  natural number, and substring search with a proof that the scanning test
  agrees with the positional definition.
- `models.dfy` (module `Models`): users (free-form `role` string and the
  separate `is_staff` flag), items, requests with their three status choices,
  and notifications; defaults, `is_admin` and the string forms.
- `workflow.dfy` (module `Workflow`): the database as a value `Db` (tables as
  maps keyed by auto-increment ids, plus each table's next id) with a
  consistency predicate `Valid` (ids below the next id, foreign keys present),
  and one function per view that changes records, giving the reply the view
  reports and the new state. The lemmas state what the views promise.
- `views.dfy` (module `Views`): the class `Store` whose fields are the tables;
  each method updates them in place as the view does and is proved to yield
  exactly the reply and state of the matching `Workflow` function. The staff
  fan-out loop of `request_item` is the method `NotifyStaff`.
- `dashboard.dfy` (module `Dashboard`): `dashboard_redirect`.
- `reports.dfy` (module `Reports`): the item filter of `generate_reports`.
- `traces.dfy` (module `Traces`): arbitrary sequences of view calls; stock never
  grows, and stock on hand plus stock held by approved requests never grows,
  with approval keeping that sum exactly.

The replies of the views are the enumeration `Reply`: `Ok`, `NotFound` (the 404
of `get_object_or_404`), `InvalidForm`, `InsufficientStock`, `AlreadyApproved`
and `CannotDeleteSelf`, in place of flash messages and redirects.

The workflow the code implements is looser than a strict two-outcome state
machine, and the model follows the code:

- a rejected request can still be approved (only `approved` is guarded), and
  rejecting an approved request does not give its stock back, so approve,
  reject, approve deducts twice (`Workflow.ReapprovalAfterRejectionDeductsAgain`);
- notifications go to every user with `is_staff` set, not to users whose role
  is `admin`; the two flags are independent;
- a request quantity of 0 is accepted (`PositiveIntegerField` admits 0);
- approval saves the item and then the request with no transaction; the model
  takes the two saves as one sequential step;
- `mark_all_as_read` discards the number of rows its bulk update changes; the
  model proves what that number would be (`Workflow.ReadAllFlipsUnread`);
- deleting a user also deletes the requests they made and the notifications
  addressed to them (the foreign keys cascade).

## Model

| member | source | states |
|---|---|---|
| `Text.Decimal` | inventory/models.py:43 | the rendering of a quantity is a non-empty digit string without leading zero whose decimal value is the quantity |
| `Text.ContainsIff` | inventory/views.py:259 | the substring scan succeeds exactly when the search text occurs at some index of the name |
| `Models.NewCustomUser` | inventory/models.py:11 | a user created with only a username keeps it, gets the default role "user", a choice that is not the admin role, and is not staff |
| `Models.IsAdminOnChoices` | inventory/models.py:7-15 | among the role choices, `is_admin` holds exactly for "admin" and fails exactly for the default "user" |
| `Models.IsAdminIsCaseSensitive` | inventory/models.py:14-15 | `is_admin` compares exactly: a role stored as "Admin" is not an administrator |
| `Models.ParseStatus` | inventory/models.py:30-34 | a stored status value reads back as the choice whose code it is, and anything outside the three codes is refused |
| `Models.StatusCodeRoundTrip` | inventory/models.py:30-34 | every status choice is stored as a code that reads back as the same choice |
| `Models.NewRequestItem` | inventory/models.py:36-39 | a saved request keeps requester, item and quantity and takes the default status, pending |
| `Models.RequestItemStrShape` | inventory/models.py:42-43 | the string form of a request starts with "<username> requested " and ends with the item name |
| `Models.RequestItemStrDeterminesQuantity` | inventory/models.py:42-43 | for a fixed requester and item, two requests with the same string form have the same quantity |
| `Models.NewNotification` | inventory/models.py:47-49 | a new notification is addressed to the given user with the given message and is unread |
| `Models.NotificationStrAsWrittenHidesReadFlag` | inventory/models.py:52-53 | with the method spelled `_str_`, a read and an unread notification display identically |
| `Models.NotificationStrShowsReadFlag` | inventory/models.py:52-53 | the intended string form tells a read notification from an unread one |
| `Workflow.StaffRecipientsSound` | inventory/views.py:132 | the staff list holds only existing `is_staff` users, each once, in ascending id order |
| `Workflow.StaffRecipientsComplete` | inventory/views.py:132 | every existing `is_staff` user is on the staff list |
| `Workflow.FanoutContents` | inventory/views.py:132-133 | the fan-out keeps every existing notification and adds exactly one unread notification per recipient under consecutive new ids |
| `Workflow.FanoutOnePerRecipient` | inventory/views.py:132-133 | over distinct recipients, each recipient gets exactly one new notification and nobody else gets any |
| `Workflow.Submission` | inventory/views.py:125-134 | request_item keeps the tables consistent: new ids are fresh and every new row refers to existing users and items |
| `Workflow.SubmissionValidation` | inventory/views.py:127-128 | the form is accepted exactly for an existing item and a quantity of at least 0; a refused form changes nothing |
| `Workflow.SubmissionCreatesPending` | inventory/views.py:129-131 | an accepted form stores one new pending request under the next id, quantity 0 included, advances the next request id by one, and changes no item, user or other request |
| `Workflow.SubmissionNotifiesEachStaffOnce` | inventory/views.py:132-133 | each `is_staff` user gets exactly one new unread notification "<requester> requested <item name>", other users none, and old notifications stay as they were |
| `Workflow.Approval` | inventory/views.py:140-156 | approve_request keeps the tables consistent and touches no user, notification or table key |
| `Workflow.ApprovalDeducts` | inventory/views.py:143-149 | a not-yet-approved request with enough stock is approved and its item's quantity drops by exactly the requested amount; the item's other fields, every other item and request, the users, the notifications and the next ids are unchanged |
| `Workflow.ApprovalInsufficientStock` | inventory/views.py:143-152 | with too little stock the reply is InsufficientStock and neither stock nor status changes |
| `Workflow.ApprovalGuards` | inventory/views.py:141-154 | an unknown id is NotFound and an approved request is left unchanged with AlreadyApproved |
| `Workflow.ApprovalIdempotent` | inventory/views.py:143-154 | approving twice leaves the state of one approval; after a success the second call reports AlreadyApproved |
| `Workflow.ApprovalNeverOverdraws` | inventory/views.py:145-146 | approval never raises a quantity, and a success needed stock at least the request and lowered it by exactly that |
| `Workflow.FirstApprovedFirstServed` | inventory/views.py:145-152 | of two pending requests that the stock cannot both cover, the first approved wins and the second stays pending with InsufficientStock |
| `Workflow.Rejection` | inventory/views.py:160-164 | reject_request keeps the tables consistent |
| `Workflow.RejectionLeavesStock` | inventory/views.py:160-163 | rejecting an existing request always sets it rejected, whatever its status, keeping its other fields, and changes no item, user, notification, other request or next id |
| `Workflow.ReapprovalAfterRejectionDeductsAgain` | inventory/views.py:143-163 | approve, reject, approve all succeed and take the request's quantity from the stock twice |
| `Workflow.ReadAll` | inventory/views.py:240 | after the bulk update the user has no unread notification; other users' notifications, and every message and recipient, are unchanged |
| `Workflow.ReadAllIdempotent` | inventory/views.py:240 | marking all read a second time changes nothing |
| `Workflow.ReadAllKeepsOthersUnread` | inventory/views.py:240 | every other user keeps exactly the unread notifications they had |
| `Workflow.ReadAllFlipsUnread` | inventory/views.py:240 | the rows the bulk update changes are exactly the user's unread notifications |
| `Workflow.MarkAllAsRead` | inventory/views.py:239-241 | mark_all_as_read changes only the notification table, by the bulk update, and keeps the tables consistent |
| `Workflow.NotificationsPage` | inventory/views.py:233-236 | the notifications view performs the same update and lists all of the user's notifications, every one now read |
| `Workflow.Acknowledgement` | inventory/views.py:244-248 | acknowledge_notification keeps the tables consistent |
| `Workflow.AcknowledgementOwnOnly` | inventory/views.py:245-247 | acknowledging succeeds exactly for the caller's own notification, sets only its read flag and changes no other table or next id, is NotFound with no change otherwise, and is idempotent |
| `Workflow.UserDeletion` | inventory/views.py:209-216 | delete_user, with the cascading deletes, keeps the tables consistent |
| `Workflow.UserDeletionSparesActor` | inventory/views.py:211-215 | the acting user is never deleted; any other existing user is, and exactly that user; with it go exactly the requests they made and the notifications addressed to them (the cascading foreign keys of inventory/models.py:36 and 47); items, other users' rows and the next ids are untouched |
| `Views.NotifyStaff` | inventory/views.py:132-133 | the loop over staff users produces the fan-out to the staff list and advances the next id by its length |
| `Views.Store.SubmitRequest` | inventory/views.py:125-134 | request_item in place: the reply and new tables are those of `Workflow.Submission` |
| `Views.Store.ApproveRequest` | inventory/views.py:140-156 | approve_request in place: the reply and new tables are those of `Workflow.Approval` |
| `Views.Store.RejectRequest` | inventory/views.py:160-164 | reject_request in place: the reply and new tables are those of `Workflow.Rejection` |
| `Views.Store.MarkAllAsRead` | inventory/views.py:239-241 | mark_all_as_read in place: the new tables are those of `Workflow.MarkAllAsRead` |
| `Views.Store.NotificationsPage` | inventory/views.py:233-236 | the notifications view in place: listing and new tables are those of `Workflow.NotificationsPage` |
| `Views.Store.AcknowledgeNotification` | inventory/views.py:244-248 | acknowledge_notification in place: the reply and new tables are those of `Workflow.Acknowledgement` |
| `Views.Store.DeleteUser` | inventory/views.py:209-216 | delete_user in place: the reply and new tables are those of `Workflow.UserDeletion` |
| `Dashboard.DashboardRedirectByRole` | inventory/views.py:45-50 | any case of "admin" reaches the admin dashboard, any case of "staff" the user dashboard, every other role the login page |
| `Dashboard.AdministratorsReachAdminDashboard` | inventory/views.py:45-47 | every user with `is_admin` reaches the admin dashboard |
| `Dashboard.UpperCaseAdminIsNotIsAdmin` | inventory/views.py:45-46 | a role stored as "ADMIN" reaches the admin dashboard although `is_admin` is false |
| `Dashboard.UserRoleSentToLogin` | inventory/views.py:45-50 | no role choice reaches the user dashboard: the default role "user" is sent to the login page |
| `Dashboard.IntendedDashboardServesEveryChoice` | inventory/views.py:45-50 | matching "user" in the second branch gives every role choice a dashboard and changes nothing for other roles |
| `Reports.IContainsMeansNameMatches` | inventory/views.py:258-259 | the case-insensitive containment test holds exactly when the lower-cased search occurs in the lower-cased name |
| `Reports.ReportItems` | inventory/views.py:252-264 | with an invalid form every item is listed; otherwise an item is listed exactly when its name contains the search (when non-empty) ignoring case and its creation day is within the given inclusive bounds |
| `Reports.NoCriteriaListsAll` | inventory/views.py:254-263 | a valid form with no criterion, or only an empty search, lists every item |
| `Reports.InvertedRangeIsEmpty` | inventory/views.py:260-263 | a start date after the end date lists nothing |
| `Reports.SearchIgnoresCase` | inventory/views.py:258-259 | a search text and its lower-cased form give the same report |
| `Reports.StartDateNarrows` | inventory/views.py:260-261 | adding a start date can only remove items from the report |
| `Traces.Step` | inventory/views.py:125-248 | every view call keeps the tables consistent; request_item and delete_user with a caller who does not exist change nothing |
| `Traces.Run` | inventory/views.py:125-248 | any sequence of view calls keeps the tables consistent |
| `Traces.StepNeverRaisesStock` | inventory/views.py:143-163 | no single call removes, renames or restocks an item, and every call but an approval leaves the items exactly as they were |
| `Traces.RunNeverRaisesStock` | inventory/views.py:143-163 | over any sequence of calls no item disappears and no quantity rises |
| `Traces.RunWithoutApprovalKeepsStock` | inventory/views.py:125-248 | a sequence of calls with no approval among them leaves every item exactly as it was: only approvals lower stock |
| `Traces.ApprovalKeepsLedger` | inventory/views.py:145-149 | approval moves exactly what it deducts from the shelf into the approved request: stock plus held stock is unchanged |
| `Traces.RejectionLosesHeldStock` | inventory/views.py:160-163 | rejection lowers stock plus held stock by what the request held, its whole quantity if it was approved |
| `Traces.StepNeverRaisesLedger` | inventory/views.py:125-248 | no single call raises stock plus held stock for any item |
| `Traces.RunNeverRaisesLedger` | inventory/views.py:125-248 | over any sequence of calls, stock plus stock held by approved requests never grows |

## Findings

| source | as written | input that shows it | evidently intended | confidence | as-written member | corrected member |
|---|---|---|---|---|---|---|
| inventory/views.py:48 | the second branch matches the role "staff", which is not one of `ROLE_CHOICES` | a user with the default role "user" is redirected to the login page after signing in | the defined role "user" reaches the user dashboard | not executed; high | `Dashboard.UserRoleSentToLogin` (on `Dashboard.DashboardRedirect`) | `Dashboard.IntendedDashboardServesEveryChoice` (on `Dashboard.IntendedDashboardRedirect`) |
| inventory/models.py:52 | the method is named `_str_`, so Django's default string "Notification object (<id>)" is used | any notification, read or unread: both show "Notification object (<id>)" | `__str__`, showing "<username> - Read" or "<username> - Unread" | not executed; high | `Models.NotificationStrAsWrittenHidesReadFlag` (on `Models.NotificationStrAsWritten`) | `Models.NotificationStrShowsReadFlag` (on `Models.NotificationStr`) |

## Left out

- HTTP, sessions and authentication (`login_view`, `logout_view`, `@login_required`, password forms): library calls with no logic of their own. A request_item or delete_user call whose signed-in user does not exist is modelled as turned away and changing nothing (`Traces.Step`).
- Template rendering, redirects and the `messages` framework: replaced by the returned `Reply`.
- The read-only pages (`admin_dashboard`, `user_dashboard`, `manage_*`) and item and user editing through model forms (`add_item`, `edit_item`, `delete_item`, `add_user`, `edit_user`, `change_user_password`): form-driven record edits without workflow rules.
- QR-code generation, PNG and base64 encoding and PDF export: foreign image and PDF libraries.
- Persistence, transactions and concurrent requests: the model is sequential and in memory; approval's two saves are one step.
- Timestamps: `created_at` of items is a day number for the report filter only; the time-zone conversion behind the `__date` lookup and the listing order of notifications by newest first are not modelled.
- The order in which staff users are notified: the model visits user ids in ascending order; the code takes whatever order the database returns.
- Integer width: the database's upper bound on `PositiveIntegerField` is not modelled; quantities are unbounded natural numbers (the approval guard keeps the subtraction at or above 0).
- Case folding: only ASCII letters are lower-cased; Python's `str.lower` and the database's `icontains` also fold other letters, in backend-specific ways.
- Deleting an item, which would cascade to its requests, is not part of this model.
- `InventoryItem.__str__` (inventory/models.py:25-26, the item's name) is used by no modelled operation; the request and notification strings use the item's name directly.
- The form layer's parsing of submitted text into an item id and an integer: the model takes the parsed values.
