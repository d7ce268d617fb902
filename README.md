# LittleLemon API — access rules, cart ledger, group membership and menu validation in Dafny

This project models the parts of the LittleLemon restaurant API (a Django REST
Framework backend) that carry logic of their own:

- **Role-gated access** (`view_access.dfy`, `permissions.dfy`). The
  `get_permissions` of the menu-item collection, single menu item and category
  views are functions from the request method and the requester to a decision:
  `Allow` (`AllowAny`), `RequireAuth` (`IsAuthenticated`) or `Deny` (a raised
  `PermissionDenied`, a 403 for everyone). `group_required` and
  `IsManagerOrReadOnly.has_permission` are modelled beside them. Each contract
  states, through `Grants`, exactly who gets through.
- **Group membership management** (`group_members.dfy`). `list_group_members`
  is a class `Directory` holding the group table (group name to set of
  usernames) and the user table (username to e-mail). Its method is proved
  against the pure function `Handle`. The contract of `Handle` gives the
  ordered chain of checks: login, then method, then Manager (403), then group
  (404), then username (400), then user (404). It also says that only the named
  group can change, and only by exactly the one user.
- **Cart ledger** (`cart_ledger.dfy`). `CartView` is a class `CartTable` holding
  the rows and the next primary key. Its invariant is the `(item, user)`
  uniqueness constraint of the cart table. Listing, adding and emptying are
  methods tied to the functions `RowsOf`, `Insert` and `RowsExcept`. Lemmas
  prove two things about them. Emptying one cart leaves every other cart
  unchanged. Adding a row extends the requester's listing by exactly that row.
- **Menu-item validation** (`menu_serializer.dfy`). `MenuItemSerializer.validate`
  has an inclusive price bound of 2.0 and a non-negative inventory bound, with
  the price error taking precedence. The unique-title validator runs before
  it. `CreateItem` and `UpdateItem` are proved to keep the catalog invariant:
  unique keys, unique titles, and every item within bounds.

`http.dfy` holds the shared vocabulary. `ApiView` models the preamble that
`@api_view` and `@permission_classes([IsAuthenticated])` run before a
function view: the login check first, then the method whitelist (405). OPTIONS
is answered by the framework itself. As a result, the fall-through "Invalid
HTTP method" / "Invalid request" 400s of `list_group_members` and `CartView`
(LittleLemonAPI/views.py lines 99-100 and 152-153) cannot be reached. The model
keeps them as written.

Prices are exact decimals, modelled as `real`. A missing login is the status
`NotAuthenticated`, which is 401 or 403 depending on the authentication
classes configured in the settings.

Two behaviours of the code are worth noting, because one might expect
otherwise:
- As written, adding any existing menu item to the cart is refused with 400
  and nothing is saved. The view passes the menu-item object as `item`,
  where the serializer expects a primary key (see Findings). In the
  corrected behaviour, which the cart class uses, re-adding an item already
  in the cart is neither an upsert nor a duplicate: the unique-together
  validator refuses it with 400 and the table is left unchanged.
- The order lifecycle (commit, crew assignment, status changes, totals) is not
  in the code that is modelled.

`IsManagerOrReadOnly` checks the staff flag, while the views check membership
of the 'Manager' group. `Permissions.StaffAndManagerDiffer` shows that the two
notions differ in both directions.

## Model

| member | source | states |
|---|---|---|
| `Http.ApiView` | LittleLemonAPI/views.py:56-57 | a function view's body runs iff the requester is logged in and the method is one the decorator lists; anonymous requests are refused first, other methods get 405 (OPTIONS: 200 metadata) |
| `ViewAccess.Enforce` | LittleLemonAPI/views.py:21-30 | AllowAny lets everyone through, IsAuthenticated only logged-in users (others: NotAuthenticated), PermissionDenied is 403 for everyone |
| `ViewAccess.MenuItemsPermission` | LittleLemonAPI/views.py:21-30 | GET is allowed for every requester including anonymous; the request gets through iff it is a GET or a POST by a Manager; every refusal is a 403 (PUT, PATCH, DELETE always) |
| `ViewAccess.SingleMenuItemPermission` | LittleLemonAPI/views.py:36-42 | GET always gets through; any other method gets through iff the requester is a Manager; a refusal is a 403 |
| `ViewAccess.CategoryPermission` | LittleLemonAPI/views.py:105-115 | gets through iff logged in and (GET or Manager); an anonymous GET is refused as not authenticated; a non-GET by a non-Manager is a 403 |
| `ViewAccess.GroupRequired` | LittleLemonAPI/views.py:44-54 | the wrapped view runs iff the requester is in the named group, otherwise a 403 response |
| `ViewAccess.CollectionNoLaxerThanSingleItem` | LittleLemonAPI/views.py:21-42 | whatever the collection view lets through, the single-item view lets through too |
| `ViewAccess.OnlyManagersMutate` | LittleLemonAPI/views.py:21-115 | for every method other than GET, each of the three views lets only Managers through |
| `ViewAccess.AnonymousReadsMenuNotCategories` | LittleLemonAPI/views.py:21-109 | an anonymous GET reaches the menu item views but not the category view |
| `Permissions.HasPermission` | LittleLemonAPI/permissions.py:9-15 | safe methods (GET, HEAD, OPTIONS) are always permitted; any other method iff a user is present and is staff; a missing or anonymous user gets only safe methods |
| `Permissions.DecidedByMethodAndStaff` | LittleLemonAPI/permissions.py:9-15 | the decision ignores the view, the groups and the name: equal staff flags give equal decisions |
| `Permissions.StaffAndManagerDiffer` | LittleLemonAPI/permissions.py:4-15 | a staff non-Manager may PUT here but not on the single-item view, and a non-staff Manager the other way round |
| `MenuSerializer.ErrorStatus` | LittleLemonAPI/serializer.py:32-39 | validation errors are 400, an unknown item 404, and only a KeyError is a 500 |
| `MenuSerializer.Validate` | LittleLemonAPI/serializer.py:32-39 | accepts iff price >= 2.0 (inclusive) and inventory >= 0 (0 accepted), returning the attributes unchanged; a price below 2.0 is reported even when inventory is also bad or absent; an absent price key is a KeyError, and so is an absent inventory key once the price passes |
| `MenuSerializer.Merge` | LittleLemonAPI/views.py:32-34 | an update keeps the item's key and replaces exactly the sent attributes (title, price, inventory, category), keeping the stored value of each one not sent |
| `MenuSerializer.ValidateMerged` | LittleLemonAPI/serializer.py:32-39 | the corrected check: accepts iff the item as saved satisfies both bounds; a saved price below 2.0 is reported first, otherwise a negative saved inventory; it never fails on an absent key |
| `MenuSerializer.PartialUpdateWithoutPrice` | LittleLemonAPI/serializer.py:34-38 | a rename-only PATCH of a valid item is a server error under `validate`, and is accepted by the corrected check |
| `MenuSerializer.ValidateMergedAgrees` | LittleLemonAPI/serializer.py:32-39 | when price and inventory are both sent, the corrected check and `validate` give the same answer |
| `MenuSerializer.FindByTitle` | LittleLemonAPI/views.py:137 | returns an item with that title iff one exists; in a valid catalog it is the only one |
| `MenuSerializer.CreateItem` | LittleLemonAPI/serializer.py:32-46 | succeeds iff the title is unused, price >= 2.0 and inventory >= 0, appending exactly the new item; a taken title is reported first, otherwise the error `validate` reports (price before inventory); the catalog invariant is preserved |
| `MenuSerializer.UpdateItem` | LittleLemonAPI/serializer.py:32-46 | succeeds iff the key exists, the merged item satisfies both bounds and no other item holds the sent title; the 404 error is given exactly for an unknown key; for a known key a title held by another item is reported first, then the corrected check's bound error; on success exactly that item becomes the merged item; the catalog invariant is preserved |
| `GroupMembers.MembersOf` | LittleLemonAPI/views.py:67-69 | the listing holds exactly the group's registered members, each with their e-mail |
| `GroupMembers.Handle` | LittleLemonAPI/views.py:56-100 | login, then method (405, OPTIONS 200), then 403 for non-Managers, 404 for an unknown group, 400 for a missing username, 404 for an unknown user, all leaving membership unchanged; a Manager's POST of a registered user to an existing group is 201 and adds exactly that user, a DELETE is 200 and removes exactly that user; no other group changes; every member stays a registered user |
| `GroupMembers.SelfRemovalRevokesAccess` | LittleLemonAPI/views.py:44-93 | a Manager who removes themselves from 'Manager' gets 200, and their next request, with groups read from the new table, is refused with 403 |
| `GroupMembers.AddThenRemoveRestores` | LittleLemonAPI/views.py:71-93 | adding a non-member and then removing them restores the group table exactly |
| `GroupMembers.AddIsIdempotent` | LittleLemonAPI/views.py:71-79 | posting the same user twice gives the same table and status as posting once |
| `GroupMembers.AddedMemberIsListed` | LittleLemonAPI/views.py:65-79 | after a successful add, the group's listing shows the new member with their e-mail |
| `GroupMembers.Directory.ListGroupMembers` | LittleLemonAPI/views.py:56-100 | for a requester whose groups are read from this table, the response and new group table are those of `Handle`; every member remains a registered user |
| `CartLedger.RowsOf` | LittleLemonAPI/views.py:125 | holds exactly the rows of the table that belong to the user |
| `CartLedger.RowsExcept` | LittleLemonAPI/views.py:149 | holds exactly the rows of the table that belong to other users |
| `CartLedger.Lookup` | LittleLemonAPI/views.py:131-139 | finds an item iff a title was sent and some item carries it |
| `CartLedger.InsertAsWritten` | LittleLemonAPI/views.py:129-145 | as written: unknown or missing title is 404; every known title is 400 because the serializer rejects the object passed as `item`; the table never changes |
| `CartLedger.Insert` | LittleLemonAPI/views.py:129-145 | corrected (item key passed): unknown title: 404 and table unchanged; a row for the same (item, user): 400 "unique set" and unchanged; otherwise 201 with exactly one new row at the end, quantity defaulting to 1; the table constraints are preserved |
| `CartLedger.KnownTitleRefused` | LittleLemonAPI/views.py:141-145 | for a catalog item and an empty cart, the code as written answers 400 and saves nothing, while the corrected behaviour saves the row and answers 201 |
| `CartLedger.RowsExceptValid` | LittleLemonAPI/migrations/0004_rename_menuitem_cart_item_alter_cart_unique_together.py:20-23 | deleting a user's rows keeps the (item, user) uniqueness and the key constraints |
| `CartLedger.RowsOfAppend` | LittleLemonAPI/views.py:125 | a row appended to the table shows up at the end of its own user's listing and in no other |
| `CartLedger.EmptyLeavesOthers` | LittleLemonAPI/views.py:147-150 | emptying one user's cart leaves every other user's listing, in order, unchanged |
| `CartLedger.EmptyClearsOwn` | LittleLemonAPI/views.py:147-150 | after emptying, the user's listing is empty, and emptying again changes nothing |
| `CartLedger.AddThenList` | LittleLemonAPI/views.py:129-144 | after a successful add, the requester's listing is the old one plus exactly the new row with the requested or default quantity; other users' listings are unchanged |
| `CartLedger.CartTable.List` | LittleLemonAPI/views.py:123-127 | returns exactly the requester's rows, in table order |
| `CartLedger.CartTable.Add` | LittleLemonAPI/views.py:129-145 | response and new table are those of the corrected `Insert`; the uniqueness invariant is kept |
| `CartLedger.CartTable.Empty` | LittleLemonAPI/views.py:147-150 | removes all and only the requester's rows, keeps the next key, and answers 204 even for an empty cart |
| `CartLedger.CartTable.CartView` | LittleLemonAPI/views.py:117-153 | framework refusals leave the table unchanged; GET lists the requester's rows; POST behaves as the corrected `Insert`; DELETE as `Empty` |

## Left out

- Throttling (`AnonRateThrottle`, `UserRateThrottle`): it depends on time and the framework.
- Search and ordering configuration of the menu-item collection: the framework handles it.
- The `print` calls in `CategoryView.get_permissions`: they are console output only.
- Routing (LittleLemonAPI/urls.py): it holds no logic.
- `CustomUserCreateSerializer.create`: it only calls Django's `create_user`.
- The serializer field lists and `CartSerializer`, `OrderItemSerializer` and `DeliveryOrderSerializer`: they are declarative mappings onto models. The models file is not part of this model. For `CartSerializer`, the model keeps only the `item` field's primary-key type check and the validator that enforces `unique_together = (item, user)`.
- Field-level validation defined by the models (quantity range, category existence, which fields are required): the models file is not part of this model. A create request is modelled as carrying every field. Any integer quantity is accepted.
- `CartLedger.Insert`: the row's `unit_price` and `price` are opaque inputs (`Pricing`), because the view never computes them.
- `OrderView` and `OrderItemView`: they list every row and hold no logic. Order commit, delivery assignment, status transitions and pricing do not appear in the modelled code.
- Deleting and reading single menu items and categories: these are the framework's generic handlers with no logic of their own. Only the access rules and validation are modelled.
- The Django ORM, the user and group models and DRF `Response` objects are in-memory tables and a status/body datatype. A lookup that could match several rows is a first-match search. This agrees with `get` on a valid catalog, where titles are unique.
- `GroupMembers.Directory.ListGroupMembers`: the requester's groups and the group table are one relation in the database. The model keeps them as two values and requires them to agree (`SeesTable`) when a request is made. A change takes effect on the requester's next request, as `SelfRemovalRevokesAccess` shows.
- The exact response bodies the framework produces (login required, 405, OPTIONS metadata): they are one `FrameworkReply` value.

## Findings

| source | as written | input that shows it | evidently intended | confidence | as-written member | corrected member |
|---|---|---|---|---|---|---|
| LittleLemonAPI/serializer.py:34-38 | `validate` reads `attrs['price']` and `attrs['inventory']` directly. On a partial update (PATCH through the single-item view), `attrs` holds only the fields that were sent. | A Manager PATCHes `{"title": "Greek salad XL"}` onto a valid item: `attrs['price']` raises KeyError, and the response is a server error. | Check the values the item will have once saved, so absent keys fall back to the stored ones. | medium (not executed) | `MenuSerializer.Validate`, shown by `MenuSerializer.PartialUpdateWithoutPrice` | `MenuSerializer.ValidateMerged` (used by `MenuSerializer.UpdateItem`) |
| LittleLemonAPI/views.py:141 | The view builds the cart serializer's data with `'item': item`, the menu-item object. The serializer's `item` field expects a primary key. | Any logged-in user POSTs `{"item": "Greek Salad"}` for an item on the menu: the serializer reports "Incorrect type" for `item`, the response is 400 and nothing is saved. | Pass `item.id`. The row is then saved with 201, unless the unique-together validator finds the same (item, user) pair. | medium (not executed) | `CartLedger.InsertAsWritten`, shown by `CartLedger.KnownTitleRefused` | `CartLedger.Insert` (used by `CartLedger.CartTable.Add`) |
