# yad-backend core in Dafny

This project models the business core of the yad-backend food-delivery service in Dafny, and proves properties of that model. The service connects users, restaurants and couriers:

- A user orders menu items from a restaurant and pays.
- The restaurant prepares the order and hands it to a courier.
- The courier carries the order and delivers it.

The model covers four parts of the code.

**Order lifecycle** (`OrderService`, `OrderRepository`):
- An order's status is an integer from Created (0) to Delivered (5).
- An update is accepted only when it moves the order exactly one status forward, and only from the party that owns that step:
  - the user pays;
  - the restaurant prepares and hands over;
  - the assigned courier takes the order en route and delivers it.
- Paying stamps the payment time and assigns the nearest waiting courier.
- A single order, its items and a single item are read only by the order's parties. There are two exceptions:
  - the listing of a restaurant's paid orders is open to every user;
  - a courier's active-order query, as written, also returns other couriers' orders.
- An order can be deleted only while it is unpaid.
- An item count must lie between 1 and 99.

**Courier availability** (`CourierService`, `CourierRepository`):
- A working status must be one of Unable, Waiting or Working.
- A status may not jump from Unable to Working, or back.
- A courier may edit only their own record; their profile fields are stripped before the write. An admin may edit any record.
- The repository's partial update never writes the working status.

**Catalogue and users** (`CategoryRepository`, `CategoryService`, `MenuRepository`, `MenuService`, `RestaurantService`, `UserRepository`):
- Role and ownership guards on the catalogue use cases.
- Category deletion together with its links.
- Partial updates of menu items, with relinking to a category.
- The active-order listing of a user.
- The partial profile update of a user.

**HTTP helpers** (`Handler`):
- Reading the bearer token from the Authorization header.
- Reading the caller's id and client type back from the headers the identity middleware writes.
- Recognising image file names.

Modelling choices:
- The database is one `Store.Database` object. It holds one map per table, keyed by row id, plus the next value of each id sequence.
- Each repository is a class over that object:
  - its reads are functions that read the object;
  - its writes are methods that modify the named tables.
- Each service is a class over its repositories.
- An unassigned courier is the courier id 0. The order reads report a NULL courier as 0.
- A client type is a `Roles.Role`: `UserRole`, `RestaurantRole`, `CourierRole`, `AdminRole`, or `Unknown(name)` for any other string. Unknown roles fail every guard. The role strings are the ones the tests use.
- The database function `get_distance` is an uninterpreted function fixed with the database. The current time is a parameter `now`.
- An UPDATE whose SET list comes out empty is a malformed statement. It is modelled as the error `MalformedQuery` where the code can build one: orders, users and menu items.

`OrderPg.GetActiveCourierOrder` is modelled as written. Its WHERE clause mixes AND and OR without parentheses, so it also matches paid, preparing and waiting orders of every other courier. `LiteralMatchIncludesIntended` and `LiteralMatchIgnoresCourier` state this. The service exposes exactly this behaviour, and the model claims no only-this-courier property.

## Model

| member | source | states |
|---|---|---|
| Roles.Parse | tests/main_test.go:36-39 | a client-type string maps to a role whose name is that string; an unknown string is never confused with one of the four role names |
| Roles.ParseName | tests/main_test.go:36-39 | parsing a role's name gives the role back, so distinct roles have distinct names |
| Roles.ForbiddenNamesRole | internal/service/order.go:124-133 | "Forbidden for <role>" identifies the role: two roles refused with the same message are the same role |
| OrderRepository.NewOrder | internal/repository/order.go:22-34 | a freshly inserted order has its new id, no courier and no payment time, and keeps every other column of the input |
| OrderRepository.PatchOrder | internal/repository/order.go:63-93 | a non-zero courier, a non-zero status and a present payment time of the input overwrite the stored ones, and a zero or absent one keeps the stored value; every other column keeps its stored value |
| OrderRepository.PatchOrderIdempotent | internal/repository/order.go:63-93 | applying the same partial update twice equals applying it once |
| OrderRepository.LiteralMatchIncludesIntended | internal/repository/order.go:145-147 | every active order assigned to the courier matches the query's WHERE clause as written |
| OrderRepository.LiteralMatchIgnoresCourier | internal/repository/order.go:145-147 | the WHERE clause as written also matches a paid order assigned to another courier |
| OrderRepository.NearestWaiting | internal/repository/order.go:154-179 | the scan finds no courier exactly when none is waiting; otherwise it finds a waiting courier no farther from home than any other waiting courier |
| OrderRepository.OrderPg.Create | internal/repository/order.go:22-34 | an order for an existing restaurant is stored under a fresh positive id as NewOrder; an unknown restaurant is a foreign-key error that stores nothing |
| OrderRepository.OrderPg.GetAllItems | internal/repository/order.go:36-43 | exactly the items whose order id is the given one |
| OrderRepository.OrderPg.GetById | internal/repository/order.go:45-55 | the stored order exactly when its id exists; otherwise no row |
| OrderRepository.OrderPg.Delete | internal/repository/order.go:57-61 | the order is removed and every other order stays |
| OrderRepository.OrderPg.Update | internal/repository/order.go:63-93 | with a non-zero courier, a non-zero status or a payment time, the order becomes PatchOrder of itself and all other orders stay; with none of them the statement is malformed and nothing changes |
| OrderRepository.OrderPg.GetActiveRestaurantOrders | internal/repository/order.go:95-104 | exactly the restaurant's orders whose status is Paid |
| OrderRepository.OrderPg.CreateItem | internal/repository/order.go:106-117 | the item is stored under a fresh positive id and nothing else changes |
| OrderRepository.OrderPg.GetItemById | internal/repository/order.go:119-126 | the item with this id, whichever order it belongs to, or no row |
| OrderRepository.OrderPg.DeleteItem | internal/repository/order.go:128-133 | the item is removed only when both its id and its order match; a mismatched pair changes nothing |
| OrderRepository.OrderPg.UpdateItem | internal/repository/order.go:135-140 | only the count of the named item changes |
| OrderRepository.OrderPg.GetActiveCourierOrder | internal/repository/order.go:142-151 | some stored order matching the WHERE clause as written, or no row exactly when no stored order matches |
| OrderRepository.OrderPg.GetNearestCourierId | internal/repository/order.go:154-179 | a positive id of a waiting courier nearest to the user's address; no row exactly when the user has no row or no courier is waiting |
| OrderService.CanReadIffParty | internal/service/order.go:42-47 | exactly the order's user, restaurant or courier may read it; admins and unknown roles never may |
| OrderService.StepOwner | internal/service/order.go:106-135 | a lifecycle step has an owner exactly for target statuses Paid through Delivered |
| OrderService.Transition | internal/service/order.go:92-139 | an update succeeds exactly when the target is current+1, the step's owning party asks, and for Paid a courier is found. Success raises the status by one. For Paid it stamps `now` and the found courier. For the later steps, a non-zero courier and a payment time in the caller's input are written as well, so a restaurant or courier can reassign the courier or stamp a time. All other columns are kept. Each failure returns its own error: "Invalid new order status", "Order status input error", "Forbidden for <role>", "Free courier not found" |
| OrderService.DeliveredIsFinal | internal/service/order.go:101-105 | a delivered order accepts no update, whoever sends it |
| OrderService.OnlyPartiesAdvance | internal/service/order.go:106-135 | admins and unknown client types cannot move an order |
| OrderService.RunKeepsOrderSound | internal/service/order.go:92-139 | over any series of update requests, a paid order always has a courier and a payment time; id, user, restaurant and prices never change; the status only grows, by at most one per request |
| OrderService.DeliveryTakesFiveSteps | internal/service/order.go:101-105 | a new order needs at least five accepted requests to reach Delivered |
| OrderService.StatusInput | internal/service/order.go:92 | an update input carrying only a status |
| OrderService.HappyPathDelivers | internal/service/order.go:106-133 | pay, prepare, hand over, carry, deliver, each by its party, takes a new order to Delivered with the found courier and the payment time |
| OrderService.OrderService.Create | internal/service/order.go:24-34 | only a user may create an order; it is stored in the user's own name; any other role gets "Forbidden" and nothing is stored |
| OrderService.OrderService.GetAllItems | internal/service/order.go:36-52 | the order's items exactly for a party of the order; a missing order is no row, anyone else gets "Forbidden for <role>" |
| OrderService.OrderService.GetById | internal/service/order.go:54-69 | the order exactly for a party of the order; a missing order is no row, anyone else gets "Forbidden for <role>" |
| OrderService.OrderService.Delete | internal/service/order.go:71-89 | the order is removed exactly when it exists, its user asks, and it is still Created; otherwise "Order not found", "Forbidden" or "You can't delete a paid order", in that order, and nothing changes |
| OrderService.OrderService.Update | internal/service/order.go:92-139 | a missing order is "Order not found"; otherwise the stored order changes exactly as Transition says, with the nearest waiting courier to the order's user as the lookup; on an error nothing is written |
| OrderService.OrderService.GetActiveRestaurantOrders | internal/service/order.go:141-149 | the restaurant's paid orders, for any user or the restaurant itself; "Forbidden" otherwise |
| OrderService.OrderService.CreateItem | internal/service/order.go:151-161 | only a user, and only a count from 1 to 99, adds the item; the order's owner is not checked |
| OrderService.OrderService.GetItemById | internal/service/order.go:163-186 | the item exactly for a party of the order, when the item belongs to that order; each failure has its own error |
| OrderService.OrderService.UpdateItem | internal/service/order.go:188-212 | checks the owning user, then that the item belongs to the order, then the count range 1..99, and only then changes the count |
| OrderService.OrderService.DeleteItem | internal/service/order.go:214-226 | checks only the owning user; the item is then removed if it belongs to the order |
| OrderService.OrderService.GetActiveCourierOrder | internal/service/order.go:228-235 | only the courier itself, for its own id; it gets what the literal query matches |
| CourierRepository.PatchCourier | internal/repository/courier.go:93-115 | non-empty name, password, phone and email overwrite the stored ones; working status and address are never written |
| CourierRepository.UpdatedColumns | internal/repository/courier.go:93-115 | the SET list is empty exactly when no profile field is set, and it has one column per set field |
| CourierRepository.EmptyInputPatchesNothing | internal/repository/courier.go:88-121 | an input with no profile field leaves the row unchanged, whatever its status |
| CourierRepository.CourierPg.Create | internal/repository/courier.go:21-50 | the courier is stored under a fresh id unless its phone is taken, in which case the insert fails and nothing is stored |
| CourierRepository.CourierPg.GetById | internal/repository/courier.go:67-86 | the courier without its password, or no row |
| CourierRepository.CourierPg.Update | internal/repository/courier.go:88-132 | no profile field: nothing written and no error; otherwise the UPDATE runs (unless the phone clashes) and its text is returned as an error in every case |
| CourierService.JumpIsUnableWorking | internal/service/courier.go:69-72 | between valid statuses, a "jump" is exactly a move between Unable and Working |
| CourierService.StripProfile | internal/service/courier.go:76-81 | a courier's own input loses email, name, phone and password and keeps everything else |
| CourierService.GetActiveOrderGuard | internal/service/courier.go:88-95 | only the courier itself, for its own id, passes; everyone else gets "Forbidden for <role>" |
| CourierService.CourierService.SignUp | internal/service/courier.go:27-32 | only an admin registers a courier; any other role gets "forbidden" and nothing is stored |
| CourierService.CourierService.GetById | internal/service/courier.go:48-54 | users, restaurants and any client whose id is the courier's id, whatever its role, read the stored courier with only its password blanked; a missing courier is no row; anyone else gets "Forbidden" |
| CourierService.CourierService.Update | internal/service/courier.go:56-86 | status validation comes before the lookup and the caller check; a courier's own update never changes the stored record; an admin's update of an existing courier with an allowed status writes PatchCourier exactly when some profile field is set and the phone does not clash; every refusal (unknown status, missing courier, jump, forbidden caller) leaves the record unchanged, and nothing else ever changes it |
| UserRepository.MatchingIds | internal/repository/user.go:75-81 | the selected ids are exactly the user's orders, restricted to active statuses when the flag is set |
| UserRepository.ActiveListingIsActiveStatus | internal/repository/user.go:75-81 | the active listing is the full listing filtered to statuses Paid through EnRoute |
| UserRepository.IdsOf | internal/repository/user.go:88-104 | the ids of a list are exactly the ids of its entries |
| UserRepository.DistinctIdsCount | internal/repository/user.go:88-104 | a list of pairwise distinct ids has as many ids as entries |
| UserRepository.ListingCoversSelection | internal/repository/user.go:88-104 | a duplicate-free list drawn from the selection, as long as the selection, contains every selected id |
| UserRepository.PatchUser | internal/repository/user.go:119-135 | non-empty name, password and email overwrite the stored ones; id, phone and address are not touched |
| UserRepository.WithAddress | internal/repository/user.go:137-147 | the address changes only when both coordinates are non-zero, and only for that user |
| UserRepository.UserPg.Create | internal/repository/user.go:22-51 | the user is stored under a fresh id unless its phone is taken, in which case nothing is stored |
| UserRepository.UserPg.GetAllOrders | internal/repository/user.go:68-107 | without a scan or iteration error, the result lists every selected order exactly once and nothing else; with one, the rows read so far are dropped and the error is returned |
| UserRepository.UserPg.Update | internal/repository/user.go:109-160 | the address is rewritten first and stays written; then name, password and email are patched; with none of them the statement is malformed |
| UserRepository.UserPg.GetById | internal/repository/user.go:162-181 | the user without its password, or no row |
| CategoryRepository.UnlinkCategory | internal/repository/category.go:100-105 | exactly the links of other categories remain |
| CategoryRepository.CategoryPg.Create | internal/repository/category.go:22-33 | the category is stored under a fresh positive id |
| CategoryRepository.CategoryPg.GetAll | internal/repository/category.go:35-46 | exactly the restaurant's categories |
| CategoryRepository.CategoryPg.GetById | internal/repository/category.go:48-62 | the category with this id, or no row |
| CategoryRepository.CategoryPg.GetAllItems | internal/repository/category.go:64-78 | exactly the menu items linked to the category |
| CategoryRepository.CategoryPg.DeleteCategory | internal/repository/category.go:80-115 | a category of another restaurant or a missing one is refused and nothing changes; otherwise every link of the category and the category itself are removed |
| CategoryRepository.CategoryPg.UpdateCategory | internal/repository/category.go:117-147 | same ownership check; only the title changes, and only when the new title is non-empty |
| MenuRepository.PatchMenuItem | internal/repository/menu.go:94-126 | non-empty title, image and description and a non-zero price overwrite the stored ones; id and restaurant are kept |
| MenuRepository.RelinkItem | internal/repository/menu.go:70-92 | the item loses all its category links and gains the one to the new category |
| MenuRepository.RelinkItemSingleCategory | internal/repository/menu.go:70-92 | after relinking, the item is in exactly one category and every other item keeps its links |
| MenuRepository.MenuItemPg.GetById | internal/repository/menu.go:34-49 | the menu item with every column but the price (read as 0), or no row |
| MenuRepository.MenuItemPg.UpdateMenuItem | internal/repository/menu.go:51-129 | an item of another restaurant or a category of another restaurant is refused and nothing changes; otherwise the relink happens when a category is given and stays even if the later update fails; the row becomes PatchMenuItem exactly when some column is set |
| MenuRepository.MenuItemPg.Create | internal/service/menu.go:67 | the item is stored under a fresh id and linked to the category |
| MenuRepository.MenuItemPg.UpdateImage | internal/service/menu.go:83 | only the image of the named item changes |
| MenuRepository.MenuItemPg.DeleteItem | internal/service/menu.go:103 | the item is removed and every other item stays |
| MenuService.MenuItemService.GetById | internal/service/menu.go:31-47 | the item without its price for any user or the restaurant itself, when it belongs to the requested restaurant; "Forbidden", no row or "No such menu item for this restaurant" otherwise |
| MenuService.MenuItemService.UpdateMenuItem | internal/service/menu.go:49-55 | only the restaurant itself may update. For it, the item is relinked exactly when a category is given and both the item and the category are its own, and the item is patched exactly when, in addition, some column is set |
| MenuService.MenuItemService.Create | internal/service/menu.go:57-68 | only a restaurant creating its own item, in a category of its own, succeeds; a missing category is "forbidden" too. The category read and the item write go to the same database |
| MenuService.MenuItemService.UpdateImage | internal/service/menu.go:70-88 | only the owning restaurant, for an item of its own, sets the image; it gets the item as re-read after the write |
| MenuService.MenuItemService.Delete | internal/service/menu.go:90-104 | the lookup error comes first; then only the owning restaurant, for its own id, deletes the item |
| CategoryService.CategoryService.Create | internal/service/category.go:20-26 | only a restaurant creating a category of its own succeeds; anything else is "Forbidden" and nothing is stored |
| CategoryService.CategoryService.GetAll | internal/service/category.go:28-34 | the restaurant's categories for any user or the restaurant itself; "Forbidden" otherwise |
| RestaurantService.Public | internal/repository/restaurant.go:86-105 | a restaurant as read back has every column but the password |
| RestaurantService.RestaurantPg.GetByCredentials | internal/repository/restaurant.go:19-32 | a restaurant with this phone and password, or no row exactly when none has both |
| RestaurantService.RestaurantPg.GetAll | internal/repository/restaurant.go:34-84 | every restaurant without its password, when the user exists; nothing otherwise |
| RestaurantService.RestaurantPg.GetById | internal/repository/restaurant.go:86-105 | the restaurant without its password, or no row |
| RestaurantService.RestaurantPg.GetMenu | internal/repository/restaurant.go:107-116 | exactly the restaurant's menu items |
| RestaurantService.RestaurantService.SignIn | internal/service/restaurant.go:26-38 | a failed credential lookup returns no row and no token; a success names a restaurant with these credentials |
| RestaurantService.RestaurantService.GetAll | internal/service/restaurant.go:40-51 | only users may list restaurants, and the listing uses the caller's own id |
| RestaurantService.RestaurantService.GetById | internal/service/restaurant.go:53-64 | any user or the restaurant itself gets the store's answer unchanged, an error included; others get "Forbidden" |
| RestaurantService.RestaurantService.GetMenu | internal/service/menu.go:23-29 | the restaurant's menu for any user or the restaurant itself; couriers and admins get "Forbidden" |
| Handler.Split | internal/delivery/http/v1/handler.go:87 | splitting on single spaces gives pieces with no spaces that join back to the string |
| Handler.SplitAfterWord | internal/delivery/http/v1/handler.go:87 | a space-free word followed by a space splits off as the first piece |
| Handler.SplitWord | internal/delivery/http/v1/handler.go:87 | a space-free string is a single piece |
| Handler.GetToken | internal/delivery/http/v1/handler.go:81-97 | a token is accepted only from exactly "Bearer", one space, and a non-empty token without spaces; an empty header is exactly the "Empty auth header" case |
| Handler.GetTokenAccepts | internal/delivery/http/v1/handler.go:87-96 | every non-empty space-free token t is read back from "Bearer " + t |
| Handler.GetTokenEmpty | internal/delivery/http/v1/handler.go:92-94 | "Bearer " with nothing after it is "Empty token" |
| Handler.GetTokenInvalid | internal/delivery/http/v1/handler.go:87-90 | any non-empty header that is not "Bearer", one space and a space-free rest is "Invalid token" |
| Handler.Ext | internal/delivery/http/v1/handler.go:111 | the extension is a suffix of the path that starts with its final dot and holds no other dot or slash |
| Handler.ExtOfSuffix | internal/delivery/http/v1/handler.go:111 | a dot and a word without dots or slashes is the extension of any name it ends |
| Handler.IsImage | internal/delivery/http/v1/handler.go:110-118 | a file is an image exactly when its name ends in ".png", ".jpg" or ".jpeg", case-sensitively |
| Handler.ImageExtensionIffSuffix | internal/delivery/http/v1/handler.go:111-113 | the final extension is ".png", ".jpg" or ".jpeg" exactly when the name ends in one of them |
| Handler.Atoi | internal/delivery/http/v1/handler.go:68-71 | a successful parse is a 64-bit integer |
| Handler.NatDigits | internal/delivery/http/v1/handler.go:56 | the decimal digits of a number have that number as their value |
| Handler.AtoiItoa | internal/delivery/http/v1/handler.go:56-71 | parsing reads back every 64-bit id the identity middleware writes |
| Handler.GetClientParams | internal/delivery/http/v1/handler.go:62-79 | succeeds exactly when the id header parses as an integer and the client type is non-empty, and then returns both. The failures are checked in order: an empty id header is "user id not found", then an unparsable one is "user id is of invalid type", then an empty client type is "client type not found" |
| Handler.ClientParamsRoundTrip | internal/delivery/http/v1/handler.go:44-79 | the id and client type the identity middleware writes are read back unchanged |

## Left out

- Token issuance is not modelled: signing in, the JWT manager and the identity middleware's token parsing. `RestaurantService.SignIn` returns the restaurant id in place of the token pair.
- The admin, user and courier sign-in paths are not modelled, and neither are the plaintext credential lookups behind them.
- The HTTP handlers are not modelled: binding, validation tags and status codes. Only the helpers in `internal/delivery/http/v1/handler.go` are.
- `get_distance` is an uninterpreted integer-valued function of two locations. Its SQL definition is not part of this model, and its float arithmetic is not modelled.
- Coordinates are `real`, not 64-bit floats.
- The clock is the parameter `now`.
- `RestaurantService.RestaurantPg.GetAll`: ordering restaurants by distance from the user is not modelled. The result is a set, and the contract states only which restaurants appear.
- All listings are sets, in no particular order. `UserPg.GetAllOrders` returns a sequence in an unspecified order.
- Concurrency and transactions are not modelled. Every method runs alone, and a failed transaction is modelled by its visible effect.
- `OrderService.Update` reads and then writes without atomicity, and the chosen courier is never reserved or set to Working. The model keeps that behaviour and adds no reservation.
- Database errors other than these are not modelled: no row, a taken phone, an unknown restaurant, an empty SET list, and the row scan and cursor errors of the order listing. Connection failures and timeouts are among those left out.
- The scan and cursor errors of `UserPg.GetAllOrders` are parameters, because the schema is not part of this model.
- `OrderService.OrderService.Update`: the code keeps the lookup's own error when it is not "no rows", but the modelled lookup fails only with no rows. The "Order not found" branches for a failing order lookup have the same limitation.
- `OrderService.Update` rewrites the caller's input order in place; the model writes a copy, `patch`, instead.
- A NULL courier is the courier id 0. A NULL user address is not modelled.
- Order totals are computed in the database by code that is not part of this model. Only the stored prices are kept.
- `MenuRepository.MenuItemPg.Create`, `UpdateImage` and `DeleteItem`, and the courier repository's active-order query, are not part of this model. The first three are given their evident table effect; for the last, only its guard `CourierService.GetActiveOrderGuard` is modelled.
- `UserPg.Update` keeps the phone: the code does not write it.
- Go's `int` is 64 bits. Status differences and item counts never come near overflow, so they are unbounded integers.
- The role names used by the services are not in the shown service files. The strings are taken from the test constants, and the Dafny constructor names carry a `Role` suffix.
- The user service (`internal/service/user.go`) is not modelled, because its signatures disagree with both its handler and its repository. The wiring files and the admin service are not modelled either.
