# beaches_back booking core, in Dafny

This project models the core of the beaches_back booking backend. Users book seats and objects (floor-plan *modules*) at *places* for time slots. Places and their modules are managed by partners and superusers. The model covers:

- the table writes of the Diesel model layer:
  - place types, module types, places, managers, modules, events
  - orders, canonical time slots, logs, regions and cities
  - users and partners
- the reconciliation that `Module::create` runs over a place's floor plan;
- the permission codes and the access gates of the user and place handlers;
- the mapping from database and framework errors to HTTP responses.

The database is one object, `Tables.Database`. Each field of it is one table, held as a sequence of rows in storage order. Every write is a method that assigns the table's new contents. Each method is proved against a function of the old table, and the properties the code promises are lemmas about those functions:

- inserts append a row;
- deletes keep the rows a filter accepts;
- updates map the rows whose id matches.

Reads are functions over the table.

Anything the handlers obtain from outside is passed in as a parameter:

- fresh uuids;
- the current time, as whole seconds;
- the text parsers;
- the password hash;
- random bytes;
- the session's sign-in state and current user.

An `unwrap`/`expect` that would panic is a precondition. The handlers' own choices are modelled exactly: the 0/1/"" return codes, the guards, the constants, and the three-hour shifts.

Files:

| file | module | covers |
|---|---|---|
| common.dfy | `Common` | ids, timestamps, `Option`, parsers with `i16`/`i32` bounds, the order-preserving `Filter`, `.first()`, ascending sort |
| tables.dfy | `Tables` | one datatype per row struct, and the `Database` class |
| other.dfy | `Other` | src/models/other.rs: times, orders, logs, regions, cities |
| places.dfy | `Places` | src/models/places.rs: place types, module types, places, managers, modules, events |
| users.dfy | `Users` | src/models/user.rs: permission codes, listings, perm setters, users, managers, partners |
| api_error.dfy | `ApiErrors` | src/api_error.rs |
| users_views.dfy | `UsersViews` | the gates of src/views/users_views.rs |
| places_views.dfy | `PlacesViews` | the gates of src/views/places_views.rs |

## Model

| member | source | states |
|---|---|---|
| Common.ParseBounded | src/models/places.rs:160 | `str::parse::<iN>()` succeeds exactly when the parser accepts the text and the value lies within the width's bounds, and then yields that value |
| Common.Filter | src/models/places.rs:126-132 | a filtered load keeps exactly the rows the predicate accepts, each as often as stored, in storage order |
| Common.FirstIndex | src/models/places.rs:119-125 | `.first()` on a filtered load reads the earliest matching row: it matches, and no earlier row does |
| Common.First | src/models/places.rs:119-125 | the row `.first()` returns is in the table and satisfies the filter |
| Common.FirstIndexAgree | src/models/places.rs:177-199 | two tables that match the filter at the same positions give `.first()` the same position; this is what makes every edit-then-get lemma hold |
| Common.FilterFilter | src/models/places.rs:281-288 | narrowing an already filtered load by a weaker predicate adds nothing |
| Common.FilterAppend | src/models/other.rs:181-191 | a filtered delete distributes over concatenated tables |
| Common.SortAscending | src/models/other.rs:251-258 | `ORDER BY ... ASC` yields an ascending permutation of its input |
| Other.AllTimes | src/models/other.rs:251-258 | `Time::get_all` returns every stored time, each as often as stored, ascending; a value is listed iff some row holds it |
| Other.CreateTime | src/models/other.rs:259-278 | `Time::create` returns 0 and changes nothing iff the exact time is stored; otherwise it appends one row with the unshifted time and returns 1; either way the time is stored afterwards |
| Other.CreateTimeTwice | src/models/other.rs:259-267 | a second `Time::create` with the same time returns 0 and leaves the table as the first call left it |
| Other.StoreSlot | src/models/other.rs:121-138 | the time-slot step of `Order::create`: one row, holding the parsed value plus three hours, on a lookup miss only |
| Other.TimeSlotMissRepeats | src/models/other.rs:121-157 | the lookup and the stored value disagree by three hours, so a miss stays a miss and repeating the step for one time inserts a second row |
| Other.PlacedOrders | src/models/other.rs:159-171 | one order per submitted item, in list order, with the item's fields verbatim (time strings included), its own id, the caller as owner, `types = 1` and the request time |
| Other.SlotsAfter | src/models/other.rs:115-157 | the time table after the whole walk extends the old one by at most two rows per item |
| Other.SlotsAfterRowsFromItems | src/models/other.rs:121-157 | every row the walk adds belongs to one item, holds that item's start or end plus three hours, and was missing when the lookup ran |
| Other.SlotsAfterAllStored | src/models/other.rs:121-157 | when every submitted time is already stored, the walk adds no time row |
| Other.CreateOrders | src/models/other.rs:112-178 | `Order::create` walks the items in order: it appends exactly the placed orders, runs the time-slot step for each start and end, and returns 1 |
| Other.PlaceItem | src/models/other.rs:115-176 | one iteration: the two time-slot steps, then the order row |
| Other.OrdersAfterDelete | src/models/other.rs:181-191 | `Order::delete` removes exactly the caller's orders whose id is listed; every other row keeps its multiplicity |
| Other.DeleteOrders | src/models/other.rs:181-191 | the delete method computes that table and returns 1 |
| Other.DeletePlacedOrders | src/models/other.rs:112-191 | deleting the ids one `Order::create` just wrote removes all its orders and leaves the table as the delete alone would have left it before |
| Other.OrdersForPlace | src/models/other.rs:105-111 | `Order::get_for_place` lists exactly the place's orders |
| Other.InsertNewestFirst | src/models/places.rs:260-265 | inserting one order into a newest-first sequence keeps it newest first and adds exactly that order |
| Other.SortNewestFirst | src/models/places.rs:260-265 | `ORDER BY created DESC` yields a newest-first permutation |
| Other.PlaceOrders | src/models/places.rs:259-280 | `Place::get_orders` lists exactly the place's orders, newest first |
| Other.CreateLog | src/models/other.rs:220-235 | `Log::create` appends one row whose place_id is the submitted user_id, created three hours after now; returns 1 |
| Other.RegionsOfCountry | src/models/other.rs:293-299 | `Region::get_country_all` lists exactly the country's regions |
| Other.RegionById | src/models/other.rs:306-312 | `Region::get` returns a region with that id |
| Other.CreateRegion | src/models/other.rs:313-332 | `Region::create` appends one region of country 1 with no geo or timezone id; returns 1 |
| Other.CreatedRegionListed | src/models/other.rs:293-332 | a created region is listed under country 1 and, when its id was free, `Region::get` returns it |
| Other.RegionsEdited | src/models/other.rs:333-354 | `Region::edit` changes only name and cord of the matching row |
| Other.EditRegion | src/models/other.rs:333-354 | the edit method computes that table and returns 1 |
| Other.EditThenGetRegion | src/models/other.rs:306-354 | after the edit, `Region::get` returns the same region with the new name and cord |
| Other.DeleteRegion | src/models/other.rs:355-364 | `Region::delete` removes exactly the rows with that id; the remaining rows keep their order and multiplicity; returns 1 |
| Other.DeletedRegionUnlisted | src/models/other.rs:293-364 | after `Region::delete`, a country's region listing is the old one without that region, in the same order |
| Other.CityById | src/models/other.rs:393-399 | `Citie::get` returns a city with that id |
| Other.CitiesOfRegion | src/models/other.rs:400-406 | `Citie::get_region_all` lists exactly the region's cities |
| Other.CitiesOfCountry | src/models/other.rs:407-413 | `Citie::get_country_all` lists exactly the country's cities |
| Other.CreateCity | src/models/other.rs:414-434 | `Citie::create` appends one city of country 1 with no geo id; returns 1 |
| Other.CitiesEdited | src/models/other.rs:435-458 | `Citie::edit` changes only name, region and cord of the matching row |
| Other.EditCity | src/models/other.rs:435-458 | the edit method computes that table and returns 1 |
| Other.EditThenGetCity | src/models/other.rs:393-458 | after the edit, `Citie::get` returns the same city with the new name, region and cord |
| Other.DeleteCity | src/models/other.rs:459-468 | `Citie::delete` removes exactly the rows with that id; the remaining rows keep their order and multiplicity; returns 1 |
| Places.CreatePlaceType | src/models/places.rs:43-63 | `PlaceType::create` returns 0 and changes nothing iff the title is taken; otherwise it appends exactly one row with that title and returns 1; titles stay unique |
| Places.PlaceTypesEdited | src/models/places.rs:64-75 | `PlaceType::edit` changes only the title of the matching row |
| Places.EditPlaceType | src/models/places.rs:64-75 | the edit method computes that table and returns 1 |
| Places.DeletePlaceType | src/models/places.rs:76-85 | `PlaceType::delete` removes exactly the rows with that id; the remaining rows keep their order and multiplicity; returns 1 |
| Places.ModuleTypeById | src/models/places.rs:119-125 | `ModuleType::get` returns a module type with that id |
| Places.ModuleTypesOfPlace | src/models/places.rs:126-132 | `ModuleType::get_all_for_place` lists exactly the place's module types |
| Places.CreateModuleType | src/models/places.rs:141-176 | `ModuleType::create` returns "" and changes nothing iff the place already has the title; otherwise it appends one row with no image and the parsed `i32` price, and returns its id |
| Places.ModuleTypesEdited | src/models/places.rs:177-200 | `ModuleType::edit` changes only title, description, types and price; id, place and image stay |
| Places.EditModuleType | src/models/places.rs:177-200 | the edit method computes that table and returns the edited type's id |
| Places.EditThenGetModuleType | src/models/places.rs:119-200 | after the edit, `ModuleType::get` returns the same row with the four new columns |
| Places.DeleteModuleType | src/models/places.rs:201-210 | `ModuleType::delete` removes exactly the rows with that id; the remaining rows keep their order and multiplicity; returns 1 |
| Places.PlacesWithStatus | src/models/places.rs:321-341 | a status listing holds exactly the places with that lifecycle code |
| Places.ActivePlacesOfType | src/models/places.rs:290-297 | `Place::get_all` lists exactly the active places of the type |
| Places.ActivePlaces | src/models/places.rs:298-304 | `Place::all` lists exactly the active places |
| Places.SuggestedPlaces | src/models/places.rs:321-327 | `Place::get_suggest` lists exactly the places with code 0 |
| Places.EditedPlaces | src/models/places.rs:328-334 | `Place::get_edited` lists exactly the places with code 2 |
| Places.ClosedPlaces | src/models/places.rs:335-341 | `Place::get_closed` lists exactly the places with code 3 |
| Places.ActivePlace | src/models/places.rs:305-320 | `Place::get` and `Place::get_place` return an active place with that id |
| Places.StatusListingsPartition | src/models/places.rs:298-341 | each place with a code from 0 to 3 appears in exactly one of the four status listings, the one of its code |
| Places.CreatePlace | src/models/places.rs:342-369 | `Place::create` appends one active place with the parsed `i32` city and `i16` type, no image or background, created three hours after now; returns 1 |
| Places.PlacesEdited | src/models/places.rs:370-391 | `Place::edit` changes only title, type id and cord of the matching row |
| Places.EditPlace | src/models/places.rs:370-391 | the edit method computes that table and returns 1 |
| Places.EditThenGetPlace | src/models/places.rs:305-391 | an edited active place stays active, and `Place::get` returns it with the new title, type id and cord |
| Places.DeletePlace | src/models/places.rs:408-417 | `Place::delete` removes exactly the rows with that id; the remaining rows keep their order and multiplicity; returns 1 |
| Places.DeletedPlaceUnlisted | src/models/places.rs:321-417 | after `Place::delete`, every status listing is the old one without that place, in the same order |
| Places.ManagerIds | src/models/places.rs:420-424 | the loaded user ids are exactly those of the place's manager rows |
| Places.PublicWhere | src/models/user.rs:247-259 | a filtered `.select(...)` lists exactly the public columns of the users the filter accepts |
| Places.PlaceManagers | src/models/places.rs:418-437 | `Place::get_managers` lists exactly the public columns of the users who manage the place |
| Places.CreatePlaceManager | src/models/places.rs:457-470 | `PlaceManager::create` appends one manager row; returns 1 |
| Places.DeletePlaceManager | src/models/places.rs:471-480 | `PlaceManager::delete` removes exactly the rows with that id; the remaining rows keep their order and multiplicity; returns 1 |
| Places.PlaceModuleIds | src/models/places.rs:553-558 | the ids loaded before the walk are exactly those of the place's modules |
| Places.UpdateModule | src/models/places.rs:564-589 | the update branch overwrites every submitted column of the row with that id and nothing else |
| Places.DeleteUnlisted | src/models/places.rs:622-628 | the bulk delete keeps a row iff it belongs to another place or its id was submitted |
| Places.LastWith | src/models/places.rs:562-620 | for a repeated id, the submission the table ends with is the one no later submission shares its id with |
| Places.UpsertAllShape | src/models/places.rs:562-620 | the walk keeps the original rows' ids, places and types in place; it appends only new active rows of the place; ids stay unique; every submitted id has a row carrying its last submission |
| Places.ReconcileSpec | src/models/places.rs:549-630 | afterwards ids are unique; the place's modules have exactly the submitted ids, each carrying its last submission; a pre-existing module keeps its place and type; a new one is an active module of the place |
| Places.ReconcileKeepsOtherPlaces | src/models/places.rs:549-630 | the modules of every other place are exactly as before, in the same order |
| Places.CreateModules | src/models/places.rs:549-630 | `Module::create`'s loop and bulk delete compute the reconciled table and return 1 |
| Places.ModulesOfPlace | src/models/places.rs:534-540 | `Module::get_all_for_place` lists exactly the place's modules |
| Places.ModulesOfPlaceWithType | src/models/places.rs:541-548 | `Module::get_all_for_place_with_type` lists exactly the place's modules of that type |
| Places.ActiveModulesOfPlace | src/models/places.rs:281-288 | `Place::get_modules` lists exactly the place's modules with status 1 |
| Places.ModuleListingsNest | src/models/places.rs:281-288 | narrowing `get_all_for_place` by type, or by status 1, gives exactly the narrower query, in the same order |
| Places.DeleteModule | src/models/places.rs:632-641 | `Module::delete` removes exactly the rows with that id; the remaining rows keep their order and multiplicity; returns 1 |
| Places.DeletedModuleUnlisted | src/models/places.rs:534-641 | after `Module::delete`, a place's module listing is the old one without that module, in the same order |
| Places.EventById | src/models/places.rs:670-676 | `Event::get` returns an event with that id |
| Places.EventsOfPlace | src/models/places.rs:677-683 | `Event::get_all_for_place` lists exactly the place's events |
| Places.CreateEvent | src/models/places.rs:684-758 | `Event::create` runs the time-slot step for start, then for end; it then appends one active event created at now, with the parsed `i32` price, the submitted time strings verbatim and no image, and returns its id |
| Places.EventSlotsAdded | src/models/places.rs:700-740 | `Event::create` adds a time row for start or end only on a miss, holding the value plus three hours; it adds none when both are stored, and both when neither is (unless end is start plus three hours) |
| Places.EventsEdited | src/models/places.rs:760-787 | `Event::edit` changes only title, description, price and the two time strings |
| Places.EditEvent | src/models/places.rs:760-787 | the edit method computes that table and returns the event's id |
| Places.EditThenGetEvent | src/models/places.rs:670-787 | after the edit, `Event::get` returns the same event with the five new columns |
| Places.DeleteEvent | src/models/places.rs:789-798 | `Event::delete`, as written, removes the orders with that id and keeps the other orders in order and multiplicity; the events table is untouched; returns 1 |
| Users.GetAdmins | src/models/user.rs:244-263 | exactly the admins (perm 5) for a superuser, empty for anyone else |
| Users.GetPartners | src/models/user.rs:264-283 | exactly the partners (perm 4) for a superuser, empty for anyone else |
| Users.GetUsers | src/models/user.rs:298-317 | exactly the users with perm below 10 for a superuser, empty for anyone else |
| Users.GetBannedUsers | src/models/user.rs:318-337 | exactly the users with perm above 10 for a superuser, empty for anyone else |
| Users.DistinctPublic | src/models/user.rs:298-337 | under the primary key, two users with different perms have different public columns |
| Users.BlockedIsBannedNotListed | src/models/user.rs:298-337 | for a superuser, a blocked user is in the banned list and never in the users list |
| Users.GetPartnerObjects | src/models/user.rs:284-297 | every active place for perm 10, otherwise exactly the caller's own active places |
| Users.PermSet | src/models/user.rs:185-200 | a perm setter changes only the perm column of the matching user |
| Users.PermSetTwice | src/models/user.rs:185-200 | the later of two perm settings wins, so unblocking undoes a block |
| Users.PermSetKeepsIds | src/models/user.rs:150-200 | a perm setter keeps the primary key and the set of ids |
| Users.BlockThenListings | src/models/user.rs:185-337 | after a block, a superuser sees the user among the banned and not among the users |
| Users.BlockUser | src/models/user.rs:185-192 | `create_user_block` sets perm 21 |
| Users.UnblockUser | src/models/user.rs:193-200 | `delete_user_block` sets perm 1 |
| Users.CreateSuperuser | src/models/user.rs:150-157 | `create_superuser` sets perm 10 |
| Users.DeleteSuperuser | src/models/user.rs:169-176 | `delete_superuser` sets perm 1 |
| Users.NewUser | src/models/user.rs:204-214 | the new user has perm 1, level 100, no image, the hashed password and 32 random bytes |
| Users.CreateUser | src/models/user.rs:202-220 | `User::create` appends that row and returns it |
| Users.CreatedUserListed | src/models/user.rs:202-317 | a created user appears in a superuser's users list |
| Users.UsersEdited | src/models/user.rs:229-243 | `User::edit` changes only the names and email of the matching user |
| Users.EditUser | src/models/user.rs:229-243 | the edit method computes that table and returns 1 |
| Users.EditUserKeepsPerms | src/models/user.rs:229-317 | the edit keeps every perm, and a superuser's users list keeps its length |
| Users.CreateManager | src/models/user.rs:112-131 | `create_manager` needs an active place; it returns 0 and changes nothing unless the caller adds themself, and otherwise appends one manager row and returns 1 |
| Users.ManagersWithout | src/models/user.rs:137-146 | the delete keeps a manager row iff it does not pair that user with that place; afterwards the user is not among the place's managers |
| Users.DeleteManager | src/models/user.rs:132-149 | `delete_manager` needs an active place; it returns 0 and changes nothing unless the caller removes themself, and otherwise removes every row of that pair and returns 1 |
| Users.CreateThenDeleteManager | src/models/user.rs:112-149 | removing a pair just added leaves what removing it before would have |
| Users.CreatePartner | src/models/user.rs:438-454 | `Partner::create` appends one partner with `types = 1` created at now; returns 1 |
| Users.PartnersEdited | src/models/user.rs:456-469 | `Partner::edit` changes only title and inn of the matching partner |
| Users.EditPartner | src/models/user.rs:456-469 | the edit method computes that table and returns 1 |
| Users.PartnerOwnerChanged | src/models/user.rs:158-168 | `edit_owner_partner` changes only the owner of the matching partner |
| Users.EditOwnerPartner | src/models/user.rs:158-168 | the edit method computes that table and returns 1 |
| Users.PartnerEditsCommute | src/models/user.rs:158-469 | the two partner edits touch different columns and commute |
| ApiErrors.FromDiesel | src/api_error.rs:27-35 | any error the database reports maps to 409 with the database's message, NotFound to 404 "Record not found", anything else to 500 "Diesel error: ..." (each iff) |
| ApiErrors.FromActix | src/api_error.rs:37-41 | a framework error maps to 500 with its text |
| ApiErrors.ErrorResponse | src/api_error.rs:43-59 | the status is the stored code when it is valid (100 to 999), otherwise 500; the body carries the stored message below 500 and "Internal server error" otherwise |
| ApiErrors.Display | src/api_error.rs:21-25 | `Display` writes exactly the stored message |
| ApiErrors.DieselResponses | src/api_error.rs:27-59 | the client sees 409 with the database message, 404 with the not-found text, or 500 with the generic text, never the driver's description |
| ApiErrors.ActixResponse | src/api_error.rs:37-59 | a framework error reaches the client as 500 with the generic text |
| ApiErrors.ExposedIffBelow500 | src/api_error.rs:43-59 | the stored message is exposed iff the response status is below 500, that is iff the stored code is valid and below 500 |
| UsersViews.GetOrdersView | src/views/users_views.rs:44-52 | empty without a session, otherwise exactly the caller's orders |
| UsersViews.GetAdminsView | src/views/users_views.rs:54-67 | non-empty only for a signed-in superuser, who gets exactly the admins |
| UsersViews.GetModeratorsView | src/views/users_views.rs:99-112 | non-empty only for a signed-in superuser, who gets exactly the admins' public columns |
| UsersViews.ModeratorsAreAdmins | src/views/users_views.rs:54-112 | `get_moderators` and `get_admins` answer every request alike |
| UsersViews.GetUsersView | src/views/users_views.rs:69-82 | non-empty only for a signed-in superuser, who gets exactly the users below perm 10 |
| UsersViews.AdminsReceiveNoUsers | src/views/users_views.rs:72-73 | an admin passes the handler's gate and still receives an empty list |
| UsersViews.GetPartnersView | src/views/users_views.rs:84-97 | non-empty only for a signed-in superuser, who gets exactly the active partners |
| UsersViews.GetBannedUsersView | src/views/users_views.rs:114-127 | non-empty only for a signed-in superuser, who gets exactly the users above perm 10 |
| UsersViews.BlockUserView | src/views/users_views.rs:133-139 | replies 200; blocks iff the request is signed in, with no perm check |
| UsersViews.UnblockUserView | src/views/users_views.rs:140-146 | replies 200; unblocks iff the current user has perm 10, with no sign-in check |
| UsersViews.BlockGatesDiffer | src/views/users_views.rs:133-146 | blocking depends only on the session and unblocking only on the user; a superuser without a session can unblock but not block |
| UsersViews.CreateManagerView | src/views/users_views.rs:147-153 | replies 200; calls `create_manager` iff signed in |
| UsersViews.DeleteManagerView | src/views/users_views.rs:154-160 | replies 200; calls `delete_manager` iff signed in |
| UsersViews.CreatePartnerView | src/views/users_views.rs:162-170 | replies 200; creates iff signed in with perm 10 |
| UsersViews.DeletePartnerView | src/views/users_views.rs:171-179 | replies 200; deletes iff signed in with perm 10 |
| UsersViews.ChangeOwnerPartnerView | src/views/users_views.rs:190-198 | replies 200; changes the owner iff signed in with perm 10 |
| UsersViews.PartnerGatesAgree | src/views/users_views.rs:162-198 | the three partner handlers pass exactly the same requests: a signed-in superuser |
| PlacesViews.GetPlacesView | src/views/places_views.rs:36-38 | exactly the active places, with no session check |
| PlacesViews.GetPlaceView | src/views/places_views.rs:40-42 | an active place with that id |
| PlacesViews.GetPlaceManagersView | src/views/places_views.rs:44-58 | non-empty only for the signed-in owner of the place, who gets exactly its managers |
| PlacesViews.GetPlaceOrdersView | src/views/places_views.rs:59-73 | non-empty only for the signed-in owner of the place, who gets exactly its orders, newest first |
| PlacesViews.GetSuggestPlacesView | src/views/places_views.rs:75-88 | non-empty only for a signed-in superuser, who gets exactly the suggested places |
| PlacesViews.GetClosedPlacesView | src/views/places_views.rs:89-102 | non-empty only for a signed-in superuser, who gets exactly the closed places |
| PlacesViews.PlaceListingsDisjoint | src/views/places_views.rs:36-102 | a place in the public listing is never in the suggested or closed listings |
| PlacesViews.CreatePlaceView | src/views/places_views.rs:104-110 | answers 0 iff not signed in, and then calls nothing; otherwise `Place::create`'s 1 |
| PlacesViews.EditPlaceView | src/views/places_views.rs:111-117 | answers 0 iff not signed in, and then calls nothing; otherwise `Place::edit`'s 1, for any signed-in user |

## Left out

- Database plumbing is not modelled: connections, transactions, and Diesel's error results. Every query is taken to succeed. A panic mid-request (a failing `unwrap`/`expect`) is excluded by a precondition, so the model does not say what earlier writes of that request left behind.
- Uuids, the clock, the text and time parsers, the password hash and the random bytes are parameters. `Order::create` reads the clock once per item; the model passes one `now` to all items.
- `chrono::NaiveDateTime` is whole seconds. The `f64` columns `_left`, `_top` and `_angle` are opaque 64-bit values that are only copied.
- `Module::create` reads Diesel's `ne_any` as SQL `<> ALL`, that is "id not in the list". This is an assumption about the library.
- Places.ReconcileSpec and Places.CreateModules: both require the ids already in the table to be unique, and an id that is not one of the place's modules to be new to the table and submitted once. Otherwise the insert violates the primary key and the request panics.
- Users.BlockUser, Users.UnblockUser, Users.CreateSuperuser and Users.DeleteSuperuser take the id as text. The source passes an `i32` to a text column.
- Users.CreateUser leaves out the `id == 1` promotion to superuser. That code compares a text id with an integer and does not type-check.
- Users.GetAdmins, Users.GetPartners, Users.GetUsers and Users.GetBannedUsers answer an empty list to a caller who is not a superuser. In the source that branch returns a bare `Vec::new()` from a function typed `Json<Vec<UserJson>>` and does not compile. The model returns the evidently intended empty listing.
- Users.EditUser, Users.EditPartner and Users.EditOwnerPartner have bodies in the source that use a connection they never open. The model states the intended field changes.
- `Partner::get`, `Partner::all`, `Partner::get_owner`, `Partner::delete` and `User::get_orders` do not type-check and are not modelled as operations.
  - UsersViews.GetPartnersView lists the active partners, which is the filter `Partner::all` applies.
  - UsersViews.GetOrdersView lists the caller's orders as rows, without the JSON shaping.
  - UsersViews.DeletePartnerView models only the gate.
- Other.PlaceOrders returns order rows. It leaves out each order's client, which `Order::get_client` joins in.
- PlacesViews.GetPlaceOrdersView, PlacesViews.CreatePlaceView and PlacesViews.EditPlaceView model the call each handler evidently means. The calls as written do not compile. `get_place_orders` calls the method `Place::get_orders` as a free function on the place's id and returns its `Vec` where `Json` is expected; it is modelled as Other.PlaceOrders for that place. `create_place` passes one argument to the five-argument `Place::create`, and `edit_place` passes two to the four-argument `Place::edit`; they are modelled by the reply those functions give, 1, with the fields they would write left to Places.CreatePlace and Places.EditPlace.
- PlacesViews.GetPlacesView calls `Place::get_all` without its argument, which does not compile. It is modelled as `Place::all`, the active places. `Users.GetPartnerObjects` makes the same call and is modelled the same way.
- Pass-through listings with no filter are not modelled: `PlaceType::get_all`, `Log::get_all`, `Region::get_all` and `Citie::get_all`. Neither are `Feedback` and `User::get_user_with_email`.
- The image setters are not modelled: `change_image`, `change_avatar`, `change_background` and the `change_avatar` handler. They are file and transaction glue.
- The GET handler `get_place` uses `crate::models::Place.get`, which does not compile. It is modelled as `Place::get`.
- Sessions are not modelled: login, signup, cookies, `is_signed_in` and `get_current_user`. The sign-in state and the current user are inputs, and the model does not say what `get_current_user` does without a session (`unblock_user` calls it without checking).
- Authentication, the outbound HTTP client, server wiring and concurrency are not modelled. Races between a lookup and the insert that follows it are not possible in this single-request, sequential model.
- UsersViews.BlockUserView and the other POST handlers return the called operation as data. The `Call` values name the model methods the handler runs. The model does not run them.
