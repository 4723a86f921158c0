/** src/models/places.rs: place types, module types, places, floor-plan modules
    and events. */
module Places {
  import opened Common
  import opened Tables
  import opened Other

  // ------------------------------------------------------------ place types

  /** The duplicate check of `PlaceType::create`: some row has this title. */
  predicate HasPlaceTypeTitle(types: seq<PlaceType>, title: string)
  {
    exists i :: 0 <= i < |types| && types[i].title == title
  }

  /** No two place types share a title. */
  ghost predicate UniqueTitles(types: seq<PlaceType>)
  {
    forall i, j :: 0 <= i < j < |types| ==> types[i].title != types[j].title
  }

  /** `PlaceType::create`: refuses (0) a title that is already stored, otherwise
      stores it under a fresh id and reports 1. */
  method CreatePlaceType(db: Database, title: string, id: Id) returns (r: int)
    modifies db`placeTypes
    ensures r == (if HasPlaceTypeTitle(old(db.placeTypes), title) then 0 else 1)
    ensures r == 0 ==> db.placeTypes == old(db.placeTypes)
    ensures r == 1 ==> db.placeTypes == old(db.placeTypes) + [PlaceType(id, title)]
    ensures HasPlaceTypeTitle(db.placeTypes, title)
    ensures UniqueTitles(old(db.placeTypes)) ==> UniqueTitles(db.placeTypes)
  {
    if HasPlaceTypeTitle(db.placeTypes, title) {
      return 0;
    }
    db.placeTypes := db.placeTypes + [PlaceType(id, title)];
    assert db.placeTypes[|db.placeTypes| - 1].title == title;
    return 1;
  }

  /** The place-type table after `PlaceType::edit`: the row with that id takes
      the new title; nothing else changes. */
  function PlaceTypesEdited(types: seq<PlaceType>, id: Id, title: string): (r: seq<PlaceType>)
    ensures |r| == |types|
    ensures forall i :: 0 <= i < |r| ==>
      && r[i].id == types[i].id
      && (types[i].id == id ==> r[i].title == title)
      && (types[i].id != id ==> r[i] == types[i])
  {
    seq(|types|, i requires 0 <= i < |types| =>
      if types[i].id == id then types[i].(title := title) else types[i])
  }

  /** `PlaceType::edit`: the type must exist (`expect`); the title is not
      checked for duplicates. Always 1. */
  method EditPlaceType(db: Database, id: Id, title: string) returns (r: int)
    requires exists x :: x in db.placeTypes && x.id == id
    modifies db`placeTypes
    ensures r == 1
    ensures db.placeTypes == PlaceTypesEdited(old(db.placeTypes), id, title)
  {
    db.placeTypes := PlaceTypesEdited(db.placeTypes, id, title);
    return 1;
  }

  /** The rows a delete by id keeps. */
  function PlaceTypeIsNot(id: Id): PlaceType -> bool
  {
    (x: PlaceType) => x.id != id
  }

  /** `PlaceType::delete`. Always 1. */
  method DeletePlaceType(db: Database, id: Id) returns (r: int)
    modifies db`placeTypes
    ensures r == 1
    ensures db.placeTypes == Filter(old(db.placeTypes), PlaceTypeIsNot(id))
    ensures forall x :: x in db.placeTypes <==> x in old(db.placeTypes) && x.id != id
  {
    db.placeTypes := Filter(db.placeTypes, PlaceTypeIsNot(id));
    return 1;
  }

  // ----------------------------------------------------------- module types

  /** The duplicate check of `ModuleType::create`: the place already has a
      module type with this title. */
  predicate HasModuleType(types: seq<ModuleType>, placeId: Id, title: string)
  {
    exists i :: 0 <= i < |types| && types[i].placeId == placeId && types[i].title == title
  }

  /** `ModuleType::get` */
  function ModuleTypeById(types: seq<ModuleType>, id: Id): (r: ModuleType)
    requires exists x :: x in types && x.id == id
    ensures r in types && r.id == id
  {
    First(types, (x: ModuleType) => x.id == id)
  }

  /** `ModuleType::get_all_for_place` */
  function ModuleTypesOfPlace(types: seq<ModuleType>, placeId: Id): (r: seq<ModuleType>)
    ensures forall x :: x in r <==> x in types && x.placeId == placeId
  {
    Filter(types, (x: ModuleType) => x.placeId == placeId)
  }

  /** `ModuleType::create`: refuses ("") a title the place already uses;
      otherwise parses the price as an `i32` (`unwrap`), stores the row with no
      image and returns its fresh id, which is never empty. */
  method CreateModuleType(db: Database, placeId: Id, title: string, description: string, types: string,
                          price: string, parse: Parser, id: Id) returns (r: Id)
    requires id != ""
    requires !HasModuleType(db.moduleTypes, placeId, title) ==> ParseBounded(parse, price, I32Min, I32Max).Some?
    modifies db`moduleTypes
    ensures r == "" <==> HasModuleType(old(db.moduleTypes), placeId, title)
    ensures r == "" ==> db.moduleTypes == old(db.moduleTypes)
    ensures r != "" ==> (r == id && db.moduleTypes == old(db.moduleTypes)
      + [ModuleType(id, placeId, title, description, types, None, ParseBounded(parse, price, I32Min, I32Max).value)])
    ensures HasModuleType(db.moduleTypes, placeId, title)
  {
    if HasModuleType(db.moduleTypes, placeId, title) {
      return "";
    }
    var p := ParseBounded(parse, price, I32Min, I32Max).value;
    db.moduleTypes := db.moduleTypes + [ModuleType(id, placeId, title, description, types, None, p)];
    assert db.moduleTypes[|db.moduleTypes| - 1].title == title;
    return id;
  }

  /** The module-type table after `ModuleType::edit`: the row with that id
      takes the new title, description, types and price; its place and image
      stay. */
  function ModuleTypesEdited(types: seq<ModuleType>, id: Id, title: string, description: string,
                             kinds: string, price: int): (r: seq<ModuleType>)
    ensures |r| == |types|
    ensures forall i :: 0 <= i < |r| ==>
      && r[i].id == types[i].id && r[i].placeId == types[i].placeId && r[i].image == types[i].image
      && (types[i].id == id ==>
            r[i].title == title && r[i].description == description && r[i].types == kinds && r[i].price == price)
      && (types[i].id != id ==> r[i] == types[i])
  {
    seq(|types|, i requires 0 <= i < |types| =>
      if types[i].id == id
      then types[i].(title := title, description := description, types := kinds, price := price)
      else types[i])
  }

  /** `ModuleType::edit`: the type must exist and the price must parse as an
      `i32`; returns the edited type's id. */
  method EditModuleType(db: Database, id: Id, title: string, description: string, kinds: string,
                        price: string, parse: Parser) returns (r: Id)
    requires exists x :: x in db.moduleTypes && x.id == id
    requires ParseBounded(parse, price, I32Min, I32Max).Some?
    modifies db`moduleTypes
    ensures r == id
    ensures db.moduleTypes
         == ModuleTypesEdited(old(db.moduleTypes), id, title, description, kinds, ParseBounded(parse, price, I32Min, I32Max).value)
  {
    var found := ModuleTypeById(db.moduleTypes, id);
    var p := ParseBounded(parse, price, I32Min, I32Max).value;
    db.moduleTypes := ModuleTypesEdited(db.moduleTypes, id, title, description, kinds, p);
    return found.id;
  }

  /** After `ModuleType::edit`, `ModuleType::get` returns the row it read before,
      with the four new columns. */
  lemma EditThenGetModuleType(types: seq<ModuleType>, id: Id, title: string, description: string,
                              kinds: string, price: int)
    requires exists x :: x in types && x.id == id
    ensures exists x :: x in ModuleTypesEdited(types, id, title, description, kinds, price) && x.id == id
    ensures ModuleTypeById(ModuleTypesEdited(types, id, title, description, kinds, price), id)
         == ModuleTypeById(types, id).(title := title, description := description, types := kinds, price := price)
  {
    var edited := ModuleTypesEdited(types, id, title, description, kinds, price);
    FirstIndexAgree(types, edited, (x: ModuleType) => x.id == id);
  }

  /** The rows a delete by id keeps. */
  function ModuleTypeIsNot(id: Id): ModuleType -> bool
  {
    (x: ModuleType) => x.id != id
  }

  /** `ModuleType::delete`. Always 1. */
  method DeleteModuleType(db: Database, id: Id) returns (r: int)
    modifies db`moduleTypes
    ensures r == 1
    ensures db.moduleTypes == Filter(old(db.moduleTypes), ModuleTypeIsNot(id))
    ensures forall x :: x in db.moduleTypes <==> x in old(db.moduleTypes) && x.id != id
  {
    db.moduleTypes := Filter(db.moduleTypes, ModuleTypeIsNot(id));
    return 1;
  }

  // ----------------------------------------------------------------- places

  /** The lifecycle codes of a place (`types`). */
  const Suggested: int := 0
  const Active: int := 1
  const Edited: int := 2
  const Closed: int := 3

  /** The places with lifecycle code `code`, in table order. */
  function PlacesWithStatus(places: seq<Place>, code: int): (r: seq<Place>)
    ensures forall x :: x in r <==> x in places && x.types == code
  {
    Filter(places, (x: Place) => x.types == code)
  }

  /** `Place::get_all(type_id)`: the active places of one place type. */
  function ActivePlacesOfType(places: seq<Place>, typeId: int): (r: seq<Place>)
    ensures forall x :: x in r <==> x in places && x.typeId == typeId && x.types == Active
  {
    Filter(places, (x: Place) => x.typeId == typeId && x.types == Active)
  }

  /** `Place::all` */
  function ActivePlaces(places: seq<Place>): (r: seq<Place>)
    ensures forall x :: x in r <==> x in places && x.types == Active
  {
    PlacesWithStatus(places, Active)
  }

  /** `Place::get_suggest` */
  function SuggestedPlaces(places: seq<Place>): (r: seq<Place>)
    ensures forall x :: x in r <==> x in places && x.types == Suggested
  {
    PlacesWithStatus(places, Suggested)
  }

  /** `Place::get_edited` */
  function EditedPlaces(places: seq<Place>): (r: seq<Place>)
    ensures forall x :: x in r <==> x in places && x.types == Edited
  {
    PlacesWithStatus(places, Edited)
  }

  /** `Place::get_closed` */
  function ClosedPlaces(places: seq<Place>): (r: seq<Place>)
    ensures forall x :: x in r <==> x in places && x.types == Closed
  {
    PlacesWithStatus(places, Closed)
  }

  /** `Place::get` and `Place::get_place` find only an active place; otherwise
      `expect` panics. */
  predicate HasActivePlace(places: seq<Place>, id: Id)
  {
    exists x :: x in places && x.id == id && x.types == Active
  }

  /** `Place::get` / `Place::get_place` */
  function ActivePlace(places: seq<Place>, id: Id): (r: Place)
    requires HasActivePlace(places, id)
    ensures r in places && r.id == id && r.types == Active
  {
    First(places, (x: Place) => x.id == id && x.types == Active)
  }

  /** The four status listings split the places with a lifecycle code between
      them: each such place is in exactly the listing of its code. */
  lemma {:induction false} StatusListingsPartition(places: seq<Place>, x: Place)
    requires x in places && Suggested <= x.types <= Closed
    ensures (x in SuggestedPlaces(places)) == (x.types == Suggested)
    ensures (x in ActivePlaces(places)) == (x.types == Active)
    ensures (x in EditedPlaces(places)) == (x.types == Edited)
    ensures (x in ClosedPlaces(places)) == (x.types == Closed)
    ensures 1 == (if x in SuggestedPlaces(places) then 1 else 0) + (if x in ActivePlaces(places) then 1 else 0)
               + (if x in EditedPlaces(places) then 1 else 0) + (if x in ClosedPlaces(places) then 1 else 0)
  {
  }

  /** `Place::create`: parses the city id as an `i32` and the type id as an
      `i16` (`unwrap`), then stores an active place with no image or background,
      created three hours after `now`. Always 1. */
  method CreatePlace(db: Database, title: string, userId: Id, cityId: string, typeId: string,
                     cord: Option<string>, parse: Parser, id: Id, now: Timestamp) returns (r: int)
    requires ParseBounded(parse, cityId, I32Min, I32Max).Some?
    requires ParseBounded(parse, typeId, I16Min, I16Max).Some?
    modifies db`places
    ensures r == 1
    ensures db.places == old(db.places) + [Place(id, title, Active, now + ThreeHours, userId,
      ParseBounded(parse, cityId, I32Min, I32Max).value, ParseBounded(parse, typeId, I16Min, I16Max).value,
      None, None, cord)]
  {
    var city := ParseBounded(parse, cityId, I32Min, I32Max).value;
    var kind := ParseBounded(parse, typeId, I16Min, I16Max).value;
    db.places := db.places + [Place(id, title, Active, now + ThreeHours, userId, city, kind, None, None, cord)];
    return 1;
  }

  /** The places table after `Place::edit`: the row with that id takes the new
      title, type id and cord; its owner, status, city and images stay. */
  function PlacesEdited(places: seq<Place>, id: Id, title: string, typeId: int, cord: Option<string>): (r: seq<Place>)
    ensures |r| == |places|
    ensures forall i :: 0 <= i < |r| ==>
      && r[i].id == places[i].id && r[i].types == places[i].types && r[i].userId == places[i].userId
      && r[i].cityId == places[i].cityId && r[i].created == places[i].created
      && r[i].image == places[i].image && r[i].background == places[i].background
      && (places[i].id == id ==> r[i].title == title && r[i].typeId == typeId && r[i].cord == cord)
      && (places[i].id != id ==> r[i] == places[i])
  {
    seq(|places|, i requires 0 <= i < |places| =>
      if places[i].id == id then places[i].(title := title, typeId := typeId, cord := cord) else places[i])
  }

  /** `Place::edit`: the type id must parse as an `i16` and the place must exist
      (in any status). Always 1. */
  method EditPlace(db: Database, id: Id, title: string, typeId: string, cord: Option<string>, parse: Parser)
    returns (r: int)
    requires ParseBounded(parse, typeId, I16Min, I16Max).Some?
    requires exists x :: x in db.places && x.id == id
    modifies db`places
    ensures r == 1
    ensures db.places == PlacesEdited(old(db.places), id, title, ParseBounded(parse, typeId, I16Min, I16Max).value, cord)
  {
    var kind := ParseBounded(parse, typeId, I16Min, I16Max).value;
    db.places := PlacesEdited(db.places, id, title, kind, cord);
    return 1;
  }

  /** Editing an active place keeps it active, and `Place::get` then returns it
      with the new title, type id and cord. */
  lemma EditThenGetPlace(places: seq<Place>, id: Id, title: string, typeId: int, cord: Option<string>)
    requires HasActivePlace(places, id)
    ensures HasActivePlace(PlacesEdited(places, id, title, typeId, cord), id)
    ensures ActivePlace(PlacesEdited(places, id, title, typeId, cord), id)
         == ActivePlace(places, id).(title := title, typeId := typeId, cord := cord)
  {
    var edited := PlacesEdited(places, id, title, typeId, cord);
    FirstIndexAgree(places, edited, (x: Place) => x.id == id && x.types == Active);
  }

  /** The rows a delete by id keeps. */
  function PlaceIsNot(id: Id): Place -> bool
  {
    (x: Place) => x.id != id
  }

  /** `Place::delete`. Always 1. */
  method DeletePlace(db: Database, id: Id) returns (r: int)
    modifies db`places
    ensures r == 1
    ensures db.places == Filter(old(db.places), PlaceIsNot(id))
    ensures forall x :: x in db.places <==> x in old(db.places) && x.id != id
  {
    db.places := Filter(db.places, PlaceIsNot(id));
    return 1;
  }

  /** After a delete, every status listing is the old listing without the
      deleted place, in the same order. */
  lemma DeletedPlaceUnlisted(places: seq<Place>, id: Id, code: int)
    ensures PlacesWithStatus(Filter(places, PlaceIsNot(id)), code)
         == Filter(PlacesWithStatus(places, code), PlaceIsNot(id))
  {
    FilterCommute(places, PlaceIsNot(id), (x: Place) => x.types == code);
  }

  /** The user ids of the place's managers (`place_managers.user_id`). */
  function ManagerIds(managers: seq<PlaceManager>, placeId: Id): (r: seq<Id>)
    ensures forall u :: u in r <==> exists m :: m in managers && m.placeId == placeId && m.userId == u
  {
    if managers == [] then []
    else
      var n := |managers| - 1;
      assert managers == managers[..n] + [managers[n]];
      ManagerIds(managers[..n], placeId) + (if managers[n].placeId == placeId then [managers[n].userId] else [])
  }

  /** The public columns of the given users, in table order. */
  function PublicUsers(users: seq<User>): (r: seq<UserJson>)
    ensures |r| == |users|
    ensures forall i :: 0 <= i < |users| ==> r[i] == Public(users[i])
  {
    seq(|users|, i requires 0 <= i < |users| => Public(users[i]))
  }

  /** The public columns of the users that pass `keep`, in table order (a
      filtered `.select(...)` on the users table). */
  function PublicWhere(users: seq<User>, keep: User -> bool): (r: seq<UserJson>)
    ensures forall j :: j in r <==> exists u :: u in users && keep(u) && j == Public(u)
  {
    var chosen := Filter(users, keep);
    var r := PublicUsers(chosen);
    assert forall j :: j in r <==> exists u :: u in chosen && j == Public(u) by {
      forall j ensures j in r <==> exists u :: u in chosen && j == Public(u) {
        if j in r {
          var i :| 0 <= i < |r| && r[i] == j;
          assert chosen[i] in chosen;
        }
        if u :| u in chosen && j == Public(u) {
          var i :| 0 <= i < |chosen| && chosen[i] == u;
          assert r[i] == j;
        }
      }
    }
    r
  }

  /** `Place::get_managers`: the public columns of every user who manages the
      place. */
  function PlaceManagers(users: seq<User>, managers: seq<PlaceManager>, placeId: Id): (r: seq<UserJson>)
    ensures forall j :: j in r <==>
      exists u :: u in users && j == Public(u) && exists m :: m in managers && m.placeId == placeId && m.userId == u.id
  {
    var ids := ManagerIds(managers, placeId);
    PublicWhere(users, (u: User) => u.id in ids)
  }

  /** `PlaceManager::create`: one new manager row. Always 1. */
  method CreatePlaceManager(db: Database, userId: Id, placeId: Id, id: Id) returns (r: int)
    modifies db`placeManagers
    ensures r == 1
    ensures db.placeManagers == old(db.placeManagers) + [PlaceManager(id, userId, placeId)]
  {
    db.placeManagers := db.placeManagers + [PlaceManager(id, userId, placeId)];
    return 1;
  }

  /** The rows a delete by id keeps. */
  function ManagerIsNot(id: Id): PlaceManager -> bool
  {
    (x: PlaceManager) => x.id != id
  }

  /** `PlaceManager::delete`: removes the manager row with that id. Always 1. */
  method DeletePlaceManager(db: Database, id: Id) returns (r: int)
    modifies db`placeManagers
    ensures r == 1
    ensures db.placeManagers == Filter(old(db.placeManagers), ManagerIsNot(id))
    ensures forall x :: x in db.placeManagers <==> x in old(db.placeManagers) && x.id != id
  {
    db.placeManagers := Filter(db.placeManagers, ManagerIsNot(id));
    return 1;
  }

  // ---------------------------------------------------------------- modules

  /** One submitted floor-plan module (`ModuleJson`). */
  datatype ModuleJson = ModuleJson(
    id: Id,
    title: string,
    labelText: string,
    typeId: Id,
    price: int,
    zIndex: int,
    width: int,
    height: int,
    left: F64,
    top: F64,
    angle: F64,
    fontColor: string,
    fontSize: string,
    backColor: string,
    image: Option<string>,
    eventId: Option<string>)

  /** Every id in the table is distinct (it is the table's primary key). */
  ghost predicate UniqueIds(modules: seq<Module>)
  {
    forall i, j :: 0 <= i < j < |modules| ==> modules[i].id != modules[j].id
  }

  /** Some row of the table has id `x`. */
  ghost predicate HasModule(modules: seq<Module>, x: Id)
  {
    exists i :: 0 <= i < |modules| && modules[i].id == x
  }

  /** The row holds every column the submission sets. */
  ghost predicate Carries(row: Module, m: ModuleJson)
  {
    && row.id == m.id && row.title == m.title && row.labelText == m.labelText
    && row.typeId == m.typeId && row.price == m.price && row.zIndex == m.zIndex
    && row.width == m.width && row.height == m.height
    && row.left == m.left && row.top == m.top && row.angle == m.angle
    && row.fontColor == m.fontColor && row.fontSize == m.fontSize && row.backColor == m.backColor
    && row.image == m.image && row.eventId == m.eventId
  }

  /** The ids the place has before the walk (`modules_ids`). */
  function PlaceModuleIds(modules: seq<Module>, p: Id): (r: seq<Id>)
    ensures forall x :: x in r <==> exists i :: 0 <= i < |modules| && modules[i].placeId == p && modules[i].id == x
  {
    if modules == [] then []
    else
      var n := |modules| - 1;
      var rest := PlaceModuleIds(modules[..n], p);
      assert forall i :: 0 <= i < n ==> modules[..n][i] == modules[i];
      rest + (if modules[n].placeId == p then [modules[n].id] else [])
  }

  /** The submitted ids in list order (`new_modules_ids`). */
  function SubmittedIds(ms: seq<ModuleJson>): (r: seq<Id>)
    ensures |r| == |ms|
    ensures forall i :: 0 <= i < |ms| ==> r[i] == ms[i].id
  {
    seq(|ms|, i requires 0 <= i < |ms| => ms[i].id)
  }

  /** The update branch: the row keeps its id, type and place; every submitted
      column is overwritten. */
  function Updated(row: Module, m: ModuleJson): Module
  {
    row.(title := m.title, labelText := m.labelText, typeId := m.typeId, price := m.price,
         zIndex := m.zIndex, width := m.width, height := m.height,
         left := m.left, top := m.top, angle := m.angle,
         fontColor := m.fontColor, fontSize := m.fontSize, backColor := m.backColor,
         image := m.image, eventId := m.eventId)
  }

  /** The insert branch: a new active row of place `p`. */
  function NewModule(m: ModuleJson, p: Id): Module
  {
    Module(m.id, m.title, m.labelText, 1, p, m.typeId, m.price, m.zIndex, m.width, m.height,
           m.left, m.top, m.angle, m.fontColor, m.fontSize, m.backColor, m.image, m.eventId)
  }

  /** `diesel::update(&_module)`: the row whose primary key is `m.id` takes the
      submitted columns. */
  function UpdateModule(modules: seq<Module>, m: ModuleJson): (r: seq<Module>)
    ensures |r| == |modules|
    ensures forall i :: 0 <= i < |r| ==>
      r[i] == if modules[i].id == m.id then Updated(modules[i], m) else modules[i]
  {
    seq(|modules|, i requires 0 <= i < |modules| =>
      if modules[i].id == m.id then Updated(modules[i], m) else modules[i])
  }

  /** One pass of the walk: a known id is updated, any other id is inserted. */
  function UpsertStep(modules: seq<Module>, known: seq<Id>, p: Id, m: ModuleJson): seq<Module>
  {
    if m.id in known then UpdateModule(modules, m) else modules + [NewModule(m, p)]
  }

  /** The table after the walk over `ms`, before the bulk delete. */
  function UpsertAll(modules: seq<Module>, known: seq<Id>, p: Id, ms: seq<ModuleJson>): seq<Module>
  {
    if ms == [] then modules
    else
      var n := |ms| - 1;
      UpsertStep(UpsertAll(modules, known, p, ms[..n]), known, p, ms[n])
  }

  /** The bulk delete: rows of place `p` whose id was not submitted go. This
      reads `ne_any` as SQL `<> ALL`, that is "id not in the list". */
  function DeleteUnlisted(modules: seq<Module>, p: Id, ids: seq<Id>): (r: seq<Module>)
    ensures forall row :: row in r <==> row in modules && !(row.placeId == p && row.id !in ids)
  {
    Filter(modules, Listed(p, ids))
  }

  /** The rows the bulk delete keeps. */
  function Listed(p: Id, ids: seq<Id>): Module -> bool
  {
    (row: Module) => !(row.placeId == p && row.id !in ids)
  }

  /** The rows of places other than `p`. */
  function OtherPlace(p: Id): Module -> bool
  {
    (row: Module) => row.placeId != p
  }

  /** The whole of `Module::create` for place `p` and submission `ms`. */
  function Reconciled(modules: seq<Module>, p: Id, ms: seq<ModuleJson>): seq<Module>
  {
    DeleteUnlisted(UpsertAll(modules, PlaceModuleIds(modules, p), p, ms), p, SubmittedIds(ms))
  }

  /** The inserts `Module::create` runs do not break the primary key: an id that
      is not already one of the place's modules must be new to the whole table
      and submitted only once. Otherwise the insert fails and the handler
      panics. */
  ghost predicate Insertable(modules: seq<Module>, p: Id, ms: seq<ModuleJson>)
  {
    forall i :: 0 <= i < |ms| && ms[i].id !in PlaceModuleIds(modules, p) ==>
      !HasModule(modules, ms[i].id) && forall j :: 0 <= j < i ==> ms[j].id != ms[i].id
  }

  /** The last submitted module with id `x` (a later duplicate overwrites an
      earlier one). */
  function LastWith(ms: seq<ModuleJson>, x: Id): (r: ModuleJson)
    requires x in SubmittedIds(ms)
    ensures r in ms && r.id == x
    ensures exists k :: 0 <= k < |ms| && ms[k] == r && forall j :: k < j < |ms| ==> ms[j].id != x
  {
    var n := |ms| - 1;
    if ms[n].id == x then ms[n]
    else
      assert x in SubmittedIds(ms[..n]) by {
        var i :| 0 <= i < |ms| && SubmittedIds(ms)[i] == x;
        assert SubmittedIds(ms[..n])[i] == x;
      }
      var r := LastWith(ms[..n], x);
      assert ms == ms[..n] + [ms[n]];
      LaterIdsDiffer(ms[..n], ms[n], r, x);
      r
  }

  /** A row that no later row of `init` shares its id with keeps that
      property when a row with another id is appended. */
  lemma LaterIdsDiffer(init: seq<ModuleJson>, m: ModuleJson, r: ModuleJson, x: Id)
    requires m.id != x
    requires exists k :: 0 <= k < |init| && init[k] == r && forall j :: k < j < |init| ==> init[j].id != x
    ensures exists k ::
      0 <= k < |init + [m]| && (init + [m])[k] == r && forall j :: k < j < |init + [m]| ==> (init + [m])[j].id != x
  {
    var k :| 0 <= k < |init| && init[k] == r && forall j :: k < j < |init| ==> init[j].id != x;
    assert (init + [m])[k] == r;
  }

  /** The original rows keep their position, id, place and type, and a row of
      another place is untouched. */
  ghost predicate KeepsOriginal(modules: seq<Module>, p: Id, u: seq<Module>)
  {
    && |modules| <= |u|
    && forall i :: 0 <= i < |modules| ==>
         && u[i].id == modules[i].id && u[i].placeId == modules[i].placeId
         && u[i].types == modules[i].types
         && (modules[i].placeId != p ==> u[i] == modules[i])
  }

  /** Every row past the original ones is a new active row of `p` with one of
      the submitted ids. */
  ghost predicate AppendedNew(modules: seq<Module>, p: Id, ids: seq<Id>, u: seq<Module>)
  {
    forall i :: |modules| <= i < |u| ==>
      u[i].placeId == p && u[i].types == 1 && u[i].id in ids && !HasModule(modules, u[i].id)
  }

  /** Every submitted id has a row. */
  ghost predicate Covers(ids: seq<Id>, u: seq<Module>)
  {
    forall x :: x in ids ==> HasModule(u, x)
  }

  /** Every row with a submitted id carries that id's last submission. */
  ghost predicate CarriesLast(ms: seq<ModuleJson>, u: seq<Module>)
  {
    forall i :: 0 <= i < |u| && u[i].id in SubmittedIds(ms) ==> Carries(u[i], LastWith(ms, u[i].id))
  }

  /** What the walk leaves in the table. */
  ghost predicate WalkShape(modules: seq<Module>, p: Id, ms: seq<ModuleJson>, u: seq<Module>)
  {
    && KeepsOriginal(modules, p, u)
    && AppendedNew(modules, p, SubmittedIds(ms), u)
    && UniqueIds(u)
    && Covers(SubmittedIds(ms), u)
    && CarriesLast(ms, u)
  }

  lemma InsertablePrefix(modules: seq<Module>, p: Id, ms: seq<ModuleJson>, n: nat)
    requires n <= |ms| && Insertable(modules, p, ms)
    ensures Insertable(modules, p, ms[..n])
  {
    var init := ms[..n];
    forall i | 0 <= i < |init| && init[i].id !in PlaceModuleIds(modules, p)
      ensures !HasModule(modules, init[i].id) && forall j :: 0 <= j < i ==> init[j].id != init[i].id
    {
      assert init[i] == ms[i];
      assert forall j :: 0 <= j < i ==> init[j] == ms[j];
    }
  }

  /** Induction on the submission: the walk keeps `WalkShape`. */
  lemma {:induction false} UpsertAllShape(modules: seq<Module>, p: Id, ms: seq<ModuleJson>)
    requires UniqueIds(modules)
    requires Insertable(modules, p, ms)
    ensures WalkShape(modules, p, ms, UpsertAll(modules, PlaceModuleIds(modules, p), p, ms))
  {
    var known := PlaceModuleIds(modules, p);
    if ms == [] {
      assert SubmittedIds(ms) == [];
    } else {
      var n := |ms| - 1;
      var m := ms[n];
      var init := ms[..n];
      InsertablePrefix(modules, p, ms, n);
      UpsertAllShape(modules, p, init);
      var u := UpsertAll(modules, known, p, init);
      assert ms == init + [m];
      if m.id in known {
        UpdateKnownShape(modules, p, init, m, u);
      } else {
        assert m.id !in SubmittedIds(init) by {
          forall j | 0 <= j < n
            ensures SubmittedIds(init)[j] != m.id
          {
            assert init[j] == ms[j];
          }
        }
        InsertNewShape(modules, p, init, m, u);
      }
    }
  }

  lemma SubmittedIdsSnoc(init: seq<ModuleJson>, m: ModuleJson)
    ensures SubmittedIds(init + [m]) == SubmittedIds(init) + [m.id]
  {
  }

  /** Dropping the last submission does not change the last submission of any
      other id, and a submission is its own id's last one. */
  lemma LastWithSnoc(init: seq<ModuleJson>, m: ModuleJson, x: Id)
    requires x in SubmittedIds(init + [m])
    ensures x == m.id ==> LastWith(init + [m], x) == m
    ensures x != m.id ==> x in SubmittedIds(init) && LastWith(init + [m], x) == LastWith(init, x)
  {
    assert (init + [m])[..|init|] == init;
  }

  lemma UpdateKnownShape(modules: seq<Module>, p: Id, init: seq<ModuleJson>, m: ModuleJson, u: seq<Module>)
    requires UniqueIds(modules)
    requires m.id in PlaceModuleIds(modules, p)
    requires WalkShape(modules, p, init, u)
    ensures WalkShape(modules, p, init + [m], UpdateModule(u, m))
  {
    SubmittedIdsSnoc(init, m);
    var k :| 0 <= k < |modules| && modules[k].placeId == p && modules[k].id == m.id;
    UpdateKeepsOriginal(modules, p, m, u, k);
    UpdateAppended(modules, p, SubmittedIds(init), m, u, k);
    UpdateCovers(modules, init, m, u, k);
    UpdateCarries(init, m, u);
  }

  /** The update changes no id, place or type, and no row of another place. */
  lemma UpdateKeepsOriginal(modules: seq<Module>, p: Id, m: ModuleJson, u: seq<Module>, k: nat)
    requires UniqueIds(modules)
    requires k < |modules| && modules[k].placeId == p && modules[k].id == m.id
    requires KeepsOriginal(modules, p, u)
    requires UniqueIds(u)
    ensures KeepsOriginal(modules, p, UpdateModule(u, m))
    ensures UniqueIds(UpdateModule(u, m))
  {
    var u' := UpdateModule(u, m);
    forall i | 0 <= i < |modules| && modules[i].placeId != p
      ensures u'[i] == modules[i]
    {
      assert i != k;
    }
  }

  /** Appended rows never carry a known id, so the update leaves them alone. */
  lemma UpdateAppended(modules: seq<Module>, p: Id, ids: seq<Id>, m: ModuleJson, u: seq<Module>, k: nat)
    requires k < |modules| && modules[k].id == m.id
    requires AppendedNew(modules, p, ids, u)
    ensures AppendedNew(modules, p, ids + [m.id], UpdateModule(u, m))
  {
    var u' := UpdateModule(u, m);
    assert HasModule(modules, m.id);
    forall i | |modules| <= i < |u'|
      ensures u'[i] == u[i]
    {
      assert u[i].id != m.id;
    }
  }

  lemma UpdateCovers(modules: seq<Module>, init: seq<ModuleJson>, m: ModuleJson, u: seq<Module>, k: nat)
    requires k < |modules| <= |u| && u[k].id == m.id
    requires Covers(SubmittedIds(init), u)
    ensures Covers(SubmittedIds(init + [m]), UpdateModule(u, m))
  {
    var u' := UpdateModule(u, m);
    SubmittedIdsSnoc(init, m);
    forall x | x in SubmittedIds(init + [m])
      ensures HasModule(u', x)
    {
      if x == m.id {
        assert u'[k].id == x;
      } else {
        var i :| 0 <= i < |u| && u[i].id == x;
        assert u'[i] == u[i];
      }
    }
  }

  lemma UpdateCarries(init: seq<ModuleJson>, m: ModuleJson, u: seq<Module>)
    requires CarriesLast(init, u)
    ensures CarriesLast(init + [m], UpdateModule(u, m))
  {
    var u' := UpdateModule(u, m);
    SubmittedIdsSnoc(init, m);
    forall i | 0 <= i < |u'| && u'[i].id in SubmittedIds(init + [m])
      ensures Carries(u'[i], LastWith(init + [m], u'[i].id))
    {
      LastWithSnoc(init, m, u'[i].id);
      if u[i].id != m.id {
        assert u'[i] == u[i];
      }
    }
  }

  lemma InsertNewShape(modules: seq<Module>, p: Id, init: seq<ModuleJson>, m: ModuleJson, u: seq<Module>)
    requires !HasModule(modules, m.id) && m.id !in SubmittedIds(init)
    requires WalkShape(modules, p, init, u)
    ensures WalkShape(modules, p, init + [m], u + [NewModule(m, p)])
  {
    SubmittedIdsSnoc(init, m);
    InsertKeeps(modules, p, SubmittedIds(init), m, u);
    InsertCovers(init, m, u, p);
    InsertCarries(init, m, u, p);
  }

  /** The new id is in no row yet, so appending keeps ids unique. */
  lemma InsertKeeps(modules: seq<Module>, p: Id, ids: seq<Id>, m: ModuleJson, u: seq<Module>)
    requires !HasModule(modules, m.id) && m.id !in ids
    requires KeepsOriginal(modules, p, u) && AppendedNew(modules, p, ids, u) && UniqueIds(u)
    ensures KeepsOriginal(modules, p, u + [NewModule(m, p)])
    ensures AppendedNew(modules, p, ids + [m.id], u + [NewModule(m, p)])
    ensures UniqueIds(u + [NewModule(m, p)])
    ensures !HasModule(u, m.id)
  {
    forall i | 0 <= i < |u|
      ensures u[i].id != m.id
    {
      if i < |modules| {
        assert u[i].id == modules[i].id;
      }
    }
  }

  lemma InsertCovers(init: seq<ModuleJson>, m: ModuleJson, u: seq<Module>, p: Id)
    requires Covers(SubmittedIds(init), u)
    ensures Covers(SubmittedIds(init + [m]), u + [NewModule(m, p)])
  {
    var u' := u + [NewModule(m, p)];
    SubmittedIdsSnoc(init, m);
    forall x | x in SubmittedIds(init + [m])
      ensures HasModule(u', x)
    {
      if x == m.id {
        assert u'[|u|].id == x;
      } else {
        var i :| 0 <= i < |u| && u[i].id == x;
        assert u'[i] == u[i];
      }
    }
  }

  lemma InsertCarries(init: seq<ModuleJson>, m: ModuleJson, u: seq<Module>, p: Id)
    requires CarriesLast(init, u) && !HasModule(u, m.id)
    ensures CarriesLast(init + [m], u + [NewModule(m, p)])
  {
    var u' := u + [NewModule(m, p)];
    SubmittedIdsSnoc(init, m);
    forall i | 0 <= i < |u'| && u'[i].id in SubmittedIds(init + [m])
      ensures Carries(u'[i], LastWith(init + [m], u'[i].id))
    {
      LastWithSnoc(init, m, u'[i].id);
      if i < |u| {
        assert u'[i] == u[i];
      }
    }
  }

  /** Filtering keeps ids unique. */
  lemma {:induction false} FilterKeepsUnique(s: seq<Module>, keep: Module -> bool)
    requires UniqueIds(s)
    ensures UniqueIds(Filter(s, keep))
  {
    if s != [] {
      var n := |s| - 1;
      var init := s[..n];
      FilterKeepsUnique(init, keep);
      FilterSnoc(init, s[n], keep);
      assert s == init + [s[n]];
      var f := Filter(init, keep);
      forall i | 0 <= i < |f|
        ensures f[i].id != s[n].id
      {
        assert f[i] in f;
        var j :| 0 <= j < n && init[j] == f[i];
      }
    }
  }

  /** A row of the walk whose id was submitted belongs to the place. */
  lemma SubmittedRowInPlace(modules: seq<Module>, p: Id, ms: seq<ModuleJson>, u: seq<Module>, j: nat)
    requires UniqueIds(modules) && Insertable(modules, p, ms)
    requires KeepsOriginal(modules, p, u) && AppendedNew(modules, p, SubmittedIds(ms), u)
    requires j < |u| && u[j].id in SubmittedIds(ms)
    ensures u[j].placeId == p
  {
    if j < |modules| {
      var i :| 0 <= i < |ms| && SubmittedIds(ms)[i] == u[j].id;
      assert modules[j].id == ms[i].id;
      assert HasModule(modules, ms[i].id);
      var k :| 0 <= k < |modules| && modules[k].placeId == p && modules[k].id == ms[i].id;
    }
  }

  /** The walk leaves the other places' rows as they were. */
  lemma WalkKeepsOtherPlaces(modules: seq<Module>, p: Id, ids: seq<Id>, u: seq<Module>)
    requires KeepsOriginal(modules, p, u) && AppendedNew(modules, p, ids, u)
    ensures Filter(u, OtherPlace(p)) == Filter(modules, OtherPlace(p))
  {
    var n := |modules|;
    assert u == u[..n] + u[n..];
    FilterAppend(u[..n], u[n..], OtherPlace(p));
    FilterAgree(u[..n], modules, OtherPlace(p));
    FilterNone(u[n..], OtherPlace(p));
  }

  /** `Module::create` leaves the other places' modules exactly as they were. */
  lemma ReconcileKeepsOtherPlaces(modules: seq<Module>, p: Id, ms: seq<ModuleJson>)
    requires UniqueIds(modules) && Insertable(modules, p, ms)
    ensures Filter(Reconciled(modules, p, ms), OtherPlace(p)) == Filter(modules, OtherPlace(p))
  {
    var u := UpsertAll(modules, PlaceModuleIds(modules, p), p, ms);
    UpsertAllShape(modules, p, ms);
    FilterFilter(u, Listed(p, SubmittedIds(ms)), OtherPlace(p));
    WalkKeepsOtherPlaces(modules, p, SubmittedIds(ms), u);
  }

  /** What `Module::create` promises about the place's modules: ids stay
      unique; afterwards the place has a module for exactly the submitted ids,
      each carrying its last submission; a row that existed before keeps its
      place and type; a row that did not is an active module of the place. */
  lemma ReconcileSpec(modules: seq<Module>, p: Id, ms: seq<ModuleJson>)
    requires UniqueIds(modules) && Insertable(modules, p, ms)
    ensures UniqueIds(Reconciled(modules, p, ms))
    ensures forall row :: row in Reconciled(modules, p, ms) && row.placeId == p ==> row.id in SubmittedIds(ms)
    ensures forall x :: x in SubmittedIds(ms) ==>
      exists row :: row in Reconciled(modules, p, ms) && row.placeId == p && Carries(row, LastWith(ms, x))
    ensures forall row :: row in Reconciled(modules, p, ms) && HasModule(modules, row.id) ==>
      exists i :: (0 <= i < |modules| && modules[i].id == row.id
        && modules[i].placeId == row.placeId && modules[i].types == row.types)
    ensures forall row :: row in Reconciled(modules, p, ms) && !HasModule(modules, row.id) ==>
      row.placeId == p && row.types == 1
  {
    var u := UpsertAll(modules, PlaceModuleIds(modules, p), p, ms);
    var r := Reconciled(modules, p, ms);
    UpsertAllShape(modules, p, ms);
    FilterKeepsUnique(u, Listed(p, SubmittedIds(ms)));
    forall x | x in SubmittedIds(ms)
      ensures exists row :: row in r && row.placeId == p && Carries(row, LastWith(ms, x))
    {
      var j :| 0 <= j < |u| && u[j].id == x;
      SubmittedRowInPlace(modules, p, ms, u, j);
      assert u[j] in r;
    }
    forall row | row in r && HasModule(modules, row.id)
      ensures exists i :: (0 <= i < |modules| && modules[i].id == row.id
        && modules[i].placeId == row.placeId && modules[i].types == row.types)
    {
      var j :| 0 <= j < |u| && u[j] == row;
      if j < |modules| {
        assert modules[j].id == row.id;
      }
    }
    forall row | row in r && !HasModule(modules, row.id)
      ensures row.placeId == p && row.types == 1
    {
      var j :| 0 <= j < |u| && u[j] == row;
    }
  }

  /** `Module::create`: walks the submission in order, updating a module the
      place already had and inserting any other, then deletes the place's
      modules that were not submitted. Always 1. */
  method CreateModules(db: Database, p: Id, ms: seq<ModuleJson>) returns (r: int)
    requires UniqueIds(db.modules) && Insertable(db.modules, p, ms)
    modifies db`modules
    ensures r == 1
    ensures db.modules == Reconciled(old(db.modules), p, ms)
  {
    var known := PlaceModuleIds(db.modules, p);
    ghost var modules0 := db.modules;
    var newIds: seq<Id> := [];
    var k := 0;
    assert ms[..0] == [];
    while k < |ms|
      invariant 0 <= k <= |ms|
      invariant newIds == SubmittedIds(ms[..k])
      invariant db.modules == UpsertAll(modules0, known, p, ms[..k])
    {
      var m := ms[k];
      newIds := newIds + [m.id];
      if m.id in known {
        db.modules := UpdateModule(db.modules, m);
      } else {
        db.modules := db.modules + [NewModule(m, p)];
      }
      assert ms[..k + 1][..k] == ms[..k];
      k := k + 1;
    }
    assert ms[..k] == ms;
    db.modules := DeleteUnlisted(db.modules, p, newIds);
    return 1;
  }

  /** The row tests of the module listings. */
  function InPlace(placeId: Id): Module -> bool
  {
    (x: Module) => x.placeId == placeId
  }

  function OfType(typeId: Id): Module -> bool
  {
    (x: Module) => x.typeId == typeId
  }

  function IsActiveModule(): Module -> bool
  {
    (x: Module) => x.types == 1
  }

  function Both(f: Module -> bool, g: Module -> bool): Module -> bool
  {
    (x: Module) => f(x) && g(x)
  }

  /** `Module::get_all_for_place` */
  function ModulesOfPlace(modules: seq<Module>, placeId: Id): (r: seq<Module>)
    ensures forall x :: x in r <==> x in modules && x.placeId == placeId
  {
    Filter(modules, InPlace(placeId))
  }

  /** `Module::get_all_for_place_with_type` */
  function ModulesOfPlaceWithType(modules: seq<Module>, placeId: Id, typeId: Id): (r: seq<Module>)
    ensures forall x :: x in r <==> x in modules && x.placeId == placeId && x.typeId == typeId
  {
    Filter(modules, Both(InPlace(placeId), OfType(typeId)))
  }

  /** `Place::get_modules`: the place's modules with status 1. */
  function ActiveModulesOfPlace(modules: seq<Module>, placeId: Id): (r: seq<Module>)
    ensures forall x :: x in r <==> x in modules && x.placeId == placeId && x.types == 1
  {
    Filter(modules, Both(InPlace(placeId), IsActiveModule()))
  }

  /** Narrowing the place's listing by module type, or by status 1, gives
      exactly the narrower query, in the same order. */
  lemma ModuleListingsNest(modules: seq<Module>, placeId: Id, typeId: Id)
    ensures Filter(ModulesOfPlace(modules, placeId), OfType(typeId))
         == ModulesOfPlaceWithType(modules, placeId, typeId)
    ensures Filter(ModulesOfPlace(modules, placeId), IsActiveModule())
         == ActiveModulesOfPlace(modules, placeId)
  {
    var mine := ModulesOfPlace(modules, placeId);
    FilterFilter(modules, InPlace(placeId), Both(InPlace(placeId), OfType(typeId)));
    FilterSame(mine, OfType(typeId), Both(InPlace(placeId), OfType(typeId)));
    FilterFilter(modules, InPlace(placeId), Both(InPlace(placeId), IsActiveModule()));
    FilterSame(mine, IsActiveModule(), Both(InPlace(placeId), IsActiveModule()));
  }

  /** The rows a delete by id keeps. */
  function ModuleIsNot(id: Id): Module -> bool
  {
    (x: Module) => x.id != id
  }

  /** `Module::delete`. Always 1. */
  method DeleteModule(db: Database, id: Id) returns (r: int)
    modifies db`modules
    ensures r == 1
    ensures db.modules == Filter(old(db.modules), ModuleIsNot(id))
    ensures forall x :: x in db.modules <==> x in old(db.modules) && x.id != id
  {
    db.modules := Filter(db.modules, ModuleIsNot(id));
    return 1;
  }

  /** After a delete, a place's module listing is the old listing without the
      deleted module, in the same order. */
  lemma DeletedModuleUnlisted(modules: seq<Module>, id: Id, placeId: Id)
    ensures ModulesOfPlace(Filter(modules, ModuleIsNot(id)), placeId)
         == Filter(ModulesOfPlace(modules, placeId), ModuleIsNot(id))
  {
    FilterCommute(modules, ModuleIsNot(id), InPlace(placeId));
  }

  // ----------------------------------------------------------------- events

  /** `Event::get` */
  function EventById(events: seq<Event>, id: Id): (r: Event)
    requires exists x :: x in events && x.id == id
    ensures r in events && r.id == id
  {
    First(events, (x: Event) => x.id == id)
  }

  /** `Event::get_all_for_place` */
  function EventsOfPlace(events: seq<Event>, placeId: Id): (r: seq<Event>)
    ensures forall x :: x in r <==> x in events && x.placeId == placeId
  {
    Filter(events, (x: Event) => x.placeId == placeId)
  }

  /** `Event::create`: both times must parse (`unwrap`); each runs the
      find-or-create time-slot step; then the price must parse as an `i32`
      (`unwrap`) and the event is stored active, with no image, created at
      `now`, carrying the submitted time strings verbatim. Returns its id. */
  method CreateEvent(db: Database, userId: Id, placeId: Id, title: string, description: string,
                     price: string, timeStart: string, timeEnd: string,
                     parseTime: Parser, parse: Parser, startId: Id, endId: Id, id: Id, now: Timestamp)
    returns (r: Id)
    requires parseTime(timeStart).Some? && parseTime(timeEnd).Some?
    requires ParseBounded(parse, price, I32Min, I32Max).Some?
    modifies db`times, db`events
    ensures r == id
    ensures db.times == TimeSlot(TimeSlot(old(db.times), parseTime(timeStart).value, startId),
                                 parseTime(timeEnd).value, endId)
    ensures db.events == old(db.events) + [Event(id, userId, placeId, title, description, 1, now,
      ParseBounded(parse, price, I32Min, I32Max).value, timeStart, timeEnd, None)]
  {
    var start := parseTime(timeStart).value;
    var end := parseTime(timeEnd).value;
    StoreSlot(db, start, startId);
    StoreSlot(db, end, endId);
    var p := ParseBounded(parse, price, I32Min, I32Max).value;
    db.events := db.events + [Event(id, userId, placeId, title, description, 1, now, p, timeStart, timeEnd, None)];
    return id;
  }

  /** What `Event::create` adds to the time table: for each of the two times,
      a row only when no row held exactly that value, and that row holds the
      value three hours later. */
  lemma {:induction false} EventSlotsAdded(times: seq<Time>, start: Timestamp, end: Timestamp, startId: Id, endId: Id)
    ensures TimeSlot(TimeSlot(times, start, startId), end, endId)
         == times + (if HasTime(times, start) then [] else [Time(startId, start + ThreeHours)])
                  + (if HasTime(TimeSlot(times, start, startId), end) then [] else [Time(endId, end + ThreeHours)])
    ensures HasTime(times, start) && HasTime(times, end) ==> TimeSlot(TimeSlot(times, start, startId), end, endId) == times
    ensures !HasTime(times, start) && start + ThreeHours != end && !HasTime(times, end) ==>
      TimeSlot(TimeSlot(times, start, startId), end, endId)
        == times + [Time(startId, start + ThreeHours), Time(endId, end + ThreeHours)]
  {
    var mid := TimeSlot(times, start, startId);
    if HasTime(times, start) {
      assert mid == times + [];
    } else if !HasTime(times, end) && start + ThreeHours != end {
      assert !HasTime(mid, end) by {
        forall i | 0 <= i < |mid| ensures mid[i].time != end {
          if i < |times| {
            assert mid[i] == times[i];
          }
        }
      }
    }
  }

  /** The events table after `Event::edit`: the row with that id takes the new
      title, description, price and time strings; everything else stays. */
  function EventsEdited(events: seq<Event>, id: Id, title: string, description: string, price: int,
                        timeStart: string, timeEnd: string): (r: seq<Event>)
    ensures |r| == |events|
    ensures forall i :: 0 <= i < |r| ==>
      && r[i].id == events[i].id && r[i].userId == events[i].userId && r[i].placeId == events[i].placeId
      && r[i].types == events[i].types && r[i].created == events[i].created && r[i].image == events[i].image
      && (events[i].id == id ==>
            && r[i].title == title && r[i].description == description && r[i].price == price
            && r[i].timeStart == timeStart && r[i].timeEnd == timeEnd)
      && (events[i].id != id ==> r[i] == events[i])
  {
    seq(|events|, i requires 0 <= i < |events| =>
      if events[i].id == id
      then events[i].(title := title, description := description, price := price,
                      timeStart := timeStart, timeEnd := timeEnd)
      else events[i])
  }

  /** `Event::edit`: the price must parse as an `i32` and the event must exist;
      returns the event's id. */
  method EditEvent(db: Database, id: Id, title: string, description: string, price: string,
                   timeStart: string, timeEnd: string, parse: Parser) returns (r: Id)
    requires ParseBounded(parse, price, I32Min, I32Max).Some?
    requires exists x :: x in db.events && x.id == id
    modifies db`events
    ensures r == id
    ensures db.events == EventsEdited(old(db.events), id, title, description,
                                      ParseBounded(parse, price, I32Min, I32Max).value, timeStart, timeEnd)
  {
    var p := ParseBounded(parse, price, I32Min, I32Max).value;
    var found := EventById(db.events, id);
    db.events := EventsEdited(db.events, id, title, description, p, timeStart, timeEnd);
    return found.id;
  }

  /** After `Event::edit`, `Event::get` returns the row it read before, with
      the five new columns. */
  lemma EditThenGetEvent(events: seq<Event>, id: Id, title: string, description: string, price: int,
                         timeStart: string, timeEnd: string)
    requires exists x :: x in events && x.id == id
    ensures exists x :: x in EventsEdited(events, id, title, description, price, timeStart, timeEnd) && x.id == id
    ensures EventById(EventsEdited(events, id, title, description, price, timeStart, timeEnd), id)
         == EventById(events, id).(title := title, description := description, price := price,
                                   timeStart := timeStart, timeEnd := timeEnd)
  {
    var edited := EventsEdited(events, id, title, description, price, timeStart, timeEnd);
    FirstIndexAgree(events, edited, (x: Event) => x.id == id);
  }

  /** The rows a delete by id keeps. */
  function OrderIsNot(id: Id): Order -> bool
  {
    (x: Order) => x.id != id
  }

  /** `Event::delete` as written: the delete runs against the orders table, so
      it removes the order whose id is `id` and leaves every event in place.
      Always 1. */
  method DeleteEvent(db: Database, id: Id) returns (r: int)
    modifies db`orders
    ensures r == 1
    ensures db.orders == Filter(old(db.orders), OrderIsNot(id))
    ensures forall x :: x in db.orders <==> x in old(db.orders) && x.id != id
  {
    db.orders := Filter(db.orders, OrderIsNot(id));
    return 1;
  }
}
