/** The rows of the Postgres tables the handlers read and write, one datatype per
    Diesel struct (the field lists follow the structs of the three model files, not the
    generated schema), and the database itself: one object whose fields are the
    tables, which every write replaces with its new contents. */
module Tables {
  import opened Common

  /** An `f64` column (`_left`, `_top`, `_angle`): the handlers only copy it, so
      it is kept as its 64 raw bits and never computed with. */
  datatype F64 = F64(bits: bv64)

  datatype User = User(
    id: Id,
    firstName: string,
    lastName: string,
    email: string,
    password: string,
    perm: int,
    level: int,
    image: Option<string>,
    uuid: seq<bv8>)

  /** The public columns of a user, as the listings select them. */
  datatype UserJson = UserJson(
    id: Id,
    firstName: string,
    lastName: string,
    email: string,
    level: int,
    image: Option<string>)

  /** The public columns of `u` (the listings' `.select((id, first_name, ...))`). */
  function Public(u: User): UserJson
  {
    UserJson(u.id, u.firstName, u.lastName, u.email, u.level, u.image)
  }

  datatype Partner = Partner(
    id: Id,
    title: string,
    inn: string,
    types: int,
    created: Timestamp,
    userId: Id)

  datatype PlaceManager = PlaceManager(id: Id, userId: Id, placeId: Id)

  datatype PlaceType = PlaceType(id: Id, title: string)

  datatype Place = Place(
    id: Id,
    title: string,
    types: int,
    created: Timestamp,
    userId: Id,
    cityId: int,
    typeId: int,
    image: Option<string>,
    background: Option<string>,
    cord: Option<string>)

  datatype ModuleType = ModuleType(
    id: Id,
    placeId: Id,
    title: string,
    description: string,
    types: string,
    image: Option<string>,
    price: int)

  datatype Module = Module(
    id: Id,
    title: string,
    labelText: string,
    types: int,
    placeId: Id,
    typeId: Id,
    price: int,
    zIndex: int,
    width: int,
    height: int,
    left: F64,
    top: F64,
    angle: F64,
    fontColor: string,
    fontSize: string,
    backColor: string,
    image: Option<string>,
    eventId: Option<string>)

  datatype Event = Event(
    id: Id,
    userId: Id,
    placeId: Id,
    title: string,
    description: string,
    types: int,
    created: Timestamp,
    price: int,
    timeStart: string,
    timeEnd: string,
    image: Option<string>)

  datatype Order = Order(
    id: Id,
    title: string,
    types: int,
    placeId: Id,
    objectId: Id,
    eventId: Option<string>,
    created: Timestamp,
    userId: Id,
    price: int,
    timeStart: string,
    timeEnd: string)

  /** A canonical time-slot row. */
  datatype Time = Time(id: Id, time: Timestamp)

  datatype Log = Log(
    id: Id,
    userId: Id,
    text: string,
    orderId: Id,
    placeId: Id,
    created: Timestamp)

  datatype Region = Region(
    id: int,
    name: string,
    geoId: Option<int>,
    countryId: int,
    timezoneId: Option<int>,
    cord: Option<string>)

  datatype City = City(
    id: int,
    name: string,
    geoId: Option<int>,
    regionId: Option<int>,
    countryId: int,
    cord: Option<string>)

  /** The database every request connects to. Each field is one table, its rows
      in storage order; a write assigns the table's new contents. */
  class Database {
    var users: seq<User>
    var partners: seq<Partner>
    var placeManagers: seq<PlaceManager>
    var placeTypes: seq<PlaceType>
    var places: seq<Place>
    var moduleTypes: seq<ModuleType>
    var modules: seq<Module>
    var events: seq<Event>
    var orders: seq<Order>
    var times: seq<Time>
    var logs: seq<Log>
    var regions: seq<Region>
    var cities: seq<City>

    /** A freshly migrated, empty database. */
    constructor ()
      ensures users == [] && partners == [] && placeManagers == []
      ensures placeTypes == [] && places == [] && moduleTypes == [] && modules == []
      ensures events == [] && orders == [] && times == [] && logs == []
      ensures regions == [] && cities == []
    {
      users, partners, placeManagers := [], [], [];
      placeTypes, places, moduleTypes, modules := [], [], [], [];
      events, orders, times, logs := [], [], [], [];
      regions, cities := [], [];
    }
  }
}
