/** The access gates of the place handlers (src/views/places_views.rs), over
    the same request abstraction as the user handlers. */
module PlacesViews {
  import opened Common
  import opened Tables
  import opened Other
  import opened Places
  import opened Users
  import opened UsersViews

  /** What `create_place` and `edit_place` answer (`Json<i16>`), and the model
      operation they called. */
  datatype PlaceCall = NoPlaceCall | CreatePlaceCall | EditPlaceCall(id: Id)

  datatype PlaceReply = PlaceReply(value: int, call: PlaceCall)

  /** `get_places`: every active place, with no session check at all. */
  function GetPlacesView(places: seq<Place>): (r: seq<Place>)
    ensures forall x :: x in r <==> x in places && x.types == Active
  {
    ActivePlaces(places)
  }

  /** `get_place`: the active place with that id (`expect` panics on any
      other). */
  function GetPlaceView(places: seq<Place>, id: Id): (r: Place)
    requires HasActivePlace(places, id)
    ensures r in places && r.id == id && r.types == Active
  {
    ActivePlace(places, id)
  }

  /** Signed in as the owner of the active place `id`. */
  predicate SignedOwner(s: Session, places: seq<Place>, id: Id)
    requires s.signedIn ==> HasActivePlace(places, id)
  {
    s.signedIn && ActivePlace(places, id).userId == s.user.id
  }

  /** `get_place_managers`: the managers, for the place's signed-in owner only.
      A signed-in request for a place that is not active panics. */
  function GetPlaceManagersView(s: Session, places: seq<Place>, users: seq<User>, managers: seq<PlaceManager>,
                                id: Id): (r: seq<UserJson>)
    requires s.signedIn ==> HasActivePlace(places, id)
    ensures r != [] ==> SignedOwner(s, places, id)
    ensures SignedOwner(s, places, id) ==> forall j :: j in r <==>
      exists u :: u in users && j == Public(u) && exists m :: m in managers && m.placeId == id && m.userId == u.id
  {
    if s.signedIn then
      var place := ActivePlace(places, id);
      if place.userId == s.user.id then PlaceManagers(users, managers, place.id) else []
    else []
  }

  /** `get_place_orders`: the place's orders, newest first, for the place's
      signed-in owner only. */
  function GetPlaceOrdersView(s: Session, places: seq<Place>, orders: seq<Order>, id: Id): (r: seq<Order>)
    requires s.signedIn ==> HasActivePlace(places, id)
    ensures r != [] ==> SignedOwner(s, places, id)
    ensures SignedOwner(s, places, id) ==> NewestFirst(r) && forall o :: o in r <==> o in orders && o.placeId == id
  {
    if s.signedIn then
      var place := ActivePlace(places, id);
      if place.userId == s.user.id then PlaceOrders(orders, place.id) else []
    else []
  }

  /** `get_suggest_places`: suggested places, for a signed-in superuser only. */
  function GetSuggestPlacesView(s: Session, places: seq<Place>): (r: seq<Place>)
    ensures r != [] ==> SignedSuperuser(s)
    ensures SignedSuperuser(s) ==> forall x :: x in r <==> x in places && x.types == Suggested
  {
    if s.signedIn then (if IsSuperuser(s.user) then SuggestedPlaces(places) else []) else []
  }

  /** `get_closed_places`: closed places, for a signed-in superuser only. */
  function GetClosedPlacesView(s: Session, places: seq<Place>): (r: seq<Place>)
    ensures r != [] ==> SignedSuperuser(s)
    ensures SignedSuperuser(s) ==> forall x :: x in r <==> x in places && x.types == Closed
  {
    if s.signedIn then (if IsSuperuser(s.user) then ClosedPlaces(places) else []) else []
  }

  /** No handler exposes a place to a request that may not see it: the public
      listing holds only active places, and the superuser listings of
      suggested and closed places never share a row with it. */
  lemma PlaceListingsDisjoint(s: Session, places: seq<Place>, x: Place)
    requires x in GetPlacesView(places)
    ensures x !in GetSuggestPlacesView(s, places)
    ensures x !in GetClosedPlacesView(s, places)
  {
  }

  /** `create_place`: 0 without a session; otherwise whatever `Place::create`
      answers, which is always 1. */
  function CreatePlaceView(s: Session): (r: PlaceReply)
    ensures r.value == 0 <==> !s.signedIn
    ensures r.value == 0 <==> r.call == NoPlaceCall
    ensures r.value != 0 ==> r.value == 1 && r.call == CreatePlaceCall
  {
    if s.signedIn then PlaceReply(1, CreatePlaceCall) else PlaceReply(0, NoPlaceCall)
  }

  /** `edit_place`: 0 without a session; otherwise whatever `Place::edit`
      answers, which is always 1. Any signed-in user may edit any place. */
  function EditPlaceView(s: Session, id: Id): (r: PlaceReply)
    ensures r.value == 0 <==> !s.signedIn
    ensures r.value == 0 <==> r.call == NoPlaceCall
    ensures r.value != 0 ==> r.value == 1 && r.call == EditPlaceCall(id)
  {
    if s.signedIn then PlaceReply(1, EditPlaceCall(id)) else PlaceReply(0, NoPlaceCall)
  }
}
