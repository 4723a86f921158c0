/** The access gates of the user-facing handlers (src/views/users_views.rs).
    A request is reduced to whether it carries a signed-in session and the
    user that session names; a GET handler is the listing it returns, and a
    POST handler is its reply together with the model operation it calls, if
    any. */
module UsersViews {
  import opened Common
  import opened Tables
  import opened Users

  /** What a handler learns from the request: whether it is signed in, and
      the current user (`get_current_user`). */
  datatype Session = Session(signedIn: bool, user: User)

  /** The model operation a POST handler delegates to, with its arguments. */
  datatype Call =
    | NoCall
    | BlockUserCall(id: Id)
    | UnblockUserCall(id: Id)
    | CreateManagerCall(self: User, placeId: Id, userId: Id)
    | DeleteManagerCall(self: User, placeId: Id, userId: Id)
    | CreatePartnerCall(title: string, inn: string, userId: Id)
    | DeletePartnerCall(id: Id)
    | EditOwnerPartnerCall(id: Id, userId: Id)

  /** `HttpResponse::Ok()`, and what was done before it. */
  datatype Reply = Reply(status: int, call: Call)

  const Ok: int := 200

  /** Signed in as a superuser. */
  predicate SignedSuperuser(s: Session)
  {
    s.signedIn && IsSuperuser(s.user)
  }

  // -------------------------------------------------------------------- GET

  /** `get_orders`: the caller's orders, nothing without a session. */
  function GetOrdersView(s: Session, orders: seq<Order>): (r: seq<Order>)
    ensures !s.signedIn ==> r == []
    ensures s.signedIn ==> forall o :: o in r <==> o in orders && o.userId == s.user.id
  {
    if s.signedIn then Filter(orders, (o: Order) => o.userId == s.user.id) else []
  }

  /** `get_admins`: the admin list, for a signed-in superuser only. */
  function GetAdminsView(s: Session, users: seq<User>): (r: seq<UserJson>)
    ensures r != [] ==> SignedSuperuser(s)
    ensures SignedSuperuser(s) ==> forall j :: j in r <==> exists u :: u in users && u.perm == Admin && j == Public(u)
  {
    if s.signedIn then (if IsSuperuser(s.user) then GetAdmins(s.user, users) else []) else []
  }

  /** `get_moderators`: the same gate and the same listing as `get_admins`. */
  function GetModeratorsView(s: Session, users: seq<User>): (r: seq<UserJson>)
    ensures r != [] ==> SignedSuperuser(s)
    ensures SignedSuperuser(s) ==> forall j :: j in r <==> exists u :: u in users && u.perm == Admin && j == Public(u)
  {
    GetAdminsView(s, users)
  }

  /** The two handlers answer every request alike. */
  lemma ModeratorsAreAdmins(s: Session, users: seq<User>)
    ensures GetModeratorsView(s, users) == GetAdminsView(s, users)
  {
  }

  /** `get_users`: the handler lets a superuser or an admin through, but the
      listing itself answers a superuser only. */
  function GetUsersView(s: Session, users: seq<User>): (r: seq<UserJson>)
    ensures r != [] ==> SignedSuperuser(s)
    ensures SignedSuperuser(s) ==> forall j :: j in r <==> exists u :: u in users && u.perm < Superuser && j == Public(u)
  {
    if s.signedIn then
      (if s.user.perm == Superuser || s.user.perm == Admin then GetUsers(s.user, users) else [])
    else []
  }

  /** An admin passes the handler's gate and still receives nothing. */
  lemma AdminsReceiveNoUsers(s: Session, users: seq<User>)
    requires s.signedIn && s.user.perm == Admin
    ensures s.user.perm == Superuser || s.user.perm == Admin
    ensures GetUsersView(s, users) == []
  {
  }

  /** `get_partners`: the active partners, for a signed-in superuser only. */
  function GetPartnersView(s: Session, partners: seq<Partner>): (r: seq<Partner>)
    ensures r != [] ==> SignedSuperuser(s)
    ensures SignedSuperuser(s) ==> forall x :: x in r <==> x in partners && x.types == 1
  {
    if s.signedIn then
      (if IsSuperuser(s.user) then Filter(partners, (x: Partner) => x.types == 1) else [])
    else []
  }

  /** `get_banned_users`: the banned list, for a signed-in superuser only. */
  function GetBannedUsersView(s: Session, users: seq<User>): (r: seq<UserJson>)
    ensures r != [] ==> SignedSuperuser(s)
    ensures SignedSuperuser(s) ==> forall j :: j in r <==> exists u :: u in users && u.perm > Superuser && j == Public(u)
  {
    if s.signedIn then (if IsSuperuser(s.user) then GetBannedUsers(s.user, users) else []) else []
  }

  // ------------------------------------------------------------------- POST

  /** `block_user`: any signed-in caller blocks the user; there is no perm
      check. */
  function BlockUserView(s: Session, id: Id): (r: Reply)
    ensures r.status == Ok
    ensures r.call != NoCall <==> s.signedIn
    ensures r.call != NoCall ==> r.call == BlockUserCall(id)
  {
    if s.signedIn then Reply(Ok, BlockUserCall(id)) else Reply(Ok, NoCall)
  }

  /** `unblock_user`: a caller whose current user is a superuser unblocks;
      the session's sign-in state is not consulted. */
  function UnblockUserView(s: Session, id: Id): (r: Reply)
    ensures r.status == Ok
    ensures r.call != NoCall <==> s.user.perm == Superuser
    ensures r.call != NoCall ==> r.call == UnblockUserCall(id)
  {
    if s.user.perm == Superuser then Reply(Ok, UnblockUserCall(id)) else Reply(Ok, NoCall)
  }

  /** Whether a block happens does not depend on who asks, only on the
      session; whether an unblock happens does not depend on the session,
      only on who asks. */
  lemma BlockGatesDiffer(s: Session, t: Session, id: Id)
    ensures s.signedIn == t.signedIn ==> BlockUserView(s, id) == BlockUserView(t, id)
    ensures s.user == t.user ==> UnblockUserView(s, id) == UnblockUserView(t, id)
    ensures !s.signedIn && s.user.perm == Superuser ==>
      BlockUserView(s, id).call == NoCall && UnblockUserView(s, id).call == UnblockUserCall(id)
  {
  }

  /** `create_manager`: any signed-in caller; the model operation decides. */
  function CreateManagerView(s: Session, placeId: Id, userId: Id): (r: Reply)
    ensures r.status == Ok
    ensures r.call != NoCall <==> s.signedIn
    ensures r.call != NoCall ==> r.call == CreateManagerCall(s.user, placeId, userId)
  {
    if s.signedIn then Reply(Ok, CreateManagerCall(s.user, placeId, userId)) else Reply(Ok, NoCall)
  }

  /** `delete_manager`: any signed-in caller; the model operation decides. */
  function DeleteManagerView(s: Session, placeId: Id, userId: Id): (r: Reply)
    ensures r.status == Ok
    ensures r.call != NoCall <==> s.signedIn
    ensures r.call != NoCall ==> r.call == DeleteManagerCall(s.user, placeId, userId)
  {
    if s.signedIn then Reply(Ok, DeleteManagerCall(s.user, placeId, userId)) else Reply(Ok, NoCall)
  }

  /** `create_partner`: a signed-in superuser only. */
  function CreatePartnerView(s: Session, title: string, inn: string, userId: Id): (r: Reply)
    ensures r.status == Ok
    ensures r.call != NoCall <==> s.signedIn && s.user.perm == Superuser
    ensures r.call != NoCall ==> r.call == CreatePartnerCall(title, inn, userId)
  {
    if s.signedIn then
      (if s.user.perm == Superuser then Reply(Ok, CreatePartnerCall(title, inn, userId)) else Reply(Ok, NoCall))
    else Reply(Ok, NoCall)
  }

  /** `delete_partner`: a signed-in superuser only. */
  function DeletePartnerView(s: Session, id: Id): (r: Reply)
    ensures r.status == Ok
    ensures r.call != NoCall <==> s.signedIn && s.user.perm == Superuser
    ensures r.call != NoCall ==> r.call == DeletePartnerCall(id)
  {
    if s.signedIn then
      (if s.user.perm == Superuser then Reply(Ok, DeletePartnerCall(id)) else Reply(Ok, NoCall))
    else Reply(Ok, NoCall)
  }

  /** `change_owner_partner`: a signed-in superuser only. */
  function ChangeOwnerPartnerView(s: Session, id: Id, userId: Id): (r: Reply)
    ensures r.status == Ok
    ensures r.call != NoCall <==> s.signedIn && s.user.perm == Superuser
    ensures r.call != NoCall ==> r.call == EditOwnerPartnerCall(id, userId)
  {
    if s.signedIn then
      (if s.user.perm == Superuser then Reply(Ok, EditOwnerPartnerCall(id, userId)) else Reply(Ok, NoCall))
    else Reply(Ok, NoCall)
  }

  /** The partner handlers share one gate: a request that passes one passes
      all three, and only a signed-in superuser passes. */
  lemma PartnerGatesAgree(s: Session, title: string, inn: string, id: Id, userId: Id)
    ensures (CreatePartnerView(s, title, inn, userId).call != NoCall) == (DeletePartnerView(s, id).call != NoCall)
    ensures (DeletePartnerView(s, id).call != NoCall) == (ChangeOwnerPartnerView(s, id, userId).call != NoCall)
    ensures (DeletePartnerView(s, id).call != NoCall) == SignedSuperuser(s)
  {
  }
}
