/**
 * The handlers of `src/routes/contacts.py`: each validates its parameters,
 * calls one repository function and turns its result into a response.
 * The current user is already resolved (its id and role are parameters);
 * the rate limiter in front of some routes is not part of this model.
 */
module ContactRoutes {
  import opened Wrappers
  import opened Http
  import opened Schemas
  import opened ContactRepository

  /** `Query(10, ge=10, le=500)`. */
  const DefaultLimit: int := 10
  const MinLimit: int := 10
  const MaxLimit: int := 500

  /** The default birthday window, `n: int = 7`. */
  const DefaultWindow: int := 7

  /** `access_to_route_all = RoleAccess([Role.admin, Role.moderator])`. */
  const RolesForAll: seq<Role> := [Admin, Moderator]

  /** `RoleAccess.__call__`: the guard lets a request through exactly when the user's role is one of the listed roles. */
  function RoleAccess(allowed: seq<Role>, role: Role): (b: bool)
    ensures b <==> exists i :: 0 <= i < |allowed| && allowed[i] == role
  {
    role in allowed
  }

  /** Only administrators and moderators pass the guard of `/contacts/all`. */
  lemma RolesForAllAdmits(role: Role)
    ensures RoleAccess(RolesForAll, role) <==> role == Admin || role == Moderator
    ensures !RoleAccess(RolesForAll, User)
  {
  }

  /** The `limit` and `offset` query parameters after defaults and validation; `None` is a 422. */
  function Paging(limit: Option<int>, offset: Option<int>): (r: Option<(nat, nat)>)
    ensures r.Some? <==> MinLimit <= limit.GetOr(DefaultLimit) <= MaxLimit && offset.GetOr(0) >= 0
    ensures r.Some? ==> r.value.0 == limit.GetOr(DefaultLimit) && r.value.1 == offset.GetOr(0)
    ensures limit == None && offset == None ==> r == Some((10, 0))
  {
    var l, o := limit.GetOr(DefaultLimit), offset.GetOr(0);
    if MinLimit <= l <= MaxLimit && o >= 0 then Some((l, o)) else None
  }

  /** `GET /contacts/`. */
  function ListContacts(rows: seq<Contact>, user: nat, limit: Option<int>, offset: Option<int>)
    : (r: Response<seq<Contact>>)
    ensures r.Ok? || r.Unprocessable?
    ensures r.Ok? <==> MinLimit <= limit.GetOr(DefaultLimit) <= MaxLimit && offset.GetOr(0) >= 0
    ensures r.Ok? ==> r.status == 200 && |r.body| <= limit.GetOr(DefaultLimit) <= MaxLimit
    ensures r.Ok? ==> forall c :: c in r.body ==> c in rows && c.owner == user
    ensures r.Ok? ==> r.body == GetContacts(rows, limit.GetOr(DefaultLimit), offset.GetOr(0), user)
  {
    match Paging(limit, offset)
    case None => Unprocessable
    case Some((l, o)) => Ok(200, GetContacts(rows, l, o, user))
  }

  /** `GET /contacts/all`: the role guard runs before the query parameters are checked. */
  function ListAllContacts(rows: seq<Contact>, role: Role, limit: Option<int>, offset: Option<int>)
    : (r: Response<seq<Contact>>)
    ensures r.Ok? || r.Unprocessable? || r.Forbidden?
    ensures r.Forbidden? <==> role != Admin && role != Moderator
    ensures r.Ok? <==>
              (role == Admin || role == Moderator)
              && MinLimit <= limit.GetOr(DefaultLimit) <= MaxLimit && offset.GetOr(0) >= 0
    ensures r.Ok? ==>
              && r.status == 200 && |r.body| <= limit.GetOr(DefaultLimit)
              && forall i :: 0 <= i < |r.body| ==> 0 <= offset.GetOr(0) + i < |rows| && r.body[i] == rows[offset.GetOr(0) + i]
    ensures r.Ok? ==> r.body == GetAllContacts(rows, limit.GetOr(DefaultLimit), offset.GetOr(0))
  {
    if !RoleAccess(RolesForAll, role) then Forbidden
    else
      match Paging(limit, offset)
      case None => Unprocessable
      case Some((l, o)) => Ok(200, GetAllContacts(rows, l, o))
  }

  /**
   * `GET /search/name`. The handler's `is None` test can never succeed on
   * the list the repository returns, so the route always answers 200, with
   * an empty list when nothing matches.
   */
  function SearchByName(rows: seq<Contact>, user: nat, name: string): (r: Response<seq<Contact>>)
    ensures r.Ok? && r.status == 200
    ensures forall c :: c in r.body <==> c in rows && c.owner == user && ILike(c.name, name)
  {
    Ok(200, GetContactsByName(rows, name, user))
  }

  /** `GET /search/surname`, the same as `SearchByName` on the surname. */
  function SearchBySurname(rows: seq<Contact>, user: nat, surname: string): (r: Response<seq<Contact>>)
    ensures r.Ok? && r.status == 200
    ensures forall c :: c in r.body <==> c in rows && c.owner == user && ILike(c.surname, surname)
  {
    Ok(200, GetContactsBySurname(rows, surname, user))
  }

  /** `GET /search/email`. */
  function SearchByEmail(rows: seq<Contact>, user: nat, email: string): (r: Response<Contact>)
    requires WellFormed(rows)
    ensures r.Ok? || r == Raised(404, "NOT FOUND")
    ensures r.Raised? <==> forall c :: c in rows ==> !(c.email == email && c.owner == user)
    ensures r.Ok? ==> r.status == 200 && r.body in rows && r.body.email == email && r.body.owner == user
  {
    match GetContactByEmail(rows, email, user)
    case None => Raised(404, "NOT FOUND")
    case Some(c) => Ok(200, c)
  }

  /** The reply of `GET /search/birthday` once the window's first day is known. */
  function BirthdayReply(rows: seq<Contact>, user: nat, from: int, n: int): (r: Response<seq<Contact>>)
    ensures r.Ok? || r == Raised(404, "There are no birthdays for the next 7 days")
    ensures r.Raised? <==> GetContactByBirthday(rows, from, n, user) == []
    ensures r.Ok? ==> r.status == 200 && r.body != []
    ensures r.Ok? ==> forall c :: c in r.body <==>
              c in rows && c.owner == user && c.birthday.Some? && from <= c.bDate <= from + n
  {
    var found := GetContactByBirthday(rows, from, n, user);
    if found == [] then Raised(404, "There are no birthdays for the next 7 days") else Ok(200, found)
  }

  /**
   * `GET /search/birthday` as written: the default of `birthday` is
   * `date.today()` evaluated once, when the module is loaded, so an omitted
   * birthday means the day the server started, `loadDay`.
   */
  function SearchByBirthdayAsWritten(rows: seq<Contact>, user: nat, birthday: Option<int>, n: Option<int>,
                                     loadDay: int): (r: Response<seq<Contact>>)
    ensures birthday.None? ==> r == BirthdayReply(rows, user, loadDay, n.GetOr(DefaultWindow))
    ensures birthday.Some? ==> r == BirthdayReply(rows, user, birthday.value, n.GetOr(DefaultWindow))
  {
    BirthdayReply(rows, user, birthday.GetOr(loadDay), n.GetOr(DefaultWindow))
  }

  /** `GET /search/birthday` with the default taken on the day of the request, `today`. */
  function SearchByBirthday(rows: seq<Contact>, user: nat, birthday: Option<int>, n: Option<int>,
                            today: int): (r: Response<seq<Contact>>)
    ensures var from, to := birthday.GetOr(today), birthday.GetOr(today) + n.GetOr(DefaultWindow);
            r.Ok? <==> exists c :: c in rows && c.owner == user && c.birthday.Some? && from <= c.bDate <= to
    ensures birthday.None? && n.None? ==>
              (r.Ok? <==> exists c :: c in rows && c.owner == user && c.birthday.Some? && today <= c.bDate <= today + 7)
    ensures r.Ok? ==> forall c :: c in r.body ==> c.owner == user && c.birthday.Some?
    ensures var from, to := birthday.GetOr(today), birthday.GetOr(today) + n.GetOr(DefaultWindow);
            r.Ok? ==> forall c :: c in r.body <==> c in rows && c.owner == user && c.birthday.Some? && from <= c.bDate <= to
    ensures r == BirthdayReply(rows, user, birthday.GetOr(today), n.GetOr(DefaultWindow))
  {
    var r := BirthdayReply(rows, user, birthday.GetOr(today), n.GetOr(DefaultWindow));
    assert r.Ok? ==> r.body[0] in r.body;
    r
  }

  /** A contact whose birthday falls on the request day, asked for a day after the server started, is missed by the written route and found by the corrected one. */
  lemma BirthdayDefaultIsLoadDay(c: Contact, today: int)
    requires c.owner == 1 && c.birthday.Some? && c.bDate == today
    ensures SearchByBirthdayAsWritten([c], 1, None, None, today - 8) == Raised(404, "There are no birthdays for the next 7 days")
    ensures SearchByBirthday([c], 1, None, None, today) == Ok(200, [c])
  {
    assert Select([c], BirthdayBetween(today - 8, today - 1, 1)) == [];
    assert Select([c], BirthdayBetween(today, today + 7, 1)) == [c];
  }

  /** `GET /contacts/{contact_id}`. */
  function GetContactRoute(rows: seq<Contact>, user: nat, id: int): (r: Response<Contact>)
    requires WellFormed(rows)
    ensures r.Ok? || r.Raised? || r.Unprocessable?
    ensures id >= 1 ==> (r.Ok? <==> exists c :: c in rows && c.id == id && c.owner == user)
    ensures r.Unprocessable? <==> id < 1
    ensures id >= 1 ==> (r.Raised? <==> forall c :: c in rows ==> !(c.id == id && c.owner == user))
    ensures r.Raised? ==> r == Raised(404, "NOT FOUND")
    ensures r.Ok? ==> r.status == 200 && r.body in rows && r.body.id == id && r.body.owner == user
  {
    if id < 1 then Unprocessable
    else
      match GetContact(rows, id, user)
      case None => Raised(404, "NOT FOUND")
      case Some(c) => Ok(200, c)
  }

  /** `POST /contacts/`: any failure of the insert becomes 409. */
  function CreateContactRoute(t: Table, body: ContactBody, user: nat, now: int, bDate: int)
    : (r: (Table, Response<Contact>))
    ensures r.1.Ok? || r.1 == Raised(409, "Email not unique")
    ensures r.1.Raised? <==> exists c :: c in t.rows && c.email == body.email
    ensures r.1.Raised? ==> r.0 == t.(nextId := t.nextId + 1)
    ensures r.1.Ok? ==>
              r.1.status == 201 && r.0.rows == t.rows + [r.1.body]
              && Carries(r.1.body, body) && r.1.body.owner == user
              && r.1.body.id == t.nextId && r.0.nextId == t.nextId + 1
              && r.1.body.createdAt == now && r.1.body.bDate == bDate
  {
    match InsertRow(t, body, user, now, bDate)
    case (t', EmailTaken) => (t', Raised(409, "Email not unique"))
    case (t', Inserted(c)) => (t', Ok(201, c))
  }

  /**
   * `PUT /contacts/{contact_id}` as written: the repository call passes
   * three arguments to a four-parameter function, the `TypeError` is caught
   * by the bare `except`, and every valid request gets 409 with no change.
   */
  function UpdateContactRouteAsWritten(t: Table, id: int, body: ContactBody, user: nat)
    : (r: (Table, Response<Contact>))
    ensures r.0 == t
    ensures r.1.Unprocessable? <==> id < 1
    ensures id >= 1 ==> r.1 == Raised(409, "Email not unique")
  {
    if id < 1 then (t, Unprocessable) else (t, Raised(409, "Email not unique"))
  }

  /** The written update route never answers 404, not even for an id that matches nothing. */
  lemma UpdateAsWrittenNever404(t: Table, id: int, body: ContactBody, user: nat)
    requires id >= 1 && forall i :: 0 <= i < |t.rows| ==> t.rows[i].id != id
    ensures UpdateContactRouteAsWritten(t, id, body, user).1 != Raised(404, "NOT FOUND")
    ensures UpdateRow(t, id, body, user, 0).1 == NoMatch
  {
  }

  /**
   * `PUT /contacts/{contact_id}` as intended: the current user is passed,
   * the 404 for a missing contact reaches the client, and only a failed
   * commit (an email already used) becomes 409.
   */
  function UpdateContactRoute(t: Table, id: int, body: ContactBody, user: nat, now: int)
    : (r: (Table, Response<Contact>))
    ensures r.1.Ok? || r.1.Raised? || r.1.Unprocessable?
    ensures id >= 1 ==>
              (r.1.Ok? <==>
                 FindIndex(t.rows, id, user).Some? && !EmailInUse(t.rows, body.email, FindIndex(t.rows, id, user).value))
    ensures r.1.Unprocessable? <==> id < 1
    ensures !r.1.Ok? ==> r.0 == t
    ensures id >= 1 ==>
              (r.1 == Raised(404, "NOT FOUND") <==>
                 forall i :: 0 <= i < |t.rows| ==> !(t.rows[i].id == id && t.rows[i].owner == user))
    ensures r.1.Raised? ==> r.1 == Raised(404, "NOT FOUND") || r.1 == Raised(409, "Email not unique")
    ensures r.1.Ok? ==>
              && r.1.status == 200 && Carries(r.1.body, body)
              && r.1.body.id == id && r.1.body.owner == user && r.1.body.createdAt == now
              && |r.0.rows| == |t.rows|
    ensures id >= 1 ==>
              (r.1 == Raised(409, "Email not unique") <==>
                 FindIndex(t.rows, id, user).Some? && EmailInUse(t.rows, body.email, FindIndex(t.rows, id, user).value))
    ensures r.1.Ok? ==>
              exists k :: 0 <= k < |t.rows| && t.rows[k].id == id && t.rows[k].owner == user
                && r.1.body == Overwritten(t.rows[k], body, now)
                && r.0 == t.(rows := t.rows[k := r.1.body])
  {
    if id < 1 then (t, Unprocessable)
    else
      match UpdateRow(t, id, body, user, now)
      case (_, NoMatch) => (t, Raised(404, "NOT FOUND"))
      case (_, UpdateEmailTaken) => (t, Raised(409, "Email not unique"))
      case (t', Changed(c)) => (t', Ok(200, c))
  }

  /**
   * `DELETE /contacts/{contact_id}` as written: the repository call omits
   * `user`, the `TypeError` is not caught, and nothing is removed.
   */
  function DeleteContactRouteAsWritten(t: Table, id: int): (r: (Table, Response<Option<Contact>>))
    ensures r.0 == t
    ensures r.1.Unprocessable? <==> id < 1
    ensures id >= 1 ==> r.1 == Crashed
  {
    if id < 1 then (t, Unprocessable) else (t, Crashed)
  }

  /** `DELETE /contacts/{contact_id}` as intended: the matched contact of the current user is removed. */
  function DeleteContactRoute(t: Table, id: int, user: nat): (r: (Table, Response<Option<Contact>>))
    requires TableValid(t)
    ensures r.1.Unprocessable? <==> id < 1
    ensures id >= 1 ==> r.1.Ok? && r.1.status == 204
    ensures id >= 1 ==> forall c :: c in r.0.rows <==> c in t.rows && !(c.id == id && c.owner == user)
    ensures r.1.Ok? && r.1.body.Some? ==> r.1.body.value in t.rows && r.1.body.value.id == id
    ensures id >= 1 ==>
              (r.1.body.None? <==> forall i :: 0 <= i < |t.rows| ==> !(t.rows[i].id == id && t.rows[i].owner == user))
    ensures id >= 1 && r.1.body.None? ==> r.0 == t
    ensures id >= 1 && r.1.body.Some? ==>
              exists k :: 0 <= k < |t.rows| && t.rows[k] == r.1.body.value && r.0 == t.(rows := t.rows[..k] + t.rows[k + 1..])
    ensures TableValid(r.0)
  {
    if id < 1 then (t, Unprocessable)
    else
      DeleteRemovesExactlyMatch(t, id, user);
      DeletePreservesValid(t, id, user);
      var (t', removed) := RemoveRow(t, id, user);
      (t', Ok(204, removed))
  }

  /** The written delete route leaves every table as it was, where the intended one removes a matching contact. */
  lemma DeleteAsWrittenRemovesNothing(t: Table, k: nat, user: nat)
    requires TableValid(t) && k < |t.rows| && t.rows[k].owner == user
    ensures DeleteContactRouteAsWritten(t, t.rows[k].id).0.rows == t.rows
    ensures t.rows[k] !in DeleteContactRoute(t, t.rows[k].id, user).0.rows
  {
    assert t.rows[k] in t.rows;
  }
}
