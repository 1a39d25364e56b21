/**
 * The contacts table and the repository functions of
 * `src/repository/contacts.py`. Queries are filters over the rows in table
 * order followed by an offset/limit window; `create_contact`,
 * `update_contact` and `delete_contact` change the table in place
 * (`ContactTable`), each specified by a function on the table's value.
 */
module ContactRepository {
  import opened Wrappers

  /** A row of the contacts table. `bDate` is the derived day number the birthday search compares. */
  datatype Contact = Contact(
    id: nat,
    name: string,
    surname: string,
    email: string,
    birthday: Option<int>,
    phone: string,
    info: string,
    createdAt: int,
    bDate: int,
    owner: nat)

  /** `ContactSchema` / `ContactUpdateSchema`: the fields a client supplies. */
  datatype ContactBody = ContactBody(
    name: string,
    surname: string,
    email: string,
    birthday: Option<int>,
    phone: string,
    info: string)

  /** Does contact `c` carry the fields of `body`? */
  predicate Carries(c: Contact, body: ContactBody)
  {
    && c.name == body.name && c.surname == body.surname && c.email == body.email
    && c.birthday == body.birthday && c.phone == body.phone && c.info == body.info
  }

  /** The database's constraints: primary keys are distinct and so are emails. */
  ghost predicate WellFormed(rows: seq<Contact>)
  {
    forall i, j :: 0 <= i < j < |rows| ==> rows[i].id != rows[j].id && rows[i].email != rows[j].email
  }

  // ---------------------------------------------------------------------------
  // Case-insensitive matching (`ilike` with a pattern free of `%` and `_`)
  // ---------------------------------------------------------------------------

  function Lower(c: char): (l: char)
    ensures 'A' <= c <= 'Z' ==> l as int == c as int + 32
    ensures !('A' <= c <= 'Z') ==> l == c
  {
    if 'A' <= c <= 'Z' then (c as int + 32) as char else c
  }

  function LowerAll(s: string): (r: string)
    ensures |r| == |s|
    ensures forall i :: 0 <= i < |s| ==> r[i] == Lower(s[i])
  {
    seq(|s|, i requires 0 <= i < |s| => Lower(s[i]))
  }

  /** `value.ilike(pattern)` for a pattern without wildcards. */
  predicate ILike(value: string, pattern: string)
  {
    LowerAll(value) == LowerAll(pattern)
  }

  /** Letter case does not matter to `ILike`, in either argument. */
  lemma ILikeIgnoresCase(value: string, pattern: string)
    ensures ILike(value, pattern) <==>
              |value| == |pattern| && forall i :: 0 <= i < |value| ==> Lower(value[i]) == Lower(pattern[i])
  {
    if |value| == |pattern| && forall i :: 0 <= i < |value| ==> Lower(value[i]) == Lower(pattern[i]) {
      assert LowerAll(value) == LowerAll(pattern);
    }
  }

  // ---------------------------------------------------------------------------
  // Queries
  // ---------------------------------------------------------------------------

  /** The `filter_by`/`where` conditions the repository functions build. */
  datatype Query =
    | OwnedBy(owner: nat)
    | IdOf(id: nat, owner: nat)
    | NameLike(pattern: string, owner: nat)
    | SurnameLike(pattern: string, owner: nat)
    | EmailOf(email: string, owner: nat)
    | BirthdayBetween(from: int, to: int, owner: nat)

  predicate Matches(c: Contact, q: Query)
  {
    match q
    case OwnedBy(u) => c.owner == u
    case IdOf(id, u) => c.id == id && c.owner == u
    case NameLike(p, u) => c.owner == u && ILike(c.name, p)
    case SurnameLike(p, u) => c.owner == u && ILike(c.surname, p)
    case EmailOf(e, u) => c.email == e && c.owner == u
    case BirthdayBetween(from, to, u) => c.owner == u && c.birthday.Some? && from <= c.bDate <= to
  }

  /** `select(Contact).where(...)`: the matching rows in table order. */
  function Select(rows: seq<Contact>, q: Query): (r: seq<Contact>)
    ensures |r| <= |rows|
    ensures forall c :: c in r <==> c in rows && Matches(c, q)
  {
    if rows == [] then []
    else (if Matches(rows[0], q) then [rows[0]] else []) + Select(rows[1..], q)
  }

  /** Selecting from two stretches of the table gives the two selections in the same order. */
  lemma {:induction false} SelectAppend(a: seq<Contact>, b: seq<Contact>, q: Query)
    ensures Select(a + b, q) == Select(a, q) + Select(b, q)
  {
    if a == [] {
      assert a + b == b;
    } else {
      assert (a + b)[1..] == a[1..] + b;
      SelectAppend(a[1..], b, q);
    }
  }

  /** A query no row matches selects nothing. */
  lemma {:induction false} SelectNone(rows: seq<Contact>, q: Query)
    requires forall c :: c in rows ==> !Matches(c, q)
    ensures Select(rows, q) == []
  {
    if rows != [] {
      assert rows[0] in rows;
      forall c | c in rows[1..] ensures !Matches(c, q) {
        assert c in rows;
      }
      SelectNone(rows[1..], q);
    }
  }

  /** Under the table's constraints, a lookup by id or by email finds at most one row. */
  lemma {:induction false} SelectUnique(rows: seq<Contact>, q: Query)
    requires WellFormed(rows)
    requires q.IdOf? || q.EmailOf?
    ensures |Select(rows, q)| <= 1
  {
    if rows != [] {
      var tail := rows[1..];
      assert WellFormed(tail) by {
        forall i, j | 0 <= i < j < |tail| ensures tail[i].id != tail[j].id && tail[i].email != tail[j].email {
          assert tail[i] == rows[i + 1] && tail[j] == rows[j + 1];
        }
      }
      SelectUnique(tail, q);
      if Matches(rows[0], q) {
        forall c | c in tail ensures !Matches(c, q) {
          var j :| 0 <= j < |tail| && tail[j] == c;
          assert rows[j + 1] == c;
        }
        SelectNone(tail, q);
      }
    }
  }

  /** `.offset(offset).limit(limit)`. */
  function Window<T>(xs: seq<T>, offset: nat, limit: nat): (r: seq<T>)
    ensures |r| <= limit
    ensures offset >= |xs| ==> r == []
    ensures offset < |xs| ==> |r| == if |xs| - offset < limit then |xs| - offset else limit
    ensures forall i :: 0 <= i < |r| ==> offset + i < |xs| && r[i] == xs[offset + i]
  {
    var rest := if offset <= |xs| then xs[offset..] else [];
    if limit <= |rest| then rest[..limit] else rest
  }

  /** `scalar_one_or_none()` on a result known to hold at most one row. */
  function OneOrNone(xs: seq<Contact>): (r: Option<Contact>)
    requires |xs| <= 1
    ensures r.None? <==> xs == []
    ensures r.Some? ==> xs == [r.value]
  {
    if xs == [] then None else Some(xs[0])
  }

  /** `get_contacts`: the user's contacts, `offset` of them skipped, at most `limit` returned. */
  function GetContacts(rows: seq<Contact>, limit: nat, offset: nat, user: nat): (r: seq<Contact>)
    ensures |r| <= limit
    ensures var owned := |Select(rows, OwnedBy(user))|;
            |r| == if owned <= offset then 0 else if owned - offset < limit then owned - offset else limit
    ensures forall c :: c in r ==> c in rows && c.owner == user
    ensures forall i :: 0 <= i < |r| ==>
              offset + i < |Select(rows, OwnedBy(user))| && r[i] == Select(rows, OwnedBy(user))[offset + i]
  {
    var owned := Select(rows, OwnedBy(user));
    var r := Window(owned, offset, limit);
    assert forall c :: c in r ==> c in owned;
    r
  }

  /** `get_all_contacts`: the same window over every user's contacts. */
  function GetAllContacts(rows: seq<Contact>, limit: nat, offset: nat): (r: seq<Contact>)
    ensures |r| <= limit
    ensures |r| == if |rows| <= offset then 0 else if |rows| - offset < limit then |rows| - offset else limit
    ensures forall i :: 0 <= i < |r| ==> offset + i < |rows| && r[i] == rows[offset + i]
    ensures offset < |rows| && limit > 0 ==> r != []
  {
    Window(rows, offset, limit)
  }

  /** `get_contact`: the user's contact with this id, if there is one. */
  function GetContact(rows: seq<Contact>, id: nat, user: nat): (r: Option<Contact>)
    requires WellFormed(rows)
    ensures r.Some? ==> r.value in rows && r.value.id == id && r.value.owner == user
    ensures r.None? <==> forall c :: c in rows ==> !(c.id == id && c.owner == user)
  {
    SelectUnique(rows, IdOf(id, user));
    var found := Select(rows, IdOf(id, user));
    assert found != [] ==> found[0] in found;
    OneOrNone(found)
  }

  /** `get_contact_by_email`: the user's contact with this email, if there is one. */
  function GetContactByEmail(rows: seq<Contact>, email: string, user: nat): (r: Option<Contact>)
    requires WellFormed(rows)
    ensures r.Some? ==> r.value in rows && r.value.email == email && r.value.owner == user
    ensures r.None? <==> forall c :: c in rows ==> !(c.email == email && c.owner == user)
  {
    SelectUnique(rows, EmailOf(email, user));
    var found := Select(rows, EmailOf(email, user));
    assert found != [] ==> found[0] in found;
    OneOrNone(found)
  }

  /** `get_contacts_by_name`: a list, possibly empty, of the user's contacts with that name in any letter case. */
  function GetContactsByName(rows: seq<Contact>, name: string, user: nat): (r: seq<Contact>)
    ensures forall c :: c in r <==> c in rows && c.owner == user && ILike(c.name, name)
  {
    Select(rows, NameLike(name, user))
  }

  /** `get_contacts_by_surname`: as `get_contacts_by_name`, on the surname. */
  function GetContactsBySurname(rows: seq<Contact>, surname: string, user: nat): (r: seq<Contact>)
    ensures forall c :: c in r <==> c in rows && c.owner == user && ILike(c.surname, surname)
  {
    Select(rows, SurnameLike(surname, user))
  }

  /** `get_contact_by_birthday`: the user's contacts with a birthday whose day number lies in `[birthday, birthday + n]`. */
  function GetContactByBirthday(rows: seq<Contact>, birthday: int, n: int, user: nat): (r: seq<Contact>)
    ensures forall c :: c in r <==>
              c in rows && c.owner == user && c.birthday.Some? && birthday <= c.bDate <= birthday + n
  {
    Select(rows, BirthdayBetween(birthday, birthday + n, user))
  }

  /** A negative window is an empty range: the birthday search then finds nothing. */
  lemma NegativeWindowIsEmpty(rows: seq<Contact>, birthday: int, n: int, user: nat)
    requires n < 0
    ensures GetContactByBirthday(rows, birthday, n, user) == []
  {
    SelectNone(rows, BirthdayBetween(birthday, birthday + n, user));
  }

  /** A birthday on day 10 is inside the window of 5 days from day 8 and outside the one from day 11. */
  lemma BirthdayWindowExample(c: Contact)
    requires c.owner == 1 && c.birthday.Some? && c.bDate == 10
    ensures GetContactByBirthday([c], 8, 5, 1) == [c]
    ensures GetContactByBirthday([c], 11, 5, 1) == []
  {
    assert Select([c][1..], BirthdayBetween(8, 13, 1)) == [];
    assert Select([c][1..], BirthdayBetween(11, 16, 1)) == [];
  }

  // ---------------------------------------------------------------------------
  // The table and its updates
  // ---------------------------------------------------------------------------

  /** The rows and the next value of the id sequence. */
  datatype Table = Table(rows: seq<Contact>, nextId: nat)

  /** The constraints, and every id positive and below the next one. */
  ghost predicate TableValid(t: Table)
  {
    && WellFormed(t.rows)
    && 0 < t.nextId
    && forall i :: 0 <= i < |t.rows| ==> 0 < t.rows[i].id < t.nextId
  }

  /** Is `email` already used by some row other than the one at `except`? */
  predicate EmailInUse(rows: seq<Contact>, email: string, except: int)
  {
    exists i :: 0 <= i < |rows| && i != except && rows[i].email == email
  }

  /** The position of the user's row with this id. */
  function FindIndex(rows: seq<Contact>, id: nat, user: nat): (r: Option<nat>)
    ensures r.Some? ==> r.value < |rows| && rows[r.value].id == id && rows[r.value].owner == user
    ensures r.None? <==> forall i :: 0 <= i < |rows| ==> !(rows[i].id == id && rows[i].owner == user)
  {
    if rows == [] then None
    else if rows[0].id == id && rows[0].owner == user then Some(0)
    else
      match FindIndex(rows[1..], id, user)
      case None =>
        assert forall i :: 1 <= i < |rows| ==> rows[i] == rows[1..][i - 1];
        None
      case Some(k) => Some(k + 1)
  }

  datatype CreateResult = Inserted(contact: Contact) | EmailTaken

  /**
   * `create_contact`. The insert draws its id from the id sequence before
   * the commit; a clash on the unique email column then makes the commit
   * fail and no row is added, but the sequence value stays used, as a
   * PostgreSQL sequence is never rolled back.
   */
  function InsertRow(t: Table, body: ContactBody, user: nat, now: int, bDate: int): (r: (Table, CreateResult))
    ensures r.1.EmailTaken? <==> exists c :: c in t.rows && c.email == body.email
    ensures r.1.EmailTaken? ==> r.0 == t.(nextId := t.nextId + 1)
    ensures r.1.Inserted? ==>
              && r.0.rows == t.rows + [r.1.contact]
              && Carries(r.1.contact, body) && r.1.contact.owner == user
              && r.1.contact.id == t.nextId && r.0.nextId == t.nextId + 1
              && r.1.contact.createdAt == now && r.1.contact.bDate == bDate
  {
    if EmailInUse(t.rows, body.email, -1) then
      (t.(nextId := t.nextId + 1), EmailTaken)
    else
      var c := Contact(t.nextId, body.name, body.surname, body.email, body.birthday, body.phone, body.info,
                       now, bDate, user);
      assert forall x :: x in t.rows ==> x.email != body.email;
      (Table(t.rows + [c], t.nextId + 1), Inserted(c))
  }

  datatype UpdateResult = NoMatch | Changed(contact: Contact) | UpdateEmailTaken

  /** The row after `update_contact` has assigned the body's fields and `created_at = now()`. */
  function Overwritten(c: Contact, body: ContactBody, now: int): (d: Contact)
    ensures Carries(d, body) && d.createdAt == now
    ensures d.id == c.id && d.owner == c.owner && d.bDate == c.bDate
  {
    c.(name := body.name, surname := body.surname, email := body.email, birthday := body.birthday,
       phone := body.phone, info := body.info, createdAt := now)
  }

  /**
   * `update_contact`: the user's contact with this id is overwritten in
   * place and every other row stays as it was; the commit fails, and nothing
   * changes, when another row already holds the body's email.
   */
  function UpdateRow(t: Table, id: nat, body: ContactBody, user: nat, now: int): (r: (Table, UpdateResult))
    ensures r.1.NoMatch? <==> forall i :: 0 <= i < |t.rows| ==> !(t.rows[i].id == id && t.rows[i].owner == user)
    ensures r.1.UpdateEmailTaken? <==>
              FindIndex(t.rows, id, user).Some? && EmailInUse(t.rows, body.email, FindIndex(t.rows, id, user).value)
    ensures r.1.Changed? <==>
              FindIndex(t.rows, id, user).Some? && !EmailInUse(t.rows, body.email, FindIndex(t.rows, id, user).value)
    ensures !r.1.Changed? ==> r.0 == t
    ensures r.1.Changed? ==>
              exists k :: 0 <= k < |t.rows| && t.rows[k].id == id && t.rows[k].owner == user
                && r.1.contact == Overwritten(t.rows[k], body, now)
                && r.0 == t.(rows := t.rows[k := r.1.contact])
  {
    match FindIndex(t.rows, id, user)
    case None => (t, NoMatch)
    case Some(k) =>
      if EmailInUse(t.rows, body.email, k) then (t, UpdateEmailTaken)
      else
        var c := Overwritten(t.rows[k], body, now);
        (t.(rows := t.rows[k := c]), Changed(c))
  }

  /** `delete_contact`. */
  function RemoveRow(t: Table, id: nat, user: nat): (r: (Table, Option<Contact>))
    ensures r.1.None? <==> forall i :: 0 <= i < |t.rows| ==> !(t.rows[i].id == id && t.rows[i].owner == user)
    ensures r.1.None? ==> r.0 == t
    ensures r.1.Some? ==>
              exists k :: 0 <= k < |t.rows| && t.rows[k] == r.1.value && r.1.value.id == id && r.1.value.owner == user
                && r.0 == t.(rows := t.rows[..k] + t.rows[k + 1..])
    ensures multiset(r.0.rows) + (if r.1.Some? then multiset{r.1.value} else multiset{}) == multiset(t.rows)
  {
    match FindIndex(t.rows, id, user)
    case None => (t, None)
    case Some(k) =>
      assert t.rows == t.rows[..k] + [t.rows[k]] + t.rows[k + 1..];
      (t.(rows := t.rows[..k] + t.rows[k + 1..]), Some(t.rows[k]))
  }

  lemma InsertPreservesValid(t: Table, body: ContactBody, user: nat, now: int, bDate: int)
    requires TableValid(t)
    ensures TableValid(InsertRow(t, body, user, now, bDate).0)
    ensures InsertRow(t, body, user, now, bDate).1.Inserted? ==>
              |InsertRow(t, body, user, now, bDate).0.rows| == |t.rows| + 1
  {
  }

  lemma UpdatePreservesValid(t: Table, id: nat, body: ContactBody, user: nat, now: int)
    requires TableValid(t)
    ensures TableValid(UpdateRow(t, id, body, user, now).0)
  {
    var r := UpdateRow(t, id, body, user, now);
    if r.1.Changed? {
      var k := FindIndex(t.rows, id, user).value;
      assert !EmailInUse(t.rows, body.email, k);
      var rows := r.0.rows;
      forall i, j | 0 <= i < j < |rows| ensures rows[i].id != rows[j].id && rows[i].email != rows[j].email {
        if i != k && j != k {
          assert rows[i] == t.rows[i] && rows[j] == t.rows[j];
        }
      }
    }
  }

  /** The rows left when the one at `k` is removed, position by position. */
  lemma RemovedAt(rows: seq<Contact>, k: nat)
    requires k < |rows|
    ensures |rows[..k] + rows[k + 1..]| == |rows| - 1
    ensures forall i :: 0 <= i < k ==> (rows[..k] + rows[k + 1..])[i] == rows[i]
    ensures forall i :: k < i < |rows| ==> (rows[..k] + rows[k + 1..])[i - 1] == rows[i]
  {
  }

  /** Removing one row keeps the constraints. */
  lemma RemovedValid(t: Table, k: nat)
    requires TableValid(t) && k < |t.rows|
    ensures TableValid(t.(rows := t.rows[..k] + t.rows[k + 1..]))
  {
    RemovedAt(t.rows, k);
    var rows := t.rows[..k] + t.rows[k + 1..];
    forall i, j | 0 <= i < j < |rows| ensures rows[i].id != rows[j].id && rows[i].email != rows[j].email {
      var i', j' := if i < k then i else i + 1, if j < k then j else j + 1;
      assert rows[i] == t.rows[i'] && rows[j] == t.rows[j'] && i' < j';
    }
    forall i | 0 <= i < |rows| ensures 0 < rows[i].id < t.nextId {
      assert rows[i] == t.rows[if i < k then i else i + 1];
    }
  }

  lemma DeletePreservesValid(t: Table, id: nat, user: nat)
    requires TableValid(t)
    ensures TableValid(RemoveRow(t, id, user).0)
  {
    match FindIndex(t.rows, id, user)
    case None =>
    case Some(k) => RemovedValid(t, k);
  }

  /** Removing the only row that matches an id and owner keeps exactly the rows that do not match. */
  lemma RemovedMembers(rows: seq<Contact>, k: nat, id: nat, user: nat)
    requires WellFormed(rows)
    requires k < |rows| && rows[k].id == id && rows[k].owner == user
    ensures forall c :: c in rows[..k] + rows[k + 1..] <==> c in rows && !(c.id == id && c.owner == user)
  {
    var rest := rows[..k] + rows[k + 1..];
    RemovedAt(rows, k);
    forall c | c in rows && !(c.id == id && c.owner == user) ensures c in rest {
      var j :| 0 <= j < |rows| && rows[j] == c;
      if j < k {
        assert rest[j] == c;
      } else {
        assert j != k;
        assert rest[j - 1] == c;
      }
    }
    forall c | c in rest ensures c in rows && !(c.id == id && c.owner == user) {
      var j :| 0 <= j < |rest| && rest[j] == c;
      if j < k {
        assert rows[j] == c;
      } else {
        assert rows[j + 1] == c;
      }
    }
  }

  /** Under the constraints, deleting removes exactly the one matched contact and keeps every other. */
  lemma DeleteRemovesExactlyMatch(t: Table, id: nat, user: nat)
    requires TableValid(t)
    ensures forall c :: c in RemoveRow(t, id, user).0.rows <==> c in t.rows && !(c.id == id && c.owner == user)
  {
    match FindIndex(t.rows, id, user)
    case None =>
    case Some(k) => RemovedMembers(t.rows, k, id, user);
  }

  /** The contacts table as the database session holds it. */
  class ContactTable {
    var rows: seq<Contact>
    var nextId: nat

    ghost predicate Valid()
      reads this
    {
      TableValid(Table(rows, nextId))
    }

    function Snapshot(): Table
      reads this
    {
      Table(rows, nextId)
    }

    constructor ()
      ensures Valid() && rows == [] && nextId == 1
    {
      rows, nextId := [], 1;
    }

    /** `create_contact`. */
    method Create(body: ContactBody, user: nat, now: int, bDate: int) returns (result: CreateResult)
      requires Valid()
      modifies this
      ensures Valid()
      ensures (Snapshot(), result) == InsertRow(old(Snapshot()), body, user, now, bDate)
    {
      InsertPreservesValid(Snapshot(), body, user, now, bDate);
      var id := nextId;
      nextId := nextId + 1;
      if EmailInUse(rows, body.email, -1) {
        return EmailTaken;
      }
      var contact := Contact(id, body.name, body.surname, body.email, body.birthday, body.phone, body.info,
                             now, bDate, user);
      rows := rows + [contact];
      result := Inserted(contact);
    }

    /** `update_contact`. */
    method Update(id: nat, body: ContactBody, user: nat, now: int) returns (result: UpdateResult)
      requires Valid()
      modifies this
      ensures Valid()
      ensures (Snapshot(), result) == UpdateRow(old(Snapshot()), id, body, user, now)
    {
      UpdatePreservesValid(Snapshot(), id, body, user, now);
      var found := FindIndex(rows, id, user);
      if found.None? {
        return NoMatch;
      }
      var k := found.value;
      if EmailInUse(rows, body.email, k) {
        return UpdateEmailTaken;
      }
      var contact := rows[k];
      contact := contact.(name := body.name, surname := body.surname, email := body.email);
      contact := contact.(birthday := body.birthday, phone := body.phone, info := body.info);
      contact := contact.(createdAt := now);
      rows := rows[k := contact];
      result := Changed(contact);
    }

    /** `delete_contact`. */
    method Delete(id: nat, user: nat) returns (removed: Option<Contact>)
      requires Valid()
      modifies this
      ensures Valid()
      ensures (Snapshot(), removed) == RemoveRow(old(Snapshot()), id, user)
    {
      DeletePreservesValid(Snapshot(), id, user);
      var found := FindIndex(rows, id, user);
      if found.None? {
        return None;
      }
      var k := found.value;
      removed := Some(rows[k]);
      rows := rows[..k] + rows[k + 1..];
    }
  }
}
