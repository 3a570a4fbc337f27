/** The four route handlers of the user service. Each handler validates the request body, looks
    the record up, then creates, overwrites or removes at most one record and answers with a
    status code. `PostOutcome`, `PutOutcome` and `DeleteOutcome` state what each handler answers
    and what the table becomes; the class `UserStore` runs the handlers step by step against its
    table and is proved to agree with them. */
module UserRoutes {
  import opened Wrappers
  import opened JsString
  import opened Users

  datatype Body = Json(user: User) | JsonList(users: seq<User>) | Text(message: string)

  datatype Response = Response(status: int, body: Body)

  /** What a handler answers, and the table after it. */
  datatype Outcome = Outcome(response: Response, table: Table)

  const AllFieldsRequired := "All fields are required"
  const UserAlreadyExists := "User already exists"
  const UserDoesNotExist := "User does not exist"
  const InternalServerError := "Internal server error"

  function DeletedMessage(id: string): string {
    "User with id " + id + " deleted successfully"
  }

  const BadRequest := Response(400, Text(AllFieldsRequired))
  const Conflict := Response(409, Text(UserAlreadyExists))
  const NotFound := Response(404, Text(UserDoesNotExist))
  const ServerError := Response(500, Text(InternalServerError))

  /** POST's test of one field: absent, empty, or empty once trimmed. */
  predicate BlankField(f: Option<string>) {
    Falsy(f) || Trim(f.value) == ""
  }

  predicate PostRejected(name: Option<string>, email: Option<string>) {
    BlankField(name) || BlankField(email)
  }

  /** PUT's test of its fields: absent or empty, without trimming. */
  predicate PutRejected(id: Option<string>, name: Option<string>, email: Option<string>) {
    Falsy(id) || Falsy(name) || Falsy(email)
  }

  /** The record PUT writes back: the stored one with the new name and email. */
  function Updated(t: Table, id: Id, name: string, email: string): User
    requires id in t
  {
    t[id].(name := name, email := email)
  }

  /** POST: 400 when a field is missing or blank after trimming, 409 when the email is already
      stored, 500 when the store's validators reject the record, else 201 with one new record
      under the fresh id and every other record as it was. Only 201 changes the table. */
  function PostOutcome(t: Table, name: Option<string>, email: Option<string>, newId: Id, now: Timestamp): (o: Outcome)
    requires newId !in t
    ensures o.response.status in {201, 400, 409, 500}
    ensures o.response.status == 400 <==> PostRejected(name, email)
    ensures o.response.status == 409 <==> !PostRejected(name, email) && EmailTaken(t, email.value)
    ensures o.response.status == 500 <==>
      !PostRejected(name, email) && !EmailTaken(t, email.value) && !ValidUser(User(newId, name.value, email.value, now))
    ensures o.response.status != 201 ==> o.table == t
    ensures o.response.status == 201 ==>
      && newId in o.table && o.table.Keys == t.Keys + {newId} && |o.table| == |t| + 1
      && o.table[newId] == User(newId, name.value, email.value, now)
      && o.response.body == Json(o.table[newId])
      && (forall k :: k in t ==> o.table[k] == t[k])
    ensures ValidTable(t) && IsObjectId(newId) ==> ValidTable(o.table)
  {
    if PostRejected(name, email) then Outcome(BadRequest, t)
    else if EmailTaken(t, email.value) then Outcome(Conflict, t)
    else
      var u := User(newId, name.value, email.value, now);
      match Save(t, newId, u)
      case None => Outcome(ServerError, t)
      case Some(t') => Outcome(Response(201, Json(u)), t')
  }

  /** PUT: 400 when id, name or email is missing or empty (no trimming), 404 when no record has
      the id, 500 when the store rejects the new values (a validator, or the unique index because
      another record has the email), else 200: only that record changes, it keeps its id and
      creation time and takes the new name and email. Only 200 changes the table. */
  function PutOutcome(t: Table, id: Option<string>, name: Option<string>, email: Option<string>): (o: Outcome)
    ensures o.response.status in {200, 400, 404, 500}
    ensures o.response.status == 400 <==> PutRejected(id, name, email)
    ensures o.response.status == 404 <==> !PutRejected(id, name, email) && id.value !in t
    ensures o.response.status == 500 <==>
      && !PutRejected(id, name, email) && id.value in t
      && (!ValidUser(Updated(t, id.value, name.value, email.value)) || EmailTakenByOther(t, id.value, email.value))
    ensures o.response.status != 200 ==> o.table == t
    ensures o.response.status == 200 ==>
      && id.value in t && o.table.Keys == t.Keys
      && o.table[id.value].id == t[id.value].id
      && o.table[id.value].createdAt == t[id.value].createdAt
      && o.table[id.value].name == name.value
      && o.table[id.value].email == email.value
      && o.response.body == Json(o.table[id.value])
      && (forall k :: k in t && k != id.value ==> o.table[k] == t[k])
    ensures ValidTable(t) ==> ValidTable(o.table)
  {
    if PutRejected(id, name, email) then Outcome(BadRequest, t)
    else if id.value !in t then Outcome(NotFound, t)
    else
      var u := Updated(t, id.value, name.value, email.value);
      match Save(t, id.value, u)
      case None => Outcome(ServerError, t)
      case Some(t') => Outcome(Response(200, Json(u)), t')
  }

  /** DELETE: 400 when the id is missing or empty, 404 when no record has it, else 200 with the
      confirmation text and exactly that record removed. Only 200 changes the table. */
  function DeleteOutcome(t: Table, id: Option<string>): (o: Outcome)
    ensures o.response.status in {200, 400, 404}
    ensures o.response.status == 400 <==> Falsy(id)
    ensures o.response.status == 404 <==> !Falsy(id) && id.value !in t
    ensures o.response.status != 200 ==> o.table == t
    ensures o.response.status == 200 ==>
      && id.value in t && o.table.Keys == t.Keys - {id.value} && |o.table| == |t| - 1
      && (forall k :: k in o.table ==> o.table[k] == t[k])
      && o.response.body == Text(DeletedMessage(id.value))
    ensures ValidTable(t) ==> ValidTable(o.table)
  {
    if Falsy(id) then Outcome(BadRequest, t)
    else if id.value !in t then Outcome(NotFound, t)
    else Outcome(Response(200, Text(DeletedMessage(id.value))), t - {id.value})
  }

  /** `s` lists the table: every element is a stored record, no record appears twice, and every
      stored record appears. */
  predicate ListsTable(s: seq<User>, t: Table) {
    && (forall i :: 0 <= i < |s| ==> s[i].id in t && t[s[i].id] == s[i])
    && (forall i, j :: 0 <= i < j < |s| ==> s[i].id != s[j].id)
    && (forall id :: id in t ==> t[id] in s)
  }

  /** The 201 condition of `PostOutcome`: the record passes the validators, its email is not
      yet stored, and neither field is blank after trimming (`!PostRejected`, `!EmailTaken`,
      `ValidUser`, stated with the validators first). */
  predicate PostAccepted(t: Table, name: string, email: string, newId: Id, now: Timestamp) {
    && ValidUser(User(newId, name, email, now))
    && !EmailTaken(t, email)
    && Trim(name) != "" && Trim(email) != ""
  }

  /** POST trims and PUT does not: a non-empty whitespace-only name is refused by POST with 400
      but accepted by PUT, which stores it. */
  lemma WhitespaceNameAsymmetry(t: Table, id: Id, name: string, email: string, newId: Id, now: Timestamp)
    requires id in t && id != "" && newId !in t
    requires 0 < |name| <= NameMaxLength && forall i :: 0 <= i < |name| ==> IsWhitespace(name[i])
    requires 0 < |email| <= EmailMaxLength && !EmailTakenByOther(t, id, email)
    ensures PostOutcome(t, Some(name), Some(email), newId, now).response.status == 400
    ensures PutOutcome(t, Some(id), Some(name), Some(email)).response.status == 200
    ensures PutOutcome(t, Some(id), Some(name), Some(email)).table[id].name == name
  {
  }

  /** A POST that meets the conditions answers 201 with the new record, and the table becomes
      the old one plus that record under the fresh id. */
  lemma CreatedTable(t: Table, name: string, email: string, newId: Id, now: Timestamp)
    requires newId !in t && PostAccepted(t, name, email, newId, now)
    ensures var u := User(newId, name, email, now);
      PostOutcome(t, Some(name), Some(email), newId, now) == Outcome(Response(201, Json(u)), t[newId := u])
  {
  }

  /** Two POSTs with the same email: the second answers 409 and changes nothing, and the table
      keeps exactly one record with that email, the first one. */
  lemma DuplicatePostConflicts(t: Table, name: string, email: string, name2: Option<string>,
                               id1: Id, id2: Id, now1: Timestamp, now2: Timestamp)
    requires ValidTable(t) && IsObjectId(id1) && id1 !in t && id2 !in t && id2 != id1
    requires PostAccepted(t, name, email, id1, now1) && !BlankField(name2)
    ensures var t1 := PostOutcome(t, Some(name), Some(email), id1, now1).table;
      && PostOutcome(t1, name2, Some(email), id2, now2) == Outcome(Conflict, t1)
      && forall k :: k in t1 && t1[k].email == email ==> k == id1
  {
    CreatedTable(t, name, email, id1, now1);
  }

  /** Deleting an id twice: the first answers 200, the second 404 and changes nothing. */
  lemma DeleteTwiceNotFound(t: Table, id: Option<string>)
    requires DeleteOutcome(t, id).response.status == 200
    ensures var t1 := DeleteOutcome(t, id).table;
      DeleteOutcome(t1, id) == Outcome(NotFound, t1)
  {
  }

  /** Create, then update the new record: it carries the new name and email under the id and
      creation time POST gave it, and every other record is as before the POST. */
  lemma CreateThenUpdate(t: Table, name: string, email: string, name2: string, email2: string,
                         newId: Id, now: Timestamp)
    requires newId != "" && newId !in t && PostAccepted(t, name, email, newId, now)
    requires 0 < |name2| <= NameMaxLength && 0 < |email2| <= EmailMaxLength && !EmailTaken(t, email2)
    ensures var t1 := PostOutcome(t, Some(name), Some(email), newId, now).table;
      && PutOutcome(t1, Some(newId), Some(name2), Some(email2)).response.status == 200
      && PutOutcome(t1, Some(newId), Some(name2), Some(email2)).table == t[newId := User(newId, name2, email2, now)]
  {
    CreatedTable(t, name, email, newId, now);
    var t1 := t[newId := User(newId, name, email, now)];
    UpdateFresh(t, t1, newId, name2, email2, now);
  }

  /** Updating a record that is the only difference between `t1` and `t`, to an email no record
      of `t` has, answers 200 and leaves `t` with just that record rewritten. */
  lemma UpdateFresh(t: Table, t1: Table, newId: Id, name2: string, email2: string, now: Timestamp)
    requires newId != "" && newId in t1 && t1[newId].createdAt == now && t1[newId].id == newId
    requires t1 == t[newId := t1[newId]]
    requires 0 < |name2| <= NameMaxLength && 0 < |email2| <= EmailMaxLength && !EmailTaken(t, email2)
    ensures PutOutcome(t1, Some(newId), Some(name2), Some(email2)).response.status == 200
    ensures PutOutcome(t1, Some(newId), Some(name2), Some(email2)).table == t[newId := User(newId, name2, email2, now)]
  {
  }

  /** Writing back a stored record's own name and email (edit, then submit unchanged) answers
      200 and leaves the table exactly as it was. */
  lemma ResubmitUnchanged(t: Table, id: Id)
    requires ValidTable(t) && id in t
    ensures PutOutcome(t, Some(id), Some(t[id].name), Some(t[id].email)) == Outcome(Response(200, Json(t[id])), t)
  {
  }

  /** A listing taken after a successful POST contains the new record, and it is the only listed
      record with that email. */
  lemma ListedOnceAfterPost(t: Table, name: string, email: string, newId: Id, now: Timestamp, s: seq<User>)
    requires ValidTable(t) && IsObjectId(newId) && newId !in t && PostAccepted(t, name, email, newId, now)
    ensures ListsTable(s, PostOutcome(t, Some(name), Some(email), newId, now).table) ==>
      && (exists i :: 0 <= i < |s| && s[i] == User(newId, name, email, now))
      && (forall i :: 0 <= i < |s| && s[i].email == email ==> s[i] == User(newId, name, email, now))
  {
    CreatedTable(t, name, email, newId, now);
    var t1 := PostOutcome(t, Some(name), Some(email), newId, now).table;
    if ListsTable(s, t1) {
      assert t1[newId] in s;
    }
  }

  /** The persistent collection behind the routes, with the handlers that change it. */
  class UserStore {
    var users: Table
    /** Every id the store has ever handed out; a generated id is never one of them. */
    ghost var issued: set<Id>

    ghost predicate Valid()
      reads this
    {
      ValidTable(users) && users.Keys <= issued
    }

    constructor ()
      ensures Valid() && users == map[] && issued == {}
    {
      users := map[];
      issued := {};
    }

    /** `findOne({ email })`: a stored record with that email, if there is one. */
    method FindOne(email: string) returns (found: Option<User>)
      ensures found.Some? <==> EmailTaken(users, email)
      ensures found.Some? ==> found.value.email == email && found.value in users.Values
    {
      if exists id :: id in users && users[id].email == email {
        var id :| id in users && users[id].email == email;
        found := Some(users[id]);
      } else {
        found := None;
      }
    }

    /** `findById(id)`: the record stored under that id, if there is one. */
    method FindById(id: Id) returns (found: Option<User>)
      ensures found.Some? <==> id in users
      ensures found.Some? ==> found.value == users[id]
    {
      found := if id in users then Some(users[id]) else None;
    }

    /** GET: 200 with every stored record, each once (in the order the store yields them). */
    method Get() returns (r: Response)
      requires Valid()
      ensures r.status == 200 && r.body.JsonList? && ListsTable(r.body.users, users)
    {
      var rest := users.Keys;
      var out: seq<User> := [];
      while rest != {}
        invariant rest <= users.Keys
        invariant forall i :: 0 <= i < |out| ==> out[i].id in users && users[out[i].id] == out[i] && out[i].id !in rest
        invariant forall i, j :: 0 <= i < j < |out| ==> out[i].id != out[j].id
        invariant forall id :: id in users && id !in rest ==> users[id] in out
        decreases rest
      {
        var id :| id in rest;
        out := out + [users[id]];
        rest := rest - {id};
      }
      r := Response(200, JsonList(out));
    }

    /** POST with body fields `name` and `email`; `newId` and `now` are the id and the time the
        store assigns to a new document. */
    method Post(name: Option<string>, email: Option<string>, newId: Id, now: Timestamp) returns (r: Response)
      requires Valid() && IsObjectId(newId) && newId !in issued
      modifies this
      ensures Valid()
      ensures r == PostOutcome(old(users), name, email, newId, now).response
      ensures users == PostOutcome(old(users), name, email, newId, now).table
      ensures issued == if r.status == 201 then old(issued) + {newId} else old(issued)
    {
      if BlankField(name) || BlankField(email) {
        return BadRequest;
      }
      var existing := FindOne(email.value);
      if existing.Some? {
        return Conflict;
      }
      var u := User(newId, name.value, email.value, now);
      var saved := Save(users, newId, u);
      if saved.None? {
        return ServerError;
      }
      users := saved.value;
      issued := issued + {newId};
      r := Response(201, Json(u));
    }

    /** PUT with body fields `id`, `name` and `email`. */
    method Put(id: Option<string>, name: Option<string>, email: Option<string>) returns (r: Response)
      requires Valid()
      modifies this`users
      ensures Valid()
      ensures r == PutOutcome(old(users), id, name, email).response
      ensures users == PutOutcome(old(users), id, name, email).table
    {
      if Falsy(id) || Falsy(name) || Falsy(email) {
        return BadRequest;
      }
      var user := FindById(id.value);
      if user.None? {
        return NotFound;
      }
      var u := user.value.(name := name.value, email := email.value);
      var saved := Save(users, id.value, u);
      if saved.None? {
        return ServerError;
      }
      users := saved.value;
      r := Response(200, Json(u));
    }

    /** DELETE with body field `id`. */
    method Delete(id: Option<string>) returns (r: Response)
      requires Valid()
      modifies this`users
      ensures Valid()
      ensures r == DeleteOutcome(old(users), id).response
      ensures users == DeleteOutcome(old(users), id).table
    {
      if Falsy(id) {
        return BadRequest;
      }
      var user := FindById(id.value);
      if user.None? {
        return NotFound;
      }
      users := users - {id.value};
      r := Response(200, Text(DeletedMessage(id.value)));
    }
  }
}
