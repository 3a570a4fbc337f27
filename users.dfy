/** The user record and the constraints of its schema (`required`, `maxlength`, `unique`), and
    the store's write, which applies those constraints before it changes the table. */
module Users {
  import opened Wrappers

  /** A store-assigned document id, as the hexadecimal string clients see. */
  type Id = string

  /** Milliseconds since the epoch, as `Date.now` returns. */
  type Timestamp = int

  datatype User = User(id: Id, name: string, email: string, createdAt: Timestamp)

  /** The collection: each stored document under its id. */
  type Table = map<Id, User>

  const NameMaxLength := 50
  const EmailMaxLength := 100

  /** The shape of a generated id: 24 lower-case hexadecimal digits (a 12-byte ObjectId). */
  predicate IsObjectId(s: string) {
    |s| == 24 && forall i :: 0 <= i < |s| ==> s[i] in "0123456789abcdef"
  }

  /** The per-document validators: a required string is non-empty, and each has a maximum length. */
  predicate ValidUser(u: User) {
    && 0 < |u.name| <= NameMaxLength
    && 0 < |u.email| <= EmailMaxLength
  }

  /** Some stored document has this email. */
  predicate EmailTaken(t: Table, email: string) {
    exists id :: id in t && t[id].email == email
  }

  /** Some stored document other than the one under `id` has this email. */
  predicate EmailTakenByOther(t: Table, id: Id, email: string) {
    exists other :: other in t && other != id && t[other].email == email
  }

  /** The table invariant: every document sits under its own well-formed id and passes the
      validators, and the unique index holds — no two documents share an email. */
  predicate ValidTable(t: Table) {
    && (forall id :: id in t ==> IsObjectId(id) && t[id].id == id && ValidUser(t[id]))
    && (forall a, b :: a in t && b in t && t[a].email == t[b].email ==> a == b)
  }

  /** Writing document `u` under `id` (`create` or `save`): the validators run first, then the
      unique index on email rejects a value held by another document; either failure leaves the
      table as it was and yields None. On success only the entry under `id` changes, and a valid
      table stays valid. */
  function Save(t: Table, id: Id, u: User): (r: Option<Table>)
    ensures r.Some? <==> ValidUser(u) && !EmailTakenByOther(t, id, u.email)
    ensures r.Some? ==> id in r.value && r.value[id] == u && r.value.Keys == t.Keys + {id}
    ensures r.Some? ==> forall k :: k in t && k != id ==> r.value[k] == t[k]
    ensures r.Some? && ValidTable(t) && IsObjectId(id) && u.id == id ==> ValidTable(r.value)
  {
    if ValidUser(u) && !EmailTakenByOther(t, id, u.email) then Some(t[id := u]) else None
  }
}
