/** The single-page client: the case-insensitive search over the fetched users, the choice of
    what the user list shows, and the component state (`users`, `form`, `editingId`,
    `isLoading`, `error`, `searchTerm`) that the event handlers update. HTTP calls and the
    delete confirmation are inputs to the handlers. */
module App {
  import opened Wrappers
  import opened JsString
  import opened Users

  datatype Form = Form(name: string, email: string)

  const EmptyForm := Form("", "")

  /** The `name` attribute of the input that fired a change event. */
  datatype Field = NameField | EmailField

  /** A request the client sends: POST `form`, PUT `{ id: editingId, ...form }`, DELETE `{ id }`. */
  datatype Request =
    | PostRequest(name: string, email: string)
    | PutRequest(id: string, name: string, email: string)
    | DeleteRequest(id: string)

  /** How a mutating call ended: the server answered with a status and a body, or it did not. */
  datatype HttpResult = Responded(status: int, data: string) | NoResponse

  /** How the GET of the user list ended. */
  datatype FetchResult = Fetched(users: seq<User>) | FetchFailed

  /** What the user list area shows. */
  datatype View = LoadingUsers | ErrorMessage(message: string) | EmptyState(message: string) | UserCards(users: seq<User>)

  const FetchFailedMessage := "Failed to fetch users. Please try again."
  const OperationFailedMessage := "Operation failed. Please try again."
  const DeleteFailedMessage := "Failed to delete user. Please try again."
  const NoMatchingUsers := "No matching users found"
  const NoUsersYet := "No users registered yet"

  /** An axios call resolves exactly when the server answers with a 2xx status. */
  predicate Succeeded(r: HttpResult) {
    r.Responded? && 200 <= r.status < 300
  }

  /** `err.response?.data || "Operation failed. Please try again."`: the server's text when
      there is a non-empty one, else the fallback; never empty. */
  function SubmitErrorMessage(r: HttpResult): (m: string)
    ensures m != ""
    ensures r.Responded? && r.data != "" ==> m == r.data
    ensures !(r.Responded? && r.data != "") ==> m == OperationFailedMessage
  {
    if r.Responded? && r.data != "" then r.data else OperationFailedMessage
  }

  /** The search predicate: the lower-cased name or the lower-cased email contains the
      lower-cased term. */
  predicate Matches(u: User, term: string) {
    Includes(Lower(u.name), Lower(term)) || Includes(Lower(u.email), Lower(term))
  }

  /** `users.filter(...)`: the users that match, in their original order. */
  function FilteredUsers(users: seq<User>, term: string): (r: seq<User>)
    ensures |r| <= |users|
    ensures forall u :: u in r <==> u in users && Matches(u, term)
  {
    if users == [] then []
    else (if Matches(users[0], term) then [users[0]] else []) + FilteredUsers(users[1..], term)
  }

  /** Filtering a concatenation filters each part and keeps them in order, so the filter never
      reorders users. */
  lemma {:induction false} FilterAppend(a: seq<User>, b: seq<User>, term: string)
    ensures FilteredUsers(a + b, term) == FilteredUsers(a, term) + FilteredUsers(b, term)
  {
    if a == [] {
      assert a + b == b;
    } else {
      assert (a + b)[0] == a[0] && (a + b)[1..] == a[1..] + b;
      FilterAppend(a[1..], b, term);
    }
  }

  /** Every string contains "", so an empty search term keeps every user. */
  lemma {:induction false} FilterEmptyTerm(users: seq<User>)
    ensures FilteredUsers(users, "") == users
  {
    if users != [] {
      assert OccursAt(Lower(users[0].name), Lower(""), 0);
      FilterEmptyTerm(users[1..]);
    }
  }

  /** The search ignores the case of the term. */
  lemma SearchIgnoresTermCase(u: User, term: string)
    ensures Matches(u, term) == Matches(u, Lower(term))
  {
    LowerIdempotent(term);
  }

  /** The list area: "Loading users..." while loading with nothing fetched yet, else the error
      when there is one and nothing fetched, else an empty-state message when no user matches
      ("No matching users found" for a non-empty term, "No users registered yet" otherwise),
      else a card per matching user. */
  function ListView(users: seq<User>, isLoading: bool, error: Option<string>, searchTerm: string): (v: View)
    ensures v.LoadingUsers? <==> isLoading && |users| == 0
    ensures v.ErrorMessage? <==> !isLoading && !Falsy(error) && |users| == 0
    ensures v.ErrorMessage? ==> v.message == error.value
    ensures v.EmptyState? <==>
      !(isLoading && |users| == 0) && !(!Falsy(error) && |users| == 0) && FilteredUsers(users, searchTerm) == []
    ensures v.EmptyState? ==> (v.message == NoMatchingUsers <==> searchTerm != "")
    ensures v.EmptyState? ==> (v.message == NoUsersYet <==> searchTerm == "")
    ensures v.UserCards? ==> v.users == FilteredUsers(users, searchTerm) && v.users != []
  {
    if isLoading && |users| == 0 then LoadingUsers
    else if !Falsy(error) && |users| == 0 then ErrorMessage(error.value)
    else if |FilteredUsers(users, searchTerm)| == 0 then
      EmptyState(if searchTerm != "" then NoMatchingUsers else NoUsersYet)
    else UserCards(FilteredUsers(users, searchTerm))
  }

  /** With no search term and at least one user, the list shows every user, in order. */
  lemma EmptySearchShowsAll(users: seq<User>, isLoading: bool, error: Option<string>)
    requires users != []
    ensures ListView(users, isLoading, error, "") == UserCards(users)
  {
    FilterEmptyTerm(users);
  }

  /** The component's state. */
  class AppState {
    var users: seq<User>
    var form: Form
    var editingId: Option<string>
    var isLoading: bool
    var error: Option<string>
    var searchTerm: string

    /** The initial state, before the first fetch. */
    constructor ()
      ensures users == [] && form == EmptyForm && editingId == None
      ensures !isLoading && error == None && searchTerm == ""
    {
      users := [];
      form := EmptyForm;
      editingId := None;
      isLoading := false;
      error := None;
      searchTerm := "";
    }

    /** `fetchUsers`: on success the list is replaced, on failure it is kept and the fetch error
        is set; loading is over either way and nothing else changes. */
    method FetchUsers(result: FetchResult)
      modifies this`users, this`isLoading, this`error
      ensures !isLoading
      ensures result.Fetched? ==> users == result.users && error == None
      ensures result.FetchFailed? ==> users == old(users) && error == Some(FetchFailedMessage)
    {
      isLoading := true;
      error := None;
      if result.Fetched? {
        users := result.users;
      } else {
        error := Some(FetchFailedMessage);
      }
      isLoading := false;
    }

    /** `handleChange`: the named field takes the new value, the other keeps its own. */
    method HandleChange(field: Field, value: string)
      modifies this`form
      ensures field == NameField ==> form == Form(value, old(form.email))
      ensures field == EmailField ==> form == Form(old(form.name), value)
    {
      match field
      case NameField => form := form.(name := value);
      case EmailField => form := form.(email := value);
    }

    /** The search box's change handler. */
    method SetSearchTerm(term: string)
      modifies this`searchTerm
      ensures searchTerm == term
    {
      searchTerm := term;
    }

    /** `handleSubmit`: PUT `{ id: editingId, ...form }` when `editingId` is set, otherwise POST
        `form`. On success the form is emptied, editing ends and the list is fetched again; on
        failure the form, the editing id and the list are kept and the error is shown. Loading
        is over either way. */
    method HandleSubmit(sent: HttpResult, refetch: FetchResult) returns (req: Request)
      modifies this`form, this`editingId, this`users, this`isLoading, this`error
      ensures req == if Falsy(old(editingId))
        then PostRequest(old(form.name), old(form.email))
        else PutRequest(old(editingId).value, old(form.name), old(form.email))
      ensures !isLoading
      ensures Succeeded(sent) ==> form == EmptyForm && editingId == None
      ensures Succeeded(sent) && refetch.Fetched? ==> users == refetch.users && error == None
      ensures Succeeded(sent) && refetch.FetchFailed? ==> users == old(users) && error == Some(FetchFailedMessage)
      ensures !Succeeded(sent) ==>
        && form == old(form) && editingId == old(editingId) && users == old(users)
        && error == Some(SubmitErrorMessage(sent))
    {
      isLoading := true;
      error := None;
      if !Falsy(editingId) {
        req := PutRequest(editingId.value, form.name, form.email);
      } else {
        req := PostRequest(form.name, form.email);
      }
      if Succeeded(sent) {
        form := EmptyForm;
        editingId := None;
        FetchUsers(refetch);
      } else {
        error := Some(SubmitErrorMessage(sent));
      }
      isLoading := false;
    }

    /** `handleEdit`: the form takes the user's name and email and editing targets the user's id. */
    method HandleEdit(u: User)
      modifies this`form, this`editingId
      ensures form == Form(u.name, u.email) && editingId == Some(u.id)
    {
      form := Form(u.name, u.email);
      editingId := Some(u.id);
    }

    /** The Cancel button: editing ends and the form is emptied. */
    method Cancel()
      modifies this`form, this`editingId
      ensures form == EmptyForm && editingId == None
    {
      editingId := None;
      form := EmptyForm;
    }

    /** `handleDelete`: when the confirmation is declined nothing is sent and nothing changes.
        Otherwise DELETE `{ id }` is sent; on success the list is fetched again, on failure the
        list is kept and the delete error is shown. The form and the editing id are never
        touched, and loading is over at the end. */
    method HandleDelete(id: string, confirmed: bool, sent: HttpResult, refetch: FetchResult) returns (req: Option<Request>)
      modifies this`users, this`isLoading, this`error
      ensures !confirmed ==> req == None && users == old(users) && isLoading == old(isLoading) && error == old(error)
      ensures confirmed ==> req == Some(DeleteRequest(id)) && !isLoading
      ensures confirmed && Succeeded(sent) && refetch.Fetched? ==> users == refetch.users && error == None
      ensures confirmed && Succeeded(sent) && refetch.FetchFailed? ==> users == old(users) && error == Some(FetchFailedMessage)
      ensures confirmed && !Succeeded(sent) ==> users == old(users) && error == Some(DeleteFailedMessage)
    {
      if !confirmed {
        return None;
      }
      isLoading := true;
      error := None;
      req := Some(DeleteRequest(id));
      if Succeeded(sent) {
        FetchUsers(refetch);
      } else {
        error := Some(DeleteFailedMessage);
      }
      isLoading := false;
    }
  }
}
