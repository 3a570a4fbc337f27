# User registry: a Dafny model

The application is a small user registry. An Express/Mongoose backend keeps a collection of user
records (`name`, `email`, `created_at` and a store-assigned id) behind four routes on `/`:
GET lists, POST creates, PUT updates and DELETE removes. A React form drives those routes and
filters the fetched list on the client. This project models three parts:

- **The record schema** (`users.dfy`, module `Users`). It gives the `User` datatype and the
  `required`/`maxlength` validators (`ValidUser`). `ValidTable` is the table invariant: every
  record sits under its own id, passes the validators, and has an email no other record has (the
  unique index). `Save` is the store's write: it runs the validators, then the unique index, and
  it changes only the one entry. A rejected save leaves the table as it was.
- **The route handlers** (`user_routes.dfy`, module `UserRoutes`).
  - `PostOutcome`, `PutOutcome` and `DeleteOutcome` state, for every input, the status code,
    the body and the table afterwards.
  - Class `UserStore` holds the collection as a `map` field. Its methods `Get`, `Post`, `Put`
    and `Delete` run the handler steps in the source's order (validate, look up, write). They are
    proved to answer and update exactly as those functions say.
  - They are also proved to keep the table invariant and never to reuse an id. The ghost set
    `issued` records every id ever handed out.
  - Lemmas relate several requests to each other.
- **The client** (`app.dfy`, module `App`).
  - `FilteredUsers` is the case-insensitive search and `ListView` chooses what the list area
    shows.
  - Class `AppState` holds the component's state (`users`, `form`, `editingId`, `isLoading`,
    `error`, `searchTerm`). Its methods are the event handlers.
  - Each HTTP call's result and the delete confirmation are parameters of those handlers.
- `js_string.dfy` (module `JsString`) gives the JavaScript built-ins the code relies on:
  - `!x` on an optional field (`Falsy`);
  - `trim`, with the ECMAScript whitespace set;
  - `toLowerCase`, restricted to ASCII;
  - `includes`.
- `wrappers.dfy` (module `Wrappers`) gives the `Option` type shared by the other modules.

Request-body fields are `Option<string>`, with `None` for a field the body lacks. The id the store
generates for a new record and the creation time (`Date.now`) are parameters of `Post`. The id is
required to be one the store has never issued.

**Choice on uniqueness.** The abstract `Save` enforces the schema the way MongoDB and Mongoose
would: the validators and the unique index on `email`. A violation is the error that
`backend/src/routes/userRoutes.js` catches and answers with 500. The table stays unchanged.
The PUT route itself does not check email uniqueness. So a PUT that gives a record another
record's email answers 500 in this model and never creates a duplicate. A PUT that keeps a
record's own email succeeds.

**Behaviour worth noting.**
- POST trims the name and email before its blank check, but PUT only rejects missing or empty
  values. So a whitespace-only name can be stored through PUT
  (`UserRoutes.WhitespaceNameAsymmetry`).
- The routes also answer 500 when the store's validators or its unique index reject a write,
  such as a name over 50 characters or an email over 100.

## Model

| member | source | states |
|---|---|---|
| JsString.TrimStart | backend/src/routes/userRoutes.js:20 | the result is a suffix of the input that does not start with whitespace, and everything dropped is whitespace |
| JsString.TrimEnd | backend/src/routes/userRoutes.js:20 | the result is a prefix of the input that does not end with whitespace, and everything dropped is whitespace |
| JsString.Trim | backend/src/routes/userRoutes.js:20 | `s.trim()` is a contiguous slice of `s` with only whitespace before and after it; it is empty exactly when every character of `s` is whitespace; a non-empty result starts and ends with non-whitespace |
| JsString.TrimSlice | backend/src/routes/userRoutes.js:20 | trimming the start and then the end leaves the slice of `s` that begins where the leading whitespace ends, with only whitespace dropped on either side |
| JsString.LowerChar | frontend/src/App.jsx:78-79 | ASCII lowering leaves no upper-case letter, changes exactly the letters A-Z, and shifts them onto a-z |
| JsString.Lower | frontend/src/App.jsx:78-79 | `toLowerCase` keeps the length and lowers each character in place |
| JsString.LowerIdempotent | frontend/src/App.jsx:78-79 | lowering an already lowered string changes nothing |
| JsString.Includes | frontend/src/App.jsx:78-79 | `s.includes(t)` holds exactly when `t` occurs in `s` at some position |
| Users.Save | backend/src/models/User.js:4-13 | a write succeeds exactly when the record passes required/maxlength and no other record has its email; it changes only that entry and keeps a valid table valid |
| UserRoutes.PostOutcome | backend/src/routes/userRoutes.js:17-36 | POST answers 400 exactly when name or email is missing or blank after trim, 409 exactly when the email is stored, 500 exactly when the validators reject the record, else 201 with one new record (given name, email, fresh id, creation time) and all others unchanged; only 201 changes the table; validity is kept |
| UserRoutes.PutOutcome | backend/src/routes/userRoutes.js:39-61 | PUT answers 400 exactly when id, name or email is missing or empty (no trim), 404 exactly when the id is absent, 500 exactly when the validators or the unique index reject the new values, else 200: only that record changes, it keeps id and created_at and takes the new name and email; only 200 changes the table; validity is kept |
| UserRoutes.DeleteOutcome | backend/src/routes/userRoutes.js:64-83 | DELETE answers 400 exactly when the id is missing or empty, 404 exactly when it is absent, else 200 with the confirmation text and exactly that record removed; only 200 changes the table; validity is kept |
| UserRoutes.WhitespaceNameAsymmetry | backend/src/routes/userRoutes.js:20-43 | a non-empty whitespace-only name is rejected by POST with 400 but accepted and stored by PUT |
| UserRoutes.DuplicatePostConflicts | backend/src/routes/userRoutes.js:25-31 | after a successful POST, a second POST with the same email (and any non-blank name) answers 409 and changes nothing, and the table keeps exactly one record with that email |
| UserRoutes.DeleteTwiceNotFound | backend/src/routes/userRoutes.js:67-78 | after a successful DELETE, deleting the same id again answers 404 and leaves the table unchanged |
| UserRoutes.CreatedTable | backend/src/routes/userRoutes.js:20-31 | a POST with non-blank fields, an email not yet stored and a record the validators accept answers 201 with the new record, and the table becomes the old table plus that record under the fresh id |
| UserRoutes.CreateThenUpdate | backend/src/routes/userRoutes.js:30-56 | create then update the new record: PUT answers 200 and the record has the new name and email under its original id and creation time, with every other record as before |
| UserRoutes.UpdateFresh | backend/src/routes/userRoutes.js:47-56 | a PUT of a record to an email no record of the earlier table has, with new values that pass the validators, answers 200 and rewrites only that record |
| UserRoutes.ResubmitUnchanged | backend/src/routes/userRoutes.js:52-56 | a PUT of a stored record's own name and email answers 200 and leaves the table exactly as it was |
| UserRoutes.ListedOnceAfterPost | backend/src/routes/userRoutes.js:8-9 | a listing taken after a successful POST contains the new record, and it is the only listed record with that email |
| UserRoutes.UserStore.FindOne | backend/src/routes/userRoutes.js:25 | `findOne({ email })` finds a record exactly when some stored record has that email, and returns one such record |
| UserRoutes.UserStore.FindById | backend/src/routes/userRoutes.js:47 | `findById(id)` finds a record exactly when the id is stored, and returns that record |
| UserRoutes.UserStore.Get | backend/src/routes/userRoutes.js:6-14 | GET answers 200 with a list holding every stored record exactly once and nothing else |
| UserRoutes.UserStore.Post | backend/src/routes/userRoutes.js:17-36 | the POST handler answers and updates the table as PostOutcome says, keeps the table invariant, and records the new id as issued only on 201 |
| UserRoutes.UserStore.Put | backend/src/routes/userRoutes.js:39-61 | the PUT handler answers and updates the table as PutOutcome says and keeps the table invariant |
| UserRoutes.UserStore.Delete | backend/src/routes/userRoutes.js:64-83 | the DELETE handler answers and updates the table as DeleteOutcome says and keeps the table invariant |
| UserRoutes.UserStore.constructor | backend/src/models/User.js:21 | the collection starts empty and valid, with no id issued |
| App.SubmitErrorMessage | frontend/src/App.jsx:49 | the submit error is the server's non-empty response text when there is one, the fallback text when there is no response or the response text is empty, and never empty |
| App.FilteredUsers | frontend/src/App.jsx:77-80 | the filtered list keeps exactly the users whose lowered name or lowered email contains the lowered term, and is no longer than the input |
| App.FilterAppend | frontend/src/App.jsx:77-80 | filtering a concatenation is the concatenation of the filtered parts, so the original order is kept |
| App.FilterEmptyTerm | frontend/src/App.jsx:77-80 | with an empty search term the filtered list is the whole list |
| App.SearchIgnoresTermCase | frontend/src/App.jsx:77-80 | a user matches a term exactly when it matches the lowered term |
| App.ListView | frontend/src/App.jsx:169-202 | the list area shows "loading" exactly when loading with no users, the error exactly when not loading, an error is set and there are no users, an empty-state message exactly when no user matches otherwise ("No matching users found" exactly for a non-empty term, else "No users registered yet"), and otherwise the matching users |
| App.EmptySearchShowsAll | frontend/src/App.jsx:169-202 | with no search term and at least one user, every user is shown in order |
| App.AppState.constructor | frontend/src/App.jsx:7-12 | the initial state has no users, an empty form, no editing id, no loading, no error and no search term |
| App.AppState.FetchUsers | frontend/src/App.jsx:14-26 | a successful fetch replaces the list and clears the error; a failed one keeps the list and sets the fetch error; loading ends either way |
| App.AppState.HandleChange | frontend/src/App.jsx:32-33 | only the named form field takes the new value; the other keeps its value |
| App.AppState.SetSearchTerm | frontend/src/App.jsx:163 | the search term becomes the typed value |
| App.AppState.HandleSubmit | frontend/src/App.jsx:35-54 | sends PUT with the editing id and the form when an id is set, else POST with the form; on success it empties the form, ends editing and fetches again; on failure it keeps form, editing id and list and shows the error; loading ends |
| App.AppState.HandleEdit | frontend/src/App.jsx:56-59 | the form takes the user's name and email and the editing id becomes the user's id |
| App.AppState.Cancel | frontend/src/App.jsx:141-144 | editing ends and the form is emptied |
| App.AppState.HandleDelete | frontend/src/App.jsx:61-75 | when confirmation is declined, nothing is sent and nothing changes; otherwise DELETE with the id is sent, success fetches again, and failure keeps the list and shows the delete error; loading ends and the form is never touched |

## Left out

- Express wiring, CORS and body parsing, environment loading, the MongoDB connection and its
  exit on failure (`backend/src/index.js`, `backend/src/utils/db.js`): plumbing with no logic to
  state.
- An unreachable or failing store: the 500 that GET and the others answer when the database
  itself fails is not modelled. Only the 500 caused by a rejected write is modelled.
- UserRoutes.UserStore.FindById: an id string that is not a well-formed ObjectId makes Mongoose
  throw a cast error, and the routes answer it with 500. The model looks ids up as exact keys, so
  such an id answers 404. An upper-case spelling of a stored hexadecimal id is also not found.
- UserRoutes.UserStore.Delete: `user.remove()` is modelled as working, as in older Mongoose.
  Mongoose versions that dropped it fail there with 500 and delete nothing.
- Request bodies whose fields are not strings (a number, say) make `trim` throw outside the
  `try`. The model's fields are strings or absent.
- Users.ValidUser: lengths are counted in characters (Unicode scalar values). Mongoose counts
  UTF-16 code units, so the two differ for characters outside the Basic Multilingual Plane.
- Concurrency: each request is atomic. The race between `findOne` and `create`, and between
  `findById` and `remove`, is not modelled.
- Order of GET's list: the store's order is not modelled; the list holds every record once.
- JsString.Lower: only ASCII letters are lowered; Unicode case mapping is not modelled.
- React rendering, the markup, the CSS block, the form title, and the disabled state of the
  buttons while loading. Each handler runs to completion, so `isLoading` is false between
  handlers.
- The browser's own form validation (`required` inputs and the email input type) is not
  modelled. The submit handler is modelled for any form contents.
- The first fetch on mount (`useEffect`): it is `FetchUsers` called once after construction.
- axios transport and `window.confirm`: their outcomes are parameters. A mutating call is
  modelled as an HTTP status with a text body, or no response. A list fetch either yields the
  users or fails.
