/** What the account handlers call but do not own: the users table, the password hasher
    and the token issuer. Each is abstract; only the facts the handlers rely on are kept. */
module Collaborators {
  import opened Common
  import opened UserModel
  import opened Responses

  /** The queries of the user repository, each of which can report a database error. */
  datatype Query = CountByUsername | CountByEmail | SelectById | SelectByEmail | InsertRow | UpdateRow | SelectAll

  /** The users table during one request: its rows, the next value of its `SERIAL` id,
      and which queries report a database error this time. */
  datatype Store = Store(rows: seq<User>, nextId: int, failing: set<Query>)

  /** A call from a handler to a collaborator, in the order the handler makes them. */
  datatype Call =
    | ExistsByUsername(username: Bytes)
    | ExistsByEmail(email: Bytes)
    | GetByID(id: int)
    | GetByEmail(email: Bytes)
    | Create(user: User)
    | Update(user: User)
    | List
    | HashPassword(password: Bytes)
    | CheckPassword(password: Bytes, hash: Bytes)
    | GenerateToken(userId: int, username: Bytes, email: Bytes)

  /** bcrypt and the token issuer, as oracles: `hash` gives the stored secret for a
      password (`None` when hashing fails), `check(password, hash)` says whether they
      match, `issue(id, username, email)` gives a signed token (`None` when signing fails). */
  datatype Services = Services(
    hash: Bytes -> Option<Bytes>,
    check: (Bytes, Bytes) -> bool,
    issue: (int, Bytes, Bytes) -> Option<Bytes>)

  /** The request body as gin's JSON binding left it: bound, or rejected by the binding
      (malformed JSON or a broken `binding` tag). */
  datatype Bound<T> = Bound(request: T) | BindError

  /** What a handler did: the response it wrote and the collaborator calls it made. */
  datatype Outcome = Outcome(response: Response, calls: seq<Call>)

  // ---------------------------------------------------------------------------
  // The table's invariant

  /** What the users table is meant to hold: ids below the next serial value and
      distinct, usernames distinct, emails distinct, and only valid genders. The model
      does not let the table enforce this itself: the lemmas below and the handlers'
      contracts show which writes keep it. */
  ghost predicate Consistent(store: Store) {
    && (forall i :: 0 <= i < |store.rows| ==> store.rows[i].id < store.nextId && IsValid(store.rows[i].gender))
    && (forall i, j :: 0 <= i < j < |store.rows| ==>
          && store.rows[i].id != store.rows[j].id
          && store.rows[i].username != store.rows[j].username
          && store.rows[i].email != store.rows[j].email)
  }

  /** No row other than the one with id `u.id` has the username or the email of `u`. */
  predicate Distinct(rows: seq<User>, u: User) {
    forall i :: 0 <= i < |rows| && rows[i].id != u.id ==>
      rows[i].username != u.username && rows[i].email != u.email
  }

  // ---------------------------------------------------------------------------
  // Queries

  /** `ExistsByUsername`: `None` is a database error. */
  function UsernameTaken(store: Store, username: Bytes): (r: Option<bool>)
    ensures r.None? <==> CountByUsername in store.failing
    ensures r == Some(true) <==>
      CountByUsername !in store.failing && exists i :: 0 <= i < |store.rows| && store.rows[i].username == username
  {
    if CountByUsername in store.failing then None
    else Some(exists i :: 0 <= i < |store.rows| && store.rows[i].username == username)
  }

  /** `ExistsByEmail`: `None` is a database error. */
  function EmailTaken(store: Store, email: Bytes): (r: Option<bool>)
    ensures r.None? <==> CountByEmail in store.failing
    ensures r == Some(true) <==>
      CountByEmail !in store.failing && exists i :: 0 <= i < |store.rows| && store.rows[i].email == email
  {
    if CountByEmail in store.failing then None
    else Some(exists i :: 0 <= i < |store.rows| && store.rows[i].email == email)
  }

  /** What a lookup selects rows by: the `WHERE id = $1` or the `WHERE email = $1` of
      the repository's queries. */
  datatype Key = ById(id: int) | ByEmail(email: Bytes)

  predicate Matches(u: User, key: Key) {
    match key
    case ById(id) => u.id == id
    case ByEmail(email) => u.email == email
  }

  /** The position of the first row the key selects, which is the row `QueryRow` hands
      back when several match. */
  function FirstIndex(rows: seq<User>, key: Key): (r: Option<nat>)
    ensures r.None? <==> forall i :: 0 <= i < |rows| ==> !Matches(rows[i], key)
    ensures r.Some? ==> r.value < |rows| && Matches(rows[r.value], key) &&
                        forall i :: 0 <= i < r.value ==> !Matches(rows[i], key)
  {
    if rows == [] then None
    else if Matches(rows[0], key) then Some(0)
    else match FirstIndex(rows[1..], key)
      case None => None
      case Some(k) => Some(k + 1)
  }

  /** `GetByID`: the row `QueryRow` returns. "Not found" and a database error both come
      back as `None`, and the profile handlers answer both with 404. */
  function FindById(store: Store, id: int): (r: Option<User>)
    ensures r.None? <==> SelectById in store.failing || forall i :: 0 <= i < |store.rows| ==> store.rows[i].id != id
    ensures r.Some? ==> r.value in store.rows && r.value.id == id
  {
    if SelectById in store.failing then None
    else match FirstIndex(store.rows, ById(id))
      case None => None
      case Some(i) => Some(store.rows[i])
  }

  /** `GetByEmail`: the row `QueryRow` returns. "Not found" and a database error both
      come back as `None`, and login answers both with 401. */
  function FindByEmail(store: Store, email: Bytes): (r: Option<User>)
    ensures r.None? <==> SelectByEmail in store.failing || forall i :: 0 <= i < |store.rows| ==> store.rows[i].email != email
    ensures r.Some? ==> r.value in store.rows && r.value.email == email
  {
    if SelectByEmail in store.failing then None
    else match FirstIndex(store.rows, ByEmail(email))
      case None => None
      case Some(i) => Some(store.rows[i])
  }

  /** In a consistent table the row found by email is the only one with that email. */
  lemma FindByEmailUnique(store: Store, email: Bytes)
    requires Consistent(store) && SelectByEmail !in store.failing
    ensures FindByEmail(store, email).Some? <==> exists i :: 0 <= i < |store.rows| && store.rows[i].email == email
    ensures forall i :: 0 <= i < |store.rows| && store.rows[i].email == email ==> FindByEmail(store, email) == Some(store.rows[i])
  {
  }

  /** `Create`: inserts `u` under the next serial id and returns that id; `None` is a
      database error. */
  function Insert(store: Store, u: User): (r: Option<(Store, int)>)
    ensures r.Some? <==> InsertRow !in store.failing
    ensures r.Some? ==> r.value.1 == store.nextId &&
                        r.value.0 == store.(rows := store.rows + [u.(id := store.nextId)], nextId := store.nextId + 1)
  {
    if InsertRow in store.failing then None
    else Some((store.(rows := store.rows + [u.(id := store.nextId)], nextId := store.nextId + 1), store.nextId))
  }

  /** The rows with the row whose id is `u.id` replaced by `u`. */
  function ReplaceRow(rows: seq<User>, u: User): (r: seq<User>)
    ensures |r| == |rows|
    ensures forall i :: 0 <= i < |rows| ==> r[i] == if rows[i].id == u.id then u else rows[i]
  {
    seq(|rows|, i requires 0 <= i < |rows| => if rows[i].id == u.id then u else rows[i])
  }

  /** `Update`: writes `u` over the row with its id; fails on a database error and when
      no row has that id (no row affected). The SQL statement sets only the username,
      email, gender, password hash and update time and leaves `created_at` alone; the
      model writes the whole row, which is the same row because the one caller passes
      the record it read back, whose `createdAt` is the stored one. */
  function Replace(store: Store, u: User): (r: Option<Store>)
    ensures r.Some? <==> UpdateRow !in store.failing && FirstIndex(store.rows, ById(u.id)).Some?
    ensures r.Some? ==> r.value == store.(rows := ReplaceRow(store.rows, u))
  {
    if UpdateRow in store.failing || FirstIndex(store.rows, ById(u.id)).None? then None
    else Some(store.(rows := ReplaceRow(store.rows, u)))
  }

  /** `List`: every row; `None` is a database error. */
  function ListRows(store: Store): Option<seq<User>> {
    if SelectAll in store.failing then None else Some(store.rows)
  }

  /** Inserting a row with a valid gender and a username and an email no row has keeps
      the table's constraints. */
  lemma InsertConsistent(store: Store, u: User)
    requires Consistent(store) && Insert(store, u).Some?
    requires IsValid(u.gender) && Distinct(store.rows, u.(id := store.nextId))
    ensures Consistent(Insert(store, u).value.0)
  {
  }

  /** Replacing a row by one with a valid gender and a username and an email no other row
      has keeps the table's constraints. */
  lemma ReplaceConsistent(store: Store, u: User)
    requires Consistent(store)
    requires IsValid(u.gender) && Distinct(store.rows, u)
    ensures Consistent(store.(rows := ReplaceRow(store.rows, u)))
  {
  }
}
