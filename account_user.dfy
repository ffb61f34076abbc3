/** The account handlers for registration, profile update and listing, and the random
    string helper behind the test-user endpoint. Each handler returns the response it
    writes, the collaborator calls it makes (in order) and the table afterwards. */
module AccountUser {
  import opened Common
  import opened Text
  import opened Base64Url
  import opened UserModel
  import opened Responses
  import opened Collaborators
  import opened AuthGate

  const USERNAME_CHECK_FAILED: string := "Failed to check username availability"
  const EMAIL_CHECK_FAILED: string := "Failed to check email availability"
  const USERNAME_EXISTS: string := "Username already exists"
  const EMAIL_EXISTS: string := "Email already exists"
  const HASH_FAILED: string := "Failed to hash password"
  const CREATE_FAILED: string := "Failed to create user"
  const USER_CREATED: string := "User created successfully"
  const USER_NOT_FOUND: string := "User not found"
  const UPDATE_FAILED: string := "Failed to update user"
  const PROFILE_UPDATED: string := "Profile updated successfully"
  const LIST_FAILED: string := "Failed to retrieve users"

  // ---------------------------------------------------------------------------
  // Registration

  /** The row registration stores for a request, once the password is hashed: the
      parsed gender, the hasher's output in place of the password, both timestamps
      `now` and the next serial id. */
  function Registered(store: Store, req: UserCreateRequest, hash: Bytes, now: Time): (r: User)
    ensures r.id == store.nextId && r.username == req.username && r.email == req.email
    ensures IsValid(r.gender) && r.passwordHash == hash && r.createdAt == now && r.updatedAt == now
  {
    User(store.nextId, req.username, req.email, ParseGender(req.gender), hash, now, now)
  }

  /** `ActionCreateUser`. */
  method CreateUser(bound: Bound<UserCreateRequest>, store: Store, svc: Services, now: Time)
    returns (out: Outcome, after: Store)
    // a body the binding rejects, or a request that fails validation, is refused
    // before any collaborator is called
    ensures bound.BindError? ==> out == Outcome(Error(STATUS_BAD_REQUEST, INVALID_REQUEST), [])
    ensures bound.Bound? && ValidateCreate(bound.request).Invalid? ==>
      var v := ValidateCreate(bound.request);
      out == Outcome(Response(STATUS_BAD_REQUEST, ValidationFailed(Details(v.field, v.rule))), [])
    ensures bound.Bound? && ValidateCreate(bound.request) == Valid ==>
      Registers(bound.request, store, svc, now, out, after)
    ensures !(bound.Bound? && ValidateCreate(bound.request) == Valid) ==> after == store
    // the checks keep usernames and emails unique
    ensures Consistent(store) ==> Consistent(after)
  {
    after := store;
    if bound.BindError? {
      out := Outcome(Error(STATUS_BAD_REQUEST, INVALID_REQUEST), []);
      return;
    }
    var req := bound.request;
    var verdict := ValidateCreate(req);
    if verdict.Invalid? {
      out := Outcome(Response(STATUS_BAD_REQUEST, ValidationFailed(Details(verdict.field, verdict.rule))), []);
      return;
    }
    out, after := Register(req, store, svc, now);
    if out.response.status == STATUS_CREATED && Consistent(store) {
      InsertConsistent(store, Registered(store, req, svc.hash(req.password).value, now));
    }
  }

  /** The availability queries of registration: the username, and the email only once
      the username is known to be free. */
  function AvailabilityCalls(req: UserCreateRequest, store: Store): seq<Call> {
    [ExistsByUsername(req.username)] +
    (if UsernameTaken(store, req.username) == Some(false) then [ExistsByEmail(req.email)] else [])
  }

  /** What registration does with a valid request: the username is checked first and
      the email only once the username is free; a failed query is a server error and a
      taken value a conflict; the password is hashed only when both are free, and the
      user is created only once it is hashed; a user is created exactly when every step
      succeeds, and nothing else touches the table. */
  ghost predicate Registers(req: UserCreateRequest, store: Store, svc: Services, now: Time, out: Outcome, after: Store) {
    var free := UsernameTaken(store, req.username) == Some(false) && EmailTaken(store, req.email) == Some(false);
    var hashed := svc.hash(req.password);
    && out.calls == AvailabilityCalls(req, store) +
         (if !free then []
          else [HashPassword(req.password)] +
               (if hashed.None? then [] else [Create(Registered(store, req, hashed.value, now).(id := 0))]))
    && (out.response == Error(STATUS_INTERNAL_ERROR, USERNAME_CHECK_FAILED) <==> UsernameTaken(store, req.username).None?)
    && (out.response == Error(STATUS_CONFLICT, USERNAME_EXISTS) <==> UsernameTaken(store, req.username) == Some(true))
    && (out.response == Error(STATUS_INTERNAL_ERROR, EMAIL_CHECK_FAILED) <==>
          UsernameTaken(store, req.username) == Some(false) && EmailTaken(store, req.email).None?)
    && (out.response == Error(STATUS_CONFLICT, EMAIL_EXISTS) <==>
          UsernameTaken(store, req.username) == Some(false) && EmailTaken(store, req.email) == Some(true))
    && (out.response == Error(STATUS_INTERNAL_ERROR, HASH_FAILED) <==> free && hashed.None?)
    && (out.response == Error(STATUS_INTERNAL_ERROR, CREATE_FAILED) <==> free && hashed.Some? && InsertRow in store.failing)
    && (out.response.status == STATUS_CREATED <==> free && hashed.Some? && InsertRow !in store.failing)
    && (out.response.status != STATUS_CREATED ==> after == store)
    && (out.response.status == STATUS_CREATED ==>
          && hashed.Some?
          && var row := Registered(store, req, hashed.value, now);
          && after == store.(rows := store.rows + [row], nextId := store.nextId + 1)
          && out.response.body == UserBody(USER_CREATED, ToResponse(row)))
  }

  /** Registration of a valid request: the availability checks, the hashing, the new
      record stamped by `BeforeCreate`, and the insert that gives it its id. */
  method Register(req: UserCreateRequest, store: Store, svc: Services, now: Time) returns (out: Outcome, after: Store)
    ensures Registers(req, store, svc, now, out, after)
  {
    after := store;
    var calls, refused := CheckAvailability(req, store);
    if refused.Some? {
      out := Outcome(refused.value, calls);
      return;
    }

    calls := calls + [HashPassword(req.password)];
    var hash := svc.hash(req.password);
    if hash.None? {
      out := Outcome(Error(STATUS_INTERNAL_ERROR, HASH_FAILED), calls);
      return;
    }

    var user := new UserRecord(User(0, req.username, req.email, ParseGender(req.gender), hash.value, 0, 0));
    user.BeforeCreate(now);
    calls := calls + [Create(user.Value())];
    var inserted := Insert(store, user.Value());
    if inserted.None? {
      out := Outcome(Error(STATUS_INTERNAL_ERROR, CREATE_FAILED), calls);
      return;
    }
    user.id := inserted.value.1;
    assert user.Value() == Registered(store, req, hash.value, now);
    after := inserted.value.0;
    out := Outcome(Response(STATUS_CREATED, UserBody(USER_CREATED, ToResponse(user.Value()))), calls);
  }

  /** The two availability checks of registration: the username first, and the email
      only once the username is free. The refusal is the response that ends the request. */
  method CheckAvailability(req: UserCreateRequest, store: Store) returns (calls: seq<Call>, refused: Option<Response>)
    ensures calls == AvailabilityCalls(req, store)
    ensures refused.None? <==>
      UsernameTaken(store, req.username) == Some(false) && EmailTaken(store, req.email) == Some(false)
    ensures refused.Some? ==>
      refused.value ==
      (if UsernameTaken(store, req.username).None? then Error(STATUS_INTERNAL_ERROR, USERNAME_CHECK_FAILED)
       else if UsernameTaken(store, req.username) == Some(true) then Error(STATUS_CONFLICT, USERNAME_EXISTS)
       else if EmailTaken(store, req.email).None? then Error(STATUS_INTERNAL_ERROR, EMAIL_CHECK_FAILED)
       else Error(STATUS_CONFLICT, EMAIL_EXISTS))
  {
    calls := [ExistsByUsername(req.username)];
    refused := None;
    var usernameTaken := UsernameTaken(store, req.username);
    if usernameTaken.None? {
      refused := Some(Error(STATUS_INTERNAL_ERROR, USERNAME_CHECK_FAILED));
      return;
    } else if usernameTaken.value {
      refused := Some(Error(STATUS_CONFLICT, USERNAME_EXISTS));
      return;
    }

    calls := calls + [ExistsByEmail(req.email)];
    var emailTaken := EmailTaken(store, req.email);
    if emailTaken.None? {
      refused := Some(Error(STATUS_INTERNAL_ERROR, EMAIL_CHECK_FAILED));
      return;
    } else if emailTaken.value {
      refused := Some(Error(STATUS_CONFLICT, EMAIL_EXISTS));
      return;
    }
  }

  // ---------------------------------------------------------------------------
  // Profile update

  /** The request and the stored user a profile update goes on to merge, once the
      identity, the binding, the validation and the lookup by id have all succeeded. */
  function Target(keys: Keys, bound: Bound<UserUpdateRequest>, store: Store): Option<(UserUpdateRequest, User)> {
    if !GetUserID(keys).1 || bound.BindError? || ValidateUpdate(bound.request).Invalid? then None
    else match FindById(store, GetUserID(keys).0)
      case None => None
      case Some(current) => Some((bound.request, current))
  }

  /** A field value the update asks for that differs from the stored one: only such a
      value is checked for availability and written. */
  function Change(requested: Option<Bytes>, stored: Bytes): Option<Bytes> {
    if requested.Some? && requested.value != stored then requested else None
  }

  /** The availability check for a changed username passed, or was not needed. */
  predicate UsernameFree(store: Store, change: Option<Bytes>) {
    change.None? || UsernameTaken(store, change.value) == Some(false)
  }

  /** The availability check for a changed email passed, or was not needed. */
  predicate EmailFree(store: Store, change: Option<Bytes>) {
    change.None? || EmailTaken(store, change.value) == Some(false)
  }

  /** The password the request carries, if any, could be hashed. */
  predicate HashOk(req: UserUpdateRequest, svc: Services) {
    req.password.Some? ==> svc.hash(req.password.value).Some?
  }

  /** The row a successful update writes: each field the request carries replaces the
      stored one (the gender parsed, the password hashed), the others are kept, and the
      update time is the repository's clock reading. */
  function Merged(current: User, req: UserUpdateRequest, svc: Services, savedAt: Time): (r: User)
    requires HashOk(req, svc)
    ensures r.id == current.id && r.createdAt == current.createdAt && r.updatedAt == savedAt
    ensures req.gender.Some? ==> IsValid(r.gender)
    ensures req == UserUpdateRequest(None, None, None, None) ==> r == current.(updatedAt := savedAt)
  {
    User(
      current.id,
      if req.username.Some? then req.username.value else current.username,
      if req.email.Some? then req.email.value else current.email,
      if req.gender.Some? then ParseGender(req.gender.value) else current.gender,
      if req.password.Some? then svc.hash(req.password.value).value else current.passwordHash,
      current.createdAt,
      savedAt)
  }

  /** The calls of the merge stage: the availability query of a changed username, then
      that of a changed email, each made only once the step before it succeeded, then
      the hashing of a new password and the write of the merged row stamped `now`. */
  function MergeCalls(req: UserUpdateRequest, current: User, store: Store, svc: Services, now: Time): seq<Call> {
    var name := Change(req.username, current.username);
    var email := Change(req.email, current.email);
    (if name.Some? then [ExistsByUsername(name.value)] else []) +
    if !UsernameFree(store, name) then [] else
    (if email.Some? then [ExistsByEmail(email.value)] else []) +
    if !EmailFree(store, email) then [] else
    (if req.password.Some? then [HashPassword(req.password.value)] else []) +
    if !HashOk(req, svc) then [] else [Update(Merged(current, req, svc, now))]
  }

  /** `ActionUpdateProfile`; `now` is the handler's clock reading and `savedAt` the one
      the repository's `Update` takes before writing the row. */
  method UpdateProfile(keys: Keys, bound: Bound<UserUpdateRequest>, store: Store, svc: Services, now: Time, savedAt: Time)
    returns (out: Outcome, after: Store)
    ensures !GetUserID(keys).1 ==> out == Outcome(Error(STATUS_UNAUTHORIZED, NOT_AUTHENTICATED), [])
    ensures GetUserID(keys).1 && bound.BindError? ==> out == Outcome(Error(STATUS_BAD_REQUEST, INVALID_REQUEST), [])
    ensures GetUserID(keys).1 && bound.Bound? && ValidateUpdate(bound.request).Invalid? ==>
      var v := ValidateUpdate(bound.request);
      out == Outcome(Response(STATUS_BAD_REQUEST, ValidationFailed(Details(v.field, v.rule))), [])
    ensures GetUserID(keys).1 && bound.Bound? && ValidateUpdate(bound.request) == Valid &&
            FindById(store, GetUserID(keys).0).None? ==>
      out == Outcome(Error(STATUS_NOT_FOUND, USER_NOT_FOUND), [GetByID(GetUserID(keys).0)])
    ensures Target(keys, bound, store).Some? ==>
      var current := Target(keys, bound, store).value.1;
      && |out.calls| >= 1 && out.calls[0] == GetByID(current.id)
      && Merges(bound.request, current, store, svc, now, savedAt, Outcome(out.response, out.calls[1..]), after)
    ensures Target(keys, bound, store).None? ==> after == store
    // the checks keep usernames and emails unique
    ensures Consistent(store) ==> Consistent(after)
  {
    after := store;
    var (id, ok) := GetUserID(keys);
    if !ok {
      out := Outcome(Error(STATUS_UNAUTHORIZED, NOT_AUTHENTICATED), []);
      return;
    }
    if bound.BindError? {
      out := Outcome(Error(STATUS_BAD_REQUEST, INVALID_REQUEST), []);
      return;
    }
    var req := bound.request;
    var verdict := ValidateUpdate(req);
    if verdict.Invalid? {
      out := Outcome(Response(STATUS_BAD_REQUEST, ValidationFailed(Details(verdict.field, verdict.rule))), []);
      return;
    }
    var found := FindById(store, id);
    if found.None? {
      out := Outcome(Error(STATUS_NOT_FOUND, USER_NOT_FOUND), [GetByID(id)]);
      return;
    }
    var current := found.value;
    var rest;
    rest, after := ApplyUpdate(req, current, store, svc, now, savedAt);
    out := Outcome(rest.response, [GetByID(id)] + rest.calls);
    assert out.calls[1..] == rest.calls;
    if rest.response.status == STATUS_OK && Consistent(store) {
      MergeKeepsConsistent(store, current, req, svc, savedAt);
    }
  }

  /** What the merge stage of a profile update does, for the request `req` and the stored
      user `current`: availability is checked only for a value that is present and
      differs; a failed query, hash or write is a server error and a taken value a
      conflict; the merged row is written and returned exactly when every step succeeds,
      and only then is the table touched. */
  ghost predicate Merges(req: UserUpdateRequest, current: User, store: Store, svc: Services, now: Time, savedAt: Time,
                         out: Outcome, after: Store)
  {
    var name := Change(req.username, current.username);
    var email := Change(req.email, current.email);
    var written := UpdateRow !in store.failing && FirstIndex(store.rows, ById(current.id)).Some?;
    && out.calls == MergeCalls(req, current, store, svc, now)
    && (out.response == Error(STATUS_INTERNAL_ERROR, USERNAME_CHECK_FAILED) <==>
          name.Some? && UsernameTaken(store, name.value).None?)
    && (out.response == Error(STATUS_CONFLICT, USERNAME_EXISTS) <==>
          name.Some? && UsernameTaken(store, name.value) == Some(true))
    && (out.response == Error(STATUS_INTERNAL_ERROR, EMAIL_CHECK_FAILED) <==>
          UsernameFree(store, name) && email.Some? && EmailTaken(store, email.value).None?)
    && (out.response == Error(STATUS_CONFLICT, EMAIL_EXISTS) <==>
          UsernameFree(store, name) && email.Some? && EmailTaken(store, email.value) == Some(true))
    && (out.response == Error(STATUS_INTERNAL_ERROR, HASH_FAILED) <==>
          UsernameFree(store, name) && EmailFree(store, email) && !HashOk(req, svc))
    && (out.response == Error(STATUS_INTERNAL_ERROR, UPDATE_FAILED) <==>
          UsernameFree(store, name) && EmailFree(store, email) && HashOk(req, svc) && !written)
    && (out.response.status == STATUS_OK <==>
          UsernameFree(store, name) && EmailFree(store, email) && HashOk(req, svc) && written)
    && (out.response.status != STATUS_OK ==> after == store)
    && (out.response.status == STATUS_OK ==>
          && HashOk(req, svc)
          && after == store.(rows := ReplaceRow(store.rows, Merged(current, req, svc, savedAt)))
          && out.response.body == UserBody(PROFILE_UPDATED, ToResponse(Merged(current, req, svc, savedAt))))
  }

  /** The merge stage of `ActionUpdateProfile`: the fetched user is changed field by
      field, stamped, and written back. */
  method ApplyUpdate(req: UserUpdateRequest, current: User, store: Store, svc: Services, now: Time, savedAt: Time)
    returns (out: Outcome, after: Store)
    ensures Merges(req, current, store, svc, now, savedAt, out, after)
  {
    after := store;
    var user := new UserRecord(current);
    var nameCalls, refused := ClaimUsername(user, req, store);
    if refused.Some? {
      out := Outcome(refused.value, nameCalls);
      NameRefusalMerges(req, current, store, svc, now, savedAt, out);
      return;
    }
    var emailCalls;
    emailCalls, refused := ClaimEmail(user, req, store);
    if refused.Some? {
      out := Outcome(refused.value, nameCalls + emailCalls);
      EmailRefusalMerges(req, current, store, svc, now, savedAt, out);
      return;
    }
    ghost var settled := user.Value();
    var rest;
    rest, after := FinishUpdate(user, req, store, svc, now, savedAt);
    out := Outcome(rest.response, nameCalls + emailCalls + rest.calls);
    if HashOk(req, svc) {
      assert Finished(settled, req, svc, now) == Merged(current, req, svc, now);
      assert Finished(settled, req, svc, savedAt) == Merged(current, req, svc, savedAt);
    }
    FinishMerges(req, current, store, svc, now, savedAt, out, after);
  }

  /** A refused username ends the merge stage as `Merges` describes. */
  lemma NameRefusalMerges(req: UserUpdateRequest, current: User, store: Store, svc: Services, now: Time, savedAt: Time,
                          out: Outcome)
    requires !UsernameFree(store, Change(req.username, current.username))
    requires var name := Change(req.username, current.username).value;
      && out.calls == [ExistsByUsername(name)]
      && out.response == (if UsernameTaken(store, name).None? then Error(STATUS_INTERNAL_ERROR, USERNAME_CHECK_FAILED)
                          else Error(STATUS_CONFLICT, USERNAME_EXISTS))
    ensures Merges(req, current, store, svc, now, savedAt, out, store)
  {
  }

  /** A refused email, after a free username, ends the merge stage as `Merges` describes. */
  lemma EmailRefusalMerges(req: UserUpdateRequest, current: User, store: Store, svc: Services, now: Time, savedAt: Time,
                           out: Outcome)
    requires UsernameFree(store, Change(req.username, current.username))
    requires !EmailFree(store, Change(req.email, current.email))
    requires var name := Change(req.username, current.username);
      var email := Change(req.email, current.email).value;
      && out.calls == (if name.Some? then [ExistsByUsername(name.value)] else []) + [ExistsByEmail(email)]
      && out.response == (if EmailTaken(store, email).None? then Error(STATUS_INTERNAL_ERROR, EMAIL_CHECK_FAILED)
                          else Error(STATUS_CONFLICT, EMAIL_EXISTS))
    ensures Merges(req, current, store, svc, now, savedAt, out, store)
  {
  }

  /** Once the username and the email are settled, hashing and writing end the merge
      stage as `Merges` describes. */
  lemma FinishMerges(req: UserUpdateRequest, current: User, store: Store, svc: Services, now: Time, savedAt: Time,
                     out: Outcome, after: Store)
    requires UsernameFree(store, Change(req.username, current.username))
    requires EmailFree(store, Change(req.email, current.email))
    requires var name := Change(req.username, current.username);
      var email := Change(req.email, current.email);
      out.calls ==
        (if name.Some? then [ExistsByUsername(name.value)] else []) +
        (if email.Some? then [ExistsByEmail(email.value)] else []) +
        ((if req.password.Some? then [HashPassword(req.password.value)] else []) +
         (if HashOk(req, svc) then [Update(Merged(current, req, svc, now))] else []))
    requires out.response.status == STATUS_OK <==>
      HashOk(req, svc) && UpdateRow !in store.failing && FirstIndex(store.rows, ById(current.id)).Some?
    requires !HashOk(req, svc) ==> out.response == Error(STATUS_INTERNAL_ERROR, HASH_FAILED)
    requires HashOk(req, svc) && out.response.status != STATUS_OK ==>
      out.response == Error(STATUS_INTERNAL_ERROR, UPDATE_FAILED)
    requires out.response.status != STATUS_OK ==> after == store
    requires out.response.status == STATUS_OK ==>
      && HashOk(req, svc)
      && after == store.(rows := ReplaceRow(store.rows, Merged(current, req, svc, savedAt)))
      && out.response.body == UserBody(PROFILE_UPDATED, ToResponse(Merged(current, req, svc, savedAt)))
    ensures Merges(req, current, store, svc, now, savedAt, out, after)
  {
  }

  /** The username step of the merge: a requested username that differs from the
      stored one is checked and, when free, written; an equal or absent one is not
      checked. The refusal is the response that ends the request. */
  method ClaimUsername(user: UserRecord, req: UserUpdateRequest, store: Store)
    returns (calls: seq<Call>, refused: Option<Response>)
    modifies user
    ensures var change := Change(req.username, old(user.username));
      && calls == (if change.Some? then [ExistsByUsername(change.value)] else [])
      && (refused.None? <==> UsernameFree(store, change))
      && (refused.Some? ==>
            refused.value == (if UsernameTaken(store, change.value).None? then Error(STATUS_INTERNAL_ERROR, USERNAME_CHECK_FAILED)
                              else Error(STATUS_CONFLICT, USERNAME_EXISTS)))
    ensures refused.Some? ==> user.Value() == old(user.Value())
    ensures refused.None? ==>
      user.Value() == old(user.Value()).(username := if req.username.Some? then req.username.value else old(user.username))
  {
    calls := [];
    refused := None;
    if req.username.Some? && req.username.value != user.username {
      calls := [ExistsByUsername(req.username.value)];
      var taken := UsernameTaken(store, req.username.value);
      if taken.None? {
        refused := Some(Error(STATUS_INTERNAL_ERROR, USERNAME_CHECK_FAILED));
        return;
      } else if taken.value {
        refused := Some(Error(STATUS_CONFLICT, USERNAME_EXISTS));
        return;
      }
      user.username := req.username.value;
    }
  }

  /** The email step of the merge, by the same rule as the username step. */
  method ClaimEmail(user: UserRecord, req: UserUpdateRequest, store: Store)
    returns (calls: seq<Call>, refused: Option<Response>)
    modifies user
    ensures var change := Change(req.email, old(user.email));
      && calls == (if change.Some? then [ExistsByEmail(change.value)] else [])
      && (refused.None? <==> EmailFree(store, change))
      && (refused.Some? ==>
            refused.value == (if EmailTaken(store, change.value).None? then Error(STATUS_INTERNAL_ERROR, EMAIL_CHECK_FAILED)
                              else Error(STATUS_CONFLICT, EMAIL_EXISTS)))
    ensures refused.Some? ==> user.Value() == old(user.Value())
    ensures refused.None? ==>
      user.Value() == old(user.Value()).(email := if req.email.Some? then req.email.value else old(user.email))
  {
    calls := [];
    refused := None;
    if req.email.Some? && req.email.value != user.email {
      calls := [ExistsByEmail(req.email.value)];
      var taken := EmailTaken(store, req.email.value);
      if taken.None? {
        refused := Some(Error(STATUS_INTERNAL_ERROR, EMAIL_CHECK_FAILED));
        return;
      } else if taken.value {
        refused := Some(Error(STATUS_CONFLICT, EMAIL_EXISTS));
        return;
      }
      user.email := req.email.value;
    }
  }

  /** The user `u` with the gender and the password of the request applied and the
      update time `t`. */
  function Finished(u: User, req: UserUpdateRequest, svc: Services, t: Time): User
    requires HashOk(req, svc)
  {
    u.(gender := if req.gender.Some? then ParseGender(req.gender.value) else u.gender,
       passwordHash := if req.password.Some? then svc.hash(req.password.value).value else u.passwordHash,
       updatedAt := t)
  }

  /** The rest of the merge stage, once the username and the email are settled: the
      gender is parsed, the password hashed, the row stamped (by the handler, then by
      the repository) and written back. A hashing failure and a failed write (a database
      error, or no row with the id) are server errors. */
  method FinishUpdate(user: UserRecord, req: UserUpdateRequest, store: Store, svc: Services, now: Time, savedAt: Time)
    returns (out: Outcome, after: Store)
    modifies user
    ensures out.calls ==
      (if req.password.Some? then [HashPassword(req.password.value)] else []) +
      (if HashOk(req, svc) then [Update(Finished(old(user.Value()), req, svc, now))] else [])
    ensures out.response.status == STATUS_OK <==>
      HashOk(req, svc) && UpdateRow !in store.failing && FirstIndex(store.rows, ById(old(user.id))).Some?
    ensures !HashOk(req, svc) ==> out.response == Error(STATUS_INTERNAL_ERROR, HASH_FAILED)
    ensures HashOk(req, svc) && out.response.status != STATUS_OK ==>
      out.response == Error(STATUS_INTERNAL_ERROR, UPDATE_FAILED)
    ensures out.response.status != STATUS_OK ==> after == store
    ensures out.response.status == STATUS_OK ==>
      && HashOk(req, svc)
      && after == store.(rows := ReplaceRow(store.rows, Finished(old(user.Value()), req, svc, savedAt)))
      && out.response.body == UserBody(PROFILE_UPDATED, ToResponse(Finished(old(user.Value()), req, svc, savedAt)))
    ensures HashOk(req, svc) ==> user.Value() == Finished(old(user.Value()), req, svc, savedAt)
    ensures !HashOk(req, svc) ==>
      user.Value() == old(user.Value()).(gender := if req.gender.Some? then ParseGender(req.gender.value) else old(user.gender))
  {
    after := store;
    var calls := [];
    if req.gender.Some? {
      user.gender := ParseGender(req.gender.value);
    }

    if req.password.Some? {
      calls := calls + [HashPassword(req.password.value)];
      var hash := svc.hash(req.password.value);
      if hash.None? {
        out := Outcome(Error(STATUS_INTERNAL_ERROR, HASH_FAILED), calls);
        return;
      }
      user.passwordHash := hash.value;
    }

    user.BeforeUpdate(now);
    calls := calls + [Update(user.Value())];
    user.BeforeUpdate(savedAt);
    var saved := Replace(store, user.Value());
    if saved.None? {
      out := Outcome(Error(STATUS_INTERNAL_ERROR, UPDATE_FAILED), calls);
      return;
    }
    after := saved.value;
    out := Outcome(Response(STATUS_OK, UserBody(PROFILE_UPDATED, ToResponse(user.Value()))), calls);
  }

  /** Writing the merged row back keeps the table's invariant: it keeps its id and a
      valid gender, and each of its username and email is the stored one or one the
      availability check found free. */
  lemma MergeKeepsConsistent(store: Store, current: User, req: UserUpdateRequest, svc: Services, savedAt: Time)
    requires Consistent(store) && current in store.rows
    requires UsernameFree(store, Change(req.username, current.username))
    requires EmailFree(store, Change(req.email, current.email))
    requires HashOk(req, svc)
    ensures Consistent(store.(rows := ReplaceRow(store.rows, Merged(current, req, svc, savedAt))))
  {
    var merged := Merged(current, req, svc, savedAt);
    var k :| 0 <= k < |store.rows| && store.rows[k] == current;
    forall i | 0 <= i < |store.rows| && store.rows[i].id != merged.id
      ensures store.rows[i].username != merged.username && store.rows[i].email != merged.email
    {
      assert i != k;
    }
    ReplaceConsistent(store, merged);
  }

  // ---------------------------------------------------------------------------
  // Listing

  /** `ActionListUsers`: every row, through `ToResponse`, in the order the table gives. */
  method ListUsers(store: Store) returns (out: Outcome)
    ensures out.calls == [List]
    ensures out.response.status == STATUS_OK <==> SelectAll !in store.failing
    ensures out.response.status != STATUS_OK ==> out.response == Error(STATUS_INTERNAL_ERROR, LIST_FAILED)
    ensures out.response.status == STATUS_OK ==>
      && out.response.body.UsersBody?
      && out.response.body.count == |store.rows|
      && |out.response.body.users| == |store.rows|
      && forall i :: 0 <= i < |store.rows| ==> out.response.body.users[i] == ToResponse(store.rows[i])
  {
    var rows := ListRows(store);
    if rows.None? {
      out := Outcome(Error(STATUS_INTERNAL_ERROR, LIST_FAILED), [List]);
      return;
    }
    var users := rows.value;
    var responses: seq<UserResponse> := [];
    for i := 0 to |users|
      invariant |responses| == i
      invariant forall j :: 0 <= j < i ==> responses[j] == ToResponse(users[j])
    {
      responses := responses + [ToResponse(users[i])];
    }
    out := Outcome(Response(STATUS_OK, UsersBody(|users|, responses)), [List]);
  }

  // ---------------------------------------------------------------------------
  // Random strings for the test-user endpoint

  /** `generateRandomString(length, prefix)` with the bytes `crypto/rand` would supply
      given as `entropy`: with a prefix, only `length - |prefix|` random characters are
      added, and none at all when the prefix is already long enough; the random part is
      the start of the base64url encoding of that many bytes. Without a prefix a negative
      length makes `make` panic, so that case is excluded. */
  function GenerateRandomString(length: int, prefix: Bytes, entropy: Bytes): (r: Bytes)
    requires prefix != [] || length >= 0
    requires |entropy| >= length - |prefix|
    ensures prefix != [] && length <= |prefix| ==> r == prefix
    ensures |r| == if length <= |prefix| && prefix != [] then |prefix| else length
    ensures |prefix| <= |r| && r[..|prefix|] == prefix
    ensures forall i :: |prefix| <= i < |r| ==> InAlphabet(r[i])
  {
    var n := if prefix != [] then length - |prefix| else length;
    if prefix != [] && n <= 0 then prefix
    else
      var bytes := entropy[..n];
      EncodedPrefixInAlphabet(bytes);
      var randomPart := Encode(bytes)[..n];
      if prefix != [] then prefix + randomPart else randomPart
  }

  /** The test user's username: eight characters requested with an eight-character
      prefix, so no random character is ever added. */
  lemma TestUsernameIsFixed(entropy: Bytes)
    ensures GenerateRandomString(8, "testuser", entropy) == "testuser"
  {
  }

  /** The generated test email, "test" + two base64url characters + "@test.com", matches
      the email pattern: the local-part class holds `-` and `_` as well as letters and
      digits. */
  lemma TestEmailValid(entropy: Bytes)
    requires |entropy| >= 2
    ensures ValidateEmail(GenerateRandomString(6, "test", entropy) + "@test.com") == Pass
  {
    var local := GenerateRandomString(6, "test", entropy);
    var domain: Bytes := "@test.com";
    var email := local + domain;
    assert |local| == 6 && |email| == 15;
    assert AllIn(email[..6], LocalPartClass) by {
      assert email[..6] == local;
      forall i | 0 <= i < 6 ensures InClass(local[i], LocalPartClass) {
        if i < 4 {
          assert local[i] == local[..4][i];
        }
      }
    }
    assert email[6..] == domain;
    assert email[6] == '@' && email[11] == '.' by {
      assert email[6] == domain[0] && email[11] == domain[5];
    }
    assert AllIn(email[7..11], DomainClass) by {
      assert email[7..11] == domain[1..5];
      assert IsLower(domain[1]) && IsLower(domain[2]) && IsLower(domain[3]) && IsLower(domain[4]);
    }
    assert AllIn(email[12..], LetterClass) by {
      assert email[12..] == domain[6..];
      assert IsLower(domain[6]) && IsLower(domain[7]) && IsLower(domain[8]);
    }
    assert EmailSplit(email, 6, 11);
  }

  /** The fixed test password has an upper-case letter, a lower-case letter and a digit. */
  lemma TestPasswordValid()
    ensures ValidatePassword("TestPassword123!") == Pass
  {
    var p: Bytes := "TestPassword123!";
    assert IsUpper(p[0]) && IsLower(p[1]) && IsDigit(p[12]);
  }

  /** The test username "testuser" is a valid username. */
  lemma TestUsernameValid()
    ensures ValidateUsername("testuser") == Pass
  {
    var u: Bytes := "testuser";
    assert forall i :: 0 <= i < |u| ==> IsLower(u[i]);
  }

  /** The generated test credentials, with the gender left out, pass `ValidateCreate`.
      The test endpoint itself never calls it, and the empty gender it stores is not
      one the database's gender constraint admits. */
  lemma TestCredentialsValid(usernameEntropy: Bytes, emailEntropy: Bytes)
    requires |emailEntropy| >= 2
    ensures ValidateCreate(UserCreateRequest(
              GenerateRandomString(8, "testuser", usernameEntropy),
              GenerateRandomString(6, "test", emailEntropy) + "@test.com",
              "",
              "TestPassword123!")) == Valid
  {
    var req := UserCreateRequest(
      GenerateRandomString(8, "testuser", usernameEntropy),
      GenerateRandomString(6, "test", emailEntropy) + "@test.com",
      "",
      "TestPassword123!");
    TestUsernameIsFixed(usernameEntropy);
    TestUsernameValid();
    TestEmailValid(emailEntropy);
    TestPasswordValid();
    CreateValidIff(req);
  }
}
