/** The handlers of backend/routes/authRoutes.js: registration, login, the public profile and
    the profile update. The JWT the handlers sign or verify is not modelled: the update handler
    receives the id its token decoded (`decoded.id`). The express-validator `isEmail` check and
    bcrypt's `hash`/`compare` are parameters. Mongoose applies the `lowercase` and `trim` setters
    to query filters and to update documents as well as to new documents. */
module AuthRoutes {
  import opened Common
  import opened Text
  import opened Store
  import UserModel

  type User = UserModel.User

  /** No two accounts share an email address or a university id (the schema's two `unique`
      indexes). */
  ghost predicate UniqueAccounts(users: map<Id, User>)
  {
    forall a, b :: a in users && b in users && a != b ==>
      users[a].email != users[b].email && users[a].universityId != users[b].universityId
  }

  /** What `save()` checks on a user: the schema validators, the password's `minlength`
      included. */
  predicate SaveValid(u: User)
  {
    UserModel.Valid(u) && UserModel.PasswordLongEnough(u.password)
  }

  /** Changing an account without touching its email or university id keeps the accounts
      unique. */
  lemma SameKeysKeepUnique(users: map<Id, User>, id: Id, u: User)
    requires UniqueAccounts(users)
    requires id in users && u.email == users[id].email && u.universityId == users[id].universityId
    ensures UniqueAccounts(users[id := u])
  {
  }

  // ---- POST /register ----

  /** The route's validators: a non-empty name and department, an email `isEmail` accepts, a
      password of at least six characters and a university id matching `^KLH\d{3,}$`. A field
      the body lacks is read as the empty string. */
  predicate RegisterInputOk(name: string, email: string, password: string, universityId: string,
                            department: string, isEmail: string -> bool)
  {
    name != [] && isEmail(email) && |password| >= 6 && UserModel.IsUniversityId(universityId) && department != []
  }

  /** `findOne({ $or: [{ email }, { universityId }] })` finds a document: the email filter is
      lower-cased by the schema's setter before the query runs. */
  predicate Taken(users: map<Id, User>, email: string, universityId: string)
  {
    exists id :: id in users && (users[id].email == ToLower(email) || users[id].universityId == universityId)
  }

  /** The stored record of a registration: the new student with its password hashed by the
      pre-save hook (the password of a new document is always modified). */
  function Registered(name: string, email: string, password: string, universityId: string,
                      department: string, hash: string -> string, now: int): (r: User)
    ensures r.email == ToLower(email) && r.universityId == universityId && r.password == hash(password)
    ensures r.role == "student" && r.name == Trim(name) && r.department == department
  {
    UserModel.PreSave(UserModel.NewStudent(name, email, password, universityId, department, now), true, hash)
  }

  /** How POST /register ends: 400 when a validator fails or the email or university id is
      already registered, 500 when the new record fails the schema's validation, 201
      otherwise. */
  function RegisterStatus(users: map<Id, User>, name: string, email: string, password: string,
                          universityId: string, department: string, isEmail: string -> bool, now: int): (r: nat)
    ensures r == 400 <==> !RegisterInputOk(name, email, password, universityId, department, isEmail) || Taken(users, email, universityId)
    ensures r == 201 <==>
      && RegisterInputOk(name, email, password, universityId, department, isEmail)
      && !Taken(users, email, universityId)
      && UserModel.Valid(UserModel.NewStudent(name, email, password, universityId, department, now))
    ensures r in {201, 400, 500}
  {
    if !RegisterInputOk(name, email, password, universityId, department, isEmail) then 400
    else if Taken(users, email, universityId) then 400
    else if !SaveValid(UserModel.NewStudent(name, email, password, universityId, department, now)) then 500
    else 201
  }

  /** A successful registration keeps the accounts unique: the duplicate check looks up exactly
      the lower-cased email and the university id the new record will carry. */
  lemma RegisterKeepsUnique(users: map<Id, User>, id: Id, name: string, email: string, password: string,
                            universityId: string, department: string, isEmail: string -> bool,
                            hash: string -> string, now: int)
    requires UniqueAccounts(users) && id !in users
    requires RegisterStatus(users, name, email, password, universityId, department, isEmail, now) == 201
    ensures UniqueAccounts(users[id := Registered(name, email, password, universityId, department, hash, now)])
  {
    var u := Registered(name, email, password, universityId, department, hash, now);
    var m := users[id := u];
    forall a, b | a in m && b in m && a != b
      ensures m[a].email != m[b].email && m[a].universityId != m[b].universityId
    {
      if a == id {
        assert !(users[b].email == ToLower(email) || users[b].universityId == universityId);
      } else if b == id {
        assert !(users[a].email == ToLower(email) || users[a].universityId == universityId);
      }
    }
  }

  /** POST /register: replies as `RegisterStatus` says. On 201 the hashed record is stored under
      a fresh id and the reply carries its public fields, which do not depend on the password
      or its hash; otherwise nothing changes. Registration keeps the accounts unique. */
  method Register(db: Db, name: string, email: string, password: string, universityId: string,
                  department: string, isEmail: string -> bool, hash: string -> string, now: int)
      returns (status: nat, user: Option<UserModel.PublicUser>)
    requires db.Valid()
    modifies db`users, db`nextId
    ensures db.Valid()
    ensures status == RegisterStatus(old(db.users), name, email, password, universityId, department, isEmail, now)
    ensures status == 201 ==>
      && db.users == old(db.users)[old(db.nextId) := Registered(name, email, password, universityId, department, hash, now)]
      && user == Some(UserModel.ToJson(UserModel.NewStudent(name, email, password, universityId, department, now)))
    ensures status != 201 ==> db.users == old(db.users) && user.None?
    ensures UniqueAccounts(old(db.users)) ==> UniqueAccounts(db.users)
  {
    status := RegisterStatus(db.users, name, email, password, universityId, department, isEmail, now);
    user := None;
    if status == 201 {
      var stored := Registered(name, email, password, universityId, department, hash, now);
      var id := db.FreshId();
      if UniqueAccounts(db.users) {
        RegisterKeepsUnique(db.users, id, name, email, password, universityId, department, isEmail, hash, now);
      }
      PutUser(db, id, stored);
      UserModel.ToJsonStripsOnlySecrets(UserModel.NewStudent(name, email, password, universityId, department, now),
                                        UserModel.ToJson(stored), hash(password), None);
      user := Some(UserModel.ToJson(stored));
    }
  }

  // ---- POST /login ----

  /** `findOne({ email })` with the filter lower-cased: the first account, in natural order,
      with that address. */
  function LoginTarget(users: map<Id, User>, email: string): (r: Option<Id>)
    ensures r.Some? ==> r.value in users && users[r.value].email == ToLower(email)
    ensures r.None? <==> forall id :: id in users ==> users[id].email != ToLower(email)
  {
    FirstId(users, (u: User) => u.email == ToLower(email))
  }

  /** How POST /login ends. The same 400 answers a failed validator, an unknown email and a
      wrong password, so the reply does not tell which; a record that fails validation when
      `lastLogin` is saved answers 500. */
  function LoginStatus(users: map<Id, User>, email: string, password: string, isEmail: string -> bool,
                       compare: (string, string) -> bool, now: int): (r: nat)
    ensures r == 400 <==>
      || !isEmail(email) || password == []
      || LoginTarget(users, email).None?
      || !compare(password, users[LoginTarget(users, email).value].password)
    ensures r == 200 <==>
      && isEmail(email) && password != []
      && LoginTarget(users, email).Some?
      && compare(password, users[LoginTarget(users, email).value].password)
      && SaveValid(users[LoginTarget(users, email).value].(lastLogin := Some(now)))
    ensures r in {200, 400, 500}
  {
    if !isEmail(email) || password == [] then 400
    else
      var t := LoginTarget(users, email);
      if t.None? then 400
      else if !compare(password, users[t.value].password) then 400
      else if !SaveValid(users[t.value].(lastLogin := Some(now))) then 500
      else 200
  }

  /** POST /login: replies as `LoginStatus` says; on 200 the account's `lastLogin` becomes `now`
      (the password is not modified, so the pre-save hook leaves it) and the reply carries its
      public fields; otherwise nothing changes. */
  method Login(db: Db, email: string, password: string, isEmail: string -> bool,
               compare: (string, string) -> bool, now: int)
      returns (status: nat, user: Option<UserModel.PublicUser>)
    requires db.Valid()
    modifies db`users
    ensures db.Valid()
    ensures status == LoginStatus(old(db.users), email, password, isEmail, compare, now)
    ensures status == 200 ==>
      var t := LoginTarget(old(db.users), email).value;
      && db.users == old(db.users)[t := old(db.users)[t].(lastLogin := Some(now))]
      && user == Some(UserModel.ToJson(db.users[t]))
    ensures status != 200 ==> db.users == old(db.users) && user.None?
    ensures UniqueAccounts(old(db.users)) ==> UniqueAccounts(db.users)
  {
    status := LoginStatus(db.users, email, password, isEmail, compare, now);
    user := None;
    if status == 200 {
      var t := LoginTarget(db.users, email).value;
      var u := UserModel.PreSave(db.users[t].(lastLogin := Some(now)), false, (p: string) => p);
      if UniqueAccounts(db.users) {
        SameKeysKeepUnique(db.users, t, u);
      }
      PutUser(db, t, u);
      user := Some(UserModel.ToJson(u));
    }
  }

  /** Whoever registers can then log in with the same email and password, provided `compare`
      accepts a password against its own hash and the hash passes the `minlength` check: the
      login finds the new account and no other. */
  lemma RegisteredCanLogIn(users: map<Id, User>, id: Id, name: string, email: string, password: string,
                           universityId: string, department: string, isEmail: string -> bool,
                           hash: string -> string, compare: (string, string) -> bool, now: int, later: int)
    requires id !in users
    requires RegisterStatus(users, name, email, password, universityId, department, isEmail, now) == 201
    requires compare(password, hash(password)) && Utf16Length(hash(password)) >= 6
    ensures var m := users[id := Registered(name, email, password, universityId, department, hash, now)];
      LoginTarget(m, email) == Some(id) && LoginStatus(m, email, password, isEmail, compare, later) == 200
  {
    var s := UserModel.NewStudent(name, email, password, universityId, department, now);
    var u := Registered(name, email, password, universityId, department, hash, now);
    assert u == s.(password := hash(password));
    assert !Taken(users, email, universityId);
    LoginFindsOnlyNewAccount(users, id, u, email);
    UserModel.ValidIgnoresSecrets(s, hash(password), Some(later));
  }

  /** An account added with an email no other account has is the one login finds. */
  lemma LoginFindsOnlyNewAccount(users: map<Id, User>, id: Id, u: User, email: string)
    requires id !in users && u.email == ToLower(email)
    requires forall x :: x in users ==> users[x].email != ToLower(email)
    ensures LoginTarget(users[id := u], email) == Some(id)
  {
    var m := users[id := u];
    assert id in m && m[id].email == ToLower(email);
    var r := LoginTarget(m, email);
    assert r.Some? && r.value in m;
  }

  // ---- GET /:userId ----

  /** GET /:userId: the account's public fields (what `toJSON` keeps), or 404. Nothing
      changes. */
  method Profile(db: Db, userId: Id) returns (status: nat, user: Option<UserModel.PublicUser>)
    ensures userId in db.users <==> status == 200
    ensures userId in db.users ==> user == Some(UserModel.ToJson(db.users[userId]))
    ensures userId !in db.users ==> status == 404 && user.None?
  {
    if userId !in db.users {
      return 404, None;
    }
    return 200, Some(UserModel.ToJson(db.users[userId]));
  }

  // ---- PUT /update/:userId ----

  /** The fields of a profile update; `None` is a field the body does not carry. */
  datatype ProfileEdit = ProfileEdit(name: Option<string>, bio: Option<string>,
                                     department: Option<string>, profileImage: Option<string>)

  /** The route's validators, each skipped for a field not sent: a name and a department must
      not be empty, a bio must not exceed 500 characters, counted as code points. */
  predicate EditPassesValidators(e: ProfileEdit)
  {
    && (e.name.Some? ==> e.name.value != [])
    && (e.bio.Some? ==> |e.bio.value| <= 500)
    && (e.department.Some? ==> e.department.value != [])
  }

  /** The update validators of `findByIdAndUpdate(..., { runValidators: true })`: they check only
      the paths being set, after the `trim` setter has run on the name, and count lengths in
      UTF-16 units. */
  predicate EditPassesSchema(e: ProfileEdit)
  {
    && (e.name.Some? ==> Trim(e.name.value) != [] && Utf16Length(Trim(e.name.value)) <= 50)
    && (e.bio.Some? ==> Utf16Length(e.bio.value) <= 500)
    && (e.department.Some? ==> e.department.value in UserModel.Departments)
  }

  /** The account after the update: each field sent replaces the stored one (the name trimmed);
      an absent field is stripped from the update and keeps its value. */
  function ProfileApplied(u: User, e: ProfileEdit): User
  {
    u.(name := if e.name.Some? then Trim(e.name.value) else u.name,
       bio := if e.bio.Some? then e.bio else u.bio,
       department := if e.department.Some? then e.department.value else u.department,
       profileImage := if e.profileImage.Some? then e.profileImage else u.profileImage)
  }

  /** An update the schema accepts keeps a valid account valid, and it never changes the
      account's email, university id, password, role, lists or status. */
  lemma ProfileAppliedKeepsValid(u: User, e: ProfileEdit)
    requires UserModel.Valid(u) && EditPassesSchema(e)
    ensures UserModel.Valid(ProfileApplied(u, e))
    ensures var r := ProfileApplied(u, e);
      && r.email == u.email && r.universityId == u.universityId && r.password == u.password
      && r.role == u.role && r.accountStatus == u.accountStatus && r.isVerified == u.isVerified
      && r.uploadedVideos == u.uploadedVideos && r.playlists == u.playlists
      && (e.name.None? ==> r.name == u.name) && (e.bio.None? ==> r.bio == u.bio)
      && (e.department.None? ==> r.department == u.department)
      && (e.profileImage.None? ==> r.profileImage == u.profileImage)
  {
  }

  /** How PUT /update/:userId ends: 400 when a route validator fails, 403 when the token is
      someone else's, 500 when the schema rejects the update or no such account exists (the
      handler then calls `toJSON` on `null`), 200 otherwise. */
  function UpdateProfileStatus(users: map<Id, User>, requester: Id, userId: Id, e: ProfileEdit): (r: nat)
    ensures r == 400 <==> !EditPassesValidators(e)
    ensures r == 403 <==> EditPassesValidators(e) && requester != userId
    ensures r == 200 <==> EditPassesValidators(e) && requester == userId && EditPassesSchema(e) && userId in users
    ensures r in {200, 400, 403, 500}
  {
    if !EditPassesValidators(e) then 400
    else if requester != userId then 403
    else if !EditPassesSchema(e) then 500
    else if userId !in users then 500
    else 200
  }

  /** A bio of 251 to 500 characters that all lie above U+FFFF (emoji, say) passes the route's
      `isLength({ max: 500 })`, which counts a surrogate pair once, but not the schema's
      `maxlength: 500`, which counts UTF-16 units: the owner's update ends with 500. */
  lemma AstralBioFailsOnlyInSchema(users: map<Id, User>, userId: Id, bio: string)
    requires 250 < |bio| <= 500 && forall i :: 0 <= i < |bio| ==> bio[i] as int >= 0x1_0000
    ensures var e := ProfileEdit(None, Some(bio), None, None);
      EditPassesValidators(e) && !EditPassesSchema(e) && UpdateProfileStatus(users, userId, userId, e) == 500
  {
    Utf16LengthExtremes(bio);
  }

  /** PUT /update/:userId: replies as `UpdateProfileStatus` says; on 200 the account becomes
      `ProfileApplied` and the reply carries its public fields; otherwise nothing changes. The
      accounts stay unique. */
  method UpdateProfile(db: Db, requester: Id, userId: Id, e: ProfileEdit)
      returns (status: nat, user: Option<UserModel.PublicUser>)
    requires db.Valid()
    modifies db`users
    ensures db.Valid()
    ensures status == UpdateProfileStatus(old(db.users), requester, userId, e)
    ensures status == 200 ==>
      && db.users == old(db.users)[userId := ProfileApplied(old(db.users)[userId], e)]
      && user == Some(UserModel.ToJson(db.users[userId]))
    ensures status != 200 ==> db.users == old(db.users) && user.None?
    ensures UniqueAccounts(old(db.users)) ==> UniqueAccounts(db.users)
  {
    status := UpdateProfileStatus(db.users, requester, userId, e);
    user := None;
    if status == 200 {
      var u := ProfileApplied(db.users[userId], e);
      if UniqueAccounts(db.users) {
        SameKeysKeepUnique(db.users, userId, u);
      }
      db.users := db.users[userId := u];
      user := Some(UserModel.ToJson(u));
    }
  }
}
