/** The `User` schema (backend/src/models/user.model.js) and the plain-object view of a user
    document that projections and `sanitizeUserData` work on. */
module UserModel {
  import opened Common

  const MinPasswordLength := 6

  datatype User = User(
    id: UserId,
    fullName: string,
    email: string,
    password: string,
    profilePic: string,
    failedLoginAttempts: nat,
    accountLocked: bool,
    lastLoginAt: Option<int>)

  /** Why `User.create` rejects: validation lists the failing paths, the unique index the key. */
  datatype CreateError = Invalid(paths: set<string>) | DuplicateKey(path: string)

  /** A field value of a user document seen as a plain object. */
  datatype Field = Str(s: string) | Num(n: int) | Bool(b: bool)

  /** A user document as a plain object: field name to value; an unset field is absent. */
  type Document = map<string, Field>

  function ToDocument(u: User): (d: Document)
    ensures d.Keys >= {"_id", "fullName", "email", "password", "profilePic", "failedLoginAttempts", "accountLocked"}
    ensures "lastLoginAt" in d <==> u.lastLoginAt.Some?
  {
    map["_id" := Str(u.id), "fullName" := Str(u.fullName), "email" := Str(u.email),
        "password" := Str(u.password), "profilePic" := Str(u.profilePic),
        "failedLoginAttempts" := Num(u.failedLoginAttempts), "accountLocked" := Bool(u.accountLocked)]
    + (if u.lastLoginAt.Some? then map["lastLoginAt" := Num(u.lastLoginAt.value)] else map[])
  }

  /** A projection `select("-a -b ...")`, or deleting keys from a copy: the named fields go, every
      other field stays with its value. */
  function Exclude(d: Document, fields: set<string>): (r: Document)
    ensures r.Keys == d.Keys - fields
    ensures forall k :: k in r ==> r[k] == d[k]
  {
    map k | k in d && k !in fields :: d[k]
  }

  /** A user as `select("-password -failedLoginAttempts -__v")` returns it, the projection of
      both the user list and the middleware's lookup. */
  function PublicView(u: User): (d: Document)
    ensures "password" !in d && "failedLoginAttempts" !in d && "__v" !in d
    ensures d.Keys == ToDocument(u).Keys - {"password", "failedLoginAttempts", "__v"}
    ensures forall k :: k in d ==> d[k] == ToDocument(u)[k]
  {
    Exclude(ToDocument(u), {"password", "failedLoginAttempts", "__v"})
  }

  /** `User.findOne({ email })` in natural order. */
  function FindByEmail(users: seq<User>, email: string): (r: Option<nat>)
    ensures r.Some? ==> r.value < |users| && users[r.value].email == email
    ensures r.None? <==> forall k :: 0 <= k < |users| ==> users[k].email != email
  {
    FirstIndex(users, (u: User) => u.email == email)
  }

  /** `User.findById(id)`. */
  function FindUserById(users: seq<User>, id: UserId): (r: Option<nat>)
    ensures r.Some? ==> r.value < |users| && users[r.value].id == id
    ensures r.None? <==> forall k :: 0 <= k < |users| ==> users[k].id != id
  {
    FirstIndex(users, (u: User) => u.id == id)
  }

  /** The unique index on `email`, and distinct ids. */
  predicate ValidUsers(users: seq<User>) {
    forall i, j :: 0 <= i < j < |users| ==> users[i].email != users[j].email && users[i].id != users[j].id
  }

  /** `User.create({ fullName, email, password })`: the required strings must be non-empty, the
      password at least `MinPasswordLength` long, and no stored user may have the e-mail; the new
      user starts with no failed attempts, unlocked and with an empty profile picture. */
  function NewUser(users: seq<User>, id: UserId, fullName: string, email: string, password: string): (r: Result<User, CreateError>)
    ensures r.Ok? <==> fullName != "" && email != "" && |password| >= MinPasswordLength
                       && forall k :: 0 <= k < |users| ==> users[k].email != email
    ensures r.Err? && r.error.Invalid? ==> ("fullName" in r.error.paths <==> fullName == "")
    ensures r.Err? && r.error.Invalid? ==> ("email" in r.error.paths <==> email == "")
    ensures r.Ok? ==> r.value == User(id, fullName, email, password, "", 0, false, None)
  {
    var missing := (if fullName == "" then {"fullName"} else {})
                 + (if email == "" then {"email"} else {})
                 + (if password == "" then {"password"} else {});
    var short := if password != "" && |password| < MinPasswordLength then {"password"} else {};
    if missing + short != {} then
      assert fullName == "" ==> "fullName" in missing + short;
      assert email == "" ==> "email" in missing + short;
      Err(Invalid(missing + short))
    else if FindByEmail(users, email).Some? then Err(DuplicateKey("email"))
    else Ok(User(id, fullName, email, password, "", 0, false, None))
  }

  /** Adding a created user keeps e-mails unique. */
  lemma NewUserKeepsValid(users: seq<User>, id: UserId, fullName: string, email: string, password: string)
    requires ValidUsers(users)
    requires forall k :: 0 <= k < |users| ==> users[k].id != id
    requires NewUser(users, id, fullName, email, password).Ok?
    ensures ValidUsers(users + [NewUser(users, id, fullName, email, password).value])
  {
  }

  /** Rewriting a stored user without touching its id or e-mail keeps the store well formed. */
  lemma UpdateKeepsValid(users: seq<User>, i: nat, v: User)
    requires ValidUsers(users) && i < |users|
    requires v.id == users[i].id && v.email == users[i].email
    ensures ValidUsers(users[i := v])
  {
  }
}
