/** The account rules of backend/src/controllers/auth.controller.js: the failed-login counter and
    lock, login, signup, the profile-picture update and `sanitizeUserData`. The User collection is
    the field `users`; bcrypt's `hash` and `compare` and the image host's upload are parameters
    (an upload that throws is `None`); an absent or empty request field is the empty string. */
module AuthController {
  import opened Common
  import opened UserModel
  import opened EmailFormat
  import SignupSample

  const LockThreshold := 5
  const MaxProfilePicSize := 5 * 1024 * 1024

  datatype Body =
    | Notice(message: string)
    | WithUser(message: string, user: Document)
    | WithNullUser(message: string)

  datatype Response = Response(status: nat, body: Body)

  // ---------------------------------------------------------------------------------------------
  // Failed attempts and lock

  /** `handleFailedLoginAttempt`: one more failed attempt, and the lock once there are five. */
  function FailedAttempt(u: User): (r: User)
    ensures r.failedLoginAttempts == u.failedLoginAttempts + 1
    ensures r.accountLocked <==> u.accountLocked || r.failedLoginAttempts >= LockThreshold
    ensures r == u.(failedLoginAttempts := r.failedLoginAttempts, accountLocked := r.accountLocked)
  {
    var counted := u.(failedLoginAttempts := u.failedLoginAttempts + 1);
    if counted.failedLoginAttempts >= LockThreshold then counted.(accountLocked := true) else counted
  }

  /** `k` failed attempts in a row. */
  function Failures(u: User, k: nat): User {
    if k == 0 then u else FailedAttempt(Failures(u, k - 1))
  }

  /** After `k` failures the counter has grown by `k`, the lock is never cleared, and it is set
      once the counter reaches five; nothing else about the user changes. */
  lemma {:induction false} FailuresCount(u: User, k: nat)
    ensures Failures(u, k).failedLoginAttempts == u.failedLoginAttempts + k
    ensures Failures(u, k).accountLocked <==> u.accountLocked || (k > 0 && u.failedLoginAttempts + k >= LockThreshold)
    ensures Failures(u, k) == u.(failedLoginAttempts := Failures(u, k).failedLoginAttempts,
                                 accountLocked := Failures(u, k).accountLocked)
  {
    if k > 0 {
      FailuresCount(u, k - 1);
    }
  }

  /** The reply to a wrong password, by the counter after the failed attempt. */
  function WrongPasswordReply(count: nat): (r: Response)
    ensures r.status == 401 <==> count == 3 || count == 4
    ensures count == 3 ==> r.body == Notice("Warning: you have 2 login attempts remaining.")
    ensures count == 4 ==> r.body == Notice("Warning: you have 1 login attempts remaining.")
    ensures count != 3 && count != 4 ==> r == Response(400, Notice("Invalid credentials"))
  {
    if count == 3 then Response(401, Notice("Warning: you have 2 login attempts remaining."))
    else if count == 4 then Response(401, Notice("Warning: you have 1 login attempts remaining."))
    else Response(400, Notice("Invalid credentials"))
  }

  /** From a fresh account, five consecutive wrong passwords get 400, 400, the two warnings and
      400, and only the fifth locks the account. */
  lemma LockoutSequence(u: User)
    requires u.failedLoginAttempts == 0 && !u.accountLocked
    ensures forall k :: 1 <= k <= 4 ==> !Failures(u, k).accountLocked
    ensures Failures(u, 5).accountLocked
    ensures WrongPasswordReply(Failures(u, 1).failedLoginAttempts) == Response(400, Notice("Invalid credentials"))
    ensures WrongPasswordReply(Failures(u, 2).failedLoginAttempts) == Response(400, Notice("Invalid credentials"))
    ensures WrongPasswordReply(Failures(u, 3).failedLoginAttempts).body == Notice("Warning: you have 2 login attempts remaining.")
    ensures WrongPasswordReply(Failures(u, 4).failedLoginAttempts).body == Notice("Warning: you have 1 login attempts remaining.")
    ensures WrongPasswordReply(Failures(u, 5).failedLoginAttempts) == Response(400, Notice("Invalid credentials"))
  {
    forall k | 1 <= k <= 5 ensures Failures(u, k).failedLoginAttempts == k
      && (Failures(u, k).accountLocked <==> k >= LockThreshold)
    {
      FailuresCount(u, k);
    }
  }

  // ---------------------------------------------------------------------------------------------
  // The user views a response carries

  /** `sanitizeUserData`: the copy without `password` and `accountLocked`, every other field kept. */
  function Sanitize(d: Document): (r: Document)
    ensures r.Keys == d.Keys - {"password", "accountLocked"}
    ensures forall k :: k in r ==> r[k] == d[k]
  {
    Exclude(d, {"password", "accountLocked"})
  }

  /** The projection of the profile update: `-password -failedLoginAttempts -accountLocked -__v`. */
  function ProfileView(u: User): (r: Document)
    ensures r.Keys == ToDocument(u).Keys - {"password", "failedLoginAttempts", "accountLocked", "__v"}
    ensures forall k :: k in r ==> r[k] == ToDocument(u)[k]
  {
    Exclude(ToDocument(u), {"password", "failedLoginAttempts", "accountLocked", "__v"})
  }

  /** A sanitised user still shows who it is, its picture and its attempt counter. */
  lemma SanitizeKeepsPublicFields(u: User)
    ensures var d := Sanitize(ToDocument(u));
      && "password" !in d && "accountLocked" !in d
      && d["_id"] == Str(u.id) && d["email"] == Str(u.email) && d["fullName"] == Str(u.fullName)
      && d["profilePic"] == Str(u.profilePic) && d["failedLoginAttempts"] == Num(u.failedLoginAttempts)
  {
  }

  // ---------------------------------------------------------------------------------------------
  // Signup and profile checks

  /** The guards of `signup` before the lookup, in order; `None` when all pass. */
  function SignupInputError(fullName: string, email: string, password: string): (r: Option<string>)
    ensures r.None? <==> fullName != "" && MatchesEmailRegex(email) && |password| >= MinPasswordLength
    ensures (fullName == "" || email == "" || password == "") ==> r == Some("All fields are required")
  {
    IsValidEmailIffRegex(email);
    if fullName == "" || email == "" || password == "" then Some("All fields are required")
    else if !IsValidEmail(email) then Some("Please provide a valid email address")
    else if |password| < 6 then Some("Password must be at least 6 characters long")
    else None
  }

  /** The controller's checks are those of the standalone validator, with the same messages. */
  lemma SignupAgreesWithSample(fullName: string, email: string, password: string)
    ensures SignupInputError(fullName, email, password).None? <==> SignupSample.ValidateSignupInput(fullName, email, password).None?
    ensures SignupInputError(fullName, email, password).Some? ==>
      SignupInputError(fullName, email, password).value == SignupSample.ValidateSignupInput(fullName, email, password).value.message
  {
    IsValidEmailIffRegex(email);
  }

  /** `profilePic.length * 0.75 > 5 * 1024 * 1024`, on real numbers. */
  predicate TooLarge(length: nat) {
    (length as real) * 0.75 > (MaxProfilePicSize as real)
  }

  /** The size test is the integer test `3 * length > 4 * 5242880`. */
  lemma TooLargeIff(length: nat)
    ensures TooLarge(length) <==> 3 * length > 4 * MaxProfilePicSize
  {
    assert (length as real) * 0.75 == (3 * length) as real / 4.0;
  }

  /** The largest accepted string has 6,990,506 characters. */
  lemma TooLargeBoundary()
    ensures !TooLarge(6990506) && TooLarge(6990507)
  {
    TooLargeIff(6990506);
    TooLargeIff(6990507);
  }

  // ---------------------------------------------------------------------------------------------
  // Handlers

  class AuthController {
    var users: seq<User>

    ghost predicate Valid()
      reads this
    {
      ValidUsers(users)
    }

    constructor (users: seq<User>)
      requires ValidUsers(users)
      ensures Valid() && this.users == users
    {
      this.users := users;
    }

    /** `handleFailedLoginAttempt(user)` followed by `save()`. */
    method HandleFailedLoginAttempt(i: nat)
      requires Valid() && i < |users|
      modifies this
      ensures Valid()
      ensures users == old(users)[i := FailedAttempt(old(users)[i])]
    {
      UpdateKeepsValid(users, i, FailedAttempt(users[i]));
      users := users[i := FailedAttempt(users[i])];
    }

    /** `login`. Missing fields, an unknown e-mail and a locked account are rejected with nothing
        changed; a wrong password counts a failed attempt and replies by the new count; a right
        one clears the counter, records the login time and returns the sanitised user. */
    method Login(email: string, password: string, compare: (string, string) -> bool, now: int) returns (r: Response)
      requires Valid()
      modifies this
      ensures Valid()
      ensures email == "" || password == "" ==>
        r == Response(400, Notice("Email and password are required")) && users == old(users)
      ensures email != "" && password != "" && FindByEmail(old(users), email).None? ==>
        r == Response(400, Notice("Invalid credentials")) && users == old(users)
      ensures email != "" && password != "" && FindByEmail(old(users), email).Some?
              && old(users)[FindByEmail(old(users), email).value].accountLocked ==>
        r == Response(403, Notice("Account is locked. Please contact support.")) && users == old(users)
      ensures email != "" && password != "" && FindByEmail(old(users), email).Some?
              && !old(users)[FindByEmail(old(users), email).value].accountLocked
              && !compare(password, old(users)[FindByEmail(old(users), email).value].password) ==>
        var i := FindByEmail(old(users), email).value;
        users == old(users)[i := FailedAttempt(old(users)[i])]
        && r == WrongPasswordReply(FailedAttempt(old(users)[i]).failedLoginAttempts)
      ensures email != "" && password != "" && FindByEmail(old(users), email).Some?
              && !old(users)[FindByEmail(old(users), email).value].accountLocked
              && compare(password, old(users)[FindByEmail(old(users), email).value].password) ==>
        var i := FindByEmail(old(users), email).value;
        var v := old(users)[i].(failedLoginAttempts := 0, lastLoginAt := Some(now));
        users == old(users)[i := v] && r == Response(200, WithUser("Login successful", Sanitize(ToDocument(v))))
    {
      if email == "" || password == "" {
        return Response(400, Notice("Email and password are required"));
      }
      var found := FindByEmail(users, email);
      if found.None? {
        return Response(400, Notice("Invalid credentials"));
      }
      var i := found.value;
      if users[i].accountLocked {
        return Response(403, Notice("Account is locked. Please contact support."));
      }
      var isPasswordCorrect := compare(password, users[i].password);
      if !isPasswordCorrect {
        HandleFailedLoginAttempt(i);
        return WrongPasswordReply(users[i].failedLoginAttempts);
      }
      if !isPasswordCorrect {
        // the second wrong-password branch of the source is dead code
        assert false;
      }
      ghost var before := users;
      ghost var v := users[i].(failedLoginAttempts := 0, lastLoginAt := Some(now));
      UpdateKeepsValid(before, i, v);
      if users[i].failedLoginAttempts > 0 {
        users := users[i := users[i].(failedLoginAttempts := 0)];
      }
      users := users[i := users[i].(lastLoginAt := Some(now))];
      assert users[i] == v;
      assert users == before[i := v];
      r := Response(200, WithUser("Login successful", Sanitize(ToDocument(users[i]))));
    }

    /** `signup`: the input guards, then an e-mail already registered, then `User.create` with the
        hashed password; a create that fails is 500. A created user is stored and returned
        sanitised. */
    method Signup(fullName: string, email: string, password: string, newId: UserId, hash: string -> string)
      returns (r: Response)
      requires Valid()
      requires forall k :: 0 <= k < |users| ==> users[k].id != newId
      modifies this
      ensures Valid()
      ensures SignupInputError(fullName, email, password).Some? ==>
        r == Response(400, Notice(SignupInputError(fullName, email, password).value)) && users == old(users)
      ensures SignupInputError(fullName, email, password).None? && FindByEmail(old(users), email).Some? ==>
        r == Response(400, Notice("User already exists")) && users == old(users)
      ensures SignupInputError(fullName, email, password).None? && FindByEmail(old(users), email).None? ==>
        var created := NewUser(old(users), newId, fullName, email, hash(password));
        && (created.Err? ==> r == Response(500, Notice("Internal server error")) && users == old(users))
        && (created.Ok? ==>
              users == old(users) + [created.value]
              && r == Response(201, WithUser("User created successfully", Sanitize(ToDocument(created.value)))))
    {
      var inputError := SignupInputError(fullName, email, password);
      if inputError.Some? {
        return Response(400, Notice(inputError.value));
      }
      if FindByEmail(users, email).Some? {
        return Response(400, Notice("User already exists"));
      }
      var hashedPassword := hash(password);
      var created := NewUser(users, newId, fullName, email, hashedPassword);
      if created.Err? {
        return Response(500, Notice("Internal server error"));
      }
      NewUserKeepsValid(users, newId, fullName, email, hashedPassword);
      users := users + [created.value];
      r := Response(201, WithUser("User created successfully", Sanitize(ToDocument(created.value))));
    }

    /** `updateProfile`: a missing picture and one estimated above 5 MB are 400 before any
        upload; a failed upload is 500; then the user's picture becomes the uploaded URL and the
        projected user is returned, or `null` when no user has the id. */
    method UpdateProfile(userId: UserId, profilePic: string, upload: string -> Option<string>) returns (r: Response)
      requires Valid()
      modifies this
      ensures Valid()
      ensures profilePic == "" ==> r == Response(400, Notice("Profile pic is required")) && users == old(users)
      ensures profilePic != "" && TooLarge(|profilePic|) ==>
        r == Response(400, Notice("Image too large. Maximum size is 5MB")) && users == old(users)
      ensures profilePic != "" && !TooLarge(|profilePic|) && upload(profilePic).None? ==>
        r == Response(500, Notice("Internal server error")) && users == old(users)
      ensures profilePic != "" && !TooLarge(|profilePic|) && upload(profilePic).Some?
              && FindUserById(old(users), userId).None? ==>
        r == Response(200, WithNullUser("Profile picture updated successfully")) && users == old(users)
      ensures profilePic != "" && !TooLarge(|profilePic|) && upload(profilePic).Some?
              && FindUserById(old(users), userId).Some? ==>
        var i := FindUserById(old(users), userId).value;
        var v := old(users)[i].(profilePic := upload(profilePic).value);
        users == old(users)[i := v]
        && r == Response(200, WithUser("Profile picture updated successfully", ProfileView(v)))
    {
      if profilePic == "" {
        return Response(400, Notice("Profile pic is required"));
      }
      if TooLarge(|profilePic|) {
        return Response(400, Notice("Image too large. Maximum size is 5MB"));
      }
      var uploadPicResponse := upload(profilePic);
      if uploadPicResponse.None? {
        return Response(500, Notice("Internal server error"));
      }
      var found := FindUserById(users, userId);
      if found.None? {
        return Response(200, WithNullUser("Profile picture updated successfully"));
      }
      var i := found.value;
      var updated := users[i].(profilePic := uploadPicResponse.value);
      UpdateKeepsValid(users, i, updated);
      users := users[i := updated];
      r := Response(200, WithUser("Profile picture updated successfully", ProfileView(updated)));
    }
  }
}
