/**
 * The account routes: registration with a one-time code, the code
 * mailers, login, availability, the profile read, and the two password
 * changes. The three tables live in a `Store` whose methods are the
 * handlers that write them; the read-only handlers are functions of the
 * rows. `online == false` models a database that throws on the first
 * query.
 */
module Accounts {
  import opened Wrappers
  import opened Arrays
  import opened Text
  import opened Http
  import opened Session
  import opened Otp
  import opened Tables

  /** The body of POST /api/register. */
  datatype Registration = Registration(
    username: string,
    email: string,
    password: string,
    firstName: string,
    lastName: string,
    displayName: string,
    dateOfBirth: string,
    gender: string,
    location: string,
    otp: string)

  /** A message handed to the mail transporter. */
  datatype Mail = Mail(from: string, to: string, subject: string, text: Option<string>, html: string)

  const Sender := "\"PLANTIDEN\" <noreply@plantiden.com>"
  const Placeholder := "{OTP}"

  /** The row POST /api/register inserts; `created_at` takes the insert time. */
  function NewUser(id: nat, form: Registration, hash: string, now: int): User {
    User(id, form.username, form.email, hash, form.firstName, form.lastName,
         form.displayName, form.dateOfBirth, form.gender, form.location, now)
  }

  /** A text with `code` between `before` and `after`, as a template literal builds it. */
  function Around(before: string, code: string, after: string): (r: string)
    ensures Contains(r, code)
  {
    ContainsMiddle(before, code, after);
    before + code + after
  }

  const RegistrationSubject := "Your PLANTIDEN Registration OTP"
  const RegistrationTextHead := "Your OTP for PLANTIDEN registration is: "
  const RegistrationTextTail := ". This code will expire in 15 minutes."
  const RegistrationHtmlHead := "<p>Your OTP for PLANTIDEN registration is: <strong>"
  const RegistrationHtmlTail := "</strong></p><p>This code will expire in 15 minutes.</p>"

  /** The registration mail of POST /api/send-otp. */
  function RegistrationMail(email: string, code: string): (m: Mail)
    ensures m.to == email && m.text.Some? && Contains(m.text.value, code) && Contains(m.html, code)
  {
    Mail(Sender, email, RegistrationSubject, Some(Around(RegistrationTextHead, code, RegistrationTextTail)),
         Around(RegistrationHtmlHead, code, RegistrationHtmlTail))
  }

  /** The reset mail of POST /api/forgot-password: the template with its first `{OTP}` replaced by the code. */
  function ResetMail(email: string, template: string, code: string): (m: Mail)
    ensures m.to == email && m.text.None?
    ensures !Contains(template, Placeholder) ==> m.html == template
  {
    Mail(Sender, email, "PLANTIDEN Password Reset", None, ReplaceFirst(template, Placeholder, code))
  }

  /** A template with a placeholder mails the code. */
  lemma ResetMailCarriesCode(email: string, template: string, code: string)
    requires Contains(template, Placeholder)
    ensures Contains(ResetMail(email, template, code).html, code)
  {
    ReplaceFirstContains(template, Placeholder, code);
  }

  /** `replace` with a string pattern fills in only the first placeholder: a second one is mailed as written. */
  lemma ResetMailFillsFirstPlaceholder(email: string, code: string, rest: string)
    ensures ResetMail(email, Placeholder + rest, code).html == code + rest
  {
    ReplaceFirstLeavesLater(Placeholder, rest, code);
  }

  /** The profile GET /api/profile returns: the selected columns under their camel-case names. */
  datatype UserProfile = UserProfile(
    username: string,
    email: string,
    firstName: string,
    lastName: string,
    displayName: string,
    dateOfBirth: string,
    gender: string,
    location: string,
    joinDate: int)

  function ToProfile(u: User): UserProfile {
    UserProfile(u.username, u.email, u.firstName, u.lastName, u.displayName,
                u.dateOfBirth, u.gender, u.location, u.createdAt)
  }

  datatype ProfileBody = ProfileOf(profile: UserProfile) | ProfileError(error: string)

  /** GET /api/profile. `token` is the request's `token` cookie. */
  function GetProfile(c: Crypto, users: seq<User>, online: bool, token: Option<string>, now: int): (r: Response<ProfileBody>)
    ensures token.None? ==> r == Response(401, ProfileError("Not authenticated"))
    ensures token.Some? && (Verify(c, token.value, now).None? || !online) ==> r == Response(401, ProfileError("Invalid token or database error"))
    ensures r.status == 200 <==> token.Some? && online && match Verify(c, token.value, now)
                                                        case None => false
                                                        case Some(claims) => UserById(users, claims.userId).Some?
    ensures r.status == 200 ==> exists i | 0 <= i < |users| :: r.body == ProfileOf(ToProfile(users[i]))
    ensures r.status == 200 ==> token.Some? && Verify(c, token.value, now).Some?
                                && UserById(users, Verify(c, token.value, now).value.userId).Some?
                                && r.body == ProfileOf(ToProfile(UserById(users, Verify(c, token.value, now).value.userId).value))
    ensures (token.Some? && online && Verify(c, token.value, now).Some?
             && UserById(users, Verify(c, token.value, now).value.userId).None?) ==> r == Response(404, ProfileError("User not found"))
    ensures r.status == 404 ==> r.body == ProfileError("User not found")
  {
    match token
    case None => Response(401, ProfileError("Not authenticated"))
    case Some(t) =>
      match Verify(c, t, now)
      case None => Response(401, ProfileError("Invalid token or database error"))
      case Some(claims) =>
        if !online then Response(401, ProfileError("Invalid token or database error"))
        else
          match UserById(users, claims.userId)
          case None => Response(404, ProfileError("User not found"))
          case Some(u) => Response(200, ProfileOf(ToProfile(u)))
  }

  /** The profile of a logged-in user, for the hour of the session. */
  lemma ProfileAfterLogin(c: Crypto, users: seq<User>, nextId: nat, i: nat, issuedAt: int, now: int)
    requires Sound(c) && UniqueUsers(users, nextId) && i < |users|
    requires issuedAt <= now < issuedAt + TokenLifetime
    ensures GetProfile(c, users, true, Some(IssueToken(c, users[i].id, issuedAt)), now) == Response(200, ProfileOf(ToProfile(users[i])))
  {
    IssuedTokenVerifies(c, users[i].id, issuedAt, now);
    UserByIdUnique(users, nextId, i);
  }

  /** The hash is never part of a profile: changing any password leaves every profile response as it was. */
  lemma ProfileIgnoresHashes(c: Crypto, users: seq<User>, cond: User -> bool, hash: string, online: bool, token: Option<string>, now: int)
    ensures GetProfile(c, SetHashWhere(users, cond, hash), online, token, now) == GetProfile(c, users, online, token, now)
  {
    match token
    case None =>
    case Some(t) =>
      match Verify(c, t, now)
      case None =>
      case Some(claims) => SetHashLookup(users, cond, hash, claims.userId);
  }

  /** The lookup by id finds the same row before and after an update of hashes. */
  lemma SetHashLookup(users: seq<User>, cond: User -> bool, hash: string, id: int)
    ensures UserById(SetHashWhere(users, cond, hash), id).Some? <==> UserById(users, id).Some?
    ensures UserById(users, id).Some? ==>
      UserById(SetHashWhere(users, cond, hash), id).value
        == UserById(users, id).value.(passwordHash := UserById(SetHashWhere(users, cond, hash), id).value.passwordHash)
  {
    var users' := SetHashWhere(users, cond, hash);
    var p := (u: User) => u.id == id;
    FindIndexCorresponds(users', p, users, p);
  }

  /** POST /api/check-availability: read-only. */
  function CheckAvailability(users: seq<User>, online: bool, username: string, email: string): (r: Response<Json>)
    ensures !online ==> r == Response(500, Outcome(false, "Server error"))
    ensures online && Taken(users, username, email) ==> r == Response(400, Outcome(false, "Username or email already exists"))
    ensures online && !Taken(users, username, email) ==> r == Response(200, Outcome(true, "Username and email are available"))
  {
    if !online then Response(500, Outcome(false, "Server error"))
    else if Taken(users, username, email) then Response(400, Outcome(false, "Username or email already exists"))
    else Response(200, Outcome(true, "Username and email are available"))
  }

  /** The user a login succeeds for: the first row with the username, when the password compares true against its hash. */
  function Authenticate(c: Crypto, users: seq<User>, username: string, password: string): (r: Option<User>)
    ensures r.Some? ==> r.value in users && r.value.username == username && c.compare(password, r.value.passwordHash)
    ensures (forall i :: 0 <= i < |users| ==> users[i].username != username) ==> r.None?
  {
    match UserByName(users, username)
    case None => None
    case Some(u) => if c.compare(password, u.passwordHash) then Some(u) else None
  }

  /** With unique usernames, a login succeeds for exactly the user with that name and a matching password. */
  lemma AuthenticateUnique(c: Crypto, users: seq<User>, nextId: nat, i: nat, password: string)
    requires UniqueUsers(users, nextId) && i < |users|
    ensures Authenticate(c, users, users[i].username, password) == Some(users[i]) <==> c.compare(password, users[i].passwordHash)
  {
    UserByNameUnique(users, nextId, i);
  }

  /** The decision of POST /api/login: the response and, on success, the token to set. */
  function LoginResult(c: Crypto, users: seq<User>, online: bool, username: string, password: string, now: int): (r: (Response<Json>, Option<string>))
    ensures !online ==> r == (Response(500, Outcome(false, "Server error")), None)
    ensures online ==> match Authenticate(c, users, username, password)
                       case None => r == (Response(401, Outcome(false, "Invalid credentials")), None)
                       case Some(u) => r == (Response(200, Success(true)), Some(IssueToken(c, u.id, now)))
  {
    if !online then (Response(500, Outcome(false, "Server error")), None)
    else
      match Authenticate(c, users, username, password)
      case None => (Response(401, Outcome(false, "Invalid credentials")), None)
      case Some(u) => (Response(200, Success(true)), Some(IssueToken(c, u.id, now)))
  }

  /** The user a new registration inserts can log in with the password it registered, and the session names that user. */
  lemma LoginAfterRegister(c: Crypto, users: seq<User>, nextId: nat, u: User, password: string, salt: nat, now: int)
    requires Sound(c) && UniqueUsers(users, nextId) && !Taken(users, u.username, u.email)
    requires u.id == nextId && nextId > 0 && u.passwordHash == c.hash(password, salt)
    ensures LoginResult(c, users + [u], true, u.username, password, now) == (Response(200, Success(true)), Some(IssueToken(c, u.id, now)))
  {
    InsertKeepsUnique(users, nextId, u);
    AuthenticateUnique(c, users + [u], nextId + 1, |users|, password);
  }

  /** After a password is set to the hash of `password`, that user logs in with `password`. */
  lemma LoginAfterNewHash(c: Crypto, users: seq<User>, nextId: nat, cond: User -> bool, password: string, salt: nat, i: nat, now: int)
    requires Sound(c) && UniqueUsers(users, nextId) && i < |users| && cond(users[i])
    ensures LoginResult(c, SetHashWhere(users, cond, c.hash(password, salt)), true, users[i].username, password, now)
         == (Response(200, Success(true)), Some(IssueToken(c, users[i].id, now)))
  {
    var users' := SetHashWhere(users, cond, c.hash(password, salt));
    SetHashKeepsUnique(users, nextId, cond, c.hash(password, salt));
    AuthenticateUnique(c, users', nextId, i, password);
  }

  /** An unknown user and a wrong password give the same answer. */
  lemma FailedLoginsAlike(c: Crypto, users: seq<User>, nextId: nat, i: nat, wrong: string, unknown: string, now: int)
    requires UniqueUsers(users, nextId) && i < |users| && !c.compare(wrong, users[i].passwordHash)
    requires forall k :: 0 <= k < |users| ==> users[k].username != unknown
    ensures LoginResult(c, users, true, users[i].username, wrong, now) == LoginResult(c, users, true, unknown, "", now)
    ensures LoginResult(c, users, true, unknown, "", now).0 == Response(401, Outcome(false, "Invalid credentials"))
  {
    UserByNameUnique(users, nextId, i);
  }

  /** Selects the user rows with the given e-mail address. */
  function HasEmailAddress(email: string): User -> bool {
    (u: User) => u.email == email
  }

  /** Selects the user row with the given id. */
  function HasId(id: int): User -> bool {
    (u: User) => u.id == id
  }

  class Store {
    var users: seq<User>
    var otpCodes: seq<CodeRow>
    var resetOtps: seq<CodeRow>
    var nextId: nat
    var online: bool

    ghost predicate Valid()
      reads this
    {
      nextId > 0 && UniqueUsers(users, nextId)
    }

    constructor(online: bool)
      ensures Valid()
      ensures users == [] && otpCodes == [] && resetOtps == [] && nextId == 1 && this.online == online
    {
      users := [];
      otpCodes := [];
      resetOtps := [];
      nextId := 1;
      this.online := online;
    }

    /**
     * POST /api/register. The code is checked before the duplicate check;
     * on success one user is inserted with the hash of the password and
     * every registration code for the e-mail address is deleted.
     */
    method Register(c: Crypto, form: Registration, salt: nat, now: int) returns (r: Response<Json>)
      requires Valid()
      modifies this
      ensures Valid()
      ensures online == old(online) && resetOtps == old(resetOtps)
      ensures !online ==> r == Response(500, Outcome(false, "Server error")) && unchanged(this)
      ensures online && !HasLiveCode(old(otpCodes), form.email, form.otp, now) ==>
        r == Response(400, Outcome(false, "Invalid or expired OTP")) && unchanged(this)
      ensures online && HasLiveCode(old(otpCodes), form.email, form.otp, now) && Taken(old(users), form.username, form.email) ==>
        r == Response(400, Outcome(false, "Username or email already exists")) && unchanged(this)
      ensures online && HasLiveCode(old(otpCodes), form.email, form.otp, now) && !Taken(old(users), form.username, form.email) ==>
        && r == Response(201, Outcome(true, "User registered successfully"))
        && users == old(users) + [NewUser(old(nextId), form, c.hash(form.password, salt), now)]
        && nextId == old(nextId) + 1
        && otpCodes == WithoutEmail(old(otpCodes), form.email)
    {
      if !online {
        return Response(500, Outcome(false, "Server error"));
      }
      if !HasLiveCode(otpCodes, form.email, form.otp, now) {
        return Response(400, Outcome(false, "Invalid or expired OTP"));
      }
      if Taken(users, form.username, form.email) {
        return Response(400, Outcome(false, "Username or email already exists"));
      }
      var u := NewUser(nextId, form, c.hash(form.password, salt), now);
      InsertKeepsUnique(users, nextId, u);
      users := users + [u];
      nextId := nextId + 1;
      otpCodes := WithoutEmail(otpCodes, form.email);
      r := Response(201, Outcome(true, "User registered successfully"));
    }

    /**
     * POST /api/send-otp: any address gets a code. The row is inserted
     * before the mail goes out, so a failed send still leaves it stored.
     * `mail` is the message handed to the transporter, `mailOk` whether
     * sending succeeded.
     */
    method SendOtp(email: string, draw: nat, mailOk: bool, now: int) returns (r: Response<Json>, mail: Option<Mail>)
      requires draw < Span
      modifies this
      ensures users == old(users) && resetOtps == old(resetOtps) && nextId == old(nextId) && online == old(online)
      ensures !online ==> r == Response(500, Outcome(false, "Failed to send OTP")) && otpCodes == old(otpCodes) && mail.None?
      ensures online ==> otpCodes == old(otpCodes) + [CodeRow(email, GenerateOtp(draw), now + CodeLifetime)]
      ensures online ==> mail == Some(RegistrationMail(email, GenerateOtp(draw)))
      ensures online && mailOk ==> r == Response(200, Outcome(true, "OTP sent successfully"))
      ensures online && !mailOk ==> r == Response(500, Outcome(false, "Failed to send OTP"))
    {
      var code := GenerateOtp(draw);
      if !online {
        return Response(500, Outcome(false, "Failed to send OTP")), None;
      }
      otpCodes := otpCodes + [CodeRow(email, code, now + CodeLifetime)];
      mail := Some(RegistrationMail(email, code));
      if !mailOk {
        return Response(500, Outcome(false, "Failed to send OTP")), mail;
      }
      r := Response(200, Outcome(true, "OTP sent successfully"));
    }

    /**
     * POST /api/forgot-password. `template` is the mail template as read
     * from disk (`None` when the read fails); the row is stored before
     * the template is read.
     */
    method ForgotPassword(email: string, draw: nat, template: Option<string>, mailOk: bool, now: int) returns (r: Response<Json>, mail: Option<Mail>)
      requires draw < Span
      modifies this
      ensures users == old(users) && otpCodes == old(otpCodes) && nextId == old(nextId) && online == old(online)
      ensures !online ==> r == Response(500, Message("Failed to send OTP")) && resetOtps == old(resetOtps) && mail.None?
      ensures online && !HasEmail(users, email) ==> r == Response(404, Message("Email not found")) && resetOtps == old(resetOtps) && mail.None?
      ensures online && HasEmail(users, email) ==> resetOtps == old(resetOtps) + [CodeRow(email, GenerateOtp(draw), now + CodeLifetime)]
      ensures online && HasEmail(users, email) && template.None? ==> r == Response(500, Message("Failed to send OTP")) && mail.None?
      ensures online && HasEmail(users, email) && template.Some? ==>
        && mail == Some(ResetMail(email, template.value, GenerateOtp(draw)))
        && r == (if mailOk then Response(200, Message("OTP sent successfully")) else Response(500, Message("Failed to send OTP")))
    {
      if !online {
        return Response(500, Message("Failed to send OTP")), None;
      }
      if !HasEmail(users, email) {
        return Response(404, Message("Email not found")), None;
      }
      var code := GenerateOtp(draw);
      resetOtps := resetOtps + [CodeRow(email, code, now + CodeLifetime)];
      if template.None? {
        return Response(500, Message("Failed to send OTP")), None;
      }
      mail := Some(ResetMail(email, template.value, code));
      if !mailOk {
        return Response(500, Message("Failed to send OTP")), mail;
      }
      r := Response(200, Message("OTP sent successfully"));
    }

    /**
     * POST /api/reset-password: every user with the address gets the hash
     * of the new password, then every reset code for it is deleted.
     * Success does not depend on any user having that address.
     */
    method ResetPassword(c: Crypto, email: string, code: string, newPassword: string, salt: nat, now: int) returns (r: Response<Json>)
      requires Valid()
      modifies this
      ensures Valid()
      ensures otpCodes == old(otpCodes) && nextId == old(nextId) && online == old(online)
      ensures !online ==> r == Response(500, Message("Failed to reset password")) && unchanged(this)
      ensures online && !HasLiveCode(old(resetOtps), email, code, now) ==>
        r == Response(400, Message("Invalid or expired OTP")) && unchanged(this)
      ensures online && HasLiveCode(old(resetOtps), email, code, now) ==>
        && r == Response(200, Message("Password reset successfully"))
        && users == SetHashWhere(old(users), HasEmailAddress(email), c.hash(newPassword, salt))
        && resetOtps == WithoutEmail(old(resetOtps), email)
    {
      if !online {
        return Response(500, Message("Failed to reset password"));
      }
      if !HasLiveCode(resetOtps, email, code, now) {
        return Response(400, Message("Invalid or expired OTP"));
      }
      SetHashKeepsUnique(users, nextId, HasEmailAddress(email), c.hash(newPassword, salt));
      users := SetHashWhere(users, HasEmailAddress(email), c.hash(newPassword, salt));
      resetOtps := WithoutEmail(resetOtps, email);
      r := Response(200, Message("Password reset successfully"));
    }

    /**
     * POST /api/change-password. A token that fails to verify lands in the
     * general error path, so it answers 500 rather than 401.
     */
    method ChangePassword(c: Crypto, token: Option<string>, currentPassword: string, newPassword: string, salt: nat, now: int) returns (r: Response<Json>)
      requires Valid()
      modifies this
      ensures Valid()
      ensures otpCodes == old(otpCodes) && resetOtps == old(resetOtps) && nextId == old(nextId) && online == old(online)
      ensures token.None? ==> r == Response(401, Failure("Not authenticated")) && unchanged(this)
      ensures token.Some? && (Verify(c, token.value, now).None? || !online) ==>
        r == Response(500, Failure("An unexpected error occurred while changing the password")) && unchanged(this)
      ensures token.Some? && online && Verify(c, token.value, now).Some? ==>
        var id := Verify(c, token.value, now).value.userId;
        match UserById(old(users), id)
        case None => r == Response(404, Failure("User not found")) && unchanged(this)
        case Some(u) =>
          if !c.compare(currentPassword, u.passwordHash) then
            r == Response(400, Failure("Current password is incorrect")) && unchanged(this)
          else
            r == Response(200, Message("Password changed successfully"))
            && users == SetHashWhere(old(users), HasId(id), c.hash(newPassword, salt))
    {
      if token.None? {
        return Response(401, Failure("Not authenticated"));
      }
      var claims := Verify(c, token.value, now);
      if claims.None? || !online {
        return Response(500, Failure("An unexpected error occurred while changing the password"));
      }
      var id := claims.value.userId;
      var found := UserById(users, id);
      if found.None? {
        return Response(404, Failure("User not found"));
      }
      if !c.compare(currentPassword, found.value.passwordHash) {
        return Response(400, Failure("Current password is incorrect"));
      }
      SetHashKeepsUnique(users, nextId, HasId(id), c.hash(newPassword, salt));
      users := SetHashWhere(users, HasId(id), c.hash(newPassword, salt));
      r := Response(200, Message("Password changed successfully"));
    }

    /**
     * POST /api/login: only reads `users`. On success the response sets
     * the session cookie; on every failure it sets none.
     */
    method Login(c: Crypto, username: string, password: string, production: bool, now: int) returns (r: Response<Json>, jar: CookieJar)
      ensures fresh(jar)
      ensures r == LoginResult(c, users, online, username, password, now).0
      ensures match LoginResult(c, users, online, username, password, now).1
              case None => jar.cookies == map[]
              case Some(token) => jar.cookies == map[CookieName := SessionCookie(token, production, now)]
    {
      var result := LoginResult(c, users, online, username, password, now);
      jar := new CookieJar();
      if result.1.Some? {
        jar.Set(CookieName, SessionCookie(result.1.value, production, now));
      }
      r := result.0;
    }
  }

  /** With unique ids, changing one user's password leaves every other row exactly as it was. */
  lemma ChangeTouchesOneUser(users: seq<User>, nextId: nat, i: nat, hash: string, j: nat)
    requires UniqueUsers(users, nextId) && i < |users| && j < |users| && j != i
    ensures SetHashWhere(users, HasId(users[i].id), hash)[j] == users[j]
    ensures SetHashWhere(users, HasId(users[i].id), hash)[i] == users[i].(passwordHash := hash)
  {
    assert users[j].id != users[i].id by {
      if j < i {
        assert users[j].id != users[i].id;
      }
    }
  }
}
