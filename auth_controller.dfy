/** The authentication handlers: password registration, login, logout,
    federated sign-in/sign-up and e-mail verification. Each answers with a
    status and a message and changes at most one user document. Per
    account, `verified` goes from false to true through `VerifyEmail`. */
module AuthController {
  import opened Basics
  import opened UserSchema
  import opened Database
  import opened Http
  import opened Tokens
  import Crypto
  import Text

  /** The notification flags a request may send; a missing flag (or a
      missing object) falls back to true. */
  datatype NotificationInput = NotificationInput(newAnswers: Option<bool>, upvotes: Option<bool>, badges: Option<bool>)

  /** The profile fields a sign-up request may carry. */
  datatype SignupBody = SignupBody(
    username: Option<string>, email: Option<string>, password: Option<string>, gender: Option<string>,
    bio: Option<string>, avatar: Option<string>, role: Option<string>,
    notificationPreferences: Option<NotificationInput>, preferredCategories: Option<seq<string>>,
    classGrade: Option<string>, schoolName: Option<string>)

  datatype LoginBody = LoginBody(email: Option<string>, username: Option<string>, password: Option<string>)

  const UserExists: string := "User already exists"
  const UsernameUnavailable: string := "Username not available"
  const RegistrationDone: string := "Registration successful, please verify your email."
  const ServerError: string := "Internal Server Error"
  const UserNotFound: string := "User not found"
  const InvalidCredentials: string := "Invalid credentials"
  const LoginDone: string := "Login successful"
  const FieldsRequired: string := "All required fields must be provided"
  const CredentialAccountExists: string := "Illegal parameters: User already exists as a credential account"
  const FederatedCreated: string := "User created and login successful"
  const NoToken: string := "We couldn't find your token"
  const AccountNotFound: string := "Hmm, we couldn't find your account. Are you sure you're using the correct email?"
  const AlreadyVerified: string := "Great news! Your email is already verified. You can log in and start exploring."
  const LoginFailed: string := "Server error"
  const SignupFailed: string := "Server error. Please try again later."
  const VerificationFailed: string :=
    "Something went wrong while verifying your email. Please try again or contact support if the issue persists."

  const WelcomeOpening: string := "\U{1F389} Welcome aboard, "
  const WelcomeClosing: string := "! Your email has been verified successfully. You can now log in and enjoy the full experience."

  /** The greeting of a successful verification; an empty username is
      falsy and replaced by "user". */
  function VerifiedGreeting(username: string): string {
    WelcomeOpening + (if username != "" then username else "user") + WelcomeClosing
  }

  function NotificationsFrom(n: Option<NotificationInput>): (r: Notifications)
    ensures n.None? ==> r == DefaultNotifications
    ensures n.Some? ==>
              r.newAnswers == n.value.newAnswers.GetOr(true)
              && r.upvotes == n.value.upvotes.GetOr(true) && r.badges == n.value.badges.GetOr(true)
  {
    match n
    case None => DefaultNotifications
    case Some(i) => Notifications(i.newAnswers.GetOr(true), i.upvotes.GetOr(true), i.badges.GetOr(true))
  }

  /** The document `registerUser` builds: role `student` unless a truthy
      role is sent, an empty preference list unless one is sent, not
      verified, a password account. Username, e-mail, class and school go
      through their `trim` setters; the plain password is hashed on save. */
  function CredentialAccountFor(b: SignupBody): (u: User)
    ensures !u.verified && !u.credentialAccount && u.lastLogin.None? && u.gender.None?
    ensures u.password == b.password
    ensures !Present(b.role) ==> u.role == DefaultRole
    ensures b.notificationPreferences.None? ==> u.notifications == DefaultNotifications
    ensures b.preferredCategories.None? ==> u.preferredCategories == []
    ensures SettersApplied(u)
    ensures Present(b.email) ==> u.email == Text.Trim(b.email.value)
    ensures Present(b.username) ==> u.username == Text.Trim(b.username.value)
  {
    User(Text.Trim(OrEmpty(b.username)), Text.Trim(OrEmpty(b.email)), b.password, None, b.bio, b.avatar.GetOr(DefaultAvatar),
         TrimOpt(b.classGrade), TrimOpt(b.schoolName), if Present(b.role) then b.role.value else DefaultRole,
         false, false, None, NotificationsFrom(b.notificationPreferences), b.preferredCategories.GetOr([]))
  }

  /** The document `authRegister` builds: no password, marked
      `credentialAccount: true`, not verified; a missing role falls back to
      `student` and missing preferences to the schema default. The `trim`
      setters run as for `registerUser`. */
  function FederatedAccountFor(b: SignupBody): (u: User)
    ensures u.credentialAccount && !u.verified && u.password.None? && u.lastLogin.None?
    ensures b.role.None? ==> u.role == DefaultRole
    ensures b.preferredCategories.None? ==> u.preferredCategories == DefaultPreferredCategories
    ensures b.notificationPreferences.None? ==> u.notifications == DefaultNotifications
    ensures SettersApplied(u)
    ensures Present(b.email) ==> u.email == Text.Trim(b.email.value)
    ensures Present(b.username) ==> u.username == Text.Trim(b.username.value)
  {
    User(Text.Trim(OrEmpty(b.username)), Text.Trim(OrEmpty(b.email)), None, b.gender, b.bio, b.avatar.GetOr(DefaultAvatar),
         TrimOpt(b.classGrade), TrimOpt(b.schoolName), b.role.GetOr(DefaultRole), false, true, None,
         NotificationsFrom(b.notificationPreferences), b.preferredCategories.GetOr(DefaultPreferredCategories))
  }

  /** `User.findOne({ email })` finds a document (an absent e-mail matches
      none). The filter value is cast, so it goes through the `trim` setter. */
  predicate EmailTaken(users: map<Id, User>, email: Option<string>) {
    email.Some? && exists k :: k in users && users[k].email == Text.Trim(email.value)
  }

  /** `User.findOne({ username })`: exact, case-sensitive equality with the
      trimmed value. */
  predicate UsernameTaken(users: map<Id, User>, username: Option<string>) {
    username.Some? && exists k :: k in users && users[k].username == Text.Trim(username.value)
  }

  /** The session token `registerUser` and `loginUser` issue: one day, with
      the id, role and username. */
  function SessionToken(secret: string, id: Id, u: User, nowMs: nat): (t: Jwt)
    ensures t.claims == Claims(id, Some(u.role), Some(u.username))
    ensures t.exp == Seconds(nowMs) + OneDay
  {
    Sign(secret, Claims(id, Some(u.role), Some(u.username)), nowMs, OneDay)
  }

  /** The token `authRegister` issues: twelve hours, with the id and role only. */
  function FederatedToken(secret: string, id: Id, u: User, nowMs: nat): (t: Jwt)
    ensures t.claims == Claims(id, Some(u.role), None)
    ensures t.exp == Seconds(nowMs) + TwelveHours
  {
    Sign(secret, Claims(id, Some(u.role), None), nowMs, TwelveHours)
  }

  function VerificationMailFor(secret: string, id: Id, u: User, nowMs: nat): Mail {
    VerificationMail(id, u.email, Sign(secret, Claims(id, None, None), nowMs, OneHour))
  }

  /** `registerUser`: the e-mail is checked first, then the username, then
      the document is validated and saved; a session cookie is set, the
      verification e-mail is sent and the user is returned without its
      password. `id` is the ObjectId the store assigns to the new document. */
  method RegisterUser(s: Store, b: SignupBody, secret: string, nowMs: nat, id: Id) returns (r: Reply)
    requires s.Valid() && id !in s.users
    modifies s
    ensures s.Valid()
    ensures s.questions == old(s.questions) && s.questionOrder == old(s.questionOrder)
    ensures s.categories == old(s.categories)
    ensures EmailTaken(old(s.users), b.email) ==> r == Message(400, UserExists)
    ensures !EmailTaken(old(s.users), b.email) && UsernameTaken(old(s.users), b.username) ==>
              r == Message(400, UsernameUnavailable)
    ensures r.status == 201 <==>
              !EmailTaken(old(s.users), b.email) && !UsernameTaken(old(s.users), b.username)
              && ValidUser(CredentialAccountFor(b))
    ensures r.status == 201 ==>
              var u := PreSave(CredentialAccountFor(b), true);
              && s.users == old(s.users)[id := u]
              && u.password == Some(Crypto.Hash(b.password.value))
              && u.username == Text.Trim(b.username.value) && u.email == Text.Trim(b.email.value)
              && r.body == Registered(Registration(id, u))
              && r.cookie == SetSession(SessionToken(secret, id, u, nowMs))
              && s.outbox == old(s.outbox) + [VerificationMailFor(secret, id, u, nowMs)]
    ensures r.status != 201 ==> s.users == old(s.users) && s.outbox == old(s.outbox) && r.cookie == KeepCookie
    ensures !EmailTaken(old(s.users), b.email) && !UsernameTaken(old(s.users), b.username) && r.status != 201 ==>
              r == Message(500, ServerError)
    ensures r.status == 201 || r.status == 400 || r.status == 500
  {
    if EmailTaken(s.users, b.email) {
      return Message(400, UserExists);
    }
    if UsernameTaken(s.users, b.username) {
      return Message(400, UsernameUnavailable);
    }
    var doc := CredentialAccountFor(b);
    assert ValidUser(doc) ==> !ClashesWithOther(s.users, id, doc);
    var err := s.SaveUser(id, doc, true);
    if err.Some? {
      return Message(500, ServerError);
    }
    var u := s.users[id];
    s.SendVerificationEmail(id, u.email, secret, nowMs);
    r := Reply(201, RegistrationDone, Registered(Registration(id, u)), SetSession(SessionToken(secret, id, u, nowMs)));
  }

  /** The account a login request names, by e-mail or by username (both
      filter values trimmed by the cast). */
  predicate LoginMatches(u: User, b: LoginBody) {
    || (b.email.Some? && u.email == Text.Trim(b.email.value))
    || (b.username.Some? && u.username == Text.Trim(b.username.value))
  }

  /** `k` is the only account a login request names. */
  predicate OnlyMatch(users: map<Id, User>, b: LoginBody, k: Id) {
    && k in users && LoginMatches(users[k], b)
    && forall j :: j in users && LoginMatches(users[j], b) ==> j == k
  }

  /** `loginUser`: look the account up by e-mail or username, compare the
      password with bcrypt (for every account, federated ones included:
      comparing against a missing hash throws), then record the login time
      and issue a one-day session token. */
  method LoginUser(s: Store, b: LoginBody, secret: string, nowMs: nat) returns (r: Reply)
    requires s.Valid()
    modifies s
    ensures s.Valid()
    ensures s.questions == old(s.questions) && s.questionOrder == old(s.questionOrder)
    ensures s.categories == old(s.categories) && s.outbox == old(s.outbox)
    ensures (forall k :: k in old(s.users) ==> !LoginMatches(old(s.users)[k], b)) ==> r == Message(404, UserNotFound)
    ensures r.status != 200 ==> s.users == old(s.users) && r.cookie == KeepCookie
    ensures r.status == 401 ==>
              exists k :: k in old(s.users) && LoginMatches(old(s.users)[k], b)
                && b.password.Some? && old(s.users)[k].password.Some?
                && !Crypto.Compare(b.password.value, old(s.users)[k].password.value)
    ensures r.status == 200 ==>
              exists k :: k in old(s.users) && LoginMatches(old(s.users)[k], b)
                && b.password.Some? && old(s.users)[k].password.Some?
                && Crypto.Compare(b.password.value, old(s.users)[k].password.value)
                && s.users == old(s.users)[k := old(s.users)[k].(lastLogin := Some(nowMs))]
                && r.body == LoggedIn(nowMs)
                && r.cookie == SetSession(SessionToken(secret, k, old(s.users)[k], nowMs))
    ensures ((exists k :: k in old(s.users) && LoginMatches(old(s.users)[k], b))
             && (b.password.None? || forall k :: k in old(s.users) && LoginMatches(old(s.users)[k], b) ==> old(s.users)[k].password.None?))
            ==> r == Message(500, LoginFailed)
    ensures (exists k :: k in old(s.users) && LoginMatches(old(s.users)[k], b)) ==> r.status != 404
    ensures forall k :: OnlyMatch(old(s.users), b, k) ==>
              var u := old(s.users)[k];
              if b.password.None? || u.password.None? then r == Message(500, LoginFailed)
              else if !Crypto.Compare(b.password.value, u.password.value) then r == Message(401, InvalidCredentials)
              else && r == Reply(200, LoginDone, LoggedIn(nowMs), SetSession(SessionToken(secret, k, u, nowMs)))
                   && s.users == old(s.users)[k := u.(lastLogin := Some(nowMs))]
    ensures r.status == 200 || r.status == 401 || r.status == 404 || r.status == 500
  {
    if !exists k :: k in s.users && LoginMatches(s.users[k], b) {
      return Message(404, UserNotFound);
    }
    var k :| k in s.users && LoginMatches(s.users[k], b);
    r := Authenticate(s, b, k, secret, nowMs);
  }

  /** The part of `loginUser` after the lookup found account `k`: the
      password comparison, then the login bookkeeping and the cookie. */
  method Authenticate(s: Store, b: LoginBody, k: Id, secret: string, nowMs: nat) returns (r: Reply)
    requires s.Valid() && k in s.users
    modifies s
    ensures s.Valid()
    ensures s.questions == old(s.questions) && s.questionOrder == old(s.questionOrder)
    ensures s.categories == old(s.categories) && s.outbox == old(s.outbox)
    ensures var u := old(s.users)[k];
            if b.password.None? || u.password.None? then r == Message(500, LoginFailed) && s.users == old(s.users)
            else if !Crypto.Compare(b.password.value, u.password.value) then
              r == Message(401, InvalidCredentials) && s.users == old(s.users)
            else && r == Reply(200, LoginDone, LoggedIn(nowMs), SetSession(SessionToken(secret, k, u, nowMs)))
                 && s.users == old(s.users)[k := u.(lastLogin := Some(nowMs))]
  {
    var u := s.users[k];
    if b.password.None? || u.password.None? {
      return Message(500, LoginFailed);
    }
    if !Crypto.Compare(b.password.value, u.password.value) {
      return Message(401, InvalidCredentials);
    }
    Crypto.HashNonEmpty(b.password.value);
    RecordLogin(s, k, nowMs);
    r := Reply(200, LoginDone, LoggedIn(nowMs), SetSession(SessionToken(secret, k, u, nowMs)));
  }

  /** The bookkeeping of a successful login: `lastLogin` is set and the
      document saved; this save cannot fail, since the unique keys are
      unchanged and the password requirement holds. */
  method RecordLogin(s: Store, k: Id, nowMs: nat)
    requires s.Valid() && k in s.users && PasswordPresentIfRequired(s.users[k])
    modifies s
    ensures s.Valid()
    ensures s.users == old(s.users)[k := old(s.users)[k].(lastLogin := Some(nowMs))]
    ensures s.questions == old(s.questions) && s.questionOrder == old(s.questionOrder)
    ensures s.categories == old(s.categories) && s.outbox == old(s.outbox)
  {
    var u := s.users[k];
    var updated := u.(lastLogin := Some(nowMs));
    assert PathsValid(u);
    AccountKeysIdentify(s.users, k);
    var err := s.SaveUser(k, updated, false);
  }

  /** `logout`: clears the cookie and greets the caller by role. The token
      itself stays valid until it expires. */
  function Logout(caller: Claims): (r: Reply)
    ensures r.status == 200 && r.cookie == ClearSession && r.body == NoBody
    ensures caller.role.Some? ==> r.message == "Successfully logged out, " + caller.role.value
  {
    Reply(200, "Successfully logged out, " + caller.role.GetOr("undefined"), NoBody, ClearSession)
  }

  /** Logging out does not revoke the token: the same cookie verifies to
      the same claims at any later time before its expiry. */
  lemma LogoutDoesNotRevoke(secret: string, t: Jwt, nowMs: nat, laterMs: nat)
    requires Verify(secret, Token(t), nowMs).Ok?
    requires nowMs <= laterMs && Seconds(laterMs) < t.exp
    ensures Logout(Verify(secret, Token(t), nowMs).value).cookie == ClearSession
    ensures Verify(secret, Token(t), laterMs) == Verify(secret, Token(t), nowMs)
  {
  }

  /** A federated sign-up sending only a username that is more than white
      space and a well-formed e-mail builds a document the schema accepts:
      its defaults (role, avatar, preferred categories) are all admissible. */
  lemma MinimalFederatedSignupAccepted(b: SignupBody)
    requires Present(b.username) && Text.Trim(b.username.value) != ""
    requires Present(b.email) && ValidEmail(b.email.value)
    requires b.gender.None? && b.bio.None? && b.role.None? && b.preferredCategories.None?
    ensures ValidUser(FederatedAccountFor(b))
    ensures FederatedAccountFor(b).preferredCategories == DefaultPreferredCategories
  {
    var u := FederatedAccountFor(b);
    ValidEmailIsTrimmed(b.email.value);
    forall c | c in u.preferredCategories ensures c in Subjects {
      assert u.preferredCategories == ["Mathematics", "English Language"];
    }
  }

  /** `authRegister`: sign-in or sign-up from a federated identity. An
      existing account with `credentialAccount` set is refused; any other
      existing account is logged in without a password; otherwise a new
      account marked `credentialAccount: true` (the flag is set the other
      way round from its name) is created. Tokens last twelve hours and
      carry no username. */
  method AuthRegister(s: Store, b: SignupBody, secret: string, nowMs: nat, id: Id) returns (r: Reply)
    requires s.Valid() && id !in s.users
    modifies s
    ensures s.Valid()
    ensures s.questions == old(s.questions) && s.questionOrder == old(s.questionOrder)
    ensures s.categories == old(s.categories)
    ensures !Present(b.email) ==> r == Message(400, FieldsRequired)
    ensures Present(b.email) ==>
              forall k :: k in old(s.users) && old(s.users)[k].email == Text.Trim(b.email.value) ==>
                if old(s.users)[k].credentialAccount then r == Message(400, CredentialAccountExists)
                else r == Reply(200, LoginDone, NoBody, SetSession(FederatedToken(secret, k, old(s.users)[k], nowMs)))
    ensures r.status == 201 <==>
              Present(b.email) && !EmailTaken(old(s.users), b.email)
              && ValidUser(FederatedAccountFor(b)) && !ClashesWithOther(old(s.users), id, FederatedAccountFor(b))
    ensures r.status == 201 ==>
              var u := FederatedAccountFor(b);
              && s.users == old(s.users)[id := u]
              && r == Reply(201, FederatedCreated, NoBody, SetSession(FederatedToken(secret, id, u, nowMs)))
              && s.outbox == old(s.outbox) + [VerificationMailFor(secret, id, u, nowMs)]
    ensures r.status != 201 ==> s.users == old(s.users) && s.outbox == old(s.outbox)
    ensures Present(b.email) && !EmailTaken(old(s.users), b.email) && r.status != 201 ==> r == Message(500, SignupFailed)
    ensures r.status == 200 || r.status == 201 || r.status == 400 || r.status == 500
  {
    if !Present(b.email) {
      return Message(400, FieldsRequired);
    }
    if EmailTaken(s.users, b.email) {
      var k :| k in s.users && s.users[k].email == Text.Trim(b.email.value);
      AccountKeysIdentify(s.users, k);
      var existing := s.users[k];
      if existing.credentialAccount {
        return Message(400, CredentialAccountExists);
      }
      return Reply(200, LoginDone, NoBody, SetSession(FederatedToken(secret, k, existing, nowMs)));
    }
    var doc := FederatedAccountFor(b);
    var err := s.SaveUser(id, doc, true);
    if err.Some? {
      return Message(500, SignupFailed);
    }
    s.SendVerificationEmail(id, doc.email, secret, nowMs);
    r := Reply(201, FederatedCreated, NoBody, SetSession(FederatedToken(secret, id, doc, nowMs)));
  }

  /** `verifyEmail`: the account is taken from the session cookie (the token
      in the verification link is not consulted). A missing cookie is a
      400, a token that fails to verify a 500, an unknown id a 404 and an
      already verified account a 400; otherwise only `verified` is set and
      the document saved. */
  method VerifyEmail(s: Store, cookie: Option<Cookie>, secret: string, nowMs: nat) returns (r: Reply)
    requires s.Valid()
    modifies s
    ensures s.Valid()
    ensures s.questions == old(s.questions) && s.questionOrder == old(s.questionOrder)
    ensures s.categories == old(s.categories) && s.outbox == old(s.outbox)
    ensures cookie.None? ==> r == Message(400, NoToken)
    ensures cookie.Some? && Verify(secret, cookie.value, nowMs).Err? ==> r == Message(500, VerificationFailed)
    ensures cookie.Some? && Verify(secret, cookie.value, nowMs).Ok? ==>
              var id := Verify(secret, cookie.value, nowMs).value.id;
              && (id !in old(s.users) ==> r == Message(404, AccountNotFound))
              && (id in old(s.users) && old(s.users)[id].verified ==> r == Message(400, AlreadyVerified))
              && (id in old(s.users) && !old(s.users)[id].verified ==>
                    (r.status == 200 <==> PasswordPresentIfRequired(old(s.users)[id]))
                    && (r.status == 200 ==> s.users == old(s.users)[id := old(s.users)[id].(verified := true)]
                                            && r == Message(200, VerifiedGreeting(old(s.users)[id].username)))
                    && (!PasswordPresentIfRequired(old(s.users)[id]) ==> r == Message(500, VerificationFailed)))
    ensures r.status != 200 ==> s.users == old(s.users)
    ensures r.status == 200 || r.status == 400 || r.status == 404 || r.status == 500
  {
    if cookie.None? {
      return Message(400, NoToken);
    }
    var decoded := Verify(secret, cookie.value, nowMs);
    if decoded.Err? {
      return Message(500, VerificationFailed);
    }
    var id := decoded.value.id;
    if id !in s.users {
      return Message(404, AccountNotFound);
    }
    var u := s.users[id];
    if u.verified {
      return Message(400, AlreadyVerified);
    }
    r := MarkVerified(s, id);
  }

  /** The end of `verifyEmail` for an unverified account: `verified` is set
      and the document saved with full validation, which fails (500) only
      when the account lacks the password the schema requires of it. */
  method MarkVerified(s: Store, id: Id) returns (r: Reply)
    requires s.Valid() && id in s.users && !s.users[id].verified
    modifies s
    ensures s.Valid()
    ensures s.questions == old(s.questions) && s.questionOrder == old(s.questionOrder)
    ensures s.categories == old(s.categories) && s.outbox == old(s.outbox)
    ensures var u := old(s.users)[id];
            if PasswordPresentIfRequired(u)
            then r == Message(200, VerifiedGreeting(u.username)) && s.users == old(s.users)[id := u.(verified := true)]
            else r == Message(500, VerificationFailed) && s.users == old(s.users)
  {
    var u := s.users[id];
    var updated := u.(verified := true);
    assert !ClashesWithOther(s.users, id, updated) by {
      forall j | j in s.users && j != id ensures !SharesUniqueKey(s.users[j], updated) {
        assert !SharesUniqueKey(s.users[j], u);
      }
    }
    var err := s.SaveUser(id, updated, false);
    if err.Some? {
      return Message(500, VerificationFailed);
    }
    r := Message(200, VerifiedGreeting(u.username));
  }

  /** Registering and then verifying with the cookie the registration set
      succeeds once; a second verification finds the account verified. */
  method RegisterThenVerifyTwice(s: Store, b: SignupBody, secret: string, nowMs: nat, id: Id)
    returns (registered: Reply, first: Reply, second: Reply)
    requires s.Valid() && id !in s.users
    modifies s
    ensures s.Valid()
    ensures registered.status == 201 ==> first.status == 200 && second == Message(400, AlreadyVerified)
    ensures registered.status == 201 ==> id in s.users && s.users[id].verified
  {
    registered := RegisterUser(s, b, secret, nowMs, id);
    if registered.status != 201 {
      return registered, registered, registered;
    }
    var cookie := Some(Token(registered.cookie.token));
    SignVerify(secret, Claims(id, Some(s.users[id].role), Some(s.users[id].username)), nowMs, OneDay, nowMs);
    first := VerifyEmail(s, cookie, secret, nowMs);
    second := VerifyEmail(s, cookie, secret, nowMs);
  }

  /** Two values of a unique path that the trim setter makes equal. */
  predicate SameKey(x: Option<string>, y: Option<string>) {
    x == y || (x.Some? && y.Some? && Text.Trim(x.value) == Text.Trim(y.value))
  }

  /** Two registrations with the same e-mail or the same username cannot
      both succeed, even when one of them pads the value with white space. */
  method RegisterTwice(s: Store, b: SignupBody, c: SignupBody, secret: string, nowMs: nat, id1: Id, id2: Id)
    returns (first: Reply, second: Reply)
    requires s.Valid() && id1 !in s.users && id2 !in s.users && id1 != id2
    requires SameKey(b.email, c.email) || SameKey(b.username, c.username)
    modifies s
    ensures s.Valid()
    ensures first.status == 201 ==> second.status == 400
  {
    first := RegisterUser(s, b, secret, nowMs, id1);
    if first.status == 201 {
      var u := s.users[id1];
      assert u.email == Text.Trim(b.email.value) && u.username == Text.Trim(b.username.value);
      if SameKey(b.email, c.email) {
        assert EmailTaken(s.users, c.email);
      } else {
        assert UsernameTaken(s.users, c.username);
      }
    }
    second := RegisterUser(s, c, secret, nowMs, id2);
  }
}
