/** The profile handlers: reading one's own profile and another user's
    public profile, changing the password, changing a role and updating
    the remaining profile fields. */
module UserController {
  import opened Basics
  import opened Text
  import opened UserSchema
  import opened QuestionSchema
  import opened Ordering
  import opened Database
  import opened Http
  import Tokens
  import Crypto

  const ProfileFetched: string := "User and questions fetched successfully"
  const OwnProfileFetched: string := "User profile and questions fetched successfully"
  const UserNotFound: string := "User not found"
  const OldPasswordMismatch: string := "Old password does not match"
  const SamePassword: string := "New password cannot be the same as the old one"
  const PasswordUpdateFailed: string := "Failed to update password"
  const PasswordUpdated: string := "Password successfully updated"
  const InvalidRole: string := "Invalid role provided"
  const NoRolePermission: string := "You don't have permission to update roles"
  const RoleUpdated: string := "User role updated successfully"
  const SensitiveFields: string := "Updating role or password is not allowed via this endpoint"
  const InvalidGender: string := "Invalid gender value"
  const InvalidEmail: string := "Invalid email format"
  const EmailExists: string := "Email already exists"
  const UsernameExists: string := "Username already exists"
  const NoFields: string := "No valid fields to update"
  const InfoUpdateFailed: string := "Failed to update user info"
  const InfoUpdated: string := "User info updated successfully"

  // ---------------------------------------------------------------------
  // The question lists of the two profile reads

  /** The value a question document holds at a query path: its own scalar
      fields, and nothing under `user`, which holds an id and not an
      embedded user. */
  function StoredPathValue(q: Question, path: string): (v: Option<string>)
    ensures path == "user.username" ==> v.None?
    ensures path == "subject" ==> v == Some(q.subject)
  {
    if path == "content" then Some(q.content)
    else if path == "subject" then Some(q.subject)
    else if path == "user" then Some(q.user)
    else None
  }

  /** The filter `{ "user.username": name }` the profile reads send. */
  function ByUserUsernamePath(name: string): Question -> bool {
    (q: Question) => StoredPathValue(q, "user.username") == Some(name)
  }

  /** The profile question list as the query is written, oldest first. */
  function QuestionsAsQueried(qs: map<Id, Question>, order: seq<Id>, name: string): seq<Question> {
    Query(qs, order, ByUserUsernamePath(name), OldestFirst)
  }

  /** The filter the profile reads evidently intend: questions whose owner
      has this username. */
  function OwnedBy(users: map<Id, User>, name: string): Question -> bool {
    (q: Question) => q.user in users && users[q.user].username == name
  }

  /** The intended profile question list: the user's questions, oldest first. */
  function QuestionsOf(users: map<Id, User>, qs: map<Id, Question>, order: seq<Id>, name: string): seq<Question> {
    Query(qs, order, OwnedBy(users, name), OldestFirst)
  }

  lemma {:induction false} WhereNothing(s: seq<Question>, keep: Question -> bool)
    requires forall q :: !keep(q)
    ensures Where(s, keep) == []
  {
    if s != [] {
      WhereNothing(s[1..], keep);
    }
  }

  /** As written the filter names a path no question document has, so the
      profile question list is empty whatever the user has posted. */
  lemma QueriedListAlwaysEmpty(s: Store, name: string)
    ensures QuestionsAsQueried(s.questions, s.questionOrder, name) == []
  {
    WhereNothing(Listing(s.questions, s.questionOrder), ByUserUsernamePath(name));
  }

  /** A user who has posted a question: the intended list shows it, the
      query as written does not. */
  lemma QueriedListMissesOwnQuestion()
    ensures var u := User("ada", "ada@school.ng", Some("$2b$10$pw"), None, None, DefaultAvatar, None, None,
                          DefaultRole, true, false, None, DefaultNotifications, []);
            var q := Question("q1", "What is a prime?", "Mathematics", [], "u1", 5);
            && QuestionsOf(map["u1" := u], map["q1" := q], ["q1"], "ada") == [q]
            && QuestionsAsQueried(map["q1" := q], ["q1"], "ada") == []
  {
    var u := User("ada", "ada@school.ng", Some("$2b$10$pw"), None, None, DefaultAvatar, None, None,
                  DefaultRole, true, false, None, DefaultNotifications, []);
    var q := Question("q1", "What is a prime?", "Mathematics", [], "u1", 5);
    assert Listing(map["q1" := q], ["q1"]) == [q];
    assert Where([q], OwnedBy(map["u1" := u], "ada")) == [q];
    assert Where([q], ByUserUsernamePath("ada")) == [];
    assert Sort(OldestFirst, [q]) == Insert(OldestFirst, q, Sort(OldestFirst, []));
  }

  /** The intended list holds exactly the stored questions of the users with
      this username, each once, oldest first. */
  lemma QuestionsOfExact(s: Store, name: string)
    requires s.Valid()
    ensures var r := QuestionsOf(s.users, s.questions, s.questionOrder, name);
            && (forall q :: q in r <==>
                  q.id in s.questions && s.questions[q.id] == q && q.user in s.users && s.users[q.user].username == name)
            && Sorted(OldestFirst, r)
            && Distinct(r)
  {
    QueryExact(s.questions, s.questionOrder, OwnedBy(s.users, name), OldestFirst);
  }

  // ---------------------------------------------------------------------
  // Reads

  /** `getUserProfile`: the caller's document without its password, and
      the caller's questions. */
  function GetUserProfile(s: Store, caller: Tokens.Claims): (r: Reply)
    reads s
    ensures caller.id !in s.users ==> r == Message(404, UserNotFound)
    ensures caller.id in s.users ==>
              && r.status == 200 && r.cookie == KeepCookie
              && r.body.OwnProfile?
              && r.body.profile == Profile(caller.id, s.users[caller.id])
              && r.body.ownQuestions == QuestionsOf(s.users, s.questions, s.questionOrder, s.users[caller.id].username)
  {
    if caller.id !in s.users then Message(404, UserNotFound)
    else
      var u := s.users[caller.id];
      Reply(200, OwnProfileFetched, OwnProfile(Profile(caller.id, u), QuestionsOf(s.users, s.questions, s.questionOrder, u.username)),
            KeepCookie)
  }

  /** `getUser`: the public projection of the account whose username is
      the path parameter after the `trim` setter (Mongoose casts the
      `findOne` filter through it), and that account's questions. */
  method GetUser(s: Store, username: string) returns (r: Reply)
    requires s.Valid()
    ensures (forall k :: k in s.users ==> s.users[k].username != Trim(username)) ==> r == Message(404, UserNotFound)
    ensures forall k :: k in s.users && s.users[k].username == Trim(username) ==>
              r == Reply(200, ProfileFetched,
                         UserProfile(Public(k, s.users[k]),
                                     QuestionsOf(s.users, s.questions, s.questionOrder, s.users[k].username)),
                         KeepCookie)
  {
    var name := Trim(username);
    if !exists k :: k in s.users && s.users[k].username == name {
      return Message(404, UserNotFound);
    }
    var k :| k in s.users && s.users[k].username == name;
    AccountKeysIdentify(s.users, k);
    r := Reply(200, ProfileFetched,
               UserProfile(Public(k, s.users[k]), QuestionsOf(s.users, s.questions, s.questionOrder, s.users[k].username)),
               KeepCookie);
  }

  // ---------------------------------------------------------------------
  // Password and role

  /** `updatePassword`: the old password must match the stored hash and
      differ from the new one; the new hash is written by an update (no
      validators, no hook). Comparing against an account without a
      password, or hashing a missing new password, throws. */
  method UpdatePassword(s: Store, caller: Tokens.Claims, oldPassword: Option<string>, newPassword: Option<string>)
    returns (r: Reply)
    requires s.Valid()
    modifies s
    ensures s.Valid()
    ensures s.questions == old(s.questions) && s.questionOrder == old(s.questionOrder)
    ensures s.categories == old(s.categories) && s.outbox == old(s.outbox)
    ensures caller.id !in old(s.users) ==> r == Message(404, UserNotFound)
    ensures caller.id in old(s.users) ==>
              var u := old(s.users)[caller.id];
              if oldPassword.None? || u.password.None? then r == Message(500, PasswordUpdateFailed)
              else if !Crypto.Compare(oldPassword.value, u.password.value) then r == Message(400, OldPasswordMismatch)
              else if oldPassword == newPassword then r == Message(400, SamePassword)
              else if newPassword.None? then r == Message(500, PasswordUpdateFailed)
              else r == Message(200, PasswordUpdated)
    ensures r.status == 200 ==>
              && s.users == old(s.users)[caller.id := old(s.users)[caller.id].(password := Some(Crypto.Hash(newPassword.value)))]
              && Crypto.Compare(newPassword.value, s.users[caller.id].password.value)
              && !Crypto.Compare(oldPassword.value, s.users[caller.id].password.value)
    ensures r.status != 200 ==> s.users == old(s.users)
  {
    if caller.id !in s.users {
      return Message(404, UserNotFound);
    }
    var u := s.users[caller.id];
    if oldPassword.None? || u.password.None? {
      return Message(500, PasswordUpdateFailed);
    }
    if !Crypto.Compare(oldPassword.value, u.password.value) {
      return Message(400, OldPasswordMismatch);
    }
    if oldPassword == newPassword {
      return Message(400, SamePassword);
    }
    if newPassword.None? {
      return Message(500, PasswordUpdateFailed);
    }
    var updated := u.(password := Some(Crypto.Hash(newPassword.value)));
    assert !ClashesWithOther(s.users, caller.id, updated) by {
      forall j | j in s.users && j != caller.id ensures !SharesUniqueKey(s.users[j], updated) {
        assert !SharesUniqueKey(s.users[j], u);
      }
    }
    var err := s.UpdateUser(caller.id, updated, false);
    Crypto.CompareIffSamePassword(oldPassword.value, newPassword.value);
    r := Message(200, PasswordUpdated);
  }

  /** The role check of `updateRole`: the token claims `admin` or `superAdmin`. */
  predicate MayChangeRoles(caller: Tokens.Claims) {
    caller.role == Some("superAdmin") || caller.role == Some("admin")
  }

  /** `updateRole`: the new role must be one the schema admits, the caller
      must hold a role-changing role, and the account is found by its
      username after the `trim` setter (the `findOneAndUpdate` filter is
      cast through it); only its role changes. */
  method UpdateRole(s: Store, caller: Tokens.Claims, username: string, newRole: Option<string>) returns (r: Reply)
    requires s.Valid()
    modifies s
    ensures s.Valid()
    ensures s.questions == old(s.questions) && s.questionOrder == old(s.questionOrder)
    ensures s.categories == old(s.categories) && s.outbox == old(s.outbox)
    ensures newRole.None? || newRole.value !in Roles ==> r == Message(400, InvalidRole)
    ensures newRole.Some? && newRole.value in Roles && !MayChangeRoles(caller) ==> r == Message(403, NoRolePermission)
    ensures (newRole.Some? && newRole.value in Roles && MayChangeRoles(caller)
             && forall k :: k in old(s.users) ==> old(s.users)[k].username != Trim(username))
            ==> r == Message(404, UserNotFound)
    ensures newRole.Some? && newRole.value in Roles && MayChangeRoles(caller) ==>
              forall k :: k in old(s.users) && old(s.users)[k].username == Trim(username) ==>
                && s.users == old(s.users)[k := old(s.users)[k].(role := newRole.value)]
                && r == Reply(200, RoleUpdated, RoleChanged(old(s.users)[k].username, newRole.value), KeepCookie)
    ensures r.status != 200 ==> s.users == old(s.users)
    ensures r.status == 200 || r.status == 400 || r.status == 403 || r.status == 404
  {
    if newRole.None? || newRole.value !in Roles {
      return Message(400, InvalidRole);
    }
    if !MayChangeRoles(caller) {
      return Message(403, NoRolePermission);
    }
    var name := Trim(username);
    if !exists k :: k in s.users && s.users[k].username == name {
      return Message(404, UserNotFound);
    }
    var k :| k in s.users && s.users[k].username == name;
    var u := s.users[k];
    AccountKeysIdentify(s.users, k);
    var updated := u.(role := newRole.value);
    assert !ClashesWithOther(s.users, k, updated) by {
      forall j | j in s.users && j != k ensures !SharesUniqueKey(s.users[j], updated) {
        assert !SharesUniqueKey(s.users[j], u);
      }
    }
    var err := s.UpdateUser(k, updated, false);
    r := Reply(200, RoleUpdated, RoleChanged(updated.username, updated.role), KeepCookie);
  }

  // ---------------------------------------------------------------------
  // Profile fields

  /** The body of an update-info request. `otherKeys` counts the keys the
      model does not give an effect to (paths outside this model and
      paths the schema does not know). `uncastable` counts the keys whose
      value the type of their path cannot cast, such as a word sent for the
      Number path `age` or a non-date for `dateCreated`: casting the update
      then throws. */
  datatype InfoBody = InfoBody(
    gender: Option<string>, role: Option<string>, password: Option<string>,
    email: Option<string>, username: Option<string>,
    bio: Option<string>, avatar: Option<string>, classGrade: Option<string>, schoolName: Option<string>,
    verified: Option<bool>, credentialAccount: Option<bool>, preferredCategories: Option<seq<string>>,
    otherKeys: nat, uncastable: nat)

  function Count(present: bool): nat {
    if present then 1 else 0
  }

  /** The number of keys of the update: every key sent other than role,
      password, gender, e-mail and username, plus those three when truthy. */
  function UpdateKeys(b: InfoBody): nat {
    Count(b.bio.Some?) + Count(b.avatar.Some?) + Count(b.classGrade.Some?) + Count(b.schoolName.Some?)
    + Count(b.verified.Some?) + Count(b.credentialAccount.Some?) + Count(b.preferredCategories.Some?)
    + b.otherKeys + b.uncastable + Count(Present(b.gender)) + Count(Present(b.email)) + Count(Present(b.username))
  }

  /** The document after the update: each path the update sets takes its
      new value, through the `trim` setter where the path has one. Role and
      password are never among them. */
  function ApplyInfo(u: User, b: InfoBody): (v: User)
    ensures v.password == u.password && v.role == u.role && v.lastLogin == u.lastLogin
    ensures v.notifications == u.notifications
    ensures SettersApplied(u) ==> SettersApplied(v)
    ensures Present(b.email) ==> v.email == Trim(b.email.value)
    ensures !Present(b.email) ==> v.email == u.email
    ensures Present(b.username) ==> v.username == Trim(b.username.value)
    ensures !Present(b.username) ==> v.username == u.username
    ensures v.verified == b.verified.GetOr(u.verified)
    ensures v.credentialAccount == b.credentialAccount.GetOr(u.credentialAccount)
  {
    User(if Present(b.username) then Trim(b.username.value) else u.username,
         if Present(b.email) then Trim(b.email.value) else u.email,
         u.password,
         if Present(b.gender) then b.gender else u.gender,
         if b.bio.Some? then b.bio else u.bio,
         b.avatar.GetOr(u.avatar),
         if b.classGrade.Some? then TrimOpt(b.classGrade) else u.classGrade,
         if b.schoolName.Some? then TrimOpt(b.schoolName) else u.schoolName,
         u.role,
         b.verified.GetOr(u.verified),
         b.credentialAccount.GetOr(u.credentialAccount),
         u.lastLogin,
         u.notifications,
         b.preferredCategories.GetOr(u.preferredCategories))
  }

  /** The update validators on the paths the update sets, which see the
      values after their setters: `required` on username and e-mail, the
      e-mail pattern, the enumerations and the bio length. */
  predicate InfoPassesValidators(b: InfoBody) {
    && (Present(b.username) ==> Trim(b.username.value) != "")
    && (Present(b.email) ==> ValidEmail(Trim(b.email.value)))
    && (Present(b.gender) ==> b.gender.value in Genders)
    && (b.bio.Some? ==> |b.bio.value| <= BioMaxLength)
    && (b.preferredCategories.Some? ==> forall c :: c in b.preferredCategories.value ==> c in Subjects)
  }

  /** Running validators on the set paths only is the same as validating
      every path of the updated document, given a valid document. */
  lemma InfoValidatorsExact(u: User, b: InfoBody)
    requires PathsValid(u)
    ensures PathsValid(ApplyInfo(u, b)) <==> InfoPassesValidators(b)
  {
  }

  /** Update validators do not include the password requirement: clearing
      `credentialAccount` on an account without a password is accepted and
      leaves a document a full save would refuse. */
  lemma ClearingCredentialFlagIsAccepted(u: User)
    requires PathsValid(u) && u.credentialAccount && u.password.None?
    ensures var b := InfoBody(None, None, None, None, None, None, None, None, None, None, Some(false), None, 0, 0);
            && UpdateKeys(b) == 1 && InfoPassesValidators(b)
            && PathsValid(ApplyInfo(u, b)) && !ValidUser(ApplyInfo(u, b))
  {
  }

  /** `verified` is an ordinary path here: sending it marks the account as
      verified without the e-mail round trip. */
  lemma SelfVerificationIsAccepted(u: User)
    requires PathsValid(u) && !u.verified
    ensures var b := InfoBody(None, None, None, None, None, None, None, None, None, Some(true), None, None, 0, 0);
            && UpdateKeys(b) == 1 && InfoPassesValidators(b) && ApplyInfo(u, b).verified
  {
  }

  predicate Sensitive(b: InfoBody) {
    Present(b.role) || Present(b.password)
  }

  predicate GenderAccepted(b: InfoBody) {
    Present(b.gender) ==> b.gender.value in Genders
  }

  /** The e-mail checks: the pattern, and no other account holding it. */
  predicate EmailAccepted(users: map<Id, User>, id: Id, b: InfoBody) {
    Present(b.email) ==> ValidEmail(b.email.value) && forall k :: k in users && users[k].email == b.email.value ==> k == id
  }

  /** The checks before the username: sensitive fields, gender, e-mail. */
  predicate Screened(users: map<Id, User>, id: Id, b: InfoBody) {
    !Sensitive(b) && GenderAccepted(b) && EmailAccepted(users, id, b)
  }

  /** A case-insensitive username match (the pattern is taken literally). */
  predicate NameMatch(u: User, name: string) {
    EqualsIgnoringCase(u.username, name)
  }

  /** The username check passes whatever match the lookup returns: the
      only accounts matching ignoring case are the caller's. */
  predicate UsernameClear(users: map<Id, User>, id: Id, b: InfoBody) {
    Present(b.username) ==> forall k :: k in users && NameMatch(users[k], b.username.value) ==> k == id
  }

  /** The username check fails whatever match the lookup returns. */
  predicate UsernameBlocked(users: map<Id, User>, id: Id, b: InfoBody) {
    && Present(b.username)
    && (exists k :: k in users && NameMatch(users[k], b.username.value))
    && forall k :: k in users && NameMatch(users[k], b.username.value) ==> k != id
  }

  /** The checks of `updateUserInfo` before the update: role and password
      refused, then gender, e-mail and username in that order. The lookup by
      username returns one of the accounts matching ignoring case. */
  method ScreenInfo(s: Store, caller: Tokens.Claims, b: InfoBody) returns (refusal: Option<Reply>)
    requires s.Valid()
    ensures Sensitive(b) ==> refusal == Some(Message(400, SensitiveFields))
    ensures !Sensitive(b) && !GenderAccepted(b) ==> refusal == Some(Message(400, InvalidGender))
    ensures !Sensitive(b) && GenderAccepted(b) && Present(b.email) && !ValidEmail(b.email.value) ==>
              refusal == Some(Message(400, InvalidEmail))
    ensures !Sensitive(b) && GenderAccepted(b) && Present(b.email) && ValidEmail(b.email.value)
              && (exists k :: k in s.users && k != caller.id && s.users[k].email == b.email.value) ==>
              refusal == Some(Message(400, EmailExists))
    ensures Screened(s.users, caller.id, b) && UsernameBlocked(s.users, caller.id, b) ==>
              refusal == Some(Message(400, UsernameExists))
    ensures Screened(s.users, caller.id, b) && UsernameClear(s.users, caller.id, b) ==> refusal.None?
    ensures refusal.None? ==> Screened(s.users, caller.id, b)
    ensures refusal.Some? ==> refusal.value.status == 400
  {
    if Sensitive(b) {
      return Some(Message(400, SensitiveFields));
    }
    if !GenderAccepted(b) {
      return Some(Message(400, InvalidGender));
    }
    if Present(b.email) {
      if !ValidEmail(b.email.value) {
        return Some(Message(400, InvalidEmail));
      }
      if exists k :: k in s.users && s.users[k].email == b.email.value {
        var k :| k in s.users && s.users[k].email == b.email.value;
        if k != caller.id {
          return Some(Message(400, EmailExists));
        }
      }
    }
    if Present(b.username) && exists k :: k in s.users && NameMatch(s.users[k], b.username.value) {
      var k :| k in s.users && NameMatch(s.users[k], b.username.value);
      if k != caller.id {
        return Some(Message(400, UsernameExists));
      }
    }
    refusal := None;
  }

  /** The update is written: there is something to update, the validators
      pass, the account exists and the result clashes with no other account. */
  predicate Committed(users: map<Id, User>, id: Id, b: InfoBody) {
    && UpdateKeys(b) > 0 && b.uncastable == 0 && InfoPassesValidators(b) && id in users
    && !ClashesWithOther(users, id, ApplyInfo(users[id], b))
  }

  /** The reply once the checks have passed: no keys, an uncastable value or
      failed validators, no account and a unique-index clash refuse in that
      order; a written
      update that set the e-mail still fails with a 500 (the verification
      mailer is not in scope in that file); otherwise the whole updated
      document, password hash included, is returned. */
  function InfoOutcome(users: map<Id, User>, id: Id, b: InfoBody): (r: Reply)
    ensures r.status == 200 <==> Committed(users, id, b) && !Present(b.email)
    ensures r.status == 200 ==> r.body == UserDocument(ApplyInfo(users[id], b)) && r.body.document.password == users[id].password
    ensures UpdateKeys(b) == 0 ==> r == Message(400, NoFields)
    ensures b.uncastable > 0 || (UpdateKeys(b) > 0 && !InfoPassesValidators(b)) ==> r == Message(500, InfoUpdateFailed)
    ensures Committed(users, id, b) && Present(b.email) ==> r == Message(500, InfoUpdateFailed)
  {
    if UpdateKeys(b) == 0 then Message(400, NoFields)
    else if b.uncastable > 0 || !InfoPassesValidators(b) then Message(500, InfoUpdateFailed)
    else if id !in users then Message(404, UserNotFound)
    else if ClashesWithOther(users, id, ApplyInfo(users[id], b)) then Message(400, UsernameExists)
    else if Present(b.email) then Message(500, InfoUpdateFailed)
    else Reply(200, InfoUpdated, UserDocument(ApplyInfo(users[id], b)), KeepCookie)
  }

  /** The rest of `updateUserInfo`, once the checks have passed. */
  method CommitInfo(s: Store, caller: Tokens.Claims, b: InfoBody) returns (r: Reply)
    requires s.Valid() && Screened(s.users, caller.id, b)
    modifies s
    ensures s.Valid()
    ensures s.questions == old(s.questions) && s.questionOrder == old(s.questionOrder)
    ensures s.categories == old(s.categories) && s.outbox == old(s.outbox)
    ensures r == InfoOutcome(old(s.users), caller.id, b)
    ensures s.users == if Committed(old(s.users), caller.id, b)
                       then old(s.users)[caller.id := ApplyInfo(old(s.users)[caller.id], b)]
                       else old(s.users)
  {
    if UpdateKeys(b) == 0 {
      return Message(400, NoFields);
    }
    if b.uncastable > 0 || !InfoPassesValidators(b) {
      return Message(500, InfoUpdateFailed);
    }
    if caller.id !in s.users {
      return Message(404, UserNotFound);
    }
    var updated := ApplyInfo(s.users[caller.id], b);
    InfoValidatorsExact(s.users[caller.id], b);
    if Present(b.email) {
      ValidEmailIsTrimmed(b.email.value);
    }
    var err := s.UpdateUser(caller.id, updated, true);
    if err.Some? {
      if exists k :: k in s.users && k != caller.id && s.users[k].email == updated.email {
        return Message(400, EmailExists);
      }
      return Message(400, UsernameExists);
    }
    if Present(b.email) {
      return Message(500, InfoUpdateFailed);
    }
    r := Reply(200, InfoUpdated, UserDocument(updated), KeepCookie);
  }

  /** `updateUserInfo`: the checks, then the update. */
  method UpdateUserInfo(s: Store, caller: Tokens.Claims, b: InfoBody) returns (r: Reply)
    requires s.Valid()
    modifies s
    ensures s.Valid()
    ensures s.questions == old(s.questions) && s.questionOrder == old(s.questionOrder)
    ensures s.categories == old(s.categories) && s.outbox == old(s.outbox)
    ensures Sensitive(b) ==> r == Message(400, SensitiveFields)
    ensures !Sensitive(b) && !GenderAccepted(b) ==> r == Message(400, InvalidGender)
    ensures !Sensitive(b) && GenderAccepted(b) && Present(b.email) && !ValidEmail(b.email.value) ==>
              r == Message(400, InvalidEmail)
    ensures !Sensitive(b) && GenderAccepted(b) && Present(b.email) && ValidEmail(b.email.value)
              && (exists k :: k in old(s.users) && k != caller.id && old(s.users)[k].email == b.email.value) ==>
              r == Message(400, EmailExists)
    ensures Screened(old(s.users), caller.id, b) && UsernameBlocked(old(s.users), caller.id, b) ==>
              r == Message(400, UsernameExists)
    ensures Screened(old(s.users), caller.id, b) && UsernameClear(old(s.users), caller.id, b) ==>
              r == InfoOutcome(old(s.users), caller.id, b)
    ensures r.status == 400 || r.status == 404 ==> s.users == old(s.users)
    ensures UsernameBlocked(old(s.users), caller.id, b) ==> s.users == old(s.users)
    ensures s.users == old(s.users)
            || (Screened(old(s.users), caller.id, b) && Committed(old(s.users), caller.id, b)
                && s.users == old(s.users)[caller.id := ApplyInfo(old(s.users)[caller.id], b)])
    ensures r.status == 200 ==>
              && Screened(old(s.users), caller.id, b) && Committed(old(s.users), caller.id, b)
              && s.users == old(s.users)[caller.id := ApplyInfo(old(s.users)[caller.id], b)]
              && r.body == UserDocument(s.users[caller.id])
  {
    var refusal := ScreenInfo(s, caller, b);
    if refusal.Some? {
      return refusal.value;
    }
    r := CommitInfo(s, caller, b);
  }
}
