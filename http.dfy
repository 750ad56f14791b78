/** What a handler sends back: a status code, a message, a JSON body and
    what it does to the `user_token` cookie; and the projections of a user
    document that the bodies expose. */
module Http {
  import opened Basics
  import opened UserSchema
  import opened QuestionSchema
  import opened CategorySchema
  import Tokens

  datatype CookieOp = KeepCookie | SetSession(token: Tokens.Jwt) | ClearSession

  /** The registration response's user: everything the client sent back to
      it except the password (the model leaves out badge data). */
  datatype RegisteredView = RegisteredView(
    id: Id, username: string, email: string, bio: Option<string>, avatar: string, role: string,
    notifications: Notifications, preferredCategories: seq<string>,
    classGrade: Option<string>, schoolName: Option<string>)

  /** `select('-password')`: the whole document but the password. */
  datatype ProfileView = ProfileView(
    id: Id, username: string, email: string, gender: Option<string>, bio: Option<string>, avatar: string,
    classGrade: Option<string>, schoolName: Option<string>, role: string, verified: bool,
    credentialAccount: bool, lastLogin: Option<nat>, notifications: Notifications,
    preferredCategories: seq<string>)

  /** `select('-password -notificationPreferences -preferredCategories
      -credentialAccount -userId -verified')`. */
  datatype PublicView = PublicView(
    id: Id, username: string, email: string, gender: Option<string>, bio: Option<string>, avatar: string,
    classGrade: Option<string>, schoolName: Option<string>, role: string, lastLogin: Option<nat>)

  datatype Body =
    | NoBody
    | Registered(registered: RegisteredView)
    | LoggedIn(lastLogin: nat)
    | OwnProfile(profile: ProfileView, ownQuestions: seq<Question>)
    | UserProfile(public: PublicView, userQuestions: seq<Question>)
    | RoleChanged(changedUser: string, newRole: string)
    | UserDocument(document: User)
    | OneQuestion(question: Question)
    | QuestionList(questions: seq<Question>)
    | NewCategory(category: Category)
    | Preferences(preferred: seq<string>)

  datatype Reply = Reply(status: int, message: string, body: Body, cookie: CookieOp)

  /** A reply carrying only a status and a message: every early return,
      and the successes that send nothing else. */
  function Message(status: int, message: string): (r: Reply)
  {
    Reply(status, message, NoBody, KeepCookie)
  }

  function Registration(id: Id, u: User): RegisteredView {
    RegisteredView(id, u.username, u.email, u.bio, u.avatar, u.role, u.notifications,
                   u.preferredCategories, u.classGrade, u.schoolName)
  }

  function Profile(id: Id, u: User): ProfileView {
    ProfileView(id, u.username, u.email, u.gender, u.bio, u.avatar, u.classGrade, u.schoolName,
                u.role, u.verified, u.credentialAccount, u.lastLogin, u.notifications, u.preferredCategories)
  }

  function Public(id: Id, u: User): PublicView {
    PublicView(id, u.username, u.email, u.gender, u.bio, u.avatar, u.classGrade, u.schoolName,
               u.role, u.lastLogin)
  }

  /** The registration body reveals nothing about the password, the
      verification state or the account kind: documents that differ only
      there give the same body. */
  lemma RegistrationHidesPassword(id: Id, u: User, password: Option<string>, verified: bool, credentialAccount: bool)
    ensures Registration(id, u.(password := password, verified := verified, credentialAccount := credentialAccount))
         == Registration(id, u)
  {
  }

  /** The own-profile view hides the password and nothing else: it
      determines every other path of the document. */
  lemma ProfileHidesOnlyPassword(id: Id, u: User, v: User)
    ensures Profile(id, u) == Profile(id, v) <==> u.(password := v.password) == v
  {
    if Profile(id, u) == Profile(id, v) {
      assert u.(password := v.password) == v;
    }
  }

  /** The public view hides the password, notification preferences,
      preferred categories, account kind and verification state. */
  lemma PublicHidesSensitivePaths(id: Id, u: User, password: Option<string>, n: Notifications,
                                  prefs: seq<string>, credentialAccount: bool, verified: bool)
    ensures Public(id, u.(password := password, notifications := n, preferredCategories := prefs,
                          credentialAccount := credentialAccount, verified := verified))
         == Public(id, u)
  {
  }
}
