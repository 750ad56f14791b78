/** The user document and the constraints its schema puts on it: required
    and unique username and e-mail, the e-mail pattern, the role, gender
    and subject enumerations, the bio length, the conditional password
    requirement, the defaults, and the pre-save hook that hashes a
    modified password. */
module UserSchema {
  import opened Basics
  import Text
  import Crypto

  /** The ten subject names, shared with the question schema. */
  const Subjects: seq<string> := [
    "Mathematics", "English Language", "Biology", "Chemistry", "Physics",
    "Accounting", "Government", "Literature", "Economics", "History"]

  const Roles: seq<string> := ["student", "admin"]
  const Genders: seq<string> := ["Male", "Female", "Other"]
  const DefaultRole: string := "student"
  const DefaultAvatar: string := "https://default-avatar-url.com/avatar.png"
  const DefaultPreferredCategories: seq<string> := ["Mathematics", "English Language"]
  const BioMaxLength: nat := 150

  datatype Notifications = Notifications(newAnswers: bool, upvotes: bool, badges: bool)

  /** Every notification flag defaults to true. */
  const DefaultNotifications: Notifications := Notifications(true, true, true)

  /** A user document. `password` holds the bcrypt hash once saved and is
      absent for a federated account; `lastLogin` is a time in ms. */
  datatype User = User(
    username: string,
    email: string,
    password: Option<string>,
    gender: Option<string>,
    bio: Option<string>,
    avatar: string,
    classGrade: Option<string>,
    schoolName: Option<string>,
    role: string,
    verified: bool,
    credentialAccount: bool,
    lastLogin: Option<nat>,
    notifications: Notifications,
    preferredCategories: seq<string>)

  /** The `trim` setter of a path that may be absent. */
  function TrimOpt(o: Option<string>): (r: Option<string>)
    ensures r.None? <==> o.None?
    ensures r.Some? ==> Text.Trimmed(r.value)
  {
    if o.Some? then Some(Text.Trim(o.value)) else None
  }

  /** The paths with a `trim` setter: username, e-mail, class and school.
      Mongoose runs the setter whenever such a path is assigned, in a new
      document or in an update, before any validator sees the value. */
  predicate SettersApplied(u: User) {
    && Text.Trimmed(u.username) && Text.Trimmed(u.email)
    && (u.classGrade.Some? ==> Text.Trimmed(u.classGrade.value))
    && (u.schoolName.Some? ==> Text.Trimmed(u.schoolName.value))
  }

  /** `[^\s@]+`: a non-empty run with no white space and no `@`. */
  predicate Plain(x: string) {
    x != [] && forall i :: 0 <= i < |x| ==> x[i] != '@' && !Text.IsSpace(x[i])
  }

  /** What it means for `s` to match `^[^\s@]+@[^\s@]+\.[^\s@]+$`. */
  ghost predicate MatchesEmailPattern(s: string) {
    exists local, domain, top :: Plain(local) && Plain(domain) && Plain(top) && s == local + "@" + domain + "." + top
  }

  /** The e-mail validator, as a check over the positions of the `@` and of
      the dot that separates the last label. */
  predicate ValidEmail(s: string) {
    exists at, dot | 0 <= at < dot < |s| ::
      && s[at] == '@' && s[dot] == '.'
      && Plain(s[..at]) && Plain(s[at + 1..dot]) && Plain(s[dot + 1..])
  }

  /** The validator accepts exactly the strings the regular expression matches. */
  lemma ValidEmailIffPattern(s: string)
    ensures ValidEmail(s) <==> MatchesEmailPattern(s)
  {
    if ValidEmail(s) {
      ValidEmailMatches(s);
    }
    if MatchesEmailPattern(s) {
      var local, domain, top :| Plain(local) && Plain(domain) && Plain(top)
        && s == local + "@" + domain + "." + top;
      PatternPartsValid(s, local, domain, top);
    }
  }

  lemma ValidEmailMatches(s: string)
    requires ValidEmail(s)
    ensures MatchesEmailPattern(s)
  {
    var at, dot :| 0 <= at < dot < |s| && s[at] == '@' && s[dot] == '.'
      && Plain(s[..at]) && Plain(s[at + 1..dot]) && Plain(s[dot + 1..]);
    var local, domain, top := s[..at], s[at + 1..dot], s[dot + 1..];
    assert s == local + "@" + domain + "." + top by {
      assert |local + "@" + domain + "." + top| == |s|;
      forall i | 0 <= i < |s| ensures (local + "@" + domain + "." + top)[i] == s[i] {
        if i < at {
          assert (local + "@" + domain + "." + top)[i] == local[i];
        } else if i == at {
        } else if i < dot {
          assert (local + "@" + domain + "." + top)[i] == domain[i - at - 1];
        } else if i == dot {
        } else {
          assert (local + "@" + domain + "." + top)[i] == top[i - dot - 1];
        }
      }
    }
  }

  lemma PatternPartsValid(s: string, local: string, domain: string, top: string)
    requires Plain(local) && Plain(domain) && Plain(top)
    requires s == local + "@" + domain + "." + top
    ensures ValidEmail(s)
  {
    var at, dot := |local|, |local| + 1 + |domain|;
    assert s[..at] == local;
    assert s[at + 1..dot] == domain;
    assert s[dot + 1..] == top;
    assert s[at] == '@' && s[dot] == '.';
  }

  /** An accepted address contains no white space anywhere. */
  lemma ValidEmailHasNoSpace(s: string)
    requires ValidEmail(s)
    ensures forall i :: 0 <= i < |s| ==> !Text.IsSpace(s[i])
  {
    var at, dot :| 0 <= at < dot < |s| && s[at] == '@' && s[dot] == '.'
      && Plain(s[..at]) && Plain(s[at + 1..dot]) && Plain(s[dot + 1..]);
    forall i | 0 <= i < |s| ensures !Text.IsSpace(s[i]) {
      if i < at {
        assert s[..at][i] == s[i];
      } else if at < i < dot {
        assert s[at + 1..dot][i - at - 1] == s[i];
      } else if dot < i {
        assert s[dot + 1..][i - dot - 1] == s[i];
      }
    }
  }

  /** The setter leaves an accepted address as it is. */
  lemma ValidEmailIsTrimmed(s: string)
    requires ValidEmail(s)
    ensures Text.Trim(s) == s
  {
    ValidEmailHasNoSpace(s);
  }

  /** An address padded with white space is accepted once the setter has
      removed the padding. */
  lemma SetterUnpadsAddress(s: string, pad: string)
    requires ValidEmail(s) && Text.AllSpace(pad)
    ensures Text.Trim(pad + s + pad) == s
  {
    ValidEmailHasNoSpace(s);
    var t := pad + s + pad;
    assert t[..|pad|] == pad && t[|pad|] == s[0];
    Text.LeadingSpacesExact(t, |pad|);
    var rest := t[|pad|..];
    assert rest == s + pad;
    assert rest[|rest| - |pad|..] == pad && rest[|rest| - |pad| - 1] == s[|s| - 1];
    Text.TrailingSpacesExact(rest, |pad|);
    assert rest[..|s|] == s;
  }

  /** Every single-path validator of the schema: `required` on username and
      e-mail, the e-mail pattern, the gender and role enumerations, the
      bio length and the subject enumeration of preferredCategories. */
  predicate PathsValid(u: User) {
    && u.username != ""
    && u.email != "" && ValidEmail(u.email)
    && (u.gender.Some? ==> u.gender.value in Genders)
    && (u.bio.Some? ==> |u.bio.value| <= BioMaxLength)
    && u.role in Roles
    && (forall c :: c in u.preferredCategories ==> c in Subjects)
  }

  /** The password is required exactly when the account is not marked as a
      credential account. */
  predicate PasswordPresentIfRequired(u: User) {
    u.credentialAccount || (u.password.Some? && u.password.value != "")
  }

  /** Full document validation, as `save()` runs it. */
  predicate ValidUser(u: User) {
    PathsValid(u) && PasswordPresentIfRequired(u)
  }

  /** The password requirement, in both directions: a document missing its
      password is valid exactly when it is a credential account. */
  lemma PasswordRequirement(u: User)
    requires PathsValid(u)
    requires u.password.None?
    ensures ValidUser(u) <==> u.credentialAccount
  {
  }

  /** Two documents clash on the unique indexes (exact string equality). */
  predicate SharesUniqueKey(a: User, b: User) {
    a.username == b.username || a.email == b.email
  }

  /** The pre-save hook: a password path modified since the last save is
      replaced by its hash; otherwise the document is saved as it is. */
  function PreSave(doc: User, passwordModified: bool): (saved: User)
    ensures saved.(password := doc.password) == doc
  {
    if passwordModified && doc.password.Some? then doc.(password := Some(Crypto.Hash(doc.password.value)))
    else doc
  }

  /** Saving a document whose password was not touched does not hash it
      again, so the stored hash keeps matching the original password. */
  lemma SaveWithoutPasswordChangeKeepsHash(doc: User, plain: string)
    requires doc.password == Some(plain)
    ensures PreSave(PreSave(doc, true), false).password == Some(Crypto.Hash(plain))
    ensures Crypto.Compare(plain, PreSave(PreSave(doc, true), false).password.value)
  {
  }

  /** Hashing keeps a valid document valid. */
  lemma PreSaveKeepsValidity(doc: User, passwordModified: bool)
    requires ValidUser(doc)
    ensures ValidUser(PreSave(doc, passwordModified))
  {
    if passwordModified && doc.password.Some? {
      Crypto.HashNonEmpty(doc.password.value);
    }
  }
}
