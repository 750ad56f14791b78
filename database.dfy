/** The document store the handlers work on: the users, questions and
    categories collections, and the verification e-mails handed to the mail
    transport. `save()` validates a document against its schema, enforces
    the unique indexes and runs the pre-save hook. */
module Database {
  import opened Basics
  import opened UserSchema
  import opened QuestionSchema
  import opened CategorySchema
  import opened Ordering
  import Tokens
  import Text

  /** Why a save is refused: a schema validator failed, or a unique index
      already holds the value (MongoDB error 11000). */
  datatype SaveError = ValidationFailed | DuplicateKey

  /** A verification e-mail: the recipient's id and address and the token
      embedded in the link. Delivery failures are swallowed by the source,
      so the model records only that the message was handed over. */
  datatype Mail = VerificationMail(recipient: Id, address: string, link: Tokens.Jwt)

  /** No two accounts share a username or an e-mail address. */
  ghost predicate UniqueAccounts(users: map<Id, User>) {
    forall a, b :: a in users && b in users && a != b ==> !SharesUniqueKey(users[a], users[b])
  }

  ghost predicate UniqueCategoryNames(cs: map<Id, Category>) {
    forall a, b :: a in cs && b in cs && a != b ==> !SameName(cs[a], cs[b])
  }

  /** An account other than `id` already holds `doc`'s username or e-mail. */
  predicate ClashesWithOther(users: map<Id, User>, id: Id, doc: User) {
    exists k :: k in users && k != id && SharesUniqueKey(users[k], doc)
  }

  /** Storing a document that clashes with no other account keeps the
      accounts unique. */
  lemma StoreKeepsAccountsUnique(users: map<Id, User>, id: Id, doc: User)
    requires UniqueAccounts(users)
    requires !ClashesWithOther(users, id, doc)
    ensures UniqueAccounts(users[id := doc])
  {
    var after := users[id := doc];
    forall a, b | a in after && b in after && a != b ensures !SharesUniqueKey(after[a], after[b]) {
      if a == id {
        assert !SharesUniqueKey(users[b], doc);
      } else if b == id {
        assert !SharesUniqueKey(users[a], doc);
      }
    }
  }

  /** What every stored account satisfies: its setters have run, it passes
      its single-path validators, and it is unique across accounts. */
  ghost predicate AccountsValid(users: map<Id, User>) {
    && (forall k :: k in users ==> SettersApplied(users[k]) && PathsValid(users[k]))
    && UniqueAccounts(users)
  }

  /** Writing a document that passes the single-path validators and clashes
      with no other account keeps the accounts valid. */
  lemma StoreAccount(users: map<Id, User>, id: Id, doc: User)
    requires AccountsValid(users) && SettersApplied(doc) && PathsValid(doc)
    requires !ClashesWithOther(users, id, doc)
    ensures AccountsValid(users[id := doc])
  {
    StoreKeepsAccountsUnique(users, id, doc);
    var after := users[id := doc];
    forall k | k in after ensures SettersApplied(after[k]) && PathsValid(after[k]) {
      if k != id {
        assert after[k] == users[k];
      }
    }
  }

  predicate NameTaken(cs: map<Id, Category>, id: Id, c: Category) {
    exists k :: k in cs && k != id && SameName(cs[k], c)
  }

  class Store {
    var users: map<Id, User>
    var questions: map<Id, Question>
    /** The questions collection's natural order: ids in insertion order. */
    var questionOrder: seq<Id>
    var categories: map<Id, Category>
    var outbox: seq<Mail>

    /** What the schemas and indexes guarantee of every stored document.
        For users this is the single-path validators and uniqueness; the
        password requirement is checked on every full save but can be
        broken by an update that runs validators only on the paths it sets. */
    ghost predicate Valid()
      reads this
    {
      && AccountsValid(users)
      && KeyedById(questions)
      && (forall k :: k in questions ==> ValidQuestion(questions[k]))
      && NoDuplicates(questionOrder)
      && (forall k :: k in questionOrder <==> k in questions)
      && (forall k :: k in categories ==> ValidCategory(categories[k]))
      && UniqueCategoryNames(categories)
    }

    constructor ()
      ensures Valid()
      ensures users == map[] && questions == map[] && questionOrder == []
      ensures categories == map[] && outbox == []
    {
      users, questions, questionOrder, categories, outbox := map[], map[], [], map[], [];
    }

    /** `user.save()`: full validation, then the unique indexes, then the
        pre-save hook; on success the document is stored under `id`. Like
        every Mongoose document, `doc` has been through its setters. */
    method SaveUser(id: Id, doc: User, passwordModified: bool) returns (err: Option<SaveError>)
      requires Valid() && SettersApplied(doc)
      modifies this
      ensures Valid()
      ensures err == if !ValidUser(doc) then Some(ValidationFailed)
                     else if ClashesWithOther(old(users), id, doc) then Some(DuplicateKey)
                     else None
      ensures users == if err.None? then old(users)[id := PreSave(doc, passwordModified)] else old(users)
      ensures questions == old(questions) && questionOrder == old(questionOrder)
      ensures categories == old(categories) && outbox == old(outbox)
    {
      if !ValidUser(doc) {
        return Some(ValidationFailed);
      }
      if ClashesWithOther(users, id, doc) {
        return Some(DuplicateKey);
      }
      var saved := PreSave(doc, passwordModified);
      PreSaveKeepsValidity(doc, passwordModified);
      assert !ClashesWithOther(users, id, saved) by {
        forall k | k in users && k != id ensures !SharesUniqueKey(users[k], saved) {
          assert !SharesUniqueKey(users[k], doc);
        }
      }
      StoreAccount(users, id, saved);
      users := users[id := saved];
      err := None;
    }

    /** `findByIdAndUpdate` / `findOneAndUpdate` on a stored user: with
        `runValidators` the single-path validators run on the result (the
        paths the update does not set were valid already), the unique
        indexes always apply, and no pre-save hook runs. The update has been
        cast, so the setters of the paths it sets have run. An update that
        runs no validators must be one that keeps the paths valid. */
    method UpdateUser(id: Id, doc: User, runValidators: bool) returns (err: Option<SaveError>)
      requires Valid() && id in users && SettersApplied(doc)
      requires !runValidators ==> PathsValid(doc)
      modifies this
      ensures Valid()
      ensures err == if !PathsValid(doc) then Some(ValidationFailed)
                     else if ClashesWithOther(old(users), id, doc) then Some(DuplicateKey)
                     else None
      ensures users == if err.None? then old(users)[id := doc] else old(users)
      ensures questions == old(questions) && questionOrder == old(questionOrder)
      ensures categories == old(categories) && outbox == old(outbox)
    {
      if !PathsValid(doc) {
        return Some(ValidationFailed);
      }
      if ClashesWithOther(users, id, doc) {
        return Some(DuplicateKey);
      }
      StoreAccount(users, id, doc);
      users := users[id := doc];
      err := None;
    }

    /** `question.save()` for a new or an existing document. A new one is
        placed at the end of the natural order; an existing one keeps its place. */
    method SaveQuestion(q: Question) returns (err: Option<SaveError>)
      requires Valid()
      modifies this
      ensures Valid()
      ensures err == if ValidQuestion(q) then None else Some(ValidationFailed)
      ensures questions == if err.None? then old(questions)[q.id := q] else old(questions)
      ensures questionOrder == if err.None? && q.id !in old(questions) then old(questionOrder) + [q.id]
                               else old(questionOrder)
      ensures users == old(users) && categories == old(categories) && outbox == old(outbox)
    {
      if !ValidQuestion(q) {
        return Some(ValidationFailed);
      }
      if q.id !in questions {
        AppendNoDuplicates(questionOrder, q.id);
        questionOrder := questionOrder + [q.id];
      }
      questions := questions[q.id := q];
      err := None;
    }

    /** `Question.findByIdAndDelete(id)`. */
    method DeleteQuestion(id: Id)
      requires Valid()
      modifies this
      ensures Valid()
      ensures questions == old(questions) - {id}
      ensures questionOrder == Without(old(questionOrder), id)
      ensures users == old(users) && categories == old(categories) && outbox == old(outbox)
    {
      WithoutMembers(questionOrder, id);
      WithoutNoDuplicates(questionOrder, id);
      questions := questions - {id};
      questionOrder := Without(questionOrder, id);
    }

    /** `category.save()` for a new document. */
    method SaveCategory(id: Id, c: Category) returns (err: Option<SaveError>)
      requires Valid()
      modifies this
      ensures Valid()
      ensures err == if !ValidCategory(c) then Some(ValidationFailed)
                     else if NameTaken(old(categories), id, c) then Some(DuplicateKey)
                     else None
      ensures categories == if err.None? then old(categories)[id := c] else old(categories)
      ensures users == old(users) && questions == old(questions)
      ensures questionOrder == old(questionOrder) && outbox == old(outbox)
    {
      if !ValidCategory(c) {
        return Some(ValidationFailed);
      }
      if NameTaken(categories, id, c) {
        return Some(DuplicateKey);
      }
      categories := categories[id := c];
      err := None;
    }

    /** `sendVerificationEmail(user)`: a one-hour token carrying only the id,
        embedded in the link of the message. */
    method SendVerificationEmail(id: Id, address: string, secret: string, nowMs: nat)
      modifies this
      ensures outbox == old(outbox) + [VerificationMail(id, address, Tokens.Sign(secret, Tokens.Claims(id, None, None), nowMs, Tokens.OneHour))]
      ensures users == old(users) && questions == old(questions)
      ensures questionOrder == old(questionOrder) && categories == old(categories)
    {
      outbox := outbox + [VerificationMail(id, address, Tokens.Sign(secret, Tokens.Claims(id, None, None), nowMs, Tokens.OneHour))];
    }
  }

  /** In a valid store, whatever the store holds is listed by the natural
      order exactly once, so a query over the listing sees every stored
      question exactly once. */
  lemma ListingIsCollection(s: Store)
    requires s.Valid()
    ensures forall q :: q in Listing(s.questions, s.questionOrder) <==> q.id in s.questions && s.questions[q.id] == q
    ensures Distinct(Listing(s.questions, s.questionOrder))
  {
    ListingMembers(s.questions, s.questionOrder);
  }

  /** A saved user always passes the single-path validators, so a valid
      store never holds the role `superAdmin`. */
  lemma NoStoredSuperAdmin(s: Store, id: Id)
    requires s.Valid() && id in s.users
    ensures s.users[id].role != "superAdmin"
  {
    assert PathsValid(s.users[id]);
  }

  /** Every stored question has at most three tags, all from the tag
      vocabulary, at most 300 characters of content and one of the ten
      subjects, whichever handler wrote it. */
  lemma StoredQuestionsBounded(s: Store)
    requires s.Valid()
    ensures forall k :: k in s.questions ==>
              && |s.questions[k].tags| <= 3 && |s.questions[k].content| <= 300
              && (forall t :: t in s.questions[k].tags ==> t in TagVocabulary)
              && s.questions[k].subject in Subjects
  {
    forall k | k in s.questions
      ensures |s.questions[k].tags| <= 3 && |s.questions[k].content| <= 300
    {
      assert ValidQuestion(s.questions[k]);
    }
  }

  /** No stored username or e-mail address starts or ends with white
      space, so trimming it again changes nothing. */
  lemma StoredKeysTrimmed(s: Store, k: Id)
    requires s.Valid() && k in s.users
    ensures Text.Trim(s.users[k].username) == s.users[k].username
    ensures Text.Trim(s.users[k].email) == s.users[k].email
  {
    assert SettersApplied(s.users[k]);
  }

  /** In a valid store a username, and likewise an e-mail address, names at
      most one account, so a lookup by either is deterministic. */
  lemma AccountKeysIdentify(users: map<Id, User>, k: Id)
    requires AccountsValid(users) && k in users
    ensures forall j :: j in users && users[j].username == users[k].username ==> j == k
    ensures forall j :: j in users && users[j].email == users[k].email ==> j == k
  {
    forall j | j in users && j != k ensures users[j].username != users[k].username && users[j].email != users[k].email {
      assert !SharesUniqueKey(users[j], users[k]);
    }
  }
}
