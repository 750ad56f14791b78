/** The question handlers: posting, searching, reading one question, and
    the owner-only update and delete. */
module QuestionController {
  import opened Basics
  import opened Text
  import opened QuestionSchema
  import opened Ordering
  import opened Database
  import opened Http
  import Tokens

  const NotAuthenticated: string := "User not authenticated."
  const PostFailed: string := "Failed to post question."
  const Posted: string := "Question posted successfully."
  /** The listing and the single read answer without a message. */
  const Listed: string := ""
  const QuestionNotFound: string := "Question not found."
  const QuestionFound: string := ""
  const ContentAndSubjectRequired: string := "Content and subject are required fields."
  const TooManyTags: string := "You can only provide up to 3 tags."
  const NotOwner: string := "You are not authorized to update this question."
  const UpdateFailed: string := "An error occurred while updating the question."
  const Updated: string := "Question updated successfully"
  const DeleteFailed: string := "Server error while deleting question"
  const Deleted: string := "Question deleted successfully"

  /** The body of a post or update request. */
  datatype QuestionBody = QuestionBody(content: Option<string>, subject: Option<string>, tags: Option<seq<string>>)

  /** The query string of the listing: `search`, `subject` and a
      comma-separated `tags`. */
  datatype QuestionQuery = QuestionQuery(search: Option<string>, subject: Option<string>, tags: Option<string>)

  /** `postQuestion`: a question owned by the caller, validated and saved;
      any failure to save is a 400. `id` is the ObjectId the store assigns. */
  method PostQuestion(s: Store, caller: Tokens.Claims, b: QuestionBody, id: Id, nowMs: nat) returns (r: Reply)
    requires s.Valid() && id !in s.questions
    modifies s
    ensures s.Valid()
    ensures s.users == old(s.users) && s.categories == old(s.categories) && s.outbox == old(s.outbox)
    ensures caller.id == "" ==> r == Message(400, NotAuthenticated)
    ensures caller.id != "" ==>
              var q := NewQuestion(id, OrEmpty(b.content), OrEmpty(b.subject), b.tags, caller.id, nowMs);
              if ValidQuestion(q) then
                && s.questions == old(s.questions)[id := q]
                && s.questionOrder == old(s.questionOrder) + [id]
                && r == Reply(201, Posted, OneQuestion(q), KeepCookie)
              else r == Message(400, PostFailed)
    ensures r.status != 201 ==> s.questions == old(s.questions) && s.questionOrder == old(s.questionOrder)
  {
    if caller.id == "" {
      return Message(400, NotAuthenticated);
    }
    var q := NewQuestion(id, OrEmpty(b.content), OrEmpty(b.subject), b.tags, caller.id, nowMs);
    var err := s.SaveQuestion(q);
    if err.Some? {
      return Message(400, PostFailed);
    }
    r := Reply(201, Posted, OneQuestion(q), KeepCookie);
  }

  /** The listing filter: `search` as a case-insensitive substring of the
      content (taken literally), `subject` by equality, and every tag of the
      comma-separated list present. Falsy parameters are not filters. */
  predicate MatchesQuery(q: Question, query: QuestionQuery) {
    && (Present(query.search) ==> Contains(Lower(q.content), Lower(query.search.value)))
    && (Present(query.subject) ==> q.subject == query.subject.value)
    && (Present(query.tags) ==> forall t :: t in Split(query.tags.value, ',') ==> t in q.tags)
  }

  function Matching(query: QuestionQuery): Question -> bool {
    (q: Question) => MatchesQuery(q, query)
  }

  /** The questions the listing returns, newest first. */
  function SearchResults(s: Store, query: QuestionQuery): seq<Question>
    reads s
  {
    Query(s.questions, s.questionOrder, Matching(query), NewestFirst)
  }

  /** `getAllQuestions`. */
  function GetAllQuestions(s: Store, query: QuestionQuery): (r: Reply)
    reads s
    ensures r.status == 200 && r.cookie == KeepCookie
    ensures r.body == QuestionList(SearchResults(s, query))
  {
    Reply(200, Listed, QuestionList(SearchResults(s, query)), KeepCookie)
  }

  /** The listing holds exactly the stored questions that match, each once,
      newest first. */
  lemma SearchResultsExact(s: Store, query: QuestionQuery)
    requires s.Valid()
    ensures var r := SearchResults(s, query);
            && (forall q :: q in r <==> q.id in s.questions && s.questions[q.id] == q && MatchesQuery(q, query))
            && Sorted(NewestFirst, r)
            && Distinct(r)
  {
    QueryExact(s.questions, s.questionOrder, Matching(query), NewestFirst);
  }

  /** With no parameters every stored question is listed once. */
  lemma UnfilteredListsEverything(s: Store)
    requires s.Valid()
    ensures var r := SearchResults(s, QuestionQuery(None, None, None));
            forall id :: id in s.questions ==> multiset(r)[s.questions[id]] == 1
  {
    SearchResultsExact(s, QuestionQuery(None, None, None));
    forall id | id in s.questions
      ensures multiset(SearchResults(s, QuestionQuery(None, None, None)))[s.questions[id]] == 1
    {
      assert s.questions[id].id == id;
      assert s.questions[id] in SearchResults(s, QuestionQuery(None, None, None));
    }
  }

  lemma LowerIdempotent(x: string)
    ensures Lower(Lower(x)) == Lower(x)
  {
  }

  /** The search ignores the case of the search term. */
  lemma SearchIgnoresCase(q: Question, search: string, subject: Option<string>, tags: Option<string>)
    ensures MatchesQuery(q, QuestionQuery(Some(search), subject, tags))
        <==> MatchesQuery(q, QuestionQuery(Some(Lower(search)), subject, tags))
  {
    LowerIdempotent(search);
  }

  /** A two-tag filter asks for both tags. */
  lemma TwoTagFilter(q: Question, a: string, b: string)
    requires ',' !in a && ',' !in b
    ensures MatchesQuery(q, QuestionQuery(None, None, Some(a + "," + b))) <==> a in q.tags && b in q.tags
  {
    SplitAround(a, b);
  }

  /** Splitting `a,b` on the comma gives `a` and `b`. */
  lemma {:induction false} SplitAround(a: string, b: string)
    requires ',' !in a && ',' !in b
    ensures Split(a + "," + b, ',') == [a, b]
    decreases |a|
  {
    if a == [] {
      assert ([] + "," + b)[1..] == b;
      SplitNoSeparator(b);
    } else {
      assert (a + "," + b)[1..] == a[1..] + "," + b;
      SplitAround(a[1..], b);
      assert [a[0]] + a[1..] == a;
    }
  }

  lemma {:induction false} SplitNoSeparator(b: string)
    requires ',' !in b
    ensures Split(b, ',') == [b]
    decreases |b|
  {
    if b != [] {
      SplitNoSeparator(b[1..]);
      assert [b[0]] + b[1..] == b;
    }
  }

  /** `getQuestionById`. */
  function GetQuestionById(s: Store, id: Id): (r: Reply)
    reads s
    ensures id !in s.questions ==> r == Message(404, QuestionNotFound)
    ensures id in s.questions ==> r.status == 200 && r.body == OneQuestion(s.questions[id])
  {
    if id !in s.questions then Message(404, QuestionNotFound)
    else Reply(200, QuestionFound, OneQuestion(s.questions[id]), KeepCookie)
  }

  /** A posted question can be read back as it was saved, and is listed. */
  method PostThenRead(s: Store, caller: Tokens.Claims, b: QuestionBody, id: Id, nowMs: nat) returns (posted: Reply, read: Reply)
    requires s.Valid() && id !in s.questions
    modifies s
    ensures s.Valid()
    ensures posted.status == 201 ==> posted.body.OneQuestion? && read == Reply(200, QuestionFound, posted.body, KeepCookie)
    ensures posted.status == 201 ==> posted.body.question in SearchResults(s, QuestionQuery(None, None, None))
  {
    posted := PostQuestion(s, caller, b, id, nowMs);
    read := GetQuestionById(s, id);
    if posted.status == 201 {
      SearchResultsExact(s, QuestionQuery(None, None, None));
    }
  }

  /** `updateQuestion`. `caller` is what the request carries as `req.user`:
      the route runs no token check, so as routed it is absent and reading
      its id throws inside the handler's error guard. With a caller: content
      and subject are required and at most three tags accepted before the
      lookup; the owner must still exist (a dangling reference throws) and
      be the caller; tags are kept when none are sent. */
  method UpdateQuestion(s: Store, caller: Option<Tokens.Claims>, id: Id, b: QuestionBody) returns (r: Reply)
    requires s.Valid()
    modifies s
    ensures s.Valid()
    ensures s.users == old(s.users) && s.categories == old(s.categories) && s.outbox == old(s.outbox)
    ensures s.questionOrder == old(s.questionOrder)
    ensures caller.None? ==> r == Message(500, UpdateFailed)
    ensures caller.Some? ==>
              if !Present(b.content) || !Present(b.subject) then r == Message(400, ContentAndSubjectRequired)
              else if b.tags.Some? && |b.tags.value| > MaxTags then r == Message(400, TooManyTags)
              else if id !in old(s.questions) then r == Message(404, QuestionNotFound)
              else if old(s.questions)[id].user !in s.users then r == Message(500, UpdateFailed)
              else if old(s.questions)[id].user != caller.value.id then r == Message(403, NotOwner)
              else
                var q := old(s.questions)[id].(content := b.content.value, subject := b.subject.value,
                                                tags := b.tags.GetOr(old(s.questions)[id].tags));
                if ValidQuestion(q) then s.questions == old(s.questions)[id := q] && r == Reply(200, Updated, OneQuestion(q), KeepCookie)
                else r == Message(500, UpdateFailed)
    ensures r.status != 200 ==> s.questions == old(s.questions)
    ensures r.status == 200 ==>
              && caller.Some? && id in old(s.questions) && old(s.questions)[id].user == caller.value.id
              && s.questions[id].user == old(s.questions)[id].user
              && s.questions[id].createdAt == old(s.questions)[id].createdAt
              && s.questions.Keys == old(s.questions).Keys
  {
    if caller.None? {
      return Message(500, UpdateFailed);
    }
    if !Present(b.content) || !Present(b.subject) {
      return Message(400, ContentAndSubjectRequired);
    }
    if b.tags.Some? && |b.tags.value| > MaxTags {
      return Message(400, TooManyTags);
    }
    if id !in s.questions {
      return Message(404, QuestionNotFound);
    }
    var question := s.questions[id];
    if question.user !in s.users {
      return Message(500, UpdateFailed);
    }
    if question.user != caller.value.id {
      return Message(403, NotOwner);
    }
    var q := question.(content := b.content.value, subject := b.subject.value, tags := b.tags.GetOr(question.tags));
    var err := s.SaveQuestion(q);
    if err.Some? {
      return Message(500, UpdateFailed);
    }
    r := Reply(200, Updated, OneQuestion(q), KeepCookie);
  }

  /** `deleteQuestion`. As for the update, `caller` is `req.user`; here it is
      read before the error guard, so with no caller the returned promise
      rejects and no response is sent (`None`). Otherwise only the owner of
      an existing question with an existing owner may delete it. */
  method DeleteQuestion(s: Store, caller: Option<Tokens.Claims>, id: Id) returns (r: Option<Reply>)
    requires s.Valid()
    modifies s
    ensures s.Valid()
    ensures s.users == old(s.users) && s.categories == old(s.categories) && s.outbox == old(s.outbox)
    ensures caller.None? ==> r.None?
    ensures caller.Some? ==>
              if id !in old(s.questions) then r == Some(Message(404, "Question not found"))
              else if old(s.questions)[id].user !in s.users then r == Some(Message(500, DeleteFailed))
              else if old(s.questions)[id].user != caller.value.id then r == Some(Message(403, NotOwner))
              else r == Some(Message(200, Deleted))
    ensures r == Some(Message(200, Deleted)) ==>
              && s.questions == old(s.questions) - {id}
              && forall q :: q in Listing(s.questions, s.questionOrder)
                             <==> q in Listing(old(s.questions), old(s.questionOrder)) && q.id != id
    ensures r != Some(Message(200, Deleted)) ==> s.questions == old(s.questions) && s.questionOrder == old(s.questionOrder)
  {
    if caller.None? {
      return None;
    }
    if id !in s.questions {
      return Some(Message(404, "Question not found"));
    }
    var question := s.questions[id];
    if question.user !in s.users {
      return Some(Message(500, DeleteFailed));
    }
    if question.user != caller.value.id {
      return Some(Message(403, NotOwner));
    }
    ghost var questions0, order0 := s.questions, s.questionOrder;
    ListingMembers(questions0, order0);
    s.DeleteQuestion(id);
    ListingMembers(s.questions, s.questionOrder);
    WithoutMembers(order0, id);
    r := Some(Message(200, Deleted));
  }
}
