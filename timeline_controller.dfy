/** The timeline: the questions in the caller's preferred subjects, newest first. */
module TimelineController {
  import opened QuestionSchema
  import opened Ordering
  import opened Database
  import opened Http
  import Tokens

  const UserNotFound: string := "User not found"
  const NoPreferences: string := "No preferred categories set"
  const TimelineFetched: string := "Timeline fetched successfully"

  /** The filter `{ subject: { $in: preferred } }`. */
  function SubjectIn(preferred: seq<string>): Question -> bool {
    (q: Question) => q.subject in preferred
  }

  /** `getTimeline`. */
  function GetTimeline(s: Store, caller: Tokens.Claims): (r: Reply)
    reads s
    ensures caller.id !in s.users ==> r == Message(404, UserNotFound)
    ensures caller.id in s.users && s.users[caller.id].preferredCategories == [] ==> r == Message(400, NoPreferences)
    ensures r.status == 200 <==> caller.id in s.users && s.users[caller.id].preferredCategories != []
    ensures r.status == 200 ==>
              r.body == QuestionList(Query(s.questions, s.questionOrder, SubjectIn(s.users[caller.id].preferredCategories), NewestFirst))
  {
    if caller.id !in s.users then Message(404, UserNotFound)
    else
      var preferred := s.users[caller.id].preferredCategories;
      if preferred == [] then Message(400, NoPreferences)
      else Reply(200, TimelineFetched, QuestionList(Query(s.questions, s.questionOrder, SubjectIn(preferred), NewestFirst)), KeepCookie)
  }

  /** The timeline holds exactly the stored questions in a preferred
      subject, each once, newest first. */
  lemma TimelineExact(s: Store, caller: Tokens.Claims)
    requires s.Valid()
    requires GetTimeline(s, caller).status == 200
    ensures var qs := GetTimeline(s, caller).body.questions;
            var preferred := s.users[caller.id].preferredCategories;
            && (forall q :: q in qs <==> q.id in s.questions && s.questions[q.id] == q && q.subject in preferred)
            && Sorted(NewestFirst, qs)
            && Distinct(qs)
  {
    QueryExact(s.questions, s.questionOrder, SubjectIn(s.users[caller.id].preferredCategories), NewestFirst);
  }
}
