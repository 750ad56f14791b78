/** The question document: content, subject, tags, owning user and
    creation time, with the schema's required, length, enumeration and
    tag-count constraints. */
module QuestionSchema {
  import opened Basics
  import UserSchema

  const ContentMaxLength: nat := 300
  const MaxTags: nat := 3

  /** The fixed tag vocabulary. */
  const TagVocabulary: seq<string> := [
    "Algebra", "Equations", "Photosynthesis", "Newtonian",
    "Grammar", "Shakespeare", "Economics", "World History"]

  /** A question document; `user` is the owner's id and `createdAt` a time in ms. */
  datatype Question = Question(id: Id, content: string, subject: string, tags: seq<string>, user: Id, createdAt: nat)

  /** The `arrayLimit` validator on tags. */
  predicate ArrayLimit(tags: seq<string>) {
    |tags| <= MaxTags
  }

  predicate ValidQuestion(q: Question) {
    && q.content != "" && |q.content| <= ContentMaxLength
    && q.subject in UserSchema.Subjects
    && ArrayLimit(q.tags)
    && (forall t :: t in q.tags ==> t in TagVocabulary)
    && q.user != ""
  }

  /** A new question document as the schema completes it: tags default to
      the empty list and createdAt to the current time. */
  function NewQuestion(id: Id, content: string, subject: string, tags: Option<seq<string>>, owner: Id, nowMs: nat): (q: Question)
    ensures q.id == id && q.user == owner && q.createdAt == nowMs
    ensures tags.None? ==> q.tags == []
  {
    Question(id, content, subject, tags.GetOr([]), owner, nowMs)
  }
}
