/** How query results are assembled: the questions collection listed in
    its natural (insertion) order, a filter, and the `sort({ createdAt })`
    the handlers apply, here an insertion sort on the creation time. */
module Ordering {
  import opened Basics
  import opened QuestionSchema

  /** `createdAt: 1` lists oldest first, `createdAt: -1` newest first. */
  datatype Direction = OldestFirst | NewestFirst

  predicate Precedes(d: Direction, a: Question, b: Question) {
    match d
    case OldestFirst => a.createdAt <= b.createdAt
    case NewestFirst => a.createdAt >= b.createdAt
  }

  predicate Sorted(d: Direction, s: seq<Question>) {
    forall i, j :: 0 <= i < j < |s| ==> Precedes(d, s[i], s[j])
  }

  /** Each document appears at most once. */
  ghost predicate Distinct(s: seq<Question>) {
    forall q :: multiset(s)[q] <= 1
  }

  function Insert(d: Direction, q: Question, s: seq<Question>): seq<Question> {
    if s == [] then [q]
    else if Precedes(d, q, s[0]) then [q] + s
    else [s[0]] + Insert(d, q, s[1..])
  }

  function Sort(d: Direction, s: seq<Question>): seq<Question> {
    if s == [] then [] else Insert(d, s[0], Sort(d, s[1..]))
  }

  lemma {:induction false} InsertPermutes(d: Direction, q: Question, s: seq<Question>)
    ensures multiset(Insert(d, q, s)) == multiset(s) + multiset{q}
  {
    if s != [] && !Precedes(d, q, s[0]) {
      InsertPermutes(d, q, s[1..]);
      assert s == [s[0]] + s[1..];
    }
  }

  /** An element preceding `q` and every element of `s` precedes every
      element of `Insert(d, q, s)`. */
  lemma {:induction false} InsertBounded(d: Direction, x: Question, q: Question, s: seq<Question>)
    requires Precedes(d, x, q)
    requires forall e :: e in s ==> Precedes(d, x, e)
    ensures forall e :: e in Insert(d, q, s) ==> Precedes(d, x, e)
  {
    if s != [] && !Precedes(d, q, s[0]) {
      assert forall e :: e in s[1..] ==> e in s;
      InsertBounded(d, x, q, s[1..]);
    }
  }

  lemma {:induction false} InsertSorted(d: Direction, q: Question, s: seq<Question>)
    requires Sorted(d, s)
    ensures Sorted(d, Insert(d, q, s))
  {
    if s != [] && !Precedes(d, q, s[0]) {
      var rest := Insert(d, q, s[1..]);
      assert Sorted(d, s[1..]) by {
        forall i, j | 0 <= i < j < |s[1..]| ensures Precedes(d, s[1..][i], s[1..][j]) {
          assert s[1..][i] == s[i + 1] && s[1..][j] == s[j + 1];
        }
      }
      InsertSorted(d, q, s[1..]);
      assert forall e :: e in s[1..] ==> Precedes(d, s[0], e) by {
        forall e | e in s[1..] ensures Precedes(d, s[0], e) {
          var k :| 0 <= k < |s[1..]| && s[1..][k] == e;
          assert s[k + 1] == e;
        }
      }
      InsertBounded(d, s[0], q, s[1..]);
      var r := [s[0]] + rest;
      forall i, j | 0 <= i < j < |r| ensures Precedes(d, r[i], r[j]) {
        assert r[j] == rest[j - 1];
        if i > 0 {
          assert r[i] == rest[i - 1];
        } else {
          assert rest[j - 1] in rest;
        }
      }
    }
  }

  /** The sort returns a permutation of its input ... */
  lemma {:induction false} SortPermutes(d: Direction, s: seq<Question>)
    ensures multiset(Sort(d, s)) == multiset(s)
  {
    if s != [] {
      SortPermutes(d, s[1..]);
      InsertPermutes(d, s[0], Sort(d, s[1..]));
      assert s == [s[0]] + s[1..];
    }
  }

  /** ... in the requested order of creation time. */
  lemma {:induction false} SortSorted(d: Direction, s: seq<Question>)
    ensures Sorted(d, Sort(d, s))
  {
    if s != [] {
      SortSorted(d, s[1..]);
      InsertSorted(d, s[0], Sort(d, s[1..]));
    }
  }

  /** The documents a query filter keeps, in the order given. */
  function Where(s: seq<Question>, keep: Question -> bool): seq<Question> {
    if s == [] then []
    else (if keep(s[0]) then [s[0]] else []) + Where(s[1..], keep)
  }

  lemma {:induction false} WhereMembers(s: seq<Question>, keep: Question -> bool)
    ensures forall q :: q in Where(s, keep) <==> q in s && keep(q)
    ensures multiset(Where(s, keep)) <= multiset(s)
  {
    if s != [] {
      WhereMembers(s[1..], keep);
      assert s == [s[0]] + s[1..];
    }
  }

  /** The questions collection in natural order: the document of every id
      in `order` that the collection holds. */
  function Listing(qs: map<Id, Question>, order: seq<Id>): seq<Question> {
    if order == [] then []
    else (if order[0] in qs then [qs[order[0]]] else []) + Listing(qs, order[1..])
  }

  /** Every document is stored under its own id. */
  predicate KeyedById(qs: map<Id, Question>) {
    forall k :: k in qs ==> qs[k].id == k
  }

  /** The listing holds exactly the stored documents whose ids are listed,
      each once. */
  lemma {:induction false} ListingMembers(qs: map<Id, Question>, order: seq<Id>)
    requires KeyedById(qs)
    requires NoDuplicates(order)
    ensures forall q :: q in Listing(qs, order) <==> q.id in order && q.id in qs && qs[q.id] == q
    ensures Distinct(Listing(qs, order))
  {
    if order != [] {
      var rest := Listing(qs, order[1..]);
      ListingMembers(qs, order[1..]);
      assert order == [order[0]] + order[1..];
      if order[0] in qs {
        var q := qs[order[0]];
        assert q !in rest;
        assert multiset(Listing(qs, order)) == multiset{q} + multiset(rest);
      }
    }
  }

  /** A filter keeps distinct documents distinct, and so does the sort. */
  lemma QueryDistinct(s: seq<Question>, keep: Question -> bool, d: Direction)
    requires Distinct(s)
    ensures Distinct(Sort(d, Where(s, keep)))
  {
    WhereMembers(s, keep);
    SortPermutes(d, Where(s, keep));
    forall q ensures multiset(Sort(d, Where(s, keep)))[q] <= 1 {
      assert multiset(Where(s, keep))[q] <= multiset(s)[q];
    }
  }

  /** A find with a filter and a sort on the creation time. */
  function Query(qs: map<Id, Question>, order: seq<Id>, keep: Question -> bool, d: Direction): seq<Question> {
    Sort(d, Where(Listing(qs, order), keep))
  }

  /** A query returns exactly the stored documents the filter keeps, each
      once, in the requested order. */
  lemma QueryExact(qs: map<Id, Question>, order: seq<Id>, keep: Question -> bool, d: Direction)
    requires KeyedById(qs)
    requires NoDuplicates(order)
    ensures var r := Query(qs, order, keep, d);
            && (forall q :: q in r <==> q.id in order && q.id in qs && qs[q.id] == q && keep(q))
            && Sorted(d, r)
            && Distinct(r)
  {
    var listing := Listing(qs, order);
    var kept := Where(listing, keep);
    ListingMembers(qs, order);
    WhereMembers(listing, keep);
    SortPermutes(d, kept);
    SortSorted(d, kept);
    QueryDistinct(listing, keep, d);
    forall q ensures q in Sort(d, kept) <==> q in kept {
      assert q in Sort(d, kept) <==> q in multiset(Sort(d, kept));
    }
  }
}
