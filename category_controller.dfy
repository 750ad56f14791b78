/** The category handlers: creating a category, reading the caller's
    preferred categories, and toggling one category in or out of them. */
module CategoryController {
  import opened Basics
  import opened UserSchema
  import opened CategorySchema
  import opened Database
  import opened Http
  import Tokens

  const NameRequired: string := "Category name is required."
  const CategoryCreated: string := "Category created successfully"
  /** Stands for the driver's error message, which the model does not spell out. */
  const SaveFailed: string := "E11000 duplicate key error"
  const UserNotFound: string := "User not found."
  const CategoryIdRequired: string := "Category ID is required."
  const CategoryNotFound: string := "Category not found."
  const ValidationFailedMessage: string := "User validation failed"

  /** `createCategory`: a truthy name is required; a name already taken
      (exactly) fails at the unique index. `id` is the assigned ObjectId. */
  method CreateCategory(s: Store, name: Option<string>, id: Id) returns (r: Reply)
    requires s.Valid() && id !in s.categories
    modifies s
    ensures s.Valid()
    ensures s.users == old(s.users) && s.questions == old(s.questions)
    ensures s.questionOrder == old(s.questionOrder) && s.outbox == old(s.outbox)
    ensures !Present(name) ==> r == Message(400, NameRequired)
    ensures Present(name) && NameTaken(old(s.categories), id, Category(name.value)) ==> r == Message(500, SaveFailed)
    ensures r.status == 201 <==> Present(name) && !NameTaken(old(s.categories), id, Category(name.value))
    ensures r.status == 201 ==>
              && s.categories == old(s.categories)[id := Category(name.value)]
              && r == Reply(201, CategoryCreated, NewCategory(Category(name.value)), KeepCookie)
    ensures r.status != 201 ==> s.categories == old(s.categories)
  {
    if !Present(name) {
      return Message(400, NameRequired);
    }
    var c := Category(name.value);
    var err := s.SaveCategory(id, c);
    if err.Some? {
      return Message(500, SaveFailed);
    }
    r := Reply(201, CategoryCreated, NewCategory(c), KeepCookie);
  }

  /** Creating the same name twice: the second attempt fails. */
  method CreateTwice(s: Store, name: string, id1: Id, id2: Id) returns (first: Reply, second: Reply)
    requires s.Valid() && id1 !in s.categories && id2 !in s.categories && id1 != id2
    modifies s
    ensures s.Valid()
    ensures first.status == 201 ==> second == Message(500, SaveFailed)
  {
    first := CreateCategory(s, Some(name), id1);
    if first.status == 201 {
      assert id1 in s.categories && SameName(s.categories[id1], Category(name));
    }
    second := CreateCategory(s, Some(name), id2);
  }

  /** The unique index compares names exactly: once "Physics" exists,
      "physics" is still a new category. */
  method CreateCaseVariant(s: Store, id1: Id, id2: Id) returns (first: Reply, second: Reply)
    requires s.Valid() && id1 !in s.categories && id2 !in s.categories && id1 != id2
    requires forall k :: k in s.categories ==> s.categories[k].name != "physics"
    modifies s
    ensures s.Valid()
    ensures first.status == 201 ==> second.status == 201
    ensures first.status == 201 ==>
              id1 in s.categories && id2 in s.categories
              && s.categories[id1].name == "Physics" && s.categories[id2].name == "physics"
  {
    first := CreateCategory(s, Some("Physics"), id1);
    second := CreateCategory(s, Some("physics"), id2);
  }

  /** `getUserPreferences`: the caller's preferred categories as stored
      (the path holds strings, so there is nothing to populate). */
  function GetUserPreferences(s: Store, caller: Tokens.Claims): (r: Reply)
    reads s
    ensures caller.id !in s.users ==> r == Message(404, UserNotFound)
    ensures caller.id in s.users ==> r.status == 200 && r.body == Preferences(s.users[caller.id].preferredCategories)
  {
    if caller.id !in s.users then Message(404, UserNotFound)
    else Reply(200, "", Preferences(s.users[caller.id].preferredCategories), KeepCookie)
  }

  /** The toggle: remove every occurrence of a present id, append an absent one. */
  function Toggle(prefs: seq<string>, id: string): seq<string> {
    if id in prefs then Without(prefs, id) else prefs + [id]
  }

  /** What a toggle leaves: the other entries, and the id exactly when it
      was not there before. */
  lemma ToggleMembers(prefs: seq<string>, id: string)
    ensures forall y :: y in Toggle(prefs, id) <==> (y in prefs && y != id) || (y == id && id !in prefs)
    ensures id in Toggle(prefs, id) <==> id !in prefs
  {
    WithoutMembers(prefs, id);
  }

  lemma {:induction false} WithoutAbsent<T>(s: seq<T>, x: T)
    requires x !in s
    ensures Without(s, x) == s
  {
    if s != [] {
      WithoutAbsent(s[1..], x);
    }
  }

  lemma {:induction false} WithoutAppend<T>(s: seq<T>, x: T)
    ensures Without(s + [x], x) == Without(s, x)
  {
    if s != [] {
      assert (s + [x])[1..] == s[1..] + [x];
      WithoutAppend(s[1..], x);
    } else {
      assert [x][1..] == [];
    }
  }

  lemma {:induction false} WithoutMultiset<T>(s: seq<T>, x: T)
    ensures multiset(Without(s, x)) == multiset(s)[x := 0]
  {
    if s != [] {
      WithoutMultiset(s[1..], x);
      assert s == [s[0]] + s[1..];
    }
  }

  /** Toggling an absent id twice gives the list back exactly. */
  lemma ToggleAbsentTwice(prefs: seq<string>, id: string)
    requires id !in prefs
    ensures Toggle(Toggle(prefs, id), id) == prefs
  {
    assert id in prefs + [id];
    WithoutAppend(prefs, id);
    WithoutAbsent(prefs, id);
  }

  /** Toggling a present id twice gives back the same entries in a list
      without repetitions, but the id moves to the end. */
  lemma TogglePresentTwice(prefs: seq<string>, id: string)
    requires NoDuplicates(prefs) && id in prefs
    ensures multiset(Toggle(Toggle(prefs, id), id)) == multiset(prefs)
  {
    var removed := Without(prefs, id);
    WithoutMembers(prefs, id);
    WithoutMultiset(prefs, id);
    NoDuplicatesCountOne(prefs, id);
    assert Toggle(removed, id) == removed + [id];
  }

  lemma {:induction false} NoDuplicatesCountOne<T>(s: seq<T>, x: T)
    requires NoDuplicates(s) && x in s
    ensures multiset(s)[x] == 1
  {
    assert s == [s[0]] + s[1..];
    if s[0] == x {
      assert x !in s[1..];
    } else {
      assert NoDuplicates(s[1..]) by {
        forall i, j | 0 <= i < j < |s[1..]| ensures s[1..][i] != s[1..][j] {
          assert s[i + 1] != s[j + 1];
        }
      }
      NoDuplicatesCountOne(s[1..], x);
    }
  }

  /** The order is not restored: a concrete case. */
  lemma ToggleTwiceReorders()
    ensures Toggle(Toggle(["a", "b"], "a"), "a") == ["b", "a"]
  {
    assert Without(["a", "b"], "a") == ["b"];
  }

  /** The reply message names the category and says which way it went. */
  function ToggleMessage(c: Category, removed: bool): string {
    c.name + (if removed then " removed from preferred categories." else " added to preferred categories.")
  }

  /** `updatePreferredCategories`: toggle `categoryId` in the caller's
      preferences and save the whole document. The path only admits subject
      names, so adding a category id that is not one fails validation, and
      the save also enforces the password requirement. */
  method UpdatePreferredCategories(s: Store, caller: Tokens.Claims, categoryId: Option<string>) returns (r: Reply)
    requires s.Valid()
    modifies s
    ensures s.Valid()
    ensures s.questions == old(s.questions) && s.questionOrder == old(s.questionOrder)
    ensures s.categories == old(s.categories) && s.outbox == old(s.outbox)
    ensures !Present(categoryId) ==> r == Message(400, CategoryIdRequired)
    ensures Present(categoryId) && caller.id !in old(s.users) ==> r == Message(404, UserNotFound)
    ensures Present(categoryId) && caller.id in old(s.users) && categoryId.value !in s.categories ==>
              r == Message(404, CategoryNotFound)
    ensures Present(categoryId) && caller.id in old(s.users) && categoryId.value in s.categories ==>
              var u := old(s.users)[caller.id];
              var toggled := Toggle(u.preferredCategories, categoryId.value);
              if ValidUser(u.(preferredCategories := toggled)) then
                && s.users == old(s.users)[caller.id := u.(preferredCategories := toggled)]
                && r == Reply(200, ToggleMessage(s.categories[categoryId.value], categoryId.value in u.preferredCategories),
                              Preferences(toggled), KeepCookie)
              else r == Message(500, ValidationFailedMessage)
    ensures (Present(categoryId) && caller.id in old(s.users) && categoryId.value in s.categories
             && categoryId.value !in old(s.users)[caller.id].preferredCategories && categoryId.value !in Subjects)
            ==> r == Message(500, ValidationFailedMessage)
    ensures r.status != 200 ==> s.users == old(s.users)
  {
    if !Present(categoryId) {
      return Message(400, CategoryIdRequired);
    }
    if caller.id !in s.users {
      return Message(404, UserNotFound);
    }
    var id := categoryId.value;
    if id !in s.categories {
      return Message(404, CategoryNotFound);
    }
    var u := s.users[caller.id];
    var wasPreferred := id in u.preferredCategories;
    var toggled := Toggle(u.preferredCategories, id);
    ToggleMembers(u.preferredCategories, id);
    var updated := u.(preferredCategories := toggled);
    assert !ClashesWithOther(s.users, caller.id, updated) by {
      forall j | j in s.users && j != caller.id ensures !SharesUniqueKey(s.users[j], updated) {
        assert !SharesUniqueKey(s.users[j], u);
      }
    }
    var err := s.SaveUser(caller.id, updated, false);
    if err.Some? {
      return Message(500, ValidationFailedMessage);
    }
    r := Reply(200, ToggleMessage(s.categories[id], wasPreferred), Preferences(toggled), KeepCookie);
  }
}
