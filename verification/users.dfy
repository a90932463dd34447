/**
  The user admin screen: saving a new or edited user, the delete that
  refuses the built-in administrator, and the search over the list.
 */
module Users {
  import opened Text
  import opened Opt
  import opened Seqs
  import opened Records
  import Search

  datatype User = User(id: string, username: string, email: string, role: string, createdAt: string)

  /** The edit form. `id` is `null` (`None`) for a new user. */
  datatype UserForm = UserForm(id: Option<string>, username: string, email: string, role: string, createdAt: string)

  function UserId(u: User): string {
    u.id
  }

  /** `if (formData.id)`: a non-empty id string is truthy. */
  predicate HasId(f: UserForm) {
    f.id.Some? && f.id.value != ""
  }

  /** `initialFormData`, at ISO timestamp `now`: role `'user'`. */
  function BlankForm(now: string): (r: UserForm)
    ensures !HasId(r) && r.role == "user" && r.createdAt == now
  {
    UserForm(None, "", "", "user", now)
  }

  /** `{ ...formData, id, createdAt }`. */
  function Saved(f: UserForm, id: string, createdAt: string): (r: User)
    ensures r.id == id && r.createdAt == createdAt
    ensures r.username == f.username && r.email == f.email && r.role == f.role
  {
    User(id, f.username, f.email, f.role, createdAt)
  }

  /** `handleSubmit`. A form with an id replaces the user with that id by
      the form as it stands (creation time included); a form without one
      appends a user under `newId` created at `now`. */
  function Submit(users: seq<User>, f: UserForm, newId: string, now: string): (r: seq<User>)
    ensures HasId(f) ==>
      && |r| == |users|
      && (forall i :: 0 <= i < |r| ==> r[i].id == users[i].id)
      && (forall i :: 0 <= i < |r| && users[i].id != f.id.value ==> r[i] == users[i])
      && (forall i :: 0 <= i < |r| && users[i].id == f.id.value ==> r[i] == Saved(f, f.id.value, f.createdAt))
    ensures !HasId(f) ==>
      && |r| == |users| + 1
      && r[..|users|] == users
      && r[|users|] == Saved(f, newId, now)
  {
    if HasId(f) then ReplaceWhere(users, UserId, f.id.value, Saved(f, f.id.value, f.createdAt))
    else users + [Saved(f, newId, now)]
  }

  /** `handleEdit`: the form is the user. */
  function EditForm(u: User): (r: UserForm)
    ensures r.id == Some(u.id) && r.createdAt == u.createdAt
    ensures Saved(r, u.id, r.createdAt) == u
  {
    UserForm(Some(u.id), u.username, u.email, u.role, u.createdAt)
  }

  /** Opening a user for editing and saving it unchanged leaves the list as
      it was; saving keeps ids unique given a fresh id for a new user. */
  lemma EditSaveUnchanged(users: seq<User>, j: nat, newId: string, now: string)
    requires UniqueKeys(users, UserId)
    requires j < |users| && users[j].id != ""
    ensures Submit(users, EditForm(users[j]), newId, now) == users
  {
    ReplaceUnique(users, UserId, j, users[j]);
    assert users[j := users[j]] == users;
  }

  lemma SubmitKeepsUnique(users: seq<User>, f: UserForm, newId: string, now: string)
    requires UniqueKeys(users, UserId)
    requires !HasId(f) ==> !HasKey(users, UserId, newId)
    ensures UniqueKeys(Submit(users, f, newId, now), UserId)
  {
    if !HasId(f) {
      AppendFresh(users, UserId, Saved(f, newId, now));
    }
  }

  /** The id and user name of the built-in administrator. */
  const AdminName: string := "admin"

  /** The record the delete refuses to remove. */
  predicate IsBuiltInAdmin(u: User) {
    u.id == AdminName && u.username == AdminName
  }

  predicate HasBuiltInAdmin(users: seq<User>) {
    exists i :: 0 <= i < |users| && IsBuiltInAdmin(users[i])
  }

  /** The list after a delete, and whether the delete was refused. */
  datatype Deletion = Deletion(users: seq<User>, refused: bool)

  /** `handleDelete`: deleting id `'admin'` is refused while a user with that
      id is named `'admin'`; any other delete drops every user with the id. */
  function Delete(users: seq<User>, id: string): (r: Deletion)
    ensures r.refused <==> id == AdminName && HasBuiltInAdmin(users)
    ensures r.refused ==> r.users == users
    ensures !r.refused ==> !HasKey(r.users, UserId, id)
    ensures IsSubsequence(r.users, users)
    ensures !r.refused ==> forall u :: u in r.users <==> u in users && u.id != id
  {
    if id == AdminName && HasBuiltInAdmin(users) then
      SubsequenceRefl(users);
      Deletion(users, true)
    else
      Deletion(RemoveWhere(users, UserId, id), false)
  }

  /** No delete removes the built-in administrator. */
  lemma AdminSurvivesDelete(users: seq<User>, id: string)
    requires HasBuiltInAdmin(users)
    ensures HasBuiltInAdmin(Delete(users, id).users)
  {
    var i :| 0 <= i < |users| && IsBuiltInAdmin(users[i]);
    if id != AdminName {
      var r := Delete(users, id).users;
      assert users[i] in r;
      var k :| 0 <= k < |r| && r[k] == users[i];
    }
  }

  /** Without the built-in administrator, deleting a present user removes
      exactly that user. */
  lemma DeleteOne(users: seq<User>, j: nat)
    requires UniqueKeys(users, UserId) && j < |users|
    requires !(users[j].id == AdminName && HasBuiltInAdmin(users))
    ensures Delete(users, users[j].id).users == users[..j] + users[j + 1..]
  {
    RemoveUnique(users, UserId, j);
  }

  /** The fields the search looks in: user name, email, role. */
  function SearchFields(u: User): (r: seq<string>)
    ensures |r| == 3
  {
    [u.username, u.email, u.role]
  }

  /** The filter condition of `filteredUsers`. */
  predicate Found(u: User, term: string) {
    || Contains(Lower(u.username), Lower(term))
    || Contains(Lower(u.email), Lower(term))
    || Contains(Lower(u.role), Lower(term))
  }

  lemma FoundIff(u: User, term: string)
    ensures Found(u, term) <==> Search.AnyIncludes(SearchFields(u), term)
  {
    var fs := SearchFields(u);
    assert fs[0] == u.username && fs[1] == u.email && fs[2] == u.role;
  }

  /** `filteredUsers`: the users found, in list order. */
  function SearchUsers(users: seq<User>, term: string): (r: seq<User>)
    ensures IsSubsequence(r, users)
    ensures forall u :: u in r <==> u in users && Found(u, term)
  {
    forall u ensures Found(u, term) <==> Search.AnyIncludes(SearchFields(u), term) {
      FoundIff(u, term);
    }
    Search.Search(users, SearchFields, term)
  }

  /** Searching for "ADMIN" finds every user whose role is `'admin'`. */
  lemma SearchFindsRole(users: seq<User>, term: string, j: nat)
    requires term == "ADMIN"
    requires j < |users| && users[j].role == AdminName
    ensures users[j] in SearchUsers(users, term)
  {
    assert Lower(term) == AdminName;
    assert Lower(users[j].role) == AdminName;
    ContainsSelf(AdminName);
  }

  /** The search ignores the case of the term. */
  lemma SearchIgnoresCase(users: seq<User>, term: string)
    ensures SearchUsers(users, Lower(term)) == SearchUsers(users, term)
  {
    Search.SearchIgnoresCase(users, SearchFields, term);
  }
}
