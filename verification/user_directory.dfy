/** The user list page of the shop's admin area: its search box and its
    create/edit form. */
module UserDirectory {

  import opened Wrappers
  import opened Seqs
  import opened Text
  import opened Accounts
  import ListSearch
  import Users
  import Auth

  /** The texts the search looks in: name, email and role, lower-cased. */
  function SearchFields(u: UserView): (fs: seq<string>)
    ensures |fs| == 3
  {
    [ToLower(u.name), ToLower(u.email), ToLower(u.role)]
  }

  /** `filteredUsers`: the listed users with the search term in their name,
      email or role, in list order. */
  function FilteredUsers(users: seq<UserView>, term: string): (r: seq<UserView>)
    ensures IsSubseq(r, users)
    ensures forall i :: 0 <= i < |r| ==> ListSearch.AnyIncludes(SearchFields(r[i]), ToLower(term))
    ensures forall i :: 0 <= i < |users| && ListSearch.AnyIncludes(SearchFields(users[i]), ToLower(term)) ==> users[i] in r
  {
    ListSearch.SearchBy(users, SearchFields, term)
  }

  /** An empty term lists everyone; the term's case is ignored; and a longer
      term never lists more. */
  lemma {:induction false} FilterLaws(users: seq<UserView>, term: string, longer: string)
    ensures FilteredUsers(users, "") == users
    ensures FilteredUsers(users, ToLower(term)) == FilteredUsers(users, term)
    ensures Includes(longer, term) ==> IsSubseq(FilteredUsers(users, longer), FilteredUsers(users, term))
  {
    ListSearch.EmptyQueryKeepsAll(users, SearchFields);
    ListSearch.CaseInsensitive(users, SearchFields, term);
    if Includes(longer, term) {
      ListSearch.Narrowing(users, SearchFields, term, longer);
    }
  }

  /** Searching "Admin" in any letter case lists every admin and every
      superadmin, since "admin" occurs in both role names. */
  lemma {:induction false} AdminSearchFindsBothAdminRoles(users: seq<UserView>, term: string)
    requires ToLower(term) == Admin
    ensures forall i :: 0 <= i < |users| && (users[i].role == Admin || users[i].role == SuperAdmin) ==>
              users[i] in FilteredUsers(users, term)
  {
    assert OccursAt(SuperAdmin, Admin, 5);
    IncludesIff(SuperAdmin, Admin);
    IncludesSelf(Admin);
    assert ToLower(Admin) == Admin;
    assert ToLower(SuperAdmin) == SuperAdmin;
    forall i | 0 <= i < |users| && (users[i].role == Admin || users[i].role == SuperAdmin)
      ensures users[i] in FilteredUsers(users, term)
    {
      assert Includes(SearchFields(users[i])[2], ToLower(term));
    }
  }

  // ------------------------------------------------------------- form

  datatype Form = Form(name: string, email: string, password: string, role: string)

  /** The blank form: every field empty and the role "user". */
  const BlankForm: Form := Form("", "", "", Customer)

  /** The form, the id being edited (none while creating), and whether the
      form is shown. */
  datatype Editor = Editor(form: Form, editing: Option<UserId>, visible: bool)

  const Initial: Editor := Editor(BlankForm, None, false)

  datatype FormEvent =
    | OpenCreate
    | StartEdit(user: UserView)
    | Saved(ok: bool)
    | Cancel

  /** What the form's button sends: an update of the user being edited, or
      a registration. */
  datatype FormRequest = UpdateUser(id: UserId, form: Form) | RegisterUser(form: Form)

  function Submit(e: Editor): (r: FormRequest)
    ensures r.UpdateUser? <==> Truthy(e.editing)
    ensures r.form == e.form
  {
    if Truthy(e.editing) then UpdateUser(e.editing.value, e.form) else RegisterUser(e.form)
  }

  /** The form after an event. A failed save only alerts; a successful
      update, a successful create and a cancel all clear the form back to
      the blank form with role "user". */
  function OnEvent(e: Editor, ev: FormEvent): (r: Editor)
    ensures ev == Cancel || ev == Saved(true) ==> r.form == BlankForm && !r.visible
    ensures ev == Saved(false) ==> r == e
    ensures ev.StartEdit? ==>
              r == Editor(Form(ev.user.name, ev.user.email, "", ev.user.role), Some(ev.user.id), true)
  {
    match ev
    case OpenCreate => e.(visible := true)
    case StartEdit(u) => Editor(Form(u.name, u.email, "", u.role), Some(u.id), true)
    case Saved(ok) =>
      if !ok then e
      else if Truthy(e.editing) then Editor(BlankForm, None, false)
      else Editor(BlankForm, e.editing, false)
    case Cancel => Editor(BlankForm, None, false)
  }

  /** Whatever happened before, after a successful save or a cancel the next
      submission is a registration of a plain user, unless an edit is started
      in between. */
  lemma {:induction false} ClosedFormRegisters(e: Editor, ev: FormEvent)
    requires ev == Cancel || ev == Saved(true)
    ensures Submit(OnEvent(e, ev)) == RegisterUser(BlankForm)
    ensures Submit(OnEvent(OnEvent(e, ev), OpenCreate)) == RegisterUser(BlankForm)
  {
  }

  /** Saving an edit that left the password empty keeps the stored password:
      the server drops an empty password. */
  lemma {:induction false} EditKeepsPassword(users: seq<User>, p: Principal, u: UserView, hashed: string)
    requires Users.UpdateUserById(users, p, u.id, EditBody(OnEvent(Initial, StartEdit(u)).form), hashed).result.Ok?
    ensures var o := Users.UpdateUserById(users, p, u.id, EditBody(OnEvent(Initial, StartEdit(u)).form), hashed);
            forall k :: 0 <= k < |users| ==> o.users[k].password == users[k].password
  {
    var body := EditBody(OnEvent(Initial, StartEdit(u)).form);
    Users.UpdateEffect(users, p, u.id, body, hashed);
  }

  /** The update body the form sends: every field present. */
  function EditBody(f: Form): (b: Users.UpdateBody)
    ensures b.name == Some(f.name) && b.email == Some(f.email)
    ensures b.password == Some(f.password) && b.role == Some(f.role)
    ensures b.address.None? && b.contact.None?
  {
    Users.UpdateBody(Some(f.name), Some(f.email), Some(f.password), Some(f.role), None, None)
  }

  /** A registration from the blank form never asks for more than the user
      role: whatever the caller's token, the account is a "user" or refused. */
  lemma {:induction false} BlankFormRegistersUser(users: seq<User>, header: Option<string>, sessions: Auth.Sessions)
    ensures var r := Auth.AssignedRole(users, Some(BlankForm.role), header, sessions);
            r.Ok? ==> r.value == Customer
  {
  }
}
