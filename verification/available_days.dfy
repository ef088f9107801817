/** The edit form of the PostgreSQL user list: the available-days
    checkboxes and the form's life cycle. */
module AvailableDays {

  import opened Wrappers
  import opened Seqs

  type Day = string

  function NotDay(day: Day): Day -> bool
  {
    (d: Day) => d != day
  }

  /** A checkbox click: a checked day is removed (every occurrence), an
      unchecked one is appended. */
  function Toggle(days: seq<Day>, day: Day): (r: seq<Day>)
    ensures day in r <==> day !in days
    ensures forall other :: other != day ==> (other in r <==> other in days)
    ensures day in days ==> IsSubseq(r, days)
    ensures day !in days ==> r == days + [day]
    ensures day in days ==> multiset(r) == multiset(days)[day := 0]
  {
    if day in days then
      FilterIsSubseq(days, NotDay(day));
      assert multiset(Filter(days, NotDay(day))) == multiset(days)[day := 0] by {
        forall x ensures multiset(Filter(days, NotDay(day)))[x] == multiset(days)[day := 0][x] {
          FilterMultiplicity(days, NotDay(day), x);
        }
      }
      Filter(days, NotDay(day))
    else days + [day]
  }

  /** Checking and unchecking a day restores the list exactly. */
  lemma {:induction false} ToggleTwiceUnchecked(days: seq<Day>, day: Day)
    requires day !in days
    ensures Toggle(Toggle(days, day), day) == days
  {
    FilterConcat(days, [day], NotDay(day));
    FilterKeepsAll(days, NotDay(day));
    assert Filter([day], NotDay(day)) == [];
  }

  /** Unchecking and re-checking a day keeps the same set of days but moves
      that day to the end, and drops its repeats. */
  lemma {:induction false} ToggleTwiceChecked(days: seq<Day>, day: Day)
    requires day in days
    ensures Toggle(Toggle(days, day), day) == Filter(days, NotDay(day)) + [day]
    ensures forall d :: d in Toggle(Toggle(days, day), day) <==> d in days
  {
  }

  /** A user row as the API returns it. */
  datatype PgUser = PgUser(id: int, name: string, email: string, availableDays: Option<seq<Day>>)

  /** The form: name, email, a chosen image, the checked days. */
  datatype Form = Form(name: string, email: string, image: Option<string>, days: seq<Day>)

  const BlankForm: Form := Form("", "", None, [])

  /** The id being edited, if any, and the form. */
  datatype Editor = Editor(editing: Option<int>, form: Form)

  /** `handleEditClick`: the user's fields, no image, and the user's days or
      none when the user has none. */
  function StartEdit(u: PgUser): (e: Editor)
    ensures e.editing == Some(u.id) && e.form.name == u.name && e.form.email == u.email && e.form.image.None?
    ensures u.availableDays.None? ==> e.form.days == []
    ensures u.availableDays.Some? ==> e.form.days == u.availableDays.value
  {
    Editor(Some(u.id), Form(u.name, u.email, None, u.availableDays.GetOr([])))
  }

  /** The update request `handleUpdate` sends. */
  datatype UpdateRequest = UpdateRequest(id: int, name: string, email: string, image: Option<string>, days: seq<Day>)

  /** `handleUpdate`: no request unless a user is being edited (a zero id
      counts as none); otherwise every form field. */
  function Submit(e: Editor): (r: Option<UpdateRequest>)
    ensures r.None? <==> e.editing.None? || e.editing.value == 0
    ensures r.Some? ==> r.value == UpdateRequest(e.editing.value, e.form.name, e.form.email, e.form.image, e.form.days)
  {
    if e.editing.None? || e.editing.value == 0 then None
    else Some(UpdateRequest(e.editing.value, e.form.name, e.form.email, e.form.image, e.form.days))
  }

  /** After a successful update nothing is being edited and the form is
      blank; after a failed one everything stays. */
  function AfterUpdate(e: Editor, ok: bool): (r: Editor)
    ensures ok ==> Submit(r).None? && r.form == BlankForm
    ensures !ok ==> r == e
  {
    if ok then Editor(None, BlankForm) else e
  }

  /** Opening a user, clicking days and saving sends exactly the days the
      boxes show, starting from the user's own days. */
  lemma {:induction false} EditToggleSubmit(u: PgUser, day: Day)
    requires u.id != 0
    ensures var e := StartEdit(u);
            var e' := e.(form := e.form.(days := Toggle(e.form.days, day)));
            Submit(e') == Some(UpdateRequest(u.id, u.name, u.email, None, Toggle(u.availableDays.GetOr([]), day)))
  {
  }
}
