/**
 * The managers dashboard page (src/app/dashboard/managers/page.tsx): the
 * create and edit dialogs' form, the request the submit handler sends, and
 * the team checkboxes that choose which teams the manager runs.
 */
module ManagersPage {
  import opened Wrappers
  import opened Forms

  /** The dialog's form fields; `teamIds` is the ticked teams in click order. */
  datatype ManagerForm = ManagerForm(
    email: string, password: string, name: string, username: string,
    bio: string, avatar: string, teamIds: seq<string>)

  /** A team as the teams list returns it. */
  datatype TeamRow = TeamRow(id: string, name: string, tag: string, status: string)

  /** A row of the managers list. */
  datatype ManagerRow = ManagerRow(
    id: string, email: string, name: Option<string>, username: Option<string>,
    bio: Option<string>, avatar: Option<string>, managedTeams: seq<TeamRow>)

  /** The JSON body of the save request; `password` is absent unless typed. */
  datatype ManagerPayload = ManagerPayload(
    email: string, name: Option<string>, username: Option<string>, bio: Option<string>,
    avatar: Option<string>, teamIds: seq<string>, password: Option<string>)

  /** What submitting the dialog does: an alert and no request, or one request. */
  datatype Submission =
    | Rejected(alert: string)
    | Send(verb: Verb, url: string, payload: ManagerPayload)

  const PasswordRequired: string := "\U{041F}\U{0430}\U{0440}\U{043E}\U{043B}\U{044C} \U{043E}\U{0431}\U{044F}\U{0437}\U{0430}\U{0442}\U{0435}\U{043B}\U{0435}\U{043D} \U{0434}\U{043B}\U{044F} \U{043D}\U{043E}\U{0432}\U{043E}\U{0433}\U{043E} \U{043C}\U{0435}\U{043D}\U{0435}\U{0434}\U{0436}\U{0435}\U{0440}\U{0430}"

  /** `handleOpenCreate`: every field blank and no team ticked. */
  function BlankForm(): (f: ManagerForm)
    ensures f.email == f.password == f.name == f.username == f.bio == f.avatar == []
    ensures f.teamIds == []
  {
    ManagerForm([], [], [], [], [], [], [])
  }

  /** `toggleTeam`: the checkbox of one team flips; the other fields are untouched. */
  function ToggleTeam(form: ManagerForm, teamId: string): (r: ManagerForm)
    ensures teamId in r.teamIds <==> teamId !in form.teamIds
    ensures forall x :: x != teamId ==> (x in r.teamIds <==> x in form.teamIds)
    ensures teamId !in form.teamIds ==> r.teamIds == form.teamIds + [teamId]
    ensures r.(teamIds := form.teamIds) == form
  {
    form.(teamIds := Toggle(form.teamIds, teamId))
  }

  /**
   * `handleSubmit` up to the request: `editing` is the id of the manager
   * being edited, if any. Creating without a password is refused before
   * any request; an edit may leave the password out.
   */
  function Submit(form: ManagerForm, editing: Option<string>): (r: Submission)
    ensures r.Rejected? <==> editing.None? && form.password == []
    ensures r.Rejected? ==> r.alert == PasswordRequired
    ensures r.Send? ==> (r.verb == PUT <==> editing.Some?)
    ensures r.Send? ==> r.url == if editing.Some? then "/api/managers/" + editing.value else "/api/managers"
    ensures r.Send? ==> r.payload.email == form.email && r.payload.teamIds == form.teamIds
    ensures r.Send? ==> (r.payload.password.Some? <==> form.password != [])
    ensures r.Send? && r.payload.password.Some? ==> r.payload.password.value == form.password
    ensures r.Send? ==>
      && (r.payload.name.None? <==> form.name == [])
      && (r.payload.username.None? <==> form.username == [])
      && (r.payload.bio.None? <==> form.bio == [])
      && (r.payload.avatar.None? <==> form.avatar == [])
    ensures r.Send? ==>
      && (r.payload.name.Some? ==> r.payload.name.value == form.name)
      && (r.payload.username.Some? ==> r.payload.username.value == form.username)
      && (r.payload.bio.Some? ==> r.payload.bio.value == form.bio)
      && (r.payload.avatar.Some? ==> r.payload.avatar.value == form.avatar)
  {
    var url := if editing.Some? then "/api/managers/" + editing.value else "/api/managers";
    var verb := if editing.Some? then PUT else POST;
    var payload := ManagerPayload(
      form.email, NullIfEmpty(form.name), NullIfEmpty(form.username), NullIfEmpty(form.bio),
      NullIfEmpty(form.avatar), form.teamIds, NullIfEmpty(form.password));
    if editing.None? && form.password == [] then Rejected(PasswordRequired)
    else Send(verb, url, payload)
  }

  /** The ids of a list of teams, in list order: `teams.map((t) => t.id)`. */
  function TeamRowIds(teams: seq<TeamRow>): (r: seq<string>)
    ensures |r| == |teams| && forall i :: 0 <= i < |teams| ==> r[i] == teams[i].id
  {
    seq(|teams|, i requires 0 <= i < |teams| => teams[i].id)
  }

  /**
   * `handleOpenEdit`: the stored values with null shown as "", a blank
   * password, and the teams the manager runs ticked, in list order.
   */
  function OpenEdit(m: ManagerRow): (r: ManagerForm)
    ensures r.email == m.email && r.password == []
    ensures r.name == m.name.GetOr([]) && r.username == m.username.GetOr([])
    ensures r.bio == m.bio.GetOr([]) && r.avatar == m.avatar.GetOr([])
    ensures |r.teamIds| == |m.managedTeams|
    ensures forall i :: 0 <= i < |m.managedTeams| ==> r.teamIds[i] == m.managedTeams[i].id
  {
    ManagerForm(
      m.email, [], m.name.GetOr([]), m.username.GetOr([]), m.bio.GetOr([]),
      m.avatar.GetOr([]), TeamRowIds(m.managedTeams))
  }

  /** A brand-new manager cannot be saved from the blank dialog: the password is missing. */
  lemma BlankCreateRejected()
    ensures Submit(BlankForm(), None) == Rejected(PasswordRequired)
  {
  }

  /**
   * Opening a manager and saving without touching the form sends back the
   * stored values (blank ones as null), the teams the manager already runs,
   * and no password, as a PUT to that manager's URL.
   */
  lemma EditUnchangedRoundTrip(m: ManagerRow)
    ensures var r := Submit(OpenEdit(m), Some(m.id));
      && r.Send? && r.verb == PUT && r.url == "/api/managers/" + m.id
      && r.payload.email == m.email
      && r.payload.name == OrNull(m.name)
      && r.payload.username == OrNull(m.username)
      && r.payload.bio == OrNull(m.bio)
      && r.payload.avatar == OrNull(m.avatar)
      && r.payload.teamIds == TeamRowIds(m.managedTeams)
      && r.payload.password.None?
  {
    var f := OpenEdit(m);
    var r := Submit(f, Some(m.id));
    assert r.payload.name == NullIfEmpty(m.name.GetOr([]));
    assert r.payload.username == NullIfEmpty(m.username.GetOr([]));
    assert r.payload.bio == NullIfEmpty(m.bio.GetOr([]));
    assert r.payload.avatar == NullIfEmpty(m.avatar.GetOr([]));
  }

  /**
   * Unticking a team the manager runs, in the edit dialog, sends every other
   * managed team and not that one.
   */
  lemma UntickManagedTeam(m: ManagerRow, i: nat)
    requires i < |m.managedTeams|
    ensures var r := Submit(ToggleTeam(OpenEdit(m), m.managedTeams[i].id), Some(m.id));
      && r.Send?
      && m.managedTeams[i].id !in r.payload.teamIds
      && forall t :: t in m.managedTeams && t.id != m.managedTeams[i].id ==> t.id in r.payload.teamIds
  {
    var f := OpenEdit(m);
    assert f.teamIds[i] == m.managedTeams[i].id;
    forall t | t in m.managedTeams && t.id != m.managedTeams[i].id
      ensures t.id in ToggleTeam(f, m.managedTeams[i].id).teamIds
    {
      var k :| 0 <= k < |m.managedTeams| && m.managedTeams[k] == t;
      assert f.teamIds[k] == t.id;
    }
  }
}
