/**
 * The admin users table (src/components/admin/users-table.tsx): the list of
 * users it holds locally and how the create, edit and delete handlers change
 * that list and the dialog form once the request has answered. The requests
 * themselves go to endpoints outside this model; their answer is a parameter
 * (`None` for a failed or thrown request).
 */
module UsersTable {
  import opened Wrappers
  import opened Seqs
  import opened Schema

  /** A row of the table: the selected user columns and `_count.teamMembers`. */
  datatype UserRow = UserRow(
    id: Id, email: string, name: Option<string>, username: Option<string>,
    role: Role, teamMembers: nat)

  /** The user JSON the create and update endpoints answer with. */
  datatype UserRecord = UserRecord(
    id: Id, email: string, name: Option<string>, username: Option<string>, role: Role)

  /** The dialog form; every text field is a (possibly empty) string. */
  datatype UserForm = UserForm(email: string, name: string, username: string, password: string, role: Role)

  /** The component's state: the list, the form, the two dialogs and the user being edited. */
  datatype TableState = TableState(
    users: seq<UserRow>, form: UserForm, createOpen: bool, editOpen: bool, editing: Option<UserRow>)

  /** The form as first shown and as reset after a create: blank, role PLAYER. */
  function BlankForm(): (f: UserForm)
    ensures f.email == f.name == f.username == f.password == [] && f.role == PLAYER
  {
    UserForm([], [], [], [], PLAYER)
  }

  /** `{ ...user, _count: { teamMembers: count } }` */
  function WithCount(u: UserRecord, count: nat): (r: UserRow)
    ensures r.id == u.id && r.email == u.email && r.name == u.name && r.username == u.username
    ensures r.role == u.role && r.teamMembers == count
  {
    UserRow(u.id, u.email, u.name, u.username, u.role, count)
  }

  /** The record a row was made from. */
  function RecordOf(row: UserRow): (u: UserRecord)
    ensures WithCount(u, row.teamMembers) == row
  {
    UserRecord(row.id, row.email, row.name, row.username, row.role)
  }

  /**
   * `handleCreate` once answered: on success the new user is appended with no
   * memberships, the create dialog closes and the form is reset; on failure
   * nothing changes.
   */
  function AfterCreate(st: TableState, created: Option<UserRecord>): (r: TableState)
    ensures created.None? ==> r == st
    ensures created.Some? ==> r.users == st.users + [WithCount(created.value, 0)]
    ensures created.Some? ==> r.form == BlankForm() && !r.createOpen
    ensures r.editOpen == st.editOpen && r.editing == st.editing
  {
    match created
    case None => st
    case Some(u) => st.(users := st.users + [WithCount(u, 0)], createOpen := false, form := BlankForm())
  }

  /**
   * `handleEdit`: the row becomes the one being edited and the form shows
   * its values, null as "", with a blank password.
   */
  function OpenEdit(st: TableState, row: UserRow): (r: TableState)
    ensures r.editing == Some(row) && r.editOpen
    ensures r.form == UserForm(row.email, row.name.GetOr([]), row.username.GetOr([]), [], row.role)
    ensures r.users == st.users && r.createOpen == st.createOpen
  {
    st.(editing := Some(row), editOpen := true,
        form := UserForm(row.email, row.name.GetOr([]), row.username.GetOr([]), [], row.role))
  }

  /** `users.map((u) => u.id === id ? { ...updated, _count: u._count } : u)` */
  function Replace(rows: seq<UserRow>, id: Id, updated: UserRecord): (r: seq<UserRow>)
    ensures |r| == |rows|
    ensures forall i :: 0 <= i < |rows| && rows[i].id != id ==> r[i] == rows[i]
    ensures forall i :: 0 <= i < |rows| && rows[i].id == id ==>
      RecordOf(r[i]) == updated && r[i].teamMembers == rows[i].teamMembers
  {
    seq(|rows|, i requires 0 <= i < |rows| => if rows[i].id == id then WithCount(updated, rows[i].teamMembers) else rows[i])
  }

  /**
   * `handleUpdate` once answered: without a user being edited nothing
   * happens; on success every row with the edited id takes the answered
   * values and keeps its membership count, and the edit dialog closes; on
   * failure nothing changes.
   */
  function AfterUpdate(st: TableState, updated: Option<UserRecord>): (r: TableState)
    ensures st.editing.None? || updated.None? ==> r == st
    ensures st.editing.Some? && updated.Some? ==>
      && r.users == Replace(st.users, st.editing.value.id, updated.value)
      && !r.editOpen && r.editing.None?
      && r.form == st.form && r.createOpen == st.createOpen
  {
    if st.editing.None? || updated.None? then st
    else st.(users := Replace(st.users, st.editing.value.id, updated.value), editOpen := false, editing := None)
  }

  /** The row test of the delete filter: `(u) => u.id !== id`. */
  function Other(id: Id): UserRow -> bool {
    (u: UserRow) => u.id != id
  }

  /** `users.filter((u) => u.id !== id)` */
  function Remove(rows: seq<UserRow>, id: Id): (r: seq<UserRow>)
    ensures forall x :: x in r <==> x in rows && x.id != id
  {
    Filter(rows, Other(id))
  }

  /**
   * `handleDelete` once answered: when the deletion was confirmed and
   * succeeded the user's rows leave the list; otherwise nothing changes.
   */
  function AfterDelete(st: TableState, userId: Id, confirmed: bool, deleted: bool): (r: TableState)
    ensures !(confirmed && deleted) ==> r == st
    ensures confirmed && deleted ==> r.users == Remove(st.users, userId)
    ensures r.form == st.form && r.editing == st.editing
    ensures r.createOpen == st.createOpen && r.editOpen == st.editOpen
  {
    if confirmed && deleted then st.(users := Remove(st.users, userId)) else st
  }

  /** No two rows share an id. */
  predicate DistinctIds(rows: seq<UserRow>) {
    forall i, j :: 0 <= i < j < |rows| ==> rows[i].id != rows[j].id
  }

  /**
   * Deleting keeps the remaining rows in their relative order: any relation
   * between an earlier and a later row before still holds after.
   */
  lemma DeleteKeepsOrder(rows: seq<UserRow>, id: Id, rel: (UserRow, UserRow) -> bool)
    requires forall i, j :: 0 <= i < j < |rows| ==> rel(rows[i], rows[j])
    ensures forall i, j :: 0 <= i < j < |Remove(rows, id)| ==> rel(Remove(rows, id)[i], Remove(rows, id)[j])
  {
    FilterPairwise(rows, Other(id), rel);
  }

  /** Deleting keeps the ids distinct. */
  lemma DeleteKeepsDistinct(rows: seq<UserRow>, id: Id)
    requires DistinctIds(rows)
    ensures DistinctIds(Remove(rows, id))
  {
    DeleteKeepsOrder(rows, id, (a: UserRow, b: UserRow) => a.id != b.id);
  }

  /** Rows of an id that is not listed are all kept. */
  lemma RemoveAbsent(rows: seq<UserRow>, id: Id)
    requires forall i :: 0 <= i < |rows| ==> rows[i].id != id
    ensures Remove(rows, id) == rows
  {
    FilterAll(rows, Other(id));
  }

  /**
   * Creating a user whose id is new and then deleting it gives back the list
   * as it was.
   */
  lemma CreateThenDelete(st: TableState, u: UserRecord)
    requires forall i :: 0 <= i < |st.users| ==> st.users[i].id != u.id
    ensures AfterDelete(AfterCreate(st, Some(u)), u.id, true, true).users == st.users
  {
    var row := WithCount(u, 0);
    FilterConcat(st.users, [row], Other(u.id));
    RemoveAbsent(st.users, u.id);
    assert Filter([row], Other(u.id)) == [];
  }

  /** Applying the same answered update twice is applying it once. */
  lemma ReplaceIdempotent(rows: seq<UserRow>, id: Id, updated: UserRecord)
    requires updated.id == id
    ensures Replace(Replace(rows, id, updated), id, updated) == Replace(rows, id, updated)
  {
  }

  /**
   * Opening a listed user for editing and receiving that user back unchanged
   * leaves the list as it was, and closes the edit dialog.
   */
  lemma EditUnchangedRoundTrip(st: TableState, i: nat)
    requires i < |st.users| && DistinctIds(st.users)
    ensures var r := AfterUpdate(OpenEdit(st, st.users[i]), Some(RecordOf(st.users[i])));
      r.users == st.users && !r.editOpen && r.editing.None?
  {
    var rows := st.users;
    var r := Replace(rows, rows[i].id, RecordOf(rows[i]));
    forall k | 0 <= k < |rows| ensures r[k] == rows[k] {
      if k != i {
        assert rows[k].id != rows[i].id;
      }
    }
  }
}
