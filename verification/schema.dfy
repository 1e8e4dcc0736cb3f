/**
 * The database rows the API routes read and write, the request/response
 * shapes shared by the routes, and the table-level constraints of the schema
 * (unique e-mail, username, team tag, game name and team membership, and the
 * foreign keys from teams, memberships, sessions and accounts to users).
 */
module Schema {
  import opened Wrappers
  import opened Seqs

  /** Row identifiers; the store hands them out from a counter. */
  type Id = nat

  datatype Role = ADMIN | MANAGER | PLAYER

  datatype TeamStatus = ACTIVE | INACTIVE | DISBANDED

  datatype User = User(
    id: Id, email: string, password: string, name: Option<string>,
    username: Option<string>, bio: Option<string>, avatar: Option<string>, role: Role)

  /** The column values of a user about to be inserted. */
  datatype UserData = UserData(
    email: string, password: string, name: Option<string>, username: Option<string>,
    bio: Option<string>, avatar: Option<string>, role: Role)
  {
    function WithId(id: Id): User {
      User(id, email, password, name, username, bio, avatar, role)
    }
  }

  /**
   * The row the create routes insert: the hashed password, and `field || null`
   * for each optional profile field.
   */
  function NewUserData(email: string, password: string, name: Option<string>, username: Option<string>,
                       bio: Option<string>, avatar: Option<string>, role: Role, hash: string -> string): (d: UserData)
    ensures d.email == email && d.password == hash(password) && d.role == role
    ensures d.name == OrNull(name) && d.username == OrNull(username)
    ensures d.bio == OrNull(bio) && d.avatar == OrNull(avatar)
    ensures d.username.Some? ==> d.username.value != []
  {
    UserData(email, hash(password), OrNull(name), OrNull(username), OrNull(bio), OrNull(avatar), role)
  }

  datatype Team = Team(
    id: Id, name: string, tag: string, description: Option<string>,
    status: TeamStatus, managerId: Id)

  /** The team columns the listings select: `{ id, name, tag, status }`. */
  datatype TeamSummary = TeamSummary(id: Id, name: string, tag: string, status: TeamStatus)

  function Summaries(teams: seq<Team>): (r: seq<TeamSummary>)
    ensures |r| == |teams|
    ensures forall i :: 0 <= i < |teams| ==>
      r[i] == TeamSummary(teams[i].id, teams[i].name, teams[i].tag, teams[i].status)
  {
    seq(|teams|, i requires 0 <= i < |teams| => TeamSummary(teams[i].id, teams[i].name, teams[i].tag, teams[i].status))
  }

  datatype TeamMember = TeamMember(id: Id, userId: Id, teamId: Id, role: Option<string>)

  datatype Game = Game(
    id: Id, name: string, description: Option<string>, icon: Option<string>,
    color: Option<string>, playersPerTeam: int)

  /** Dates are kept as the strings the client sent. */
  datatype Tournament = Tournament(
    id: Id, name: string, description: Option<string>, startDate: string,
    endDate: Option<string>, game: Option<string>, status: string)

  /** A row of the `sessions` or `accounts` table; only its owner matters here. */
  datatype AuthRow = AuthRow(id: Id, userId: Id)

  /** The signed-in user as `getServerSession` reports it; `None` is no session. */
  datatype SessionUser = SessionUser(id: Id, role: Role)

  /** An HTTP answer: a status with a JSON body, or a status with `{ error }`. */
  datatype Response<T> = Ok(status: nat, value: T) | Error(status: nat, error: string)

  const Unauthorized: string := "Unauthorized"
  const InternalError: string := "Internal server error"

  /** `session.user.role === "ADMIN"` */
  predicate IsAdmin(session: Option<SessionUser>) {
    session.Some? && session.value.role == ADMIN
  }

  /** `session.user.role` is ADMIN or MANAGER. */
  predicate IsStaff(session: Option<SessionUser>) {
    session.Some? && (session.value.role == ADMIN || session.value.role == MANAGER)
  }

  function UserIds(users: seq<User>): set<Id> {
    set u | u in users :: u.id
  }

  function TeamIds(teams: seq<Team>): set<Id> {
    set t | t in teams :: t.id
  }

  predicate EmailTaken(users: seq<User>, email: string) {
    exists i :: 0 <= i < |users| && users[i].email == email
  }

  predicate UsernameTaken(users: seq<User>, username: Option<string>) {
    username.Some? && exists i :: 0 <= i < |users| && users[i].username == username
  }

  predicate TagTaken(teams: seq<Team>, tag: string) {
    exists i :: 0 <= i < |teams| && teams[i].tag == tag
  }

  predicate GameNameTaken(games: seq<Game>, name: string) {
    exists i :: 0 <= i < |games| && games[i].name == name
  }

  predicate MembershipTaken(members: seq<TeamMember>, userId: Id, teamId: Id) {
    exists i :: 0 <= i < |members| && members[i].userId == userId && members[i].teamId == teamId
  }

  /** Two user rows may coexist: different ids, e-mails and (non-null) usernames. */
  predicate UsersDistinct(a: User, b: User) {
    a.id != b.id && a.email != b.email && (a.username.Some? ==> a.username != b.username)
  }

  /** Users: ids issued below `next`, and every two rows distinct. */
  predicate UsersOk(users: seq<User>, next: Id) {
    && (forall i :: 0 <= i < |users| ==> users[i].id < next)
    && (forall i, j :: 0 <= i < j < |users| ==> UsersDistinct(users[i], users[j]))
  }

  /** Teams: ids issued and distinct, tags unique, every manager an existing user. */
  predicate TeamsOk(teams: seq<Team>, users: seq<User>, next: Id) {
    && (forall i :: 0 <= i < |teams| ==> teams[i].id < next && teams[i].managerId in UserIds(users))
    && (forall i, j :: 0 <= i < j < |teams| ==> teams[i].id != teams[j].id && teams[i].tag != teams[j].tag)
  }

  /** Memberships: ids issued and distinct, one row per (user, team), both ends existing. */
  predicate MembersOk(members: seq<TeamMember>, users: seq<User>, teams: seq<Team>, next: Id) {
    && (forall i :: 0 <= i < |members| ==>
          members[i].id < next && members[i].userId in UserIds(users) && members[i].teamId in TeamIds(teams))
    && (forall i, j :: 0 <= i < j < |members| ==> MembersDistinct(members[i], members[j]))
  }

  /** Two membership rows may coexist: different ids and different (user, team) pairs. */
  predicate MembersDistinct(a: TeamMember, b: TeamMember) {
    a.id != b.id && (a.userId, a.teamId) != (b.userId, b.teamId)
  }

  predicate AuthRowsDistinct(a: AuthRow, b: AuthRow) {
    a.id != b.id
  }

  /** Games: ids issued and distinct, names unique. */
  predicate GamesOk(games: seq<Game>, next: Id) {
    && (forall i :: 0 <= i < |games| ==> games[i].id < next)
    && (forall i, j :: 0 <= i < j < |games| ==> games[i].id != games[j].id && games[i].name != games[j].name)
  }

  predicate TournamentsOk(tournaments: seq<Tournament>, next: Id) {
    && (forall i :: 0 <= i < |tournaments| ==> tournaments[i].id < next)
    && (forall i, j :: 0 <= i < j < |tournaments| ==> tournaments[i].id != tournaments[j].id)
  }

  /** Sessions and accounts: ids issued and distinct, every owner an existing user. */
  predicate AuthRowsOk(rows: seq<AuthRow>, users: seq<User>, next: Id) {
    && (forall i :: 0 <= i < |rows| ==> rows[i].id < next && rows[i].userId in UserIds(users))
    && (forall i, j :: 0 <= i < j < |rows| ==> AuthRowsDistinct(rows[i], rows[j]))
  }

  /** The user rows with a given id: at most one while ids are distinct. */
  function UsersWithId(users: seq<User>, id: Id): seq<User> {
    Filter(users, (u: User) => u.id == id)
  }

  /** The membership rows of one user, in table order. */
  function MembershipsOf(members: seq<TeamMember>, userId: Id): seq<TeamMember> {
    Filter(members, (m: TeamMember) => m.userId == userId)
  }

  /** The session or account rows of one user, in table order. */
  function RowsOf(rows: seq<AuthRow>, userId: Id): seq<AuthRow> {
    Filter(rows, (a: AuthRow) => a.userId == userId)
  }

  /** The users of one role, in table order. */
  function OfRole(users: seq<User>, role: Role): seq<User> {
    Filter(users, (u: User) => u.role == role)
  }

  /** Adding a user extends the id set by exactly the new id. */
  lemma UserIdsSnoc(users: seq<User>, u: User)
    ensures UserIds(users + [u]) == UserIds(users) + {u.id}
  {
    assert forall v :: v in users + [u] <==> v in users || v == u;
  }

  lemma TeamIdsSnoc(teams: seq<Team>, t: Team)
    ensures TeamIds(teams + [t]) == TeamIds(teams) + {t.id}
  {
    assert forall v :: v in teams + [t] <==> v in teams || v == t;
  }
}
