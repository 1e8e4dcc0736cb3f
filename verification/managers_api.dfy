/**
 * `GET /api/managers` and `POST /api/managers` (src/app/api/managers/route.ts):
 * admin-only listing of the MANAGER users with the teams they manage, and
 * the creation of a manager that may take over a list of teams.
 */
module ManagersApi {
  import opened Wrappers
  import opened Seqs
  import opened Schema
  import opened Db

  /** The JSON body of the create request; `teamIds` is `None` when absent or not an array. */
  datatype ManagerBody = ManagerBody(
    email: Option<string>, password: Option<string>, name: Option<string>,
    username: Option<string>, bio: Option<string>, avatar: Option<string>,
    teamIds: Option<seq<Id>>)

  /** A manager with `managedTeams` included. */
  datatype ManagerEntry = ManagerEntry(user: User, managedTeams: seq<TeamSummary>)

  const CredentialsRequired: string := "Email and password are required"
  const EmailExists: string := "User with this email already exists"

  /** The `managedTeams` relation of one user: the summaries of exactly the teams it manages. */
  function ManagedTeams(teams: seq<Team>, managerId: Id): (r: seq<TeamSummary>)
    ensures forall s :: s in r <==>
      exists t :: t in teams && t.managerId == managerId && s == TeamSummary(t.id, t.name, t.tag, t.status)
  {
    var own := Filter(teams, (t: Team) => t.managerId == managerId);
    var r := Summaries(own);
    forall s ensures s in r <==> exists t :: t in teams && t.managerId == managerId && s == TeamSummary(t.id, t.name, t.tag, t.status) {
      if s in r {
        var j :| 0 <= j < |own| && r[j] == s;
        assert own[j] in own;
      }
      if exists t :: t in teams && t.managerId == managerId && s == TeamSummary(t.id, t.name, t.tag, t.status) {
        var t :| t in teams && t.managerId == managerId && s == TeamSummary(t.id, t.name, t.tag, t.status);
        assert t in own;
        var j :| 0 <= j < |own| && own[j] == t;
        assert r[j] == s;
      }
    }
    r
  }

  function Entries(us: seq<User>, teams: seq<Team>): (r: seq<ManagerEntry>)
    ensures |r| == |us|
    ensures forall i :: 0 <= i < |us| ==> r[i] == ManagerEntry(us[i], ManagedTeams(teams, us[i].id))
  {
    seq(|us|, i requires 0 <= i < |us| => ManagerEntry(us[i], ManagedTeams(teams, us[i].id)))
  }

  /**
   * `GET`: 401 unless the caller is ADMIN; otherwise every MANAGER user,
   * newest first, each with the teams whose `managerId` is its id.
   */
  function ListManagers(store: Store, session: Option<SessionUser>): (r: Response<seq<ManagerEntry>>)
    reads store
    ensures r.Error? <==> !IsAdmin(session)
    ensures r.Error? ==> r.status == 401 && r.error == Unauthorized
    ensures r.Ok? ==> r.status == 200 && |r.value| == |OfRole(store.users, MANAGER)|
    ensures r.Ok? ==> forall u :: u in store.users && u.role == MANAGER <==> exists e :: e in r.value && e.user == u
    ensures r.Ok? ==> forall e :: e in r.value ==> e.managedTeams == ManagedTeams(store.teams, e.user.id)
    ensures r.Ok? ==> forall i :: 0 <= i < |r.value| ==>
      var ms := OfRole(store.users, MANAGER);
      r.value[i] == ManagerEntry(ms[|ms| - 1 - i], ManagedTeams(store.teams, ms[|ms| - 1 - i].id))
  {
    if !IsAdmin(session) then Error(401, Unauthorized)
    else
      var managers := Reverse(OfRole(store.users, MANAGER));
      ReverseMembers(OfRole(store.users, MANAGER));
      EntriesCover(managers, store.teams);
      Ok(200, Entries(managers, store.teams))
  }

  /** A user has an entry exactly when it is one of the listed users. */
  lemma EntriesCover(us: seq<User>, teams: seq<Team>)
    ensures forall u :: u in us <==> exists e :: e in Entries(us, teams) && e.user == u
  {
    var r := Entries(us, teams);
    forall u ensures u in us <==> exists e :: e in r && e.user == u {
      if u in us {
        var i :| 0 <= i < |us| && us[i] == u;
        assert r[i] in r && r[i].user == u;
      }
      if exists e :: e in r && e.user == u {
        var e :| e in r && e.user == u;
        var i :| 0 <= i < |r| && r[i] == e;
        assert us[i] == u;
      }
    }
  }

  function ManagerData(body: ManagerBody, hash: string -> string): UserData
    requires body.email.Some? && body.password.Some?
  {
    NewUserData(body.email.value, body.password.value, body.name, body.username, body.bio, body.avatar, MANAGER, hash)
  }

  /** `teamIds && Array.isArray(teamIds) && teamIds.length > 0` */
  predicate AssignsTeams(body: ManagerBody) {
    body.teamIds.Some? && body.teamIds.value != []
  }

  /**
   * `POST`: 401 unless ADMIN; 400 without e-mail and password; 400 when the
   * e-mail is taken; otherwise the MANAGER row is written and, when a
   * non-empty team list was sent, every existing team with a listed id is
   * handed to the new manager (unknown ids are ignored). A username clash
   * answers 500 with nothing written.
   */
  method CreateManager(store: Store, session: Option<SessionUser>, body: ManagerBody, hash: string -> string)
    returns (resp: Response<ManagerEntry>)
    requires store.Valid()
    modifies store
    ensures store.Valid()
    ensures !IsAdmin(session) ==> resp == Error(401, Unauthorized) && store.Contents() == old(store.Contents())
    ensures IsAdmin(session) && !(Present(body.email) && Present(body.password)) ==>
      resp == Error(400, CredentialsRequired) && store.Contents() == old(store.Contents())
    ensures IsAdmin(session) && Present(body.email) && Present(body.password) && EmailTaken(old(store.users), body.email.value) ==>
      resp == Error(400, EmailExists) && store.Contents() == old(store.Contents())
    ensures IsAdmin(session) && Present(body.email) && Present(body.password) && !EmailTaken(old(store.users), body.email.value) ==>
      && (resp.Ok? <==> !UsernameTaken(old(store.users), OrNull(body.username)))
      && (resp.Error? ==> resp == Error(500, InternalError) && store.Contents() == old(store.Contents()))
    ensures resp.Ok? ==>
      && resp.status == 201
      && body.email.Some? && body.password.Some?
      && resp.value.user == ManagerData(body, hash).WithId(old(store.nextId))
      && store.users == old(store.users) + [resp.value.user]
      && store.teams == (if AssignsTeams(body) then Reassigned(old(store.teams), body.teamIds.value, resp.value.user.id) else old(store.teams))
      && resp.value.managedTeams == ManagedTeams(store.teams, resp.value.user.id)
    ensures resp.Ok? ==> forall i :: 0 <= i < |store.teams| ==>
      (store.teams[i].managerId == resp.value.user.id <==> body.teamIds.Some? && old(store.teams)[i].id in body.teamIds.value)
    ensures store.members == old(store.members) && store.games == old(store.games) && store.tournaments == old(store.tournaments)
    ensures store.sessions == old(store.sessions) && store.accounts == old(store.accounts)
  {
    if !IsAdmin(session) {
      return Error(401, Unauthorized);
    }
    if !Present(body.email) || !Present(body.password) {
      return Error(400, CredentialsRequired);
    }
    var existingUser := store.UserByEmail(body.email.value);
    if existingUser.Some? {
      return Error(400, EmailExists);
    }
    resp := InsertManager(store, body, hash);
  }

  /**
   * The writes of an accepted create: the MANAGER row, then the reassignment
   * of the listed teams; 500 with nothing written on a username clash.
   */
  method InsertManager(store: Store, body: ManagerBody, hash: string -> string) returns (resp: Response<ManagerEntry>)
    requires store.Valid()
    requires body.email.Some? && body.password.Some? && !EmailTaken(store.users, body.email.value)
    modifies store
    ensures store.Valid()
    ensures resp.Ok? <==> !UsernameTaken(old(store.users), OrNull(body.username))
    ensures resp.Error? ==> resp == Error(500, InternalError) && store.Contents() == old(store.Contents())
    ensures resp.Ok? ==>
      && resp.status == 201
      && resp.value.user == ManagerData(body, hash).WithId(old(store.nextId))
      && store.users == old(store.users) + [resp.value.user]
      && store.teams == (if AssignsTeams(body) then Reassigned(old(store.teams), body.teamIds.value, resp.value.user.id) else old(store.teams))
      && resp.value.managedTeams == ManagedTeams(store.teams, resp.value.user.id)
    ensures resp.Ok? ==> forall i :: 0 <= i < |store.teams| ==>
      (store.teams[i].managerId == resp.value.user.id <==> body.teamIds.Some? && old(store.teams)[i].id in body.teamIds.value)
    ensures store.members == old(store.members) && store.games == old(store.games) && store.tournaments == old(store.tournaments)
    ensures store.sessions == old(store.sessions) && store.accounts == old(store.accounts)
  {
    NewManagerTeams(store.teams, store.users, store.nextId, if body.teamIds.Some? then body.teamIds.value else []);
    var manager := store.CreateUser(ManagerData(body, hash));
    if manager.None? {
      return Error(500, InternalError);
    }
    if AssignsTeams(body) {
      var ok := store.SetTeamsManager(body.teamIds.value, manager.value.id);
      assert manager.value in store.users;
      assert ok;
    }
    return Ok(201, ManagerEntry(manager.value, ManagedTeams(store.teams, manager.value.id)));
  }

  /**
   * No team is managed by the id the store issues next, so after handing the
   * listed teams to that id it manages exactly the listed ones.
   */
  lemma NewManagerTeams(teams: seq<Team>, users: seq<User>, next: Id, ids: seq<Id>)
    requires UsersOk(users, next) && TeamsOk(teams, users, next)
    ensures forall i :: 0 <= i < |teams| ==> teams[i].managerId != next
    ensures forall i :: 0 <= i < |teams| ==> (Reassigned(teams, ids, next)[i].managerId == next <==> teams[i].id in ids)
  {
    forall i | 0 <= i < |teams| ensures teams[i].managerId != next {
      assert teams[i].managerId in UserIds(users);
    }
    ReassignedRows(teams, ids, next);
  }
}
