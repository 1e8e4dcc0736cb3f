/**
 * The database behind the API routes, as one object whose tables the Prisma
 * calls read and replace. Every write that the schema's constraints would
 * refuse (a duplicate e-mail, username, tag, game name or membership, a
 * missing user or team behind a foreign key, deleting a user who still
 * manages a team) leaves the tables as they were and reports failure; the
 * routes turn that failure into their 500 answer.
 */
module Db {
  import opened Wrappers
  import opened Seqs
  import opened Schema

  /** A membership to create inside a nested `team.create`: user and optional role. */
  datatype NewMember = NewMember(userId: Id, role: Option<string>)

  /** The rows a nested create adds, numbered from `firstId`. */
  function NewMemberRows(firstId: Id, teamId: Id, specs: seq<NewMember>): (r: seq<TeamMember>)
    ensures |r| == |specs|
    ensures forall k :: 0 <= k < |specs| ==>
      r[k] == TeamMember(firstId + k, specs[k].userId, teamId, specs[k].role)
  {
    seq(|specs|, k requires 0 <= k < |specs| => TeamMember(firstId + k, specs[k].userId, teamId, specs[k].role))
  }

  predicate DistinctUsers(specs: seq<NewMember>) {
    forall k, l :: 0 <= k < l < |specs| ==> specs[k].userId != specs[l].userId
  }

  /** `team.updateMany({ where: { id: { in: ids } }, data: { managerId } })` on a list of teams. */
  function Reassigned(teams: seq<Team>, ids: seq<Id>, managerId: Id): (r: seq<Team>)
    ensures |r| == |teams|
  {
    seq(|teams|, i requires 0 <= i < |teams| =>
      if teams[i].id in ids then teams[i].(managerId := managerId) else teams[i])
  }

  /**
   * Reassignment touches exactly the listed teams, and only their manager:
   * every other column and every unlisted team is unchanged.
   */
  lemma ReassignedRows(teams: seq<Team>, ids: seq<Id>, managerId: Id)
    ensures forall i :: 0 <= i < |teams| ==>
      var t, u := teams[i], Reassigned(teams, ids, managerId)[i];
      && u.id == t.id && u.name == t.name && u.tag == t.tag
      && u.description == t.description && u.status == t.status
      && u.managerId == if t.id in ids then managerId else t.managerId
    ensures ids == [] ==> Reassigned(teams, ids, managerId) == teams
  {
  }

  /** A team inserted with its nested memberships keeps the membership constraints. */
  lemma NestedCreateOk(members: seq<TeamMember>, users: seq<User>, teams: seq<Team>, next: Id, t: Team, specs: seq<NewMember>)
    requires MembersOk(members, users, teams, next) && TeamsOk(teams, users, next)
    requires t.id == next && DistinctUsers(specs)
    requires forall k :: 0 <= k < |specs| ==> specs[k].userId in UserIds(users)
    ensures MembersOk(members + NewMemberRows(next + 1, next, specs), users, teams + [t], next + 1 + |specs|)
  {
    var rows := NewMemberRows(next + 1, next, specs);
    var all := members + rows;
    var next' := next + 1 + |specs|;
    TeamIdsSnoc(teams, t);
    forall x | x in TeamIds(teams) ensures x < next {
      var u :| u in teams && u.id == x;
    }
    forall i | 0 <= i < |all|
      ensures all[i].id < next' && all[i].userId in UserIds(users) && all[i].teamId in TeamIds(teams + [t])
    {
      if i >= |members| {
        assert all[i] == rows[i - |members|];
      }
    }
    forall i, j | 0 <= i < j < |all| ensures MembersDistinct(all[i], all[j]) {
      if j < |members| {
      } else if i < |members| {
        assert all[j] == rows[j - |members|];
        assert all[i].teamId in TeamIds(teams);
      } else {
        assert all[i] == rows[i - |members|] && all[j] == rows[j - |members|];
      }
    }
  }

  /** A team with a fresh id, an unused tag and an existing manager keeps the team constraints. */
  lemma TeamInsertOk(teams: seq<Team>, users: seq<User>, next: Id, t: Team, used: nat)
    requires TeamsOk(teams, users, next)
    requires t.id == next && !TagTaken(teams, t.tag) && t.managerId in UserIds(users) && used >= 1
    ensures TeamsOk(teams + [t], users, next + used)
  {
    var all := teams + [t];
    forall i, j | 0 <= i < j < |all| ensures all[i].id != all[j].id && all[i].tag != all[j].tag {
      if j == |teams| {
        assert all[i] == teams[i];
      }
    }
  }

  /** Issuing more ids keeps the constraints of the tables an insert leaves alone. */
  lemma IdsIssued(users: seq<User>, games: seq<Game>, tournaments: seq<Tournament>,
                  sessions: seq<AuthRow>, accounts: seq<AuthRow>, next: Id, next': Id)
    requires UsersOk(users, next) && GamesOk(games, next) && TournamentsOk(tournaments, next)
    requires AuthRowsOk(sessions, users, next) && AuthRowsOk(accounts, users, next)
    requires next <= next'
    ensures UsersOk(users, next') && GamesOk(games, next') && TournamentsOk(tournaments, next')
    ensures AuthRowsOk(sessions, users, next') && AuthRowsOk(accounts, users, next')
  {
  }

  /**
   * Keeping only user `keep` (and the rows that belong to it) keeps the
   * user, team and membership constraints, provided `keep` manages every team.
   */
  lemma KeepOneUserOk(users: seq<User>, teams: seq<Team>, members: seq<TeamMember>, next: Id, keep: Id)
    requires UsersOk(users, next) && TeamsOk(teams, users, next) && MembersOk(members, users, teams, next)
    requires forall i :: 0 <= i < |teams| ==> teams[i].managerId == keep
    ensures var kept := UsersWithId(users, keep);
      && UsersOk(kept, next)
      && TeamsOk(teams, kept, next)
      && MembersOk(MembershipsOf(members, keep), kept, teams, next)
  {
    var kept := UsersWithId(users, keep);
    var keptMembers := MembershipsOf(members, keep);
    FilterPairwise(users, (u: User) => u.id == keep, UsersDistinct);
    FilterPairwise(members, (m: TeamMember) => m.userId == keep, MembersDistinct);
    KeptUserIds(users, keep);
    forall i | 0 <= i < |kept| ensures kept[i].id < next {
      assert kept[i] in kept;
    }
    forall i | 0 <= i < |teams| ensures teams[i].managerId in UserIds(kept) {
      assert teams[i].managerId in UserIds(users);
    }
    forall i | 0 <= i < |keptMembers|
      ensures keptMembers[i].id < next && keptMembers[i].userId in UserIds(kept) && keptMembers[i].teamId in TeamIds(teams)
    {
      assert keptMembers[i] in keptMembers;
      var k :| 0 <= k < |members| && members[k] == keptMembers[i];
    }
  }

  /** The same for the sessions or accounts of the kept user. */
  lemma KeepOneUserRowsOk(rows: seq<AuthRow>, users: seq<User>, next: Id, keep: Id)
    requires AuthRowsOk(rows, users, next)
    ensures AuthRowsOk(RowsOf(rows, keep), UsersWithId(users, keep), next)
  {
    var kept := RowsOf(rows, keep);
    FilterPairwise(rows, (a: AuthRow) => a.userId == keep, AuthRowsDistinct);
    KeptUserIds(users, keep);
    forall i | 0 <= i < |kept| ensures kept[i].id < next && kept[i].userId in UserIds(UsersWithId(users, keep)) {
      assert kept[i] in kept;
      var k :| 0 <= k < |rows| && rows[k] == kept[i];
    }
  }

  lemma KeptUserIds(users: seq<User>, keep: Id)
    ensures UserIds(UsersWithId(users, keep)) == UserIds(users) * {keep}
  {
    var kept := UsersWithId(users, keep);
    forall x | x in UserIds(users) * {keep} ensures x in UserIds(kept) {
      var u :| u in users && u.id == x;
      assert u in kept;
    }
  }

  /** Every table of the store at one moment, with the id counter. */
  datatype Tables = Tables(
    users: seq<User>, teams: seq<Team>, members: seq<TeamMember>, games: seq<Game>,
    tournaments: seq<Tournament>, sessions: seq<AuthRow>, accounts: seq<AuthRow>, nextId: Id)

  /** The tables once every user but `keep` is deleted, the deletion cascading to their rows. */
  function Kept(t: Tables, keep: Id): Tables {
    t.(users := UsersWithId(t.users, keep), members := MembershipsOf(t.members, keep),
       sessions := RowsOf(t.sessions, keep), accounts := RowsOf(t.accounts, keep))
  }

  /** The schema's constraints on one snapshot of the tables. */
  predicate TablesOk(t: Tables) {
    && UsersOk(t.users, t.nextId)
    && TeamsOk(t.teams, t.users, t.nextId)
    && MembersOk(t.members, t.users, t.teams, t.nextId)
    && GamesOk(t.games, t.nextId)
    && TournamentsOk(t.tournaments, t.nextId)
    && AuthRowsOk(t.sessions, t.users, t.nextId)
    && AuthRowsOk(t.accounts, t.users, t.nextId)
  }

  lemma KeptOk(t: Tables, keep: Id)
    requires TablesOk(t)
    requires forall i :: 0 <= i < |t.teams| ==> t.teams[i].managerId == keep
    ensures TablesOk(Kept(t, keep))
  {
    KeepOneUserOk(t.users, t.teams, t.members, t.nextId, keep);
    KeepOneUserRowsOk(t.sessions, t.users, t.nextId, keep);
    KeepOneUserRowsOk(t.accounts, t.users, t.nextId, keep);
  }

  /** A user with a fresh id, an unused e-mail and an unused username keeps the constraints. */
  lemma UserInsertOk(t: Tables, u: User)
    requires TablesOk(t)
    requires u.id == t.nextId && !EmailTaken(t.users, u.email) && !UsernameTaken(t.users, u.username)
    ensures TablesOk(t.(users := t.users + [u], nextId := t.nextId + 1))
  {
    var all := t.users + [u];
    UserIdsSnoc(t.users, u);
    forall i, j | 0 <= i < j < |all| ensures UsersDistinct(all[i], all[j]) {
      if j == |t.users| {
        assert all[i] == t.users[i];
      }
    }
  }

  /** A membership with a fresh id, existing ends and an unused (user, team) pair keeps the constraints. */
  lemma MemberInsertOk(t: Tables, m: TeamMember)
    requires TablesOk(t)
    requires m.id == t.nextId && m.userId in UserIds(t.users) && m.teamId in TeamIds(t.teams)
    requires !MembershipTaken(t.members, m.userId, m.teamId)
    ensures TablesOk(t.(members := t.members + [m], nextId := t.nextId + 1))
  {
    var all := t.members + [m];
    forall i, j | 0 <= i < j < |all| ensures MembersDistinct(all[i], all[j]) {
      if j == |t.members| {
        assert all[i] == t.members[i];
      }
    }
  }

  /** The tables after an accepted nested `team.create`. */
  function WithTeam(t: Tables, team: Team, specs: seq<NewMember>): Tables {
    t.(teams := t.teams + [team], members := t.members + NewMemberRows(t.nextId + 1, t.nextId, specs),
       nextId := t.nextId + 1 + |specs|)
  }

  lemma TeamCreateOk(t: Tables, team: Team, specs: seq<NewMember>)
    requires TablesOk(t)
    requires team.id == t.nextId && !TagTaken(t.teams, team.tag) && team.managerId in UserIds(t.users)
    requires (forall k :: 0 <= k < |specs| ==> specs[k].userId in UserIds(t.users)) && DistinctUsers(specs)
    ensures TablesOk(WithTeam(t, team, specs))
  {
    NestedCreateOk(t.members, t.users, t.teams, t.nextId, team, specs);
    TeamInsertOk(t.teams, t.users, t.nextId, team, 1 + |specs|);
    IdsIssued(t.users, t.games, t.tournaments, t.sessions, t.accounts, t.nextId, t.nextId + 1 + |specs|);
  }

  /** Reassigning teams to an existing user keeps the constraints. */
  lemma ReassignOk(t: Tables, ids: seq<Id>, managerId: Id)
    requires TablesOk(t) && managerId in UserIds(t.users)
    ensures TablesOk(t.(teams := Reassigned(t.teams, ids, managerId)))
  {
    var updated := Reassigned(t.teams, ids, managerId);
    ReassignedRows(t.teams, ids, managerId);
    assert TeamIds(updated) == TeamIds(t.teams) by {
      forall x | x in TeamIds(t.teams) ensures x in TeamIds(updated) {
        var team :| team in t.teams && team.id == x;
        var k :| 0 <= k < |t.teams| && t.teams[k] == team;
        assert updated[k].id == x;
      }
      forall x | x in TeamIds(updated) ensures x in TeamIds(t.teams) {
        var team :| team in updated && team.id == x;
        var k :| 0 <= k < |updated| && updated[k] == team;
        assert t.teams[k].id == x;
      }
    }
  }

  lemma GameInsertOk(t: Tables, g: Game)
    requires TablesOk(t) && g.id == t.nextId && !GameNameTaken(t.games, g.name)
    ensures TablesOk(t.(games := t.games + [g], nextId := t.nextId + 1))
  {
    var all := t.games + [g];
    forall i, j | 0 <= i < j < |all| ensures all[i].id != all[j].id && all[i].name != all[j].name {
      if j == |t.games| {
        assert all[i] == t.games[i];
      }
    }
  }

  lemma TournamentInsertOk(t: Tables, x: Tournament)
    requires TablesOk(t) && x.id == t.nextId
    ensures TablesOk(t.(tournaments := t.tournaments + [x], nextId := t.nextId + 1))
  {
    var all := t.tournaments + [x];
    forall i, j | 0 <= i < j < |all| ensures all[i].id != all[j].id {
      if j == |t.tournaments| {
        assert all[i] == t.tournaments[i];
      }
    }
  }

  class Store {
    var users: seq<User>
    var teams: seq<Team>
    var members: seq<TeamMember>
    var games: seq<Game>
    var tournaments: seq<Tournament>
    var sessions: seq<AuthRow>
    var accounts: seq<AuthRow>
    /** The id the next inserted row receives. */
    var nextId: Id

    /** The schema's constraints hold. */
    predicate Valid()
      reads this
    {
      && UsersOk(users, nextId)
      && TeamsOk(teams, users, nextId)
      && MembersOk(members, users, teams, nextId)
      && GamesOk(games, nextId)
      && TournamentsOk(tournaments, nextId)
      && AuthRowsOk(sessions, users, nextId)
      && AuthRowsOk(accounts, users, nextId)
    }

    /** The whole content of the store, so that "nothing was written" is one equation. */
    function Contents(): Tables
      reads this
    {
      Tables(users, teams, members, games, tournaments, sessions, accounts, nextId)
    }

    constructor ()
      ensures Valid()
      ensures users == [] && teams == [] && members == [] && games == []
      ensures tournaments == [] && sessions == [] && accounts == []
    {
      users, teams, members, games := [], [], [], [];
      tournaments, sessions, accounts := [], [], [];
      nextId := 0;
    }

    /** `user.findUnique({ where: { email } })` */
    function UserByEmail(email: string): (r: Option<User>)
      reads this
      ensures r.Some? <==> EmailTaken(users, email)
      ensures r.Some? ==> r.value in users && r.value.email == email
    {
      FindFirst(users, (u: User) => u.email == email)
    }

    /** `user.findUnique({ where: { id } })` */
    function UserById(id: Id): (r: Option<User>)
      reads this
      ensures r.Some? <==> id in UserIds(users)
      ensures r.Some? ==> r.value in users && r.value.id == id
    {
      FindFirst(users, (u: User) => u.id == id)
    }

    /** `team.findUnique({ where: { tag } })` */
    function TeamByTag(tag: string): (r: Option<Team>)
      reads this
      ensures r.Some? <==> TagTaken(teams, tag)
      ensures r.Some? ==> r.value in teams && r.value.tag == tag
    {
      FindFirst(teams, (t: Team) => t.tag == tag)
    }

    /** `game.findUnique({ where: { name } })` */
    function GameByName(name: string): (r: Option<Game>)
      reads this
      ensures r.Some? <==> GameNameTaken(games, name)
      ensures r.Some? ==> r.value in games && r.value.name == name
    {
      FindFirst(games, (g: Game) => g.name == name)
    }

    /** `tournament.findFirst({ where: { name } })` */
    function TournamentByName(name: string): (r: Option<Tournament>)
      reads this
      ensures r.Some? <==> exists i :: 0 <= i < |tournaments| && tournaments[i].name == name
      ensures r.Some? ==> r.value in tournaments && r.value.name == name
    {
      FindFirst(tournaments, (t: Tournament) => t.name == name)
    }

    /**
     * `user.create`: refused when the e-mail or the (non-null) username is
     * already taken; otherwise the row is appended with a fresh id.
     */
    method CreateUser(data: UserData) returns (r: Option<User>)
      requires Valid()
      modifies this
      ensures Valid()
      ensures r.Some? <==> !EmailTaken(old(users), data.email) && !UsernameTaken(old(users), data.username)
      ensures r.Some? ==> r.value == data.WithId(old(nextId)) && users == old(users) + [r.value] && nextId == old(nextId) + 1
      ensures r.None? ==> users == old(users) && nextId == old(nextId)
      ensures teams == old(teams) && members == old(members) && games == old(games)
      ensures tournaments == old(tournaments) && sessions == old(sessions) && accounts == old(accounts)
    {
      if UserByEmail(data.email).Some? || (data.username.Some? && FindFirst(users, (u: User) => u.username == data.username).Some?) {
        return None;
      }
      var u := data.WithId(nextId);
      var t := Contents();
      UserInsertOk(t, u);
      Put(t.(users := t.users + [u], nextId := t.nextId + 1));
      r := Some(u);
    }

    /**
     * `teamMember.create`: refused when the user or the team does not exist
     * or the user is already on that team.
     */
    method CreateTeamMember(userId: Id, teamId: Id, role: Option<string>) returns (r: Option<TeamMember>)
      requires Valid()
      modifies this
      ensures Valid()
      ensures r.Some? <==> userId in UserIds(users) && teamId in TeamIds(teams) && !MembershipTaken(old(members), userId, teamId)
      ensures r.Some? ==> r.value == TeamMember(old(nextId), userId, teamId, role) && members == old(members) + [r.value] && nextId == old(nextId) + 1
      ensures r.None? ==> members == old(members) && nextId == old(nextId)
      ensures users == old(users) && teams == old(teams) && games == old(games)
      ensures tournaments == old(tournaments) && sessions == old(sessions) && accounts == old(accounts)
    {
      if userId !in UserIds(users) || teamId !in TeamIds(teams) ||
         FindFirst(members, (m: TeamMember) => m.userId == userId && m.teamId == teamId).Some? {
        return None;
      }
      var m := TeamMember(nextId, userId, teamId, role);
      var t := Contents();
      MemberInsertOk(t, m);
      Put(t.(members := t.members + [m], nextId := t.nextId + 1));
      r := Some(m);
    }

    /**
     * `team.create` with nested `members: { create: [...] }`: the team and all
     * its memberships are written together, or nothing is written when the
     * tag is taken, the manager or a member is not a user, or a user is
     * listed twice.
     */
    method CreateTeam(name: string, tag: string, description: Option<string>, status: TeamStatus,
                      managerId: Id, specs: seq<NewMember>) returns (r: Option<Team>)
      requires Valid()
      modifies this
      ensures Valid()
      ensures r.Some? <==>
        && !TagTaken(old(teams), tag) && managerId in UserIds(users)
        && (forall k :: 0 <= k < |specs| ==> specs[k].userId in UserIds(users))
        && DistinctUsers(specs)
      ensures r.Some? ==>
        && r.value == Team(old(nextId), name, tag, description, status, managerId)
        && teams == old(teams) + [r.value]
        && members == old(members) + NewMemberRows(old(nextId) + 1, old(nextId), specs)
        && nextId == old(nextId) + 1 + |specs|
      ensures r.None? ==> teams == old(teams) && members == old(members) && nextId == old(nextId)
      ensures users == old(users) && games == old(games)
      ensures tournaments == old(tournaments) && sessions == old(sessions) && accounts == old(accounts)
    {
      if TeamByTag(tag).Some? || managerId !in UserIds(users) {
        return None;
      }
      if !(forall k :: 0 <= k < |specs| ==> specs[k].userId in UserIds(users)) || !DistinctUsers(specs) {
        return None;
      }
      var t := Team(nextId, name, tag, description, status, managerId);
      InsertTeam(t, specs);
      r := Some(t);
    }

    /** The write of an accepted `team.create`: the team, then its memberships numbered after it. */
    method InsertTeam(t: Team, specs: seq<NewMember>)
      requires Valid()
      requires t.id == nextId && !TagTaken(teams, t.tag) && t.managerId in UserIds(users)
      requires (forall k :: 0 <= k < |specs| ==> specs[k].userId in UserIds(users)) && DistinctUsers(specs)
      modifies this
      ensures Valid()
      ensures teams == old(teams) + [t]
      ensures members == old(members) + NewMemberRows(old(nextId) + 1, old(nextId), specs)
      ensures nextId == old(nextId) + 1 + |specs|
      ensures users == old(users) && games == old(games)
      ensures tournaments == old(tournaments) && sessions == old(sessions) && accounts == old(accounts)
    {
      var tables := Contents();
      TeamCreateOk(tables, t, specs);
      Put(WithTeam(tables, t, specs));
    }

    /**
     * `team.updateMany` setting `managerId` on the teams whose id is listed;
     * refused when the new manager is not a user.
     */
    method SetTeamsManager(ids: seq<Id>, managerId: Id) returns (ok: bool)
      requires Valid()
      modifies this
      ensures Valid()
      ensures ok <==> managerId in UserIds(users)
      ensures teams == if ok then Reassigned(old(teams), ids, managerId) else old(teams)
      ensures users == old(users) && members == old(members) && games == old(games) && nextId == old(nextId)
      ensures tournaments == old(tournaments) && sessions == old(sessions) && accounts == old(accounts)
    {
      if managerId !in UserIds(users) {
        return false;
      }
      var updated: seq<Team> := [];
      for i := 0 to |teams|
        invariant |updated| == i
        invariant forall k :: 0 <= k < i ==> updated[k] == Reassigned(teams, ids, managerId)[k]
      {
        var t := teams[i];
        if t.id in ids {
          t := t.(managerId := managerId);
        }
        updated := updated + [t];
      }
      assert updated == Reassigned(teams, ids, managerId);
      var tables := Contents();
      ReassignOk(tables, ids, managerId);
      Put(tables.(teams := updated));
      ok := true;
    }

    /** `game.create`: refused when the name is taken. */
    method CreateGame(name: string, description: Option<string>, icon: Option<string>,
                      color: Option<string>, playersPerTeam: int) returns (r: Option<Game>)
      requires Valid()
      modifies this
      ensures Valid()
      ensures r.Some? <==> !GameNameTaken(old(games), name)
      ensures r.Some? ==> r.value == Game(old(nextId), name, description, icon, color, playersPerTeam) &&
                          games == old(games) + [r.value] && nextId == old(nextId) + 1
      ensures r.None? ==> games == old(games) && nextId == old(nextId)
      ensures users == old(users) && teams == old(teams) && members == old(members)
      ensures tournaments == old(tournaments) && sessions == old(sessions) && accounts == old(accounts)
    {
      if GameByName(name).Some? {
        return None;
      }
      var g := Game(nextId, name, description, icon, color, playersPerTeam);
      var t := Contents();
      GameInsertOk(t, g);
      Put(t.(games := t.games + [g], nextId := t.nextId + 1));
      r := Some(g);
    }

    /** `tournament.create`: the table has no unique column, so it always succeeds. */
    method CreateTournament(name: string, description: Option<string>, startDate: string,
                            endDate: Option<string>, game: Option<string>, status: string) returns (t: Tournament)
      requires Valid()
      modifies this
      ensures Valid()
      ensures t == Tournament(old(nextId), name, description, startDate, endDate, game, status)
      ensures tournaments == old(tournaments) + [t] && nextId == old(nextId) + 1
      ensures users == old(users) && teams == old(teams) && members == old(members)
      ensures games == old(games) && sessions == old(sessions) && accounts == old(accounts)
    {
      t := Tournament(nextId, name, description, startDate, endDate, game, status);
      var tables := Contents();
      TournamentInsertOk(tables, t);
      Put(tables.(tournaments := tables.tournaments + [t], nextId := tables.nextId + 1));
    }

    /** `teamMember.deleteMany({})` */
    method DeleteAllTeamMembers() returns (count: nat)
      requires Valid()
      modifies this
      ensures Valid()
      ensures members == [] && count == |old(members)|
      ensures users == old(users) && teams == old(teams) && games == old(games) && nextId == old(nextId)
      ensures tournaments == old(tournaments) && sessions == old(sessions) && accounts == old(accounts)
    {
      count := |members|;
      members := [];
    }

    /** `team.deleteMany({})`; memberships of the deleted teams go with them (cascade). */
    method DeleteAllTeams() returns (count: nat)
      requires Valid()
      modifies this
      ensures Valid()
      ensures teams == [] && members == [] && count == |old(teams)|
      ensures users == old(users) && games == old(games) && nextId == old(nextId)
      ensures tournaments == old(tournaments) && sessions == old(sessions) && accounts == old(accounts)
    {
      count := |teams|;
      teams := [];
      members := [];
    }

    /** `tournament.deleteMany({})` */
    method DeleteAllTournaments() returns (count: nat)
      requires Valid()
      modifies this
      ensures Valid()
      ensures tournaments == [] && count == |old(tournaments)|
      ensures users == old(users) && teams == old(teams) && members == old(members) && nextId == old(nextId)
      ensures games == old(games) && sessions == old(sessions) && accounts == old(accounts)
    {
      count := |tournaments|;
      tournaments := [];
    }

    /** `session.deleteMany({})` */
    method DeleteAllSessions() returns (count: nat)
      requires Valid()
      modifies this
      ensures Valid()
      ensures sessions == [] && count == |old(sessions)|
      ensures users == old(users) && teams == old(teams) && members == old(members) && nextId == old(nextId)
      ensures games == old(games) && tournaments == old(tournaments) && accounts == old(accounts)
    {
      count := |sessions|;
      sessions := [];
    }

    /** `account.deleteMany({})` */
    method DeleteAllAccounts() returns (count: nat)
      requires Valid()
      modifies this
      ensures Valid()
      ensures accounts == [] && count == |old(accounts)|
      ensures users == old(users) && teams == old(teams) && members == old(members) && nextId == old(nextId)
      ensures games == old(games) && tournaments == old(tournaments) && sessions == old(sessions)
    {
      count := |accounts|;
      accounts := [];
    }

    /** `game.deleteMany({})` */
    method DeleteAllGames() returns (count: nat)
      requires Valid()
      modifies this
      ensures Valid()
      ensures games == [] && count == |old(games)|
      ensures users == old(users) && teams == old(teams) && members == old(members) && nextId == old(nextId)
      ensures tournaments == old(tournaments) && sessions == old(sessions) && accounts == old(accounts)
    {
      count := |games|;
      games := [];
    }

    /**
     * `user.deleteMany({ where: { id: { not: keep } } })`: refused when a team
     * is managed by a user who would be deleted (the team's foreign key
     * restricts it); otherwise only `keep`'s row can remain, and the
     * memberships, sessions and accounts of the deleted users go with them.
     */
    method DeleteUsersExcept(keep: Id) returns (r: Option<nat>)
      requires Valid()
      modifies this
      ensures Valid()
      ensures r.Some? <==> forall i :: 0 <= i < |old(teams)| ==> old(teams)[i].managerId == keep
      ensures r.Some? ==>
        && users == UsersWithId(old(users), keep)
        && r.value == |old(users)| - |users|
        && members == MembershipsOf(old(members), keep)
        && sessions == RowsOf(old(sessions), keep)
        && accounts == RowsOf(old(accounts), keep)
      ensures r.None? ==> users == old(users) && members == old(members) && sessions == old(sessions) && accounts == old(accounts)
      ensures teams == old(teams) && games == old(games) && tournaments == old(tournaments) && nextId == old(nextId)
    {
      if exists i :: 0 <= i < |teams| && teams[i].managerId != keep {
        return None;
      }
      var kept := UsersWithId(users, keep);
      r := Some(|users| - |kept|);
      KeepOnly(keep);
    }

    /** The write of an accepted `user.deleteMany`: the kept user's rows stay, with their sessions, accounts and memberships. */
    method KeepOnly(keep: Id)
      requires Valid()
      requires forall i :: 0 <= i < |teams| ==> teams[i].managerId == keep
      modifies this
      ensures Valid()
      ensures Contents() == Kept(old(Contents()), keep)
    {
      KeptOk(Contents(), keep);
      Put(Kept(Contents(), keep));
    }

    /** Replaces every table at once with a snapshot that keeps the constraints. */
    method Put(t: Tables)
      requires TablesOk(t)
      modifies this
      ensures Valid() && Contents() == t
    {
      users, teams, members, games := t.users, t.teams, t.members, t.games;
      tournaments, sessions, accounts, nextId := t.tournaments, t.sessions, t.accounts, t.nextId;
    }
  }
}
