/**
 * `POST /api/admin/seed-mock-data` (src/app/api/admin/seed-mock-data/route.ts):
 * the admin-only filling of the database with demonstration rows. Eight
 * players, two managers, two teams and four tournaments are each looked up
 * first (players and managers by e-mail, teams by tag, tournaments by name)
 * and created only when absent, so running the route on a seeded database
 * writes nothing.
 */
module SeedMockData {
  import opened Wrappers
  import opened Schema
  import opened Db

  /** A demonstration user; the password is hashed before the insert. */
  datatype MockUser = MockUser(
    email: string, password: string, name: string, username: string,
    role: Role, avatar: string, bio: string)

  /** A demonstration team; the manager and the players are positions in the lists of seeded users. */
  datatype MockTeam = MockTeam(
    name: string, tag: string, description: string, manager: nat,
    players: seq<nat>, playerRoles: seq<string>)

  /** A demonstration tournament (the prize pool is not modelled). */
  datatype MockTournament = MockTournament(
    name: string, description: string, startDate: string, endDate: string,
    game: string, status: string)

  function Avatar(seed: string): string {
    "https://api.dicebear.com/7.x/avataaars/svg?seed=" + seed
  }

  const MockPlayers: seq<MockUser> := [
    MockUser("player1@afina.org", "player123", "Алексей 'S1mple' Костилев", "s1mple", PLAYER,
             Avatar("S1mple"), "Профессиональный игрок в Counter-Strike 2. Специализация: AWPer"),
    MockUser("player2@afina.org", "player123", "Дмитрий 'Dendi' Ишутин", "dendi", PLAYER,
             Avatar("Dendi"), "Легендарный игрок в Dota 2. Позиция: Mid"),
    MockUser("player3@afina.org", "player123", "Иван 'Zeus' Тесленко", "zeus", PLAYER,
             Avatar("Zeus"), "Опытный игрок в CS2. Роль: IGL"),
    MockUser("player4@afina.org", "player123", "Сергей 'Solo' Березин", "solo", PLAYER,
             Avatar("Solo"), "Профессиональный игрок в Dota 2. Позиция: Support"),
    MockUser("player5@afina.org", "player123", "Андрей 'B1ad3' Городенский", "b1ad3", PLAYER,
             Avatar("B1ad3"), "Игрок в CS2. Специализация: Rifler"),
    MockUser("player6@afina.org", "player123", "Егор 'flamie' Васильев", "flamie", PLAYER,
             Avatar("Flamie"), "Профессиональный игрок в CS2. Роль: Entry Fragger"),
    MockUser("player7@afina.org", "player123", "Александр 's1mple' Костылев", "s1mple2", PLAYER,
             Avatar("S1mple2"), "Игрок в Valorant. Роль: Duelist"),
    MockUser("player8@afina.org", "player123", "Максим 'Perfecto' Захаров", "perfecto", PLAYER,
             Avatar("Perfecto"), "Профессиональный игрок в CS2. Позиция: Support")
  ]

  const MockManagers: seq<MockUser> := [
    MockUser("manager1@afina.org", "manager123", "Владимир 'Vlad' Петров", "vlad_manager", MANAGER,
             Avatar("VladManager"), "Опытный менеджер киберспортивных команд"),
    MockUser("manager2@afina.org", "manager123", "Ольга 'Olga' Смирнова", "olga_manager", MANAGER,
             Avatar("OlgaManager"), "Менеджер по развитию команд")
  ]

  const MockTeams: seq<MockTeam> := [
    MockTeam("Afina CS2 Team", "AFINA-CS", "Профессиональная команда по Counter-Strike 2", 0,
             [0, 2, 4, 5, 7], ["AWPer", "IGL", "Rifler", "Entry Fragger", "Support"]),
    MockTeam("Afina Dota 2 Squad", "AFINA-DOTA", "Команда по Dota 2", 1,
             [1, 3], ["Mid", "Support"])
  ]

  const MockTournaments: seq<MockTournament> := [
    MockTournament("Afina Championship 2024", "Главный турнир года от Afina. Призовой фонд $100,000",
                   "2024-12-01T10:00:00Z", "2024-12-15T18:00:00Z", "Counter-Strike 2", "UPCOMING"),
    MockTournament("Dota 2 Winter Cup", "Зимний кубок по Dota 2",
                   "2024-11-15T12:00:00Z", "2024-11-20T20:00:00Z", "Dota 2", "COMPLETED"),
    MockTournament("Valorant Masters", "Турнир по Valorant для лучших команд",
                   "2024-10-01T14:00:00Z", "2024-10-10T22:00:00Z", "Valorant", "COMPLETED"),
    MockTournament("CS2 Pro League", "Профессиональная лига по Counter-Strike 2",
                   "2024-12-20T16:00:00Z", "2025-01-05T18:00:00Z", "Counter-Strike 2", "UPCOMING")
  ]

  const AdminRequired: string := "Unauthorized. Admin access required."
  const SeededMessage: string := "Mock data seeded successfully"

  /** The four groups of the progress report. */
  datatype Section = PlayersSection | ManagersSection | TeamsSection | TournamentsSection

  /** The progress lines pushed to `results` (their wording and emoji are not modelled). */
  datatype SeedLine =
    | Header(section: Section)
    | UserCreated(role: Role, name: string, email: string)
    | UserExists(role: Role, email: string)
    | TeamCreated(name: string, tag: string)
    | TeamExists(tag: string)
    | TournamentCreated(name: string)
    | TournamentExists(name: string)
    | Finished
    | PlayersStat(count: nat)
    | ManagersStat(count: nat)
    | TeamsStat(count: nat)
    | TournamentsStat(count: nat)

  /** `stats`: the lengths of the player, manager and team lists, and the new tournaments. */
  datatype SeedStats = SeedStats(players: nat, managers: nat, teams: nat, tournaments: nat)

  datatype SeedResponse =
    | SeedDenied                                        // 401 { error: AdminRequired }
    | Seeded(results: seq<SeedLine>, stats: SeedStats)  // 200 { success: true, message: SeededMessage, results, stats }
    | SeedFailed                                        // 500 { success: false, error: <the database's message> }
  {
    function Status(): nat {
      match this
      case SeedDenied => 401
      case Seeded(_, _) => 200
      case SeedFailed => 500
    }
  }

  /** The row `user.create({ data: { ...mock, password: hash } })` inserts. */
  function MockData(m: MockUser, hash: string -> string): UserData {
    UserData(m.email, hash(m.password), Some(m.name), Some(m.username), Some(m.bio), Some(m.avatar), m.role)
  }

  /** `playerRoles[index] || "Player"` */
  function RoleAt(roles: seq<string>, j: nat): string {
    if j < |roles| && roles[j] != "" then roles[j] else "Player"
  }

  /** The nested memberships of a new team: the listed players, each with its role. */
  function MemberSpecs(t: MockTeam, players: seq<User>): (r: seq<NewMember>)
    requires forall j :: 0 <= j < |t.players| ==> t.players[j] < |players|
    ensures |r| == |t.players|
    ensures forall j :: 0 <= j < |t.players| ==> r[j] == NewMember(players[t.players[j]].id, Some(RoleAt(t.playerRoles, j)))
  {
    seq(|t.players|, j requires 0 <= j < |t.players| => NewMember(players[t.players[j]].id, Some(RoleAt(t.playerRoles, j))))
  }

  /** The row `tournament.create({ data: mock })` inserts. */
  function TournamentRow(m: MockTournament, id: Id): Tournament {
    Tournament(id, m.name, Some(m.description), m.startDate, Some(m.endDate), Some(m.game), m.status)
  }

  predicate TournamentNamed(tournaments: seq<Tournament>, name: string) {
    exists i :: 0 <= i < |tournaments| && tournaments[i].name == name
  }

  /** A mock user can be served: it exists already, or its username is still free for the insert. */
  predicate Servable(users: seq<User>, m: MockUser) {
    EmailTaken(users, m.email) || !UsernameTaken(users, Some(m.username))
  }

  predicate AllServable(users: seq<User>, mocks: seq<MockUser>) {
    forall k :: 0 <= k < |mocks| ==> Servable(users, mocks[k])
  }

  predicate AllEmailsTaken(users: seq<User>, mocks: seq<MockUser>) {
    forall k :: 0 <= k < |mocks| ==> EmailTaken(users, mocks[k].email)
  }

  predicate DistinctMocks(mocks: seq<MockUser>) {
    forall a, b :: 0 <= a < b < |mocks| ==> mocks[a].email != mocks[b].email && mocks[a].username != mocks[b].username
  }

  /** Users of one list have e-mails and usernames that no user of the other list has. */
  predicate Apart(mocks: seq<MockUser>, others: seq<MockUser>) {
    forall k, l :: 0 <= k < |mocks| && 0 <= l < |others| ==>
      mocks[k].email != others[l].email && mocks[k].username != others[l].username
  }

  /** A team's manager and players are positions in the seeded lists, and no player is listed twice. */
  predicate TeamFits(t: MockTeam, players: nat, managers: nat) {
    && t.manager < managers
    && (forall j :: 0 <= j < |t.players| ==> t.players[j] < players)
    && (forall j, l :: 0 <= j < l < |t.players| ==> t.players[j] != t.players[l])
  }

  predicate TeamsFit(specs: seq<MockTeam>, players: nat, managers: nat) {
    && (forall k :: 0 <= k < |specs| ==> TeamFits(specs[k], players, managers))
    && (forall a, b :: 0 <= a < b < |specs| ==> specs[a].tag != specs[b].tag)
  }

  predicate DistinctNames(specs: seq<MockTournament>) {
    forall a, b :: 0 <= a < b < |specs| ==> specs[a].name != specs[b].name
  }

  /** The demonstration data of one run: the four lists the loops walk. */
  datatype Mocks = Mocks(players: seq<MockUser>, managers: seq<MockUser>, teams: seq<MockTeam>, tournaments: seq<MockTournament>)

  /** Distinct e-mails, usernames, tags and tournament names; every team within the user lists. */
  predicate Consistent(d: Mocks) {
    && DistinctMocks(d.players) && DistinctMocks(d.managers) && Apart(d.players, d.managers)
    && TeamsFit(d.teams, |d.players|, |d.managers|)
    && DistinctNames(d.tournaments)
  }

  /** The data the route seeds. */
  const Demo: Mocks := Mocks(MockPlayers, MockManagers, MockTeams, MockTournaments)

  lemma PlayerEmailsDistinct()
    ensures forall a, b :: 0 <= a < b < |MockPlayers| ==> MockPlayers[a].email != MockPlayers[b].email
  {}

  lemma PlayerUsernamesDistinct()
    ensures forall a, b :: 0 <= a < b < |MockPlayers| ==> MockPlayers[a].username != MockPlayers[b].username
  {}

  lemma PlayersDistinct() ensures DistinctMocks(MockPlayers) {
    PlayerEmailsDistinct();
    PlayerUsernamesDistinct();
  }
  lemma ManagersDistinct() ensures DistinctMocks(MockManagers) {}
  lemma PlayerEmailsApart()
    ensures forall k, l :: 0 <= k < |MockPlayers| && 0 <= l < |MockManagers| ==> MockPlayers[k].email != MockManagers[l].email
  {}

  lemma PlayerUsernamesApart()
    ensures forall k, l :: 0 <= k < |MockPlayers| && 0 <= l < |MockManagers| ==> MockPlayers[k].username != MockManagers[l].username
  {}

  lemma PlayersApartFromManagers() ensures Apart(MockPlayers, MockManagers) {
    PlayerEmailsApart();
    PlayerUsernamesApart();
  }
  lemma TeamsWithinLists() ensures TeamsFit(MockTeams, |MockPlayers|, |MockManagers|) {}
  lemma TournamentNamesDistinct() ensures DistinctNames(MockTournaments) {}

  /** The route's data is consistent, with eight players, two managers, two teams and four tournaments. */
  lemma DemoConsistent()
    ensures Consistent(Demo)
    ensures |Demo.players| == 8 && |Demo.managers| == 2 && |Demo.teams| == 2 && |Demo.tournaments| == 4
  {
    PlayersDistinct();
    ManagersDistinct();
    PlayersApartFromManagers();
    TeamsWithinLists();
    TournamentNamesDistinct();
  }

  /** The line pushed for one mock user, judged on the users before the run. */
  function UserLine(users: seq<User>, m: MockUser): SeedLine {
    if EmailTaken(users, m.email) then UserExists(m.role, m.email) else UserCreated(m.role, m.name, m.email)
  }

  function UserLines(users: seq<User>, mocks: seq<MockUser>): (r: seq<SeedLine>)
    ensures |r| == |mocks| && forall k :: 0 <= k < |mocks| ==> r[k] == UserLine(users, mocks[k])
  {
    seq(|mocks|, k requires 0 <= k < |mocks| => UserLine(users, mocks[k]))
  }

  function TeamLine(teams: seq<Team>, t: MockTeam): SeedLine {
    if TagTaken(teams, t.tag) then TeamExists(t.tag) else TeamCreated(t.name, t.tag)
  }

  function TeamLines(teams: seq<Team>, specs: seq<MockTeam>): (r: seq<SeedLine>)
    ensures |r| == |specs| && forall k :: 0 <= k < |specs| ==> r[k] == TeamLine(teams, specs[k])
  {
    seq(|specs|, k requires 0 <= k < |specs| => TeamLine(teams, specs[k]))
  }

  function TournamentLine(tournaments: seq<Tournament>, m: MockTournament): SeedLine {
    if TournamentNamed(tournaments, m.name) then TournamentExists(m.name) else TournamentCreated(m.name)
  }

  function TournamentLines(tournaments: seq<Tournament>, specs: seq<MockTournament>): (r: seq<SeedLine>)
    ensures |r| == |specs| && forall k :: 0 <= k < |specs| ==> r[k] == TournamentLine(tournaments, specs[k])
  {
    seq(|specs|, k requires 0 <= k < |specs| => TournamentLine(tournaments, specs[k]))
  }

  /** How many of the mock tournaments have no namesake yet: the `tournamentsCreated` counter. */
  function NewCount(tournaments: seq<Tournament>, specs: seq<MockTournament>): nat
  {
    if specs == [] then 0
    else NewCount(tournaments, specs[..|specs| - 1]) + (if TournamentNamed(tournaments, specs[|specs| - 1].name) then 0 else 1)
  }

  /** The statistics a successful run reports, from the tables it started on. */
  function Stats(b: Tables, d: Mocks): SeedStats {
    SeedStats(|d.players|, |d.managers|, |d.teams|, NewCount(b.tournaments, d.tournaments))
  }

  /** The whole `results` list of a successful run, from the tables it started on. */
  function Report(b: Tables, d: Mocks): seq<SeedLine> {
    var s := Stats(b, d);
    [Header(PlayersSection)] + UserLines(b.users, d.players)
    + [Header(ManagersSection)] + UserLines(b.users, d.managers)
    + [Header(TeamsSection)] + TeamLines(b.teams, d.teams)
    + [Header(TournamentsSection)] + TournamentLines(b.tournaments, d.tournaments)
    + [Finished, PlayersStat(s.players), ManagersStat(s.managers), TeamsStat(s.teams), TournamentsStat(s.tournaments)]
  }

  /** Every demonstration row is present: a run on these tables finds everything. */
  predicate SeedComplete(t: Tables, d: Mocks) {
    && AllEmailsTaken(t.users, d.players)
    && AllEmailsTaken(t.users, d.managers)
    && (forall k :: 0 <= k < |d.teams| ==> TagTaken(t.teams, d.teams[k].tag))
    && (forall k :: 0 <= k < |d.tournaments| ==> TournamentNamed(t.tournaments, d.tournaments[k].name))
  }

  /** The counter never exceeds the number of mock tournaments and is zero when all exist. */
  lemma {:induction false} NewCountBounds(tournaments: seq<Tournament>, specs: seq<MockTournament>)
    ensures NewCount(tournaments, specs) <= |specs|
    ensures NewCount(tournaments, specs) == 0 <==> forall k :: 0 <= k < |specs| ==> TournamentNamed(tournaments, specs[k].name)
  {
    if specs != [] {
      var init := specs[..|specs| - 1];
      NewCountBounds(tournaments, init);
      assert forall k :: 0 <= k < |init| ==> init[k] == specs[k];
    }
  }

  /**
   * On a seeded database the report lists every row as already present and
   * counts no new tournament.
   */
  lemma ReportOfComplete(b: Tables, d: Mocks)
    requires SeedComplete(b, d)
    ensures Stats(b, d) == SeedStats(|d.players|, |d.managers|, |d.teams|, 0)
    ensures forall l :: l in Report(b, d) ==> !l.UserCreated? && !l.TeamCreated? && !l.TournamentCreated?
  {
    NewCountBounds(b.tournaments, d.tournaments);
  }

  /** The tables after a loop, and whether it ran to its end (`false`: an insert was refused). */
  datatype Run = Run(tables: Tables, ok: bool)

  /**
   * One pass of a users loop on tables `t`: nothing is written when the
   * e-mail is taken, the insert is refused when the username is, and
   * otherwise the mock's row is appended with the next id.
   */
  function UserStep(t: Tables, m: MockUser, hash: string -> string): Run {
    if EmailTaken(t.users, m.email) then Run(t, true)
    else if UsernameTaken(t.users, Some(m.username)) then Run(t, false)
    else Run(t.(users := t.users + [MockData(m, hash).WithId(t.nextId)], nextId := t.nextId + 1), true)
  }

  /** A users loop from its `i`-th mock on, stopping at the first refused insert. */
  function RunUsers(t: Tables, mocks: seq<MockUser>, hash: string -> string, i: nat): Run
    requires i <= |mocks|
    decreases |mocks| - i
  {
    if i == |mocks| then Run(t, true)
    else
      var s := UserStep(t, mocks[i], hash);
      if !s.ok then s else RunUsers(s.tables, mocks, hash, i + 1)
  }

  /** The players loop and then, if it ran to its end, the managers loop. */
  function RunAllUsers(t: Tables, d: Mocks, hash: string -> string): Run {
    var p := RunUsers(t, d.players, hash, 0);
    if !p.ok then p else RunUsers(p.tables, d.managers, hash, 0)
  }

  /** The row with e-mail `e` (in a valid users table there is exactly one). */
  ghost function RowByEmail(users: seq<User>, e: string): User
    requires EmailTaken(users, e)
  {
    var i :| 0 <= i < |users| && users[i].email == e; users[i]
  }

  /** `createdPlayers` / `createdManagers`: the row of each mock, by its e-mail. */
  ghost function RowsByEmail(users: seq<User>, mocks: seq<MockUser>): seq<User>
    requires AllEmailsTaken(users, mocks)
  {
    seq(|mocks|, k requires 0 <= k < |mocks| => RowByEmail(users, mocks[k].email))
  }

  /**
   * One pass of the teams loop: nothing is written when the tag is taken;
   * otherwise an ACTIVE team under the listed manager with the next id, and
   * its memberships numbered after it.
   */
  function TeamStep(t: Tables, m: MockTeam, players: seq<User>, managers: seq<User>): Tables
    requires TeamFits(m, |players|, |managers|)
  {
    if TagTaken(t.teams, m.tag) then t
    else t.(teams := t.teams + [Team(t.nextId, m.name, m.tag, Some(m.description), ACTIVE, managers[m.manager].id)],
            members := t.members + NewMemberRows(t.nextId + 1, t.nextId, MemberSpecs(m, players)),
            nextId := t.nextId + 1 + |m.players|)
  }

  /** The teams loop from its `i`-th mock team on. */
  function RunTeams(t: Tables, specs: seq<MockTeam>, players: seq<User>, managers: seq<User>, i: nat): Tables
    requires i <= |specs| && TeamsFit(specs, |players|, |managers|)
    decreases |specs| - i
  {
    if i == |specs| then t else RunTeams(TeamStep(t, specs[i], players, managers), specs, players, managers, i + 1)
  }

  /** One pass of the tournaments loop: the mock's row with the next id, unless the name is taken. */
  function TournamentStep(t: Tables, m: MockTournament): Tables {
    if TournamentNamed(t.tournaments, m.name) then t
    else t.(tournaments := t.tournaments + [TournamentRow(m, t.nextId)], nextId := t.nextId + 1)
  }

  /** The tournaments loop from its `i`-th mock tournament on. */
  function RunTournaments(t: Tables, specs: seq<MockTournament>, i: nat): Tables
    requires i <= |specs|
    decreases |specs| - i
  {
    if i == |specs| then t else RunTournaments(TournamentStep(t, specs[i]), specs, i + 1)
  }

  /**
   * The tables a run of the four loops leaves, and whether it answered 200:
   * a refused user insert stops it with what was written so far; otherwise
   * the teams loop uses the rows the users loops found or created.
   */
  ghost function RunSeed(t: Tables, d: Mocks, hash: string -> string): Run
    requires Consistent(d)
  {
    var u := RunAllUsers(t, d, hash);
    if !u.ok then u
    else
      AllUsersTaken(t, d, hash);
      var players := RowsByEmail(u.tables.users, d.players);
      var managers := RowsByEmail(u.tables.users, d.managers);
      Run(RunTournaments(RunTeams(u.tables, d.teams, players, managers, 0), d.tournaments, 0), true)
  }

  /** A users table that only grew keeps every e-mail and username it had. */
  lemma TakenGrows(users: seq<User>, users': seq<User>)
    requires users <= users'
    ensures forall e :: EmailTaken(users, e) ==> EmailTaken(users', e)
    ensures forall n :: UsernameTaken(users, n) ==> UsernameTaken(users', n)
  {
    forall e | EmailTaken(users, e) ensures EmailTaken(users', e) {
      var i :| 0 <= i < |users| && users[i].email == e;
      assert users'[i] == users[i];
    }
    forall n | UsernameTaken(users, n) ensures UsernameTaken(users', n) {
      var i :| 0 <= i < |users| && users[i].username == n;
      assert users'[i] == users[i];
    }
  }

  /**
   * A users loop changes only the users table and the id counter: the old
   * rows stay first, at most one row is added per remaining mock, one id is
   * issued per added row, and a loop that ran to its end leaves every
   * remaining mock's e-mail taken.
   */
  lemma {:induction false} RunUsersShape(t: Tables, mocks: seq<MockUser>, hash: string -> string, i: nat)
    requires i <= |mocks|
    decreases |mocks| - i
    ensures var r := RunUsers(t, mocks, hash, i).tables;
      && r == t.(users := r.users, nextId := r.nextId)
      && t.users <= r.users
      && |r.users| <= |t.users| + (|mocks| - i)
      && r.nextId == t.nextId + (|r.users| - |t.users|)
    ensures RunUsers(t, mocks, hash, i).ok ==>
      forall k :: i <= k < |mocks| ==> EmailTaken(RunUsers(t, mocks, hash, i).tables.users, mocks[k].email)
  {
    if i < |mocks| {
      var s := UserStep(t, mocks[i], hash);
      if s.ok {
        RunUsersShape(s.tables, mocks, hash, i + 1);
        var r := RunUsers(s.tables, mocks, hash, i + 1).tables;
        TakenGrows(s.tables.users, r.users);
        if !EmailTaken(t.users, mocks[i].email) {
          assert s.tables.users[|t.users|].email == mocks[i].email;
        }
        TakenGrows(t.users, s.tables.users);
      }
    }
  }

  /** Both users loops, in one: the shape of `RunUsersShape` over the players and the managers. */
  lemma AllUsersShape(t: Tables, d: Mocks, hash: string -> string)
    ensures var r := RunAllUsers(t, d, hash).tables;
      && r == t.(users := r.users, nextId := r.nextId)
      && t.users <= r.users
      && |r.users| <= |t.users| + |d.players| + |d.managers|
      && r.nextId == t.nextId + (|r.users| - |t.users|)
  {
    RunUsersShape(t, d.players, hash, 0);
    var p := RunUsers(t, d.players, hash, 0);
    if p.ok {
      RunUsersShape(p.tables, d.managers, hash, 0);
    }
  }

  /** When both users loops run to their end, every mock user's e-mail is taken. */
  lemma AllUsersTaken(t: Tables, d: Mocks, hash: string -> string)
    requires RunAllUsers(t, d, hash).ok
    ensures AllEmailsTaken(RunAllUsers(t, d, hash).tables.users, d.players)
    ensures AllEmailsTaken(RunAllUsers(t, d, hash).tables.users, d.managers)
  {
    RunUsersShape(t, d.players, hash, 0);
    var p := RunUsers(t, d.players, hash, 0);
    RunUsersShape(p.tables, d.managers, hash, 0);
    TakenGrows(p.tables.users, RunUsers(p.tables, d.managers, hash, 0).tables.users);
  }

  /**
   * The teams loop changes only the teams, the memberships and the id
   * counter, and the old teams and memberships stay first.
   */
  lemma {:induction false} RunTeamsShape(t: Tables, specs: seq<MockTeam>, players: seq<User>, managers: seq<User>, i: nat)
    requires i <= |specs| && TeamsFit(specs, |players|, |managers|)
    decreases |specs| - i
    ensures var r := RunTeams(t, specs, players, managers, i);
      && r == t.(teams := r.teams, members := r.members, nextId := r.nextId)
      && t.teams <= r.teams && t.members <= r.members
      && |r.teams| <= |t.teams| + (|specs| - i)
  {
    if i < |specs| {
      RunTeamsShape(TeamStep(t, specs[i], players, managers), specs, players, managers, i + 1);
    }
  }

  /** The tournaments loop changes only the tournaments and the id counter, and the old rows stay first. */
  lemma {:induction false} RunTournamentsShape(t: Tables, specs: seq<MockTournament>, i: nat)
    requires i <= |specs|
    decreases |specs| - i
    ensures var r := RunTournaments(t, specs, i);
      && r == t.(tournaments := r.tournaments, nextId := r.nextId)
      && t.tournaments <= r.tournaments
      && |r.tournaments| <= |t.tournaments| + (|specs| - i)
  {
    if i < |specs| {
      RunTournamentsShape(TournamentStep(t, specs[i]), specs, i + 1);
    }
  }

  /** The mocks whose e-mail `users` does not have, in order. */
  function Absent(users: seq<User>, mocks: seq<MockUser>): (r: seq<MockUser>)
    ensures |r| <= |mocks|
    ensures forall m :: m in r ==> m in mocks && !EmailTaken(users, m.email)
  {
    if mocks == [] then []
    else
      var last := mocks[|mocks| - 1];
      Absent(users, mocks[..|mocks| - 1]) + (if EmailTaken(users, last.email) then [] else [last])
  }

  /** The rows inserted for `ms`, one after the other, with consecutive ids from `first`. */
  function MockRows(ms: seq<MockUser>, hash: string -> string, first: Id): (r: seq<User>)
    ensures |r| == |ms| && forall k :: 0 <= k < |ms| ==> r[k] == MockData(ms[k], hash).WithId(first + k)
  {
    seq(|ms|, k requires 0 <= k < |ms| => MockData(ms[k], hash).WithId(first + k))
  }

  /** Appending the rows of mocks that do not carry e-mail `e` leaves `e` as taken as it was. */
  lemma TakenAfterRows(start: seq<User>, ms: seq<MockUser>, hash: string -> string, first: Id, e: string)
    requires forall m :: m in ms ==> m.email != e
    ensures EmailTaken(start + MockRows(ms, hash, first), e) <==> EmailTaken(start, e)
  {
    var all := start + MockRows(ms, hash, first);
    if EmailTaken(start, e) {
      var i :| 0 <= i < |start| && start[i].email == e;
      assert all[i] == start[i];
    }
    forall i | |start| <= i < |all| ensures all[i].email != e {
      assert all[i] == MockData(ms[i - |start|], hash).WithId(first + i - |start|);
      assert ms[i - |start|] in ms;
    }
    if EmailTaken(all, e) {
      var i :| 0 <= i < |all| && all[i].email == e;
      assert all[i] == start[i];
    }
  }

  /** Mocks whose e-mails are as taken in `users'` as in `users` are absent from both alike. */
  lemma {:induction false} AbsentAlike(users: seq<User>, users': seq<User>, mocks: seq<MockUser>)
    requires forall k :: 0 <= k < |mocks| ==> (EmailTaken(users', mocks[k].email) <==> EmailTaken(users, mocks[k].email))
    ensures Absent(users', mocks) == Absent(users, mocks)
  {
    if mocks != [] {
      AbsentAlike(users, users', mocks[..|mocks| - 1]);
    }
  }

  lemma AbsentSnoc(users: seq<User>, mocks: seq<MockUser>, i: nat)
    requires i < |mocks|
    ensures Absent(users, mocks[..i + 1]) ==
      Absent(users, mocks[..i]) + (if EmailTaken(users, mocks[i].email) then [] else [mocks[i]])
  {
    assert mocks[..i + 1][..i] == mocks[..i];
  }

  lemma MockRowsSnoc(ms: seq<MockUser>, m: MockUser, hash: string -> string, first: Id)
    ensures MockRows(ms + [m], hash, first) == MockRows(ms, hash, first) + [MockData(m, hash).WithId(first + |ms|)]
  {
  }

  /** With distinct e-mails, the mocks before `i` leave the `i`-th mock's e-mail as taken as it was in `start`. */
  lemma EarlierRowsApart(start: seq<User>, mocks: seq<MockUser>, hash: string -> string, i: nat, first: Id)
    requires i < |mocks| && DistinctMocks(mocks)
    ensures EmailTaken(start + MockRows(Absent(start, mocks[..i]), hash, first), mocks[i].email) <==> EmailTaken(start, mocks[i].email)
  {
    var before := Absent(start, mocks[..i]);
    forall x | x in before ensures x.email != mocks[i].email {
      var l :| 0 <= l < i && mocks[..i][l] == x;
    }
    TakenAfterRows(start, before, hash, first, mocks[i].email);
  }

  /** One pass of a users loop keeps the table equal to `start` and the rows of the absent mocks so far. */
  lemma UserStepExact(start: seq<User>, t: Tables, mocks: seq<MockUser>, hash: string -> string, i: nat, first: Id)
    requires i < |mocks| && DistinctMocks(mocks)
    requires t.users == start + MockRows(Absent(start, mocks[..i]), hash, first)
    requires t.nextId == first + |Absent(start, mocks[..i])|
    ensures var s := UserStep(t, mocks[i], hash);
      s.ok ==>
        && s.tables.users == start + MockRows(Absent(start, mocks[..i + 1]), hash, first)
        && s.tables.nextId == first + |Absent(start, mocks[..i + 1])|
  {
    var m := mocks[i];
    var before := Absent(start, mocks[..i]);
    var s := UserStep(t, m, hash);
    EarlierRowsApart(start, mocks, hash, i, first);
    assert EmailTaken(t.users, m.email) <==> EmailTaken(start, m.email);
    AbsentSnoc(start, mocks, i);
    if s.ok && !EmailTaken(start, m.email) {
      var row := MockData(m, hash).WithId(first + |before|);
      assert Absent(start, mocks[..i + 1]) == before + [m];
      assert s.tables.users == t.users + [row];
      MockRowsSnoc(before, m, hash, first);
      AppendAssoc(start, MockRows(before, hash, first), [row]);
    }
  }

  lemma AppendAssoc(a: seq<User>, b: seq<User>, c: seq<User>)
    ensures a + (b + c) == a + b + c
  {
  }

  /**
   * A users loop over mocks with distinct e-mails, from its `i`-th mock on,
   * when the rows of the absent mocks before `i` have been appended to
   * `start`: if it runs to its end, the table is `start` followed by the
   * rows of all absent mocks, in order, with consecutive ids.
   */
  lemma {:induction false} RunUsersExact(start: seq<User>, t: Tables, mocks: seq<MockUser>, hash: string -> string,
                                         i: nat, first: Id)
    requires i <= |mocks| && DistinctMocks(mocks)
    requires t.users == start + MockRows(Absent(start, mocks[..i]), hash, first)
    requires t.nextId == first + |Absent(start, mocks[..i])|
    decreases |mocks| - i
    ensures RunUsers(t, mocks, hash, i).ok ==>
      && RunUsers(t, mocks, hash, i).tables.users == start + MockRows(Absent(start, mocks), hash, first)
      && RunUsers(t, mocks, hash, i).tables.nextId == first + |Absent(start, mocks)|
  {
    if i == |mocks| {
      assert mocks[..i] == mocks;
    } else {
      var s := UserStep(t, mocks[i], hash);
      if s.ok {
        UserStepExact(start, t, mocks, hash, i, first);
        RunUsersExact(start, s.tables, mocks, hash, i + 1, first);
      }
    }
  }

  /**
   * The users table after a run that answers 200 on `users`: the old rows,
   * then the rows of the absent players, then those of the absent managers,
   * in the mocks' order, with consecutive ids from the counter `next`.
   */
  function SeededUsersTable(users: seq<User>, next: Id, d: Mocks, hash: string -> string): seq<User> {
    users + MockRows(Absent(users, d.players), hash, next)
          + MockRows(Absent(users, d.managers), hash, next + |Absent(users, d.players)|)
  }

  /**
   * Both users loops, when the run answers 200: the users table is the old
   * one followed by the rows of the absent players and then of the absent
   * managers, in the mocks' order, with consecutive ids from the counter.
   */
  lemma SeededUsersExactly(t: Tables, d: Mocks, hash: string -> string)
    requires DistinctMocks(d.players) && DistinctMocks(d.managers) && Apart(d.players, d.managers)
    requires RunAllUsers(t, d, hash).ok
    ensures RunAllUsers(t, d, hash).tables.users == SeededUsersTable(t.users, t.nextId, d, hash)
  {
    var p := RunUsers(t, d.players, hash, 0);
    assert p.ok;
    ManagersAfterPlayers(t, d, hash);
    assert RunAllUsers(t, d, hash) == RunUsers(p.tables, d.managers, hash, 0);
  }

  /** The managers loop, run on the table the players loop leaves, appends the absent managers' rows after the players'. */
  lemma ManagersAfterPlayers(t: Tables, d: Mocks, hash: string -> string)
    requires DistinctMocks(d.players) && DistinctMocks(d.managers) && Apart(d.players, d.managers)
    requires RunUsers(t, d.players, hash, 0).ok
    ensures var p := RunUsers(t, d.players, hash, 0);
      var q := RunUsers(p.tables, d.managers, hash, 0);
      q.ok ==> q.tables.users == SeededUsersTable(t.users, t.nextId, d, hash)
  {
    var p := RunUsers(t, d.players, hash, 0);
    UsersRunExactly(t, d.players, hash);
    UsersRunExactly(p.tables, d.managers, hash);
    var q := RunUsers(p.tables, d.managers, hash, 0);
    if q.ok {
      UsersAfterBoth(t, p.tables, q.tables, d, hash);
    }
  }

  /** The users table after the players' rows and then the managers' rows have been appended. */
  lemma UsersAfterBoth(t: Tables, pt: Tables, qt: Tables, d: Mocks, hash: string -> string)
    requires Apart(d.players, d.managers)
    requires pt.users == t.users + MockRows(Absent(t.users, d.players), hash, t.nextId)
    requires pt.nextId == t.nextId + |Absent(t.users, d.players)|
    requires qt.users == pt.users + MockRows(Absent(pt.users, d.managers), hash, pt.nextId)
    ensures qt.users == SeededUsersTable(t.users, t.nextId, d, hash)
  {
    ManagersRowsAfter(t, pt, qt, d, hash);
    SeededUsersTableIs(t.users, t.nextId, d, hash, pt.users, qt.users);
  }

  /** The managers' rows appended after the players' are those of the managers absent from the old table. */
  lemma ManagersRowsAfter(t: Tables, pt: Tables, qt: Tables, d: Mocks, hash: string -> string)
    requires Apart(d.players, d.managers)
    requires pt.users == t.users + MockRows(Absent(t.users, d.players), hash, t.nextId)
    requires pt.nextId == t.nextId + |Absent(t.users, d.players)|
    requires qt.users == pt.users + MockRows(Absent(pt.users, d.managers), hash, pt.nextId)
    ensures qt.users == pt.users + MockRows(Absent(t.users, d.managers), hash, t.nextId + |Absent(t.users, d.players)|)
  {
    ManagersStillAbsent(t.users, d, hash, t.nextId, pt.users);
    MockRowsAlike(Absent(pt.users, d.managers), Absent(t.users, d.managers), hash, pt.nextId,
                  t.nextId + |Absent(t.users, d.players)|);
  }

  /** After the absent players' rows, the same managers are absent as before. */
  lemma ManagersStillAbsent(users: seq<User>, d: Mocks, hash: string -> string, first: Id, after: seq<User>)
    requires Apart(d.players, d.managers)
    requires after == users + MockRows(Absent(users, d.players), hash, first)
    ensures Absent(after, d.managers) == Absent(users, d.managers)
  {
    PlayerRowsApart(users, d, hash, first);
  }

  /** The same mocks from the same first id give the same rows. */
  lemma MockRowsAlike(ms: seq<MockUser>, ms': seq<MockUser>, hash: string -> string, first: Id, first': Id)
    requires ms == ms' && first == first'
    ensures MockRows(ms, hash, first) == MockRows(ms', hash, first')
  {
  }

  /** A table built as `SeededUsersTable` describes it is that table. */
  lemma SeededUsersTableIs(users: seq<User>, next: Id, d: Mocks, hash: string -> string, mid: seq<User>, all: seq<User>)
    requires mid == users + MockRows(Absent(users, d.players), hash, next)
    requires all == mid + MockRows(Absent(users, d.managers), hash, next + |Absent(users, d.players)|)
    ensures all == SeededUsersTable(users, next, d, hash)
  {
  }

  /** A users loop over mocks with distinct e-mails that runs to its end appends exactly the absent mocks' rows. */
  lemma UsersRunExactly(t: Tables, mocks: seq<MockUser>, hash: string -> string)
    requires DistinctMocks(mocks)
    ensures RunUsers(t, mocks, hash, 0).ok ==>
      && RunUsers(t, mocks, hash, 0).tables.users == t.users + MockRows(Absent(t.users, mocks), hash, t.nextId)
      && RunUsers(t, mocks, hash, 0).tables.nextId == t.nextId + |Absent(t.users, mocks)|
  {
    assert mocks[..0] == [];
    assert t.users + MockRows([], hash, t.nextId) == t.users;
    RunUsersExact(t.users, t, mocks, hash, 0, t.nextId);
  }


  /** The rows of the absent players change nothing about which managers are absent. */
  lemma PlayerRowsApart(users: seq<User>, d: Mocks, hash: string -> string, first: Id)
    requires Apart(d.players, d.managers)
    ensures Absent(users + MockRows(Absent(users, d.players), hash, first), d.managers) == Absent(users, d.managers)
  {
    var a := Absent(users, d.players);
    forall k | 0 <= k < |d.managers|
      ensures EmailTaken(users + MockRows(a, hash, first), d.managers[k].email) <==> EmailTaken(users, d.managers[k].email)
    {
      forall x | x in a ensures x.email != d.managers[k].email {
        var l :| 0 <= l < |d.players| && d.players[l] == x;
      }
      TakenAfterRows(users, a, hash, first, d.managers[k].email);
    }
    AbsentAlike(users, users + MockRows(a, hash, first), d.managers);
  }


  /**
   * A run that answers 200 leaves the users table as the old one followed by
   * the rows of the absent players and then of the absent managers.
   */
  lemma SeededUsers(t: Tables, d: Mocks, hash: string -> string)
    requires Consistent(d) && RunSeed(t, d, hash).ok
    ensures RunSeed(t, d, hash).tables.users == SeededUsersTable(t.users, t.nextId, d, hash)
  {
    var u := RunAllUsers(t, d, hash);
    SeededUsersExactly(t, d, hash);
    AllUsersTaken(t, d, hash);
    var players := RowsByEmail(u.tables.users, d.players);
    var managers := RowsByEmail(u.tables.users, d.managers);
    RunTeamsShape(u.tables, d.teams, players, managers, 0);
    RunTournamentsShape(RunTeams(u.tables, d.teams, players, managers, 0), d.tournaments, 0);
  }

  /**
   * What a run may write: games, sessions and accounts are never touched; a
   * refused run (500) has written users only; the old users stay first and at
   * most one user per mock user is added.
   */
  lemma SeedRunShape(t: Tables, d: Mocks, hash: string -> string)
    requires Consistent(d)
    ensures var r := RunSeed(t, d, hash).tables;
      && r.games == t.games && r.sessions == t.sessions && r.accounts == t.accounts
      && t.users <= r.users && |r.users| <= |t.users| + |d.players| + |d.managers|
    ensures !RunSeed(t, d, hash).ok ==> var r := RunSeed(t, d, hash).tables;
      r.teams == t.teams && r.members == t.members && r.tournaments == t.tournaments
  {
    AllUsersShape(t, d, hash);
    var u := RunAllUsers(t, d, hash);
    if u.ok {
      AllUsersTaken(t, d, hash);
      var players := RowsByEmail(u.tables.users, d.players);
      var managers := RowsByEmail(u.tables.users, d.managers);
      RunTeamsShape(u.tables, d.teams, players, managers, 0);
      RunTournamentsShape(RunTeams(u.tables, d.teams, players, managers, 0), d.tournaments, 0);
    }
  }

  lemma EmailTakenSnoc(users: seq<User>, u: User)
    ensures forall e :: EmailTaken(users + [u], e) <==> EmailTaken(users, e) || u.email == e
    ensures forall n :: UsernameTaken(users + [u], n) <==> UsernameTaken(users, n) || (n.Some? && u.username == n)
  {
    var all := users + [u];
    forall e | EmailTaken(users, e) ensures EmailTaken(all, e) {
      var i :| 0 <= i < |users| && users[i].email == e;
      assert all[i] == users[i];
    }
    forall n | UsernameTaken(users, n) ensures UsernameTaken(all, n) {
      var i :| 0 <= i < |users| && users[i].username == n;
      assert all[i] == users[i];
    }
    assert all[|users|] == u;
  }

  lemma TournamentNamedSnoc(tournaments: seq<Tournament>, t: Tournament)
    ensures forall n :: TournamentNamed(tournaments + [t], n) <==> TournamentNamed(tournaments, n) || t.name == n
  {
    var all := tournaments + [t];
    forall n | TournamentNamed(tournaments, n) ensures TournamentNamed(all, n) {
      var i :| 0 <= i < |tournaments| && tournaments[i].name == n;
      assert all[i] == tournaments[i];
    }
    assert all[|tournaments|] == t;
  }

  /**
   * `u` is what the loop pushed for mock `m`: the row with its e-mail, which
   * is the row found before the run or else the mock's own inserted row.
   */
  predicate FoundFor(before: seq<User>, users: seq<User>, m: MockUser, hash: string -> string, u: User) {
    && u in users && u.email == m.email
    && (if EmailTaken(before, m.email) then u in before else u == MockData(m, hash).WithId(u.id))
  }

  /** E-mails are unique: two rows of a valid users table with the same e-mail are one row. */
  lemma SameEmailSameRow(users: seq<User>, next: Id, a: User, b: User)
    requires UsersOk(users, next) && a in users && b in users && a.email == b.email
    ensures a == b
  {
    var i :| 0 <= i < |users| && users[i] == a;
    var j :| 0 <= j < |users| && users[j] == b;
    assert i == j;
  }

  /** Rows found by distinct e-mails in a valid users table are distinct users. */
  lemma DistinctIds(users: seq<User>, next: Id, found: seq<User>)
    requires UsersOk(users, next)
    requires forall k :: 0 <= k < |found| ==> found[k] in users
    requires forall a, b :: 0 <= a < b < |found| ==> found[a].email != found[b].email
    ensures forall a, b :: 0 <= a < |found| && 0 <= b < |found| && a != b ==> found[a].id != found[b].id
  {
    forall a, b | 0 <= a < |found| && 0 <= b < |found| && a != b ensures found[a].id != found[b].id {
      var i :| 0 <= i < |users| && users[i] == found[a];
      var j :| 0 <= j < |users| && users[j] == found[b];
      assert found[a].email != found[b].email by {
        if b < a {
          assert found[b].email != found[a].email;
        }
      }
      assert i != j;
      if i < j {
        assert UsersDistinct(users[i], users[j]);
      } else {
        assert UsersDistinct(users[j], users[i]);
      }
    }
  }

  /**
   * The state of a users loop after the first `i` mocks, starting from
   * table `start`: the rows and lines pushed so far, every mock so far
   * servable, the remaining mocks' and the other list's e-mails and usernames
   * as taken as they were, and no row lost.
   */
  ghost predicate UsersProgress(start: seq<User>, cur: seq<User>, mocks: seq<MockUser>, others: seq<MockUser>,
                                hash: string -> string, i: nat, found: seq<User>, lines: seq<SeedLine>)
    requires i <= |mocks|
  {
    && |found| == i && lines == UserLines(start, mocks[..i])
    && AllServable(start, mocks[..i])
    && (forall k :: 0 <= k < i ==> FoundFor(start, cur, mocks[k], hash, found[k]))
    && (forall k :: i <= k < |mocks| ==>
          && (EmailTaken(cur, mocks[k].email) <==> EmailTaken(start, mocks[k].email))
          && (UsernameTaken(cur, Some(mocks[k].username)) <==> UsernameTaken(start, Some(mocks[k].username))))
    && (forall l :: 0 <= l < |others| ==>
          && (EmailTaken(cur, others[l].email) <==> EmailTaken(start, others[l].email))
          && (UsernameTaken(cur, Some(others[l].username)) <==> UsernameTaken(start, Some(others[l].username))))
    && (forall u :: u in start ==> u in cur)
  }

  /**
   * One pass of a users loop keeps its progress: `u` is the row found by the
   * mock's e-mail, or the mock's row appended when neither its e-mail nor its
   * username is taken.
   */
  lemma UsersStep(start: seq<User>, cur: seq<User>, next: Id, mocks: seq<MockUser>, others: seq<MockUser>,
                  hash: string -> string, i: nat, found: seq<User>, lines: seq<SeedLine>, u: User)
    requires i < |mocks| && DistinctMocks(mocks) && Apart(mocks, others) && UsersOk(cur, next)
    requires UsersProgress(start, cur, mocks, others, hash, i, found, lines)
    requires EmailTaken(cur, mocks[i].email) ==> u in cur && u.email == mocks[i].email
    requires !EmailTaken(cur, mocks[i].email) ==>
      !UsernameTaken(cur, Some(mocks[i].username)) && u == MockData(mocks[i], hash).WithId(u.id)
    ensures UsersProgress(start, if EmailTaken(cur, mocks[i].email) then cur else cur + [u], mocks, others, hash, i + 1,
                          found + [u], lines + [UserLine(cur, mocks[i])])
  {
    var m := mocks[i];
    var cur' := if EmailTaken(cur, m.email) then cur else cur + [u];
    assert mocks[..i + 1] == mocks[..i] + [m];
    if EmailTaken(cur, m.email) {
      var j :| 0 <= j < |start| && start[j].email == m.email;
      SameEmailSameRow(cur, next, start[j], u);
    } else {
      EmailTakenSnoc(cur, u);
    }
    assert FoundFor(start, cur', m, hash, u);
    forall k | 0 <= k < i ensures FoundFor(start, cur', mocks[k], hash, (found + [u])[k]) {
      assert (found + [u])[k] == found[k];
      assert FoundFor(start, cur, mocks[k], hash, found[k]);
    }
  }

  /** A refused insert in a users loop means some mock was not servable from the start. */
  lemma UsersRefused(start: seq<User>, cur: seq<User>, mocks: seq<MockUser>, others: seq<MockUser>,
                     hash: string -> string, i: nat, found: seq<User>, lines: seq<SeedLine>)
    requires i < |mocks| && UsersProgress(start, cur, mocks, others, hash, i, found, lines)
    requires !EmailTaken(cur, mocks[i].email) && UsernameTaken(cur, Some(mocks[i].username))
    ensures !AllServable(start, mocks)
  {
    assert !Servable(start, mocks[i]);
  }

  /** After the last pass every mock was servable and the lines are the report's. */
  lemma UsersDone(start: seq<User>, cur: seq<User>, mocks: seq<MockUser>, others: seq<MockUser>,
                  hash: string -> string, found: seq<User>, lines: seq<SeedLine>)
    requires UsersProgress(start, cur, mocks, others, hash, |mocks|, found, lines)
    ensures AllServable(start, mocks) && lines == UserLines(start, mocks)
  {
    assert mocks[..|mocks|] == mocks;
  }

  /**
   * One pass of a users loop: look the mock up by e-mail and reuse the row,
   * or insert the mock with its hashed password; `None` when the insert is
   * refused because the username is taken.
   */
  method GetOrCreateUser(store: Store, m: MockUser, hash: string -> string) returns (u: Option<User>, line: SeedLine)
    requires store.Valid()
    modifies store
    ensures store.Valid()
    ensures u.None? <==> !EmailTaken(old(store.users), m.email) && UsernameTaken(old(store.users), Some(m.username))
    ensures line == UserLine(old(store.users), m)
    ensures EmailTaken(old(store.users), m.email) ==>
      u.Some? && u.value in old(store.users) && u.value.email == m.email && store.Contents() == old(store.Contents())
    ensures !EmailTaken(old(store.users), m.email) && u.Some? ==>
      u.value == MockData(m, hash).WithId(u.value.id) && store.users == old(store.users) + [u.value]
    ensures u.None? ==> store.Contents() == old(store.Contents())
    ensures store.teams == old(store.teams) && store.members == old(store.members) && store.games == old(store.games)
    ensures store.tournaments == old(store.tournaments) && store.sessions == old(store.sessions) && store.accounts == old(store.accounts)
    ensures store.Contents() == UserStep(old(store.Contents()), m, hash).tables
    ensures u.Some? <==> UserStep(old(store.Contents()), m, hash).ok
  {
    var existing := store.UserByEmail(m.email);
    if existing.Some? {
      return existing, UserExists(m.role, m.email);
    }
    u := store.CreateUser(MockData(m, hash));
    line := UserCreated(m.role, m.name, m.email);
  }

  /**
   * One get-or-create loop over mock users (the players loop, then the
   * managers loop): each is looked up by e-mail and reused, or inserted with
   * the hashed password. An insert refused on a username clash ends the loop
   * with `ok` false, keeping the users inserted before it.
   */
  method GetOrCreateUsers(store: Store, mocks: seq<MockUser>, hash: string -> string, ghost others: seq<MockUser>)
    returns (found: seq<User>, lines: seq<SeedLine>, ok: bool)
    requires store.Valid()
    requires DistinctMocks(mocks) && Apart(mocks, others)
    modifies store
    ensures store.Valid()
    ensures ok <==> AllServable(old(store.users), mocks)
    ensures ok ==> |found| == |mocks| && lines == UserLines(old(store.users), mocks)
    ensures ok ==> forall k :: 0 <= k < |mocks| ==> FoundFor(old(store.users), store.users, mocks[k], hash, found[k])
    ensures forall u :: u in old(store.users) ==> u in store.users
    ensures forall l :: 0 <= l < |others| ==>
      && (EmailTaken(store.users, others[l].email) <==> EmailTaken(old(store.users), others[l].email))
      && (UsernameTaken(store.users, Some(others[l].username)) <==> UsernameTaken(old(store.users), Some(others[l].username)))
    ensures AllEmailsTaken(old(store.users), mocks) ==> store.Contents() == old(store.Contents())
    ensures store.teams == old(store.teams) && store.members == old(store.members) && store.games == old(store.games)
    ensures store.tournaments == old(store.tournaments) && store.sessions == old(store.sessions) && store.accounts == old(store.accounts)
    ensures store.Contents() == RunUsers(old(store.Contents()), mocks, hash, 0).tables
    ensures ok == RunUsers(old(store.Contents()), mocks, hash, 0).ok
  {
    found, lines := [], [];
    var i := 0;
    while i < |mocks|
      invariant 0 <= i <= |mocks| && store.Valid()
      invariant UsersProgress(old(store.users), store.users, mocks, others, hash, i, found, lines)
      invariant RunUsers(store.Contents(), mocks, hash, i) == RunUsers(old(store.Contents()), mocks, hash, 0)
      invariant AllEmailsTaken(old(store.users), mocks) ==> store.Contents() == old(store.Contents())
      invariant store.teams == old(store.teams) && store.members == old(store.members) && store.games == old(store.games)
      invariant store.tournaments == old(store.tournaments) && store.sessions == old(store.sessions) && store.accounts == old(store.accounts)
    {
      ghost var before := store.Contents();
      found, lines, ok := UsersPass(store, mocks, hash, others, old(store.users), i, found, lines);
      assert store.Contents() == UserStep(before, mocks[i], hash).tables;
      if !ok {
        return;
      }
      i := i + 1;
    }
    UsersDone(old(store.users), store.users, mocks, others, hash, found, lines);
    ok := true;
  }

  /** One pass of a users loop, keeping its progress; `ok` false when the insert was refused. */
  method UsersPass(store: Store, mocks: seq<MockUser>, hash: string -> string, ghost others: seq<MockUser>,
                   ghost start: seq<User>, i: nat, found: seq<User>, lines: seq<SeedLine>)
    returns (found': seq<User>, lines': seq<SeedLine>, ok: bool)
    requires store.Valid() && i < |mocks| && DistinctMocks(mocks) && Apart(mocks, others)
    requires UsersProgress(start, store.users, mocks, others, hash, i, found, lines)
    modifies store
    ensures store.Valid()
    ensures ok ==> UsersProgress(start, store.users, mocks, others, hash, i + 1, found', lines')
    ensures !ok ==> !AllServable(start, mocks) && store.Contents() == old(store.Contents())
    ensures EmailTaken(old(store.users), mocks[i].email) ==> ok && store.Contents() == old(store.Contents())
    ensures store.teams == old(store.teams) && store.members == old(store.members) && store.games == old(store.games)
    ensures store.tournaments == old(store.tournaments) && store.sessions == old(store.sessions) && store.accounts == old(store.accounts)
    ensures store.Contents() == UserStep(old(store.Contents()), mocks[i], hash).tables
    ensures ok == UserStep(old(store.Contents()), mocks[i], hash).ok
  {
    ghost var before, next := store.users, store.nextId;
    var u, line := GetOrCreateUser(store, mocks[i], hash);
    if u.None? {
      UsersRefused(start, before, mocks, others, hash, i, found, lines);
      return found, lines, false;
    }
    UsersStep(start, before, next, mocks, others, hash, i, found, lines, u.value);
    found', lines', ok := found + [u.value], lines + [line], true;
  }

  /** A team tag is unique: two rows of a valid teams table with the same tag are one row. */
  lemma SameTagSameTeam(teams: seq<Team>, users: seq<User>, next: Id, a: Team, b: Team)
    requires TeamsOk(teams, users, next) && a in teams && b in teams && a.tag == b.tag
    ensures a == b
  {
    var i :| 0 <= i < |teams| && teams[i] == a;
    var j :| 0 <= j < |teams| && teams[j] == b;
  }

  lemma TagTakenSnoc(teams: seq<Team>, t: Team)
    ensures forall tag :: TagTaken(teams + [t], tag) <==> TagTaken(teams, tag) || t.tag == tag
  {
    var all := teams + [t];
    forall tag | TagTaken(teams, tag) ensures TagTaken(all, tag) {
      var i :| 0 <= i < |teams| && teams[i].tag == tag;
      assert all[i] == teams[i];
    }
    assert all[|teams|] == t;
  }

  /**
   * `found` is what the teams loop pushed for mock team `t`: the team with its
   * tag, which is the team found before the run or else a new ACTIVE team
   * under the listed manager, with one membership per listed player carrying
   * that player's role.
   */
  predicate TeamFor(before: seq<Team>, teams: seq<Team>, members: seq<TeamMember>, t: MockTeam,
                    players: seq<User>, managers: seq<User>, found: Team)
    requires TeamFits(t, |players|, |managers|)
  {
    && found in teams && found.tag == t.tag
    && (if TagTaken(before, t.tag) then found in before
        else
          && found == Team(found.id, t.name, t.tag, Some(t.description), ACTIVE, managers[t.manager].id)
          && forall j :: 0 <= j < |t.players| ==>
               TeamMember(found.id + 1 + j, players[t.players[j]].id, found.id, Some(RoleAt(t.playerRoles, j))) in members)
  }

  /** What was pushed for a team stays true while the tables only grow. */
  lemma TeamForGrows(origin: seq<Team>, teams: seq<Team>, members: seq<TeamMember>,
                     teams': seq<Team>, members': seq<TeamMember>,
                     t: MockTeam, players: seq<User>, managers: seq<User>, found: Team)
    requires TeamFits(t, |players|, |managers|)
    requires TeamFor(origin, teams, members, t, players, managers, found)
    requires forall x :: x in teams ==> x in teams'
    requires forall m :: m in members ==> m in members'
    ensures TeamFor(origin, teams', members', t, players, managers, found)
  {
  }

  /**
   * One pass of the teams loop: the mock team is looked up by tag and reused,
   * or created together with its memberships. The manager is one of the
   * seeded managers and the players are distinct seeded users, so the create
   * always succeeds and the skip for a missing manager never happens.
   * `origin` is the teams table the whole loop started on.
   */
  method GetOrCreateTeam(store: Store, t: MockTeam, players: seq<User>, managers: seq<User>, ghost origin: seq<Team>)
    returns (found: Team, line: SeedLine)
    requires store.Valid()
    requires TeamFits(t, |players|, |managers|)
    requires forall k :: 0 <= k < |players| ==> players[k] in store.users
    requires forall k :: 0 <= k < |managers| ==> managers[k] in store.users
    requires forall a, b :: 0 <= a < |players| && 0 <= b < |players| && a != b ==> players[a].id != players[b].id
    requires forall x :: x in origin ==> x in store.teams
    requires TagTaken(store.teams, t.tag) <==> TagTaken(origin, t.tag)
    modifies store
    ensures store.Valid()
    ensures line == TeamLine(origin, t)
    ensures TeamFor(origin, store.teams, store.members, t, players, managers, found)
    ensures forall tag :: TagTaken(store.teams, tag) <==> TagTaken(old(store.teams), tag) || tag == t.tag
    ensures forall x :: x in old(store.teams) ==> x in store.teams
    ensures forall m :: m in old(store.members) ==> m in store.members
    ensures TagTaken(origin, t.tag) ==> store.Contents() == old(store.Contents())
    ensures store.users == old(store.users) && store.games == old(store.games)
    ensures store.tournaments == old(store.tournaments) && store.sessions == old(store.sessions) && store.accounts == old(store.accounts)
    ensures store.Contents() == TeamStep(old(store.Contents()), t, players, managers)
  {
    var existing := store.TeamByTag(t.tag);
    if existing.Some? {
      FoundTeamFor(origin, store.teams, store.users, store.nextId, store.members, t, players, managers, existing.value);
      return existing.value, TeamExists(t.tag);
    }
    ghost var beforeTeams, beforeMembers := store.teams, store.members;
    found := CreateMockTeam(store, t, players, managers);
    line := TeamCreated(t.name, t.tag);
    CreatedTeamFor(origin, beforeTeams, beforeMembers, t, players, managers, found);
  }

  /** The reuse branch: the team found by tag is the one the loop's starting table had. */
  lemma FoundTeamFor(origin: seq<Team>, teams: seq<Team>, users: seq<User>, next: Id, members: seq<TeamMember>,
                     t: MockTeam, players: seq<User>, managers: seq<User>, found: Team)
    requires TeamsOk(teams, users, next) && TeamFits(t, |players|, |managers|)
    requires forall x :: x in origin ==> x in teams
    requires TagTaken(origin, t.tag) && found in teams && found.tag == t.tag
    ensures TeamFor(origin, teams, members, t, players, managers, found)
  {
    var j :| 0 <= j < |origin| && origin[j].tag == t.tag;
    SameTagSameTeam(teams, users, next, origin[j], found);
  }

  /** The create branch: the new team and its memberships are what the loop records. */
  lemma CreatedTeamFor(origin: seq<Team>, teams: seq<Team>, members: seq<TeamMember>,
                       t: MockTeam, players: seq<User>, managers: seq<User>, found: Team)
    requires TeamFits(t, |players|, |managers|) && !TagTaken(origin, t.tag)
    requires found == Team(found.id, t.name, t.tag, Some(t.description), ACTIVE, managers[t.manager].id)
    ensures TeamFor(origin, teams + [found], members + NewMemberRows(found.id + 1, found.id, MemberSpecs(t, players)),
                    t, players, managers, found)
    ensures forall tag :: TagTaken(teams + [found], tag) <==> TagTaken(teams, tag) || tag == t.tag
  {
    TagTakenSnoc(teams, found);
    NestedRowsListed(members, found.id, t, players);
  }

  /**
   * The create branch of the teams loop: a new ACTIVE team under the listed
   * manager, with one membership per listed player, numbered after the team.
   */
  method CreateMockTeam(store: Store, t: MockTeam, players: seq<User>, managers: seq<User>) returns (found: Team)
    requires store.Valid()
    requires TeamFits(t, |players|, |managers|)
    requires forall k :: 0 <= k < |players| ==> players[k] in store.users
    requires forall k :: 0 <= k < |managers| ==> managers[k] in store.users
    requires forall a, b :: 0 <= a < |players| && 0 <= b < |players| && a != b ==> players[a].id != players[b].id
    requires !TagTaken(store.teams, t.tag)
    modifies store
    ensures store.Valid()
    ensures found == Team(found.id, t.name, t.tag, Some(t.description), ACTIVE, managers[t.manager].id)
    ensures store.teams == old(store.teams) + [found]
    ensures store.members == old(store.members) + NewMemberRows(found.id + 1, found.id, MemberSpecs(t, players))
    ensures store.users == old(store.users) && store.games == old(store.games)
    ensures store.tournaments == old(store.tournaments) && store.sessions == old(store.sessions) && store.accounts == old(store.accounts)
    ensures found.id == old(store.nextId) && store.nextId == old(store.nextId) + 1 + |t.players|
  {
    var newMembers := MemberSpecs(t, players);
    assert managers[t.manager].id in UserIds(store.users);
    forall k | 0 <= k < |newMembers| ensures newMembers[k].userId in UserIds(store.users) {
      assert players[t.players[k]] in store.users;
    }
    assert DistinctUsers(newMembers) by {
      forall k, l | 0 <= k < l < |newMembers| ensures newMembers[k].userId != newMembers[l].userId {
        assert t.players[k] != t.players[l];
      }
    }
    var created := store.CreateTeam(t.name, t.tag, Some(t.description), ACTIVE, managers[t.manager].id, newMembers);
    found := created.value;
  }

  /** The nested create lists one membership per player of the mock team, in order. */
  lemma NestedRowsListed(members: seq<TeamMember>, teamId: Id, t: MockTeam, players: seq<User>)
    requires forall j :: 0 <= j < |t.players| ==> t.players[j] < |players|
    ensures forall j :: 0 <= j < |t.players| ==>
      TeamMember(teamId + 1 + j, players[t.players[j]].id, teamId, Some(RoleAt(t.playerRoles, j)))
        in members + NewMemberRows(teamId + 1, teamId, MemberSpecs(t, players))
  {
    var rows := NewMemberRows(teamId + 1, teamId, MemberSpecs(t, players));
    forall j | 0 <= j < |t.players|
      ensures TeamMember(teamId + 1 + j, players[t.players[j]].id, teamId, Some(RoleAt(t.playerRoles, j))) in members + rows
    {
      assert (members + rows)[|members| + j] == rows[j];
    }
  }

  /**
   * The state of the teams loop after the first `i` mock teams, starting
   * from teams table `start`: a team and a line pushed for each, the
   * remaining tags as taken as they were, and no team or membership lost.
   */
  ghost predicate TeamsProgress(start: seq<Team>, startMembers: seq<TeamMember>, teams: seq<Team>, members: seq<TeamMember>,
                                specs: seq<MockTeam>, players: seq<User>, managers: seq<User>,
                                i: nat, found: seq<Team>, lines: seq<SeedLine>)
    requires i <= |specs| && TeamsFit(specs, |players|, |managers|)
  {
    && |found| == i && lines == TeamLines(start, specs[..i])
    && (forall k :: 0 <= k < i ==> TeamFor(start, teams, members, specs[k], players, managers, found[k]))
    && (forall k :: i <= k < |specs| ==> (TagTaken(teams, specs[k].tag) <==> TagTaken(start, specs[k].tag)))
    && (forall x :: x in start ==> x in teams)
    && (forall m :: m in startMembers ==> m in members)
  }

  /** One pass of the teams loop keeps its progress. */
  lemma TeamsStep(start: seq<Team>, startMembers: seq<TeamMember>, teams: seq<Team>, members: seq<TeamMember>,
                  teams': seq<Team>, members': seq<TeamMember>,
                  specs: seq<MockTeam>, players: seq<User>, managers: seq<User>,
                  i: nat, found: seq<Team>, lines: seq<SeedLine>, team: Team)
    requires i < |specs| && TeamsFit(specs, |players|, |managers|)
    requires TeamsProgress(start, startMembers, teams, members, specs, players, managers, i, found, lines)
    requires TeamFor(start, teams', members', specs[i], players, managers, team)
    requires forall tag :: TagTaken(teams', tag) <==> TagTaken(teams, tag) || tag == specs[i].tag
    requires forall x :: x in teams ==> x in teams'
    requires forall m :: m in members ==> m in members'
    ensures TeamsProgress(start, startMembers, teams', members', specs, players, managers, i + 1,
                          found + [team], lines + [TeamLine(start, specs[i])])
  {
    assert specs[..i + 1] == specs[..i] + [specs[i]];
    forall k | 0 <= k < i + 1 ensures TeamFor(start, teams', members', specs[k], players, managers, (found + [team])[k]) {
      if k < i {
        assert (found + [team])[k] == found[k];
        TeamForGrows(start, teams, members, teams', members', specs[k], players, managers, found[k]);
      }
    }
  }

  /** The teams loop over the mock teams, one `GetOrCreateTeam` per team. */
  method GetOrCreateTeams(store: Store, specs: seq<MockTeam>, players: seq<User>, managers: seq<User>)
    returns (found: seq<Team>, lines: seq<SeedLine>)
    requires store.Valid()
    requires TeamsFit(specs, |players|, |managers|)
    requires forall k :: 0 <= k < |players| ==> players[k] in store.users
    requires forall k :: 0 <= k < |managers| ==> managers[k] in store.users
    requires forall a, b :: 0 <= a < |players| && 0 <= b < |players| && a != b ==> players[a].id != players[b].id
    modifies store
    ensures store.Valid()
    ensures |found| == |specs| && lines == TeamLines(old(store.teams), specs)
    ensures forall k :: 0 <= k < |specs| ==>
      TeamFor(old(store.teams), store.teams, store.members, specs[k], players, managers, found[k])
    ensures forall t :: t in old(store.teams) ==> t in store.teams
    ensures forall m :: m in old(store.members) ==> m in store.members
    ensures (forall k :: 0 <= k < |specs| ==> TagTaken(old(store.teams), specs[k].tag)) ==> store.Contents() == old(store.Contents())
    ensures store.users == old(store.users) && store.games == old(store.games)
    ensures store.tournaments == old(store.tournaments) && store.sessions == old(store.sessions) && store.accounts == old(store.accounts)
    ensures store.Contents() == RunTeams(old(store.Contents()), specs, players, managers, 0)
  {
    found, lines := [], [];
    var i := 0;
    while i < |specs|
      invariant 0 <= i <= |specs| && store.Valid()
      invariant RunTeams(store.Contents(), specs, players, managers, i) == RunTeams(old(store.Contents()), specs, players, managers, 0)
      invariant TeamsProgress(old(store.teams), old(store.members), store.teams, store.members, specs, players, managers, i, found, lines)
      invariant (forall k :: 0 <= k < |specs| ==> TagTaken(old(store.teams), specs[k].tag)) ==> store.Contents() == old(store.Contents())
      invariant store.users == old(store.users) && store.games == old(store.games)
      invariant store.tournaments == old(store.tournaments) && store.sessions == old(store.sessions) && store.accounts == old(store.accounts)
    {
      ghost var beforeTeams, beforeMembers := store.teams, store.members;
      var team, line := GetOrCreateTeam(store, specs[i], players, managers, old(store.teams));
      TeamsStep(old(store.teams), old(store.members), beforeTeams, beforeMembers, store.teams, store.members,
                specs, players, managers, i, found, lines, team);
      found, lines := found + [team], lines + [line];
      i := i + 1;
    }
    assert specs[..|specs|] == specs;
  }

  /** A row of the tournaments table is the mock tournament's own row. */
  predicate HasRow(tournaments: seq<Tournament>, m: MockTournament) {
    exists i :: 0 <= i < |tournaments| && tournaments[i] == TournamentRow(m, tournaments[i].id)
  }

  lemma TournamentsSnoc(tournaments: seq<Tournament>, t: Tournament)
    ensures forall m :: HasRow(tournaments, m) ==> HasRow(tournaments + [t], m)
    ensures forall m :: t == TournamentRow(m, t.id) ==> HasRow(tournaments + [t], m)
  {
    var all := tournaments + [t];
    forall m | HasRow(tournaments, m) ensures HasRow(all, m) {
      var i :| 0 <= i < |tournaments| && tournaments[i] == TournamentRow(m, tournaments[i].id);
      assert all[i] == tournaments[i];
    }
    assert all[|tournaments|] == t;
  }

  lemma TournamentLinesSnoc(tournaments: seq<Tournament>, specs: seq<MockTournament>, i: nat)
    requires i < |specs|
    ensures TournamentLines(tournaments, specs[..i + 1]) == TournamentLines(tournaments, specs[..i]) + [TournamentLine(tournaments, specs[i])]
  {
  }

  /** One pass of the tournaments loop: look the mock tournament up by name, insert it when absent. */
  method GetOrCreateTournament(store: Store, m: MockTournament) returns (isNew: bool, line: SeedLine)
    requires store.Valid()
    modifies store
    ensures store.Valid()
    ensures isNew <==> !TournamentNamed(old(store.tournaments), m.name)
    ensures line == TournamentLine(old(store.tournaments), m)
    ensures store.tournaments == if isNew then old(store.tournaments) + [TournamentRow(m, old(store.nextId))] else old(store.tournaments)
    ensures !isNew ==> store.Contents() == old(store.Contents())
    ensures store.users == old(store.users) && store.teams == old(store.teams) && store.members == old(store.members)
    ensures store.games == old(store.games) && store.sessions == old(store.sessions) && store.accounts == old(store.accounts)
    ensures store.Contents() == TournamentStep(old(store.Contents()), m)
  {
    var existing := store.TournamentByName(m.name);
    if existing.Some? {
      return false, TournamentExists(m.name);
    }
    var t := store.CreateTournament(m.name, Some(m.description), m.startDate, Some(m.endDate), Some(m.game), m.status);
    return true, TournamentCreated(m.name);
  }

  /**
   * The state of the tournaments loop after the first `i` mock tournaments,
   * starting from table `start`: the counter and the lines so far, a row for
   * each mock that was absent, the remaining mocks' presence unchanged and
   * no row lost.
   */
  ghost predicate TournamentsProgress(start: seq<Tournament>, cur: seq<Tournament>, specs: seq<MockTournament>,
                                      i: nat, created: nat, lines: seq<SeedLine>)
    requires i <= |specs|
  {
    && created == NewCount(start, specs[..i])
    && lines == TournamentLines(start, specs[..i])
    && |cur| == |start| + created
    && (forall k :: 0 <= k < i && !TournamentNamed(start, specs[k].name) ==> HasRow(cur, specs[k]))
    && (forall k :: i <= k < |specs| ==> (TournamentNamed(cur, specs[k].name) <==> TournamentNamed(start, specs[k].name)))
    && (forall t :: t in start ==> t in cur)
  }

  /** One pass of the tournaments loop keeps its progress. */
  lemma TournamentsStep(start: seq<Tournament>, cur: seq<Tournament>, specs: seq<MockTournament>,
                        i: nat, created: nat, lines: seq<SeedLine>, isNew: bool, line: SeedLine, id: Id)
    requires i < |specs| && DistinctNames(specs)
    requires TournamentsProgress(start, cur, specs, i, created, lines)
    requires isNew <==> !TournamentNamed(cur, specs[i].name)
    requires line == TournamentLine(cur, specs[i])
    ensures TournamentsProgress(start, if isNew then cur + [TournamentRow(specs[i], id)] else cur, specs, i + 1,
                                if isNew then created + 1 else created, lines + [line])
  {
    assert specs[..i + 1][..i] == specs[..i];
    TournamentLinesSnoc(start, specs, i);
    if isNew {
      var row := TournamentRow(specs[i], id);
      var next := cur + [row];
      TournamentNamedSnoc(cur, row);
      TournamentsSnoc(cur, row);
      forall k | 0 <= k <= i && !TournamentNamed(start, specs[k].name) ensures HasRow(next, specs[k]) {
        if k < i {
          assert HasRow(cur, specs[k]);
        }
      }
    }
  }

  /** After the last pass every mock tournament has a namesake. */
  lemma TournamentsDone(start: seq<Tournament>, cur: seq<Tournament>, specs: seq<MockTournament>, created: nat, lines: seq<SeedLine>)
    requires TournamentsProgress(start, cur, specs, |specs|, created, lines)
    ensures created == NewCount(start, specs) && lines == TournamentLines(start, specs)
    ensures forall k :: 0 <= k < |specs| ==> TournamentNamed(cur, specs[k].name)
    ensures (forall k :: 0 <= k < |specs| ==> TournamentNamed(start, specs[k].name)) ==> created == 0
  {
    assert specs[..|specs|] == specs;
    NewCountBounds(start, specs);
    forall k | 0 <= k < |specs| ensures TournamentNamed(cur, specs[k].name) {
      if TournamentNamed(start, specs[k].name) {
        var j :| 0 <= j < |start| && start[j].name == specs[k].name;
        assert start[j] in cur;
      } else {
        assert HasRow(cur, specs[k]);
      }
    }
  }

  /**
   * The tournaments loop: each mock tournament is looked up by name and
   * inserted when absent; `created` counts the inserts.
   */
  method GetOrCreateTournaments(store: Store, specs: seq<MockTournament>) returns (created: nat, lines: seq<SeedLine>)
    requires store.Valid()
    requires DistinctNames(specs)
    modifies store
    ensures store.Valid()
    ensures created == NewCount(old(store.tournaments), specs) && lines == TournamentLines(old(store.tournaments), specs)
    ensures |store.tournaments| == |old(store.tournaments)| + created
    ensures forall k :: 0 <= k < |specs| ==> TournamentNamed(store.tournaments, specs[k].name)
    ensures forall k :: 0 <= k < |specs| && !TournamentNamed(old(store.tournaments), specs[k].name) ==> HasRow(store.tournaments, specs[k])
    ensures forall t :: t in old(store.tournaments) ==> t in store.tournaments
    ensures (forall k :: 0 <= k < |specs| ==> TournamentNamed(old(store.tournaments), specs[k].name)) ==> store.Contents() == old(store.Contents())
    ensures store.users == old(store.users) && store.teams == old(store.teams) && store.members == old(store.members)
    ensures store.games == old(store.games) && store.sessions == old(store.sessions) && store.accounts == old(store.accounts)
    ensures store.Contents() == RunTournaments(old(store.Contents()), specs, 0)
  {
    created, lines := 0, [];
    var i := 0;
    while i < |specs|
      invariant 0 <= i <= |specs| && store.Valid()
      invariant RunTournaments(store.Contents(), specs, i) == RunTournaments(old(store.Contents()), specs, 0)
      invariant TournamentsProgress(old(store.tournaments), store.tournaments, specs, i, created, lines)
      invariant created == 0 ==> store.Contents() == old(store.Contents())
      invariant store.users == old(store.users) && store.teams == old(store.teams) && store.members == old(store.members)
      invariant store.games == old(store.games) && store.sessions == old(store.sessions) && store.accounts == old(store.accounts)
    {
      created, lines := TournamentsPass(store, specs, i, created, lines, old(store.tournaments));
      i := i + 1;
    }
    TournamentsDone(old(store.tournaments), store.tournaments, specs, created, lines);
  }

  /** One pass of the tournaments loop, with its counter and lines. */
  method TournamentsPass(store: Store, specs: seq<MockTournament>, i: nat, created: nat, lines: seq<SeedLine>,
                         ghost start: seq<Tournament>)
    returns (created': nat, lines': seq<SeedLine>)
    requires store.Valid() && i < |specs| && DistinctNames(specs)
    requires TournamentsProgress(start, store.tournaments, specs, i, created, lines)
    modifies store
    ensures store.Valid()
    ensures TournamentsProgress(start, store.tournaments, specs, i + 1, created', lines')
    ensures created' == created ==> store.Contents() == old(store.Contents())
    ensures created' >= created
    ensures store.users == old(store.users) && store.teams == old(store.teams) && store.members == old(store.members)
    ensures store.games == old(store.games) && store.sessions == old(store.sessions) && store.accounts == old(store.accounts)
    ensures store.Contents() == TournamentStep(old(store.Contents()), specs[i])
  {
    ghost var before, id := store.tournaments, store.nextId;
    var isNew, line := GetOrCreateTournament(store, specs[i]);
    TournamentsStep(start, before, specs, i, created, lines, isNew, line, id);
    created' := if isNew then created + 1 else created;
    lines' := lines + [line];
  }

  /** Rows pushed for mock users, each carrying its mock's e-mail, make every such e-mail taken. */
  lemma FoundEmailsTaken(users: seq<User>, found: seq<User>, mocks: seq<MockUser>)
    requires |found| == |mocks|
    requires forall k :: 0 <= k < |found| ==> found[k] in users && found[k].email == mocks[k].email
    ensures AllEmailsTaken(users, mocks)
  {
    forall k | 0 <= k < |mocks| ensures EmailTaken(users, mocks[k].email) {
      var j :| 0 <= j < |users| && users[j] == found[k];
    }
  }

  /** The players loop, then the managers loop. */
  method SeedUsers(store: Store, hash: string -> string, d: Mocks)
    returns (players: seq<User>, managers: seq<User>, playerLines: seq<SeedLine>, managerLines: seq<SeedLine>, ok: bool)
    requires store.Valid() && Consistent(d)
    modifies store
    ensures store.Valid()
    ensures ok <==> AllServable(old(store.users), d.players) && AllServable(old(store.users), d.managers)
    ensures ok ==> playerLines == UserLines(old(store.users), d.players) && managerLines == UserLines(old(store.users), d.managers)
    ensures ok ==> |players| == |d.players| && |managers| == |d.managers|
    ensures ok ==> forall k :: 0 <= k < |players| ==> players[k] in store.users && players[k].email == d.players[k].email
    ensures ok ==> forall k :: 0 <= k < |managers| ==> managers[k] in store.users && managers[k].email == d.managers[k].email
    ensures ok ==> forall a, b :: 0 <= a < |players| && 0 <= b < |players| && a != b ==> players[a].id != players[b].id
    ensures forall u :: u in old(store.users) ==> u in store.users
    ensures AllEmailsTaken(old(store.users), d.players) && AllEmailsTaken(old(store.users), d.managers) ==>
      store.Contents() == old(store.Contents())
    ensures store.teams == old(store.teams) && store.members == old(store.members) && store.games == old(store.games)
    ensures store.tournaments == old(store.tournaments) && store.sessions == old(store.sessions) && store.accounts == old(store.accounts)
    ensures store.Contents() == RunAllUsers(old(store.Contents()), d, hash).tables
    ensures ok == RunAllUsers(old(store.Contents()), d, hash).ok
  {
    ghost var users0 := store.users;
    managers, managerLines := [], [];
    players, playerLines, ok := GetOrCreateUsers(store, d.players, hash, d.managers);
    if !ok {
      return;
    }
    managers, managerLines, ok := SeedManagers(store, hash, d, users0, players);
  }

  /** The managers loop, run after the players loop found `players` on the users `users0`. */
  method SeedManagers(store: Store, hash: string -> string, d: Mocks, ghost users0: seq<User>, ghost players: seq<User>)
    returns (managers: seq<User>, managerLines: seq<SeedLine>, ok: bool)
    requires store.Valid() && Consistent(d) && |players| == |d.players|
    requires forall k :: 0 <= k < |d.players| ==> FoundFor(users0, store.users, d.players[k], hash, players[k])
    requires forall l :: 0 <= l < |d.managers| ==>
      && (EmailTaken(store.users, d.managers[l].email) <==> EmailTaken(users0, d.managers[l].email))
      && (UsernameTaken(store.users, Some(d.managers[l].username)) <==> UsernameTaken(users0, Some(d.managers[l].username)))
    modifies store
    ensures store.Valid()
    ensures ok <==> AllServable(users0, d.managers)
    ensures ok ==> managerLines == UserLines(users0, d.managers) && |managers| == |d.managers|
    ensures ok ==> forall k :: 0 <= k < |players| ==> players[k] in store.users && players[k].email == d.players[k].email
    ensures ok ==> forall k :: 0 <= k < |managers| ==> managers[k] in store.users && managers[k].email == d.managers[k].email
    ensures ok ==> forall a, b :: 0 <= a < |players| && 0 <= b < |players| && a != b ==> players[a].id != players[b].id
    ensures forall u :: u in old(store.users) ==> u in store.users
    ensures AllEmailsTaken(users0, d.managers) ==> store.Contents() == old(store.Contents())
    ensures store.teams == old(store.teams) && store.members == old(store.members) && store.games == old(store.games)
    ensures store.tournaments == old(store.tournaments) && store.sessions == old(store.sessions) && store.accounts == old(store.accounts)
    ensures store.Contents() == RunUsers(old(store.Contents()), d.managers, hash, 0).tables
    ensures ok == RunUsers(old(store.Contents()), d.managers, hash, 0).ok
  {
    ghost var users1 := store.users;
    OthersKept(users0, users1, d.managers);
    managers, managerLines, ok := GetOrCreateUsers(store, d.managers, hash, []);
    if !ok {
      return;
    }
    FoundKept(users0, users1, store.users, store.nextId, d.players, hash, players);
  }

  /** The second loop sees the other list's e-mails and usernames as the first loop found them. */
  lemma OthersKept(users0: seq<User>, users1: seq<User>, others: seq<MockUser>)
    requires forall l :: 0 <= l < |others| ==>
      && (EmailTaken(users1, others[l].email) <==> EmailTaken(users0, others[l].email))
      && (UsernameTaken(users1, Some(others[l].username)) <==> UsernameTaken(users0, Some(others[l].username)))
    ensures AllServable(users1, others) <==> AllServable(users0, others)
    ensures AllEmailsTaken(users1, others) <==> AllEmailsTaken(users0, others)
    ensures UserLines(users1, others) == UserLines(users0, others)
  {
  }

  /** The players found by the first loop stay in the table, as distinct users. */
  lemma FoundKept(users0: seq<User>, users1: seq<User>, users2: seq<User>, next: Id,
                  mocks: seq<MockUser>, hash: string -> string, found: seq<User>)
    requires |found| == |mocks| && DistinctMocks(mocks) && UsersOk(users2, next)
    requires forall k :: 0 <= k < |mocks| ==> FoundFor(users0, users1, mocks[k], hash, found[k])
    requires forall u :: u in users1 ==> u in users2
    ensures forall k :: 0 <= k < |found| ==> found[k] in users2 && found[k].email == mocks[k].email
    ensures forall a, b :: 0 <= a < |found| && 0 <= b < |found| && a != b ==> found[a].id != found[b].id
  {
    assert forall k :: 0 <= k < |found| ==> found[k] in users1;
    DistinctIds(users2, next, found);
  }

  /** The teams loop, then the tournaments loop, on the users the first two loops left. */
  method SeedTeamsAndTournaments(store: Store, d: Mocks, players: seq<User>, managers: seq<User>)
    returns (teamLines: seq<SeedLine>, tournamentLines: seq<SeedLine>, teamCount: nat, created: nat)
    requires store.Valid() && Consistent(d)
    requires |players| == |d.players| && |managers| == |d.managers|
    requires forall k :: 0 <= k < |players| ==> players[k] in store.users
    requires forall k :: 0 <= k < |managers| ==> managers[k] in store.users
    requires forall a, b :: 0 <= a < |players| && 0 <= b < |players| && a != b ==> players[a].id != players[b].id
    modifies store
    ensures store.Valid()
    ensures teamLines == TeamLines(old(store.teams), d.teams) && teamCount == |d.teams|
    ensures tournamentLines == TournamentLines(old(store.tournaments), d.tournaments)
    ensures created == NewCount(old(store.tournaments), d.tournaments)
    ensures forall k :: 0 <= k < |d.teams| ==> TagTaken(store.teams, d.teams[k].tag)
    ensures forall k :: 0 <= k < |d.tournaments| ==> TournamentNamed(store.tournaments, d.tournaments[k].name)
    ensures store.users == old(store.users)
    ensures (forall k :: 0 <= k < |d.teams| ==> TagTaken(old(store.teams), d.teams[k].tag)) &&
            (forall k :: 0 <= k < |d.tournaments| ==> TournamentNamed(old(store.tournaments), d.tournaments[k].name)) ==>
            store.Contents() == old(store.Contents())
    ensures store.Contents() == RunTournaments(RunTeams(old(store.Contents()), d.teams, players, managers, 0), d.tournaments, 0)
  {
    var teams;
    teams, teamLines := GetOrCreateTeams(store, d.teams, players, managers);
    forall k | 0 <= k < |d.teams| ensures TagTaken(store.teams, d.teams[k].tag) {
      assert TeamFor(old(store.teams), store.teams, store.members, d.teams[k], players, managers, teams[k]);
      var j :| 0 <= j < |store.teams| && store.teams[j] == teams[k];
    }
    teamCount := |teams|;
    created, tournamentLines := GetOrCreateTournaments(store, d.tournaments);
  }

  /**
   * The four loops over consistent mock data, for an ADMIN caller. A refused
   * user insert (a mock's username held by a user with a different e-mail)
   * ends the run with 500, keeping what was written before. A successful run
   * reports, from the tables it started on, which rows it found and which it
   * created, and leaves every demonstration row present.
   */
  method SeedWith(store: Store, hash: string -> string, d: Mocks) returns (resp: SeedResponse)
    requires store.Valid() && Consistent(d)
    modifies store
    ensures store.Valid()
    ensures resp.Seeded? <==> AllServable(old(store.users), d.players) && AllServable(old(store.users), d.managers)
    ensures !resp.Seeded? ==> resp == SeedFailed
    ensures resp.Seeded? ==> resp == Seeded(Report(old(store.Contents()), d), Stats(old(store.Contents()), d))
    ensures resp.Seeded? ==> SeedComplete(store.Contents(), d)
    ensures SeedComplete(old(store.Contents()), d) ==> resp.Seeded? && store.Contents() == old(store.Contents())
    ensures store.Contents() == RunSeed(old(store.Contents()), d, hash).tables
    ensures resp.Seeded? <==> RunSeed(old(store.Contents()), d, hash).ok
    ensures store.games == old(store.games) && store.sessions == old(store.sessions) && store.accounts == old(store.accounts)
    ensures resp == SeedFailed ==>
      store.teams == old(store.teams) && store.members == old(store.members) && store.tournaments == old(store.tournaments)
    ensures old(store.users) <= store.users && |store.users| <= |old(store.users)| + |d.players| + |d.managers|
    ensures resp.Seeded? ==> store.users == SeededUsersTable(old(store.users), old(store.nextId), d, hash)
  {
    ghost var b := store.Contents();
    SeedRunShape(b, d, hash);
    var players, managers, playerLines, managerLines, ok := SeedUsers(store, hash, d);
    if !ok {
      return SeedFailed;
    }
    AllUsersTaken(b, d, hash);
    RowsFound(store.users, store.nextId, players, d.players);
    RowsFound(store.users, store.nextId, managers, d.managers);
    var teamLines, tournamentLines, teamCount, count := SeedTeamsAndTournaments(store, d, players, managers);
    FoundEmailsTaken(store.users, players, d.players);
    FoundEmailsTaken(store.users, managers, d.managers);
    var stats := SeedStats(|players|, |managers|, teamCount, count);
    resp := Seeded(
      [Header(PlayersSection)] + playerLines + [Header(ManagersSection)] + managerLines
      + [Header(TeamsSection)] + teamLines + [Header(TournamentsSection)] + tournamentLines
      + [Finished, PlayersStat(stats.players), ManagersStat(stats.managers), TeamsStat(stats.teams), TournamentsStat(stats.tournaments)],
      stats);
    assert store.Contents() == RunSeed(b, d, hash).tables && RunSeed(b, d, hash).ok;
    SeededUsers(b, d, hash);
  }

  /** The rows the users loops pushed are the rows of their mocks' e-mails. */
  lemma RowsFound(users: seq<User>, next: Id, found: seq<User>, mocks: seq<MockUser>)
    requires UsersOk(users, next) && |found| == |mocks| && AllEmailsTaken(users, mocks)
    requires forall k :: 0 <= k < |found| ==> found[k] in users && found[k].email == mocks[k].email
    ensures found == RowsByEmail(users, mocks)
  {
    forall k | 0 <= k < |mocks| ensures found[k] == RowsByEmail(users, mocks)[k] {
      var row := RowByEmail(users, mocks[k].email);
      assert row in users;
      SameEmailSameRow(users, next, found[k], row);
    }
  }

  /** `POST`: 401 unless the caller is ADMIN; otherwise the run over the route's data. */
  method Seed(store: Store, session: Option<SessionUser>, hash: string -> string) returns (resp: SeedResponse)
    requires store.Valid()
    modifies store
    ensures store.Valid()
    ensures !IsAdmin(session) ==> resp == SeedDenied && store.Contents() == old(store.Contents())
    ensures IsAdmin(session) ==>
      && (resp.Seeded? <==> AllServable(old(store.users), MockPlayers) && AllServable(old(store.users), MockManagers))
      && (!resp.Seeded? ==> resp == SeedFailed)
      && (SeedComplete(old(store.Contents()), Demo) ==> resp.Seeded? && store.Contents() == old(store.Contents()))
    ensures resp.Seeded? ==>
      && resp == Seeded(Report(old(store.Contents()), Demo), Stats(old(store.Contents()), Demo))
      && SeedComplete(store.Contents(), Demo)
    ensures IsAdmin(session) ==>
      && Consistent(Demo)
      && store.Contents() == RunSeed(old(store.Contents()), Demo, hash).tables
      && (resp.Seeded? <==> RunSeed(old(store.Contents()), Demo, hash).ok)
    ensures store.games == old(store.games) && store.sessions == old(store.sessions) && store.accounts == old(store.accounts)
    ensures resp == SeedFailed ==>
      store.teams == old(store.teams) && store.members == old(store.members) && store.tournaments == old(store.tournaments)
    ensures old(store.users) <= store.users && |store.users| <= |old(store.users)| + |MockPlayers| + |MockManagers|
    ensures resp.Seeded? ==> store.users == SeededUsersTable(old(store.users), old(store.nextId), Demo, hash)
  {
    if !IsAdmin(session) {
      return SeedDenied;
    }
    DemoConsistent();
    resp := SeedWith(store, hash, Demo);
  }
}
