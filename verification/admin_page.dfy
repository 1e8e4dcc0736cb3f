/**
 * The admin page (src/app/admin/page.tsx): the redirect of anyone who is not
 * an ADMIN, the user list handed to the users table (newest first, with each
 * user's membership count) and the per-role statistics shown above it.
 */
module AdminPage {
  import opened Wrappers
  import opened Seqs
  import opened Schema
  import opened Db
  import opened UsersTable
  import PlayersApi
  import ManagersApi

  /** The four figures at the top of the page. */
  datatype Stats = Stats(total: nat, admins: nat, managers: nat, players: nat)

  /** What the page renders: a redirect, or the statistics and the table's rows. */
  datatype Page =
    | Redirect(to: string)
    | Dashboard(stats: Stats, users: seq<UserRow>)

  /** The selected columns of one user and `_count.teamMembers`. */
  function RowOf(u: User, members: seq<TeamMember>): (r: UserRow)
    ensures r.id == u.id && r.email == u.email && r.name == u.name && r.username == u.username
    ensures r.role == u.role && r.teamMembers == |MembershipsOf(members, u.id)|
  {
    UserRow(u.id, u.email, u.name, u.username, u.role, |MembershipsOf(members, u.id)|)
  }

  function Rows(us: seq<User>, members: seq<TeamMember>): (r: seq<UserRow>)
    ensures |r| == |us| && forall i :: 0 <= i < |us| ==> r[i] == RowOf(us[i], members)
  {
    seq(|us|, i requires 0 <= i < |us| => RowOf(us[i], members))
  }

  /** The row test of one role count: `(u) => u.role === role`. */
  function HasRole(role: Role): UserRow -> bool {
    (u: UserRow) => u.role == role
  }

  /** `users.filter((u) => u.role === role).length` */
  function RoleCount(rows: seq<UserRow>, role: Role): (n: nat)
    ensures n <= |rows|
  {
    |Filter(rows, HasRole(role))|
  }

  /** The `stats` object: the list's length and its three role counts. */
  function StatsOf(rows: seq<UserRow>): (s: Stats)
    ensures s.total == |rows|
    ensures s.admins <= s.total && s.managers <= s.total && s.players <= s.total
  {
    Stats(|rows|, RoleCount(rows, ADMIN), RoleCount(rows, MANAGER), RoleCount(rows, PLAYER))
  }

  /**
   * The page: anyone without a session or whose role is not ADMIN is sent to
   * `/dashboard`; an ADMIN sees every user, newest first, and the counts of
   * the store's users by role.
   */
  function Render(store: Store, session: Option<SessionUser>): (r: Page)
    reads store
    ensures r.Redirect? <==> !IsAdmin(session)
    ensures r.Redirect? ==> r.to == "/dashboard"
    ensures r.Dashboard? ==>
      && |r.users| == |store.users|
      && (forall i :: 0 <= i < |store.users| ==> r.users[i] == RowOf(store.users[|store.users| - 1 - i], store.members))
      && r.stats.total == |store.users|
      && r.stats.admins == |OfRole(store.users, ADMIN)|
      && r.stats.managers == |OfRole(store.users, MANAGER)|
      && r.stats.players == |OfRole(store.users, PLAYER)|
  {
    if !IsAdmin(session) then Redirect("/dashboard")
    else
      var rows := Rows(Reverse(store.users), store.members);
      RoleCountNewestFirst(store.users, store.members, ADMIN);
      RoleCountNewestFirst(store.users, store.members, MANAGER);
      RoleCountNewestFirst(store.users, store.members, PLAYER);
      Dashboard(StatsOf(rows), rows)
  }

  /** Every user has one of the three roles, so the three counts add up to the total. */
  lemma {:induction false} StatsSum(rows: seq<UserRow>)
    ensures StatsOf(rows).admins + StatsOf(rows).managers + StatsOf(rows).players == StatsOf(rows).total
    decreases |rows|
  {
    if rows != [] {
      StatsSum(rows[1..]);
      assert Filter(rows, HasRole(ADMIN)) == (if rows[0].role == ADMIN then [rows[0]] else []) + Filter(rows[1..], HasRole(ADMIN));
      assert Filter(rows, HasRole(MANAGER)) == (if rows[0].role == MANAGER then [rows[0]] else []) + Filter(rows[1..], HasRole(MANAGER));
      assert Filter(rows, HasRole(PLAYER)) == (if rows[0].role == PLAYER then [rows[0]] else []) + Filter(rows[1..], HasRole(PLAYER));
    }
  }

  /** Counting a role on the rows counts it on the users they were made from. */
  lemma {:induction false} RoleCountRows(us: seq<User>, members: seq<TeamMember>, role: Role)
    ensures RoleCount(Rows(us, members), role) == |OfRole(us, role)|
    decreases |us|
  {
    if us != [] {
      var rows := Rows(us, members);
      assert rows[1..] == Rows(us[1..], members);
      RoleCountRows(us[1..], members, role);
      assert Filter(rows, HasRole(role)) == (if us[0].role == role then [rows[0]] else []) + Filter(rows[1..], HasRole(role));
    }
  }

  /** Selecting one role distributes over concatenation. */
  lemma {:induction false} OfRoleConcat(a: seq<User>, b: seq<User>, role: Role)
    ensures OfRole(a + b, role) == OfRole(a, role) + OfRole(b, role)
    decreases |a|
  {
    if a == [] {
      assert a + b == b;
    } else {
      assert (a + b)[1..] == a[1..] + b;
      OfRoleConcat(a[1..], b, role);
    }
  }

  /** Newest-first order does not change how many users have a role. */
  lemma {:induction false} OfRoleReverse(us: seq<User>, role: Role)
    ensures |OfRole(Reverse(us), role)| == |OfRole(us, role)|
    decreases |us|
  {
    if us != [] {
      OfRoleReverse(us[1..], role);
      OfRoleConcat(Reverse(us[1..]), [us[0]], role);
      assert OfRole([us[0]], role) == if us[0].role == role then [us[0]] else [];
    }
  }

  lemma RoleCountNewestFirst(us: seq<User>, members: seq<TeamMember>, role: Role)
    ensures RoleCount(Rows(Reverse(us), members), role) == |OfRole(us, role)|
  {
    RoleCountRows(Reverse(us), members, role);
    OfRoleReverse(us, role);
  }

  /**
   * For an ADMIN the page's player and manager figures are the lengths of
   * the lists the players and managers endpoints return on the same store.
   */
  lemma StatsMatchListings(store: Store, session: Option<SessionUser>)
    requires IsAdmin(session)
    ensures var v := Render(store, session);
      && v.Dashboard?
      && PlayersApi.ListPlayers(store, session).Ok?
      && v.stats.players == |PlayersApi.ListPlayers(store, session).value|
      && ManagersApi.ListManagers(store, session).Ok?
      && v.stats.managers == |ManagersApi.ListManagers(store, session).value|
  {
  }
}
