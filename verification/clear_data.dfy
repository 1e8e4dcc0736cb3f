/**
 * `POST /api/admin/clear-data` (src/app/api/admin/clear-data/route.ts): the
 * admin-only wipe of every table, dependent tables first, keeping only the
 * signed-in admin's own user row, with a line of progress per step.
 */
module ClearData {
  import opened Wrappers
  import opened Seqs
  import opened Schema
  import opened Db
  import Chars

  /** The deletions, in the order the route performs them. */
  datatype Step = MembersStep | TeamsStep | TournamentsStep | SessionsStep | AccountsStep | GamesStep | UsersStep
  {
    function Order(): nat {
      match this
      case MembersStep => 0
      case TeamsStep => 1
      case TournamentsStep => 2
      case SessionsStep => 3
      case AccountsStep => 4
      case GamesStep => 5
      case UsersStep => 6
    }
  }

  /** A database error raised by one of the deletions, with its message. */
  datatype Fault = Fault(step: Step, message: string)

  /** The progress lines pushed to `results`. */
  datatype LogLine =
    | Started
    | Deleted(step: Step, count: nat)
    | GamesWarning(message: string)
    | Failed(message: string)
    | Completed

  datatype ClearResponse =
    | Denied                                          // 401 { error: "Unauthorized" }
    | Cleared(results: seq<LogLine>)                  // 200 { success: true, results }
    | ClearFailed(error: string, results: seq<LogLine>) // 500 { success: false, error, results }
  {
    function Status(): nat {
      match this
      case Denied => 401
      case Cleared(_) => 200
      case ClearFailed(_, _) => 500
    }
  }

  /**
   * Whether step `s` deletes its rows: every step before the failing one
   * does, and a failure while deleting games is caught and does not stop the
   * steps after it.
   */
  predicate Completes(fault: Option<Fault>, s: Step) {
    fault.None? || s.Order() < fault.value.step.Order() || (fault.value.step == GamesStep && s != GamesStep)
  }

  /** The games step logs its error unless the message says the table does not exist. */
  predicate Warns(fault: Option<Fault>) {
    fault.Some? && fault.value.step == GamesStep && !Chars.Contains(fault.value.message, "does not exist")
  }

  /** Whether `fault` is raised by step `s`. */
  predicate Hits(fault: Option<Fault>, s: Step) {
    fault.Some? && fault.value.step == s
  }

  /** The error is raised before the games step and stops the wipe there. */
  predicate StopsEarly(fault: Option<Fault>) {
    Hits(fault, MembersStep) || Hits(fault, TeamsStep) || Hits(fault, TournamentsStep) ||
    Hits(fault, SessionsStep) || Hits(fault, AccountsStep)
  }

  /** The wipe completes exactly when no step other than the games step fails. */
  lemma CompletesWipe(fault: Option<Fault>)
    ensures Completes(fault, UsersStep) <==> !StopsEarly(fault) && !Hits(fault, UsersStep)
  {
  }

  /** The effect of one deletion before the users step. */
  function Apply(b: Tables, s: Step): Tables {
    match s
    case MembersStep => b.(members := [])
    case TeamsStep => b.(teams := [], members := [])
    case TournamentsStep => b.(tournaments := [])
    case SessionsStep => b.(sessions := [])
    case AccountsStep => b.(accounts := [])
    case GamesStep => b.(games := [])
    case UsersStep => b
  }

  /** How many rows the deletion of step `s` removes. */
  function Size(b: Tables, s: Step): nat {
    match s
    case MembersStep => |b.members|
    case TeamsStep => |b.teams|
    case TournamentsStep => |b.tournaments|
    case SessionsStep => |b.sessions|
    case AccountsStep => |b.accounts|
    case GamesStep => |b.games|
    case UsersStep => |b.users|
  }

  /** The games step's line: its count, its warning, or nothing. */
  function GamesLines(c: Tables, fault: Option<Fault>): seq<LogLine> {
    if Hits(fault, GamesStep) then (if Warns(fault) then [GamesWarning(fault.value.message)] else [])
    else [Deleted(GamesStep, |c.games|)]
  }

  /** The sessions, accounts and games steps, from the tables `c` the first three steps left. */
  function LaterEmptied(c: Tables, fault: Option<Fault>): Tables {
    if Hits(fault, SessionsStep) then c
    else if Hits(fault, AccountsStep) then c.(sessions := [])
    else if Hits(fault, GamesStep) then c.(sessions := [], accounts := [])
    else c.(sessions := [], accounts := [], games := [])
  }

  function LaterLog(c: Tables, fault: Option<Fault>): seq<LogLine> {
    if Hits(fault, SessionsStep) then [Failed(fault.value.message)]
    else if Hits(fault, AccountsStep) then [Deleted(SessionsStep, |c.sessions|), Failed(fault.value.message)]
    else [Deleted(SessionsStep, |c.sessions|), Deleted(AccountsStep, |c.accounts|)] + GamesLines(c, fault)
  }

  /** The tables after every step before the users step. */
  function Emptied(b: Tables, fault: Option<Fault>): Tables {
    if Hits(fault, MembersStep) then b
    else if Hits(fault, TeamsStep) then b.(members := [])
    else if Hits(fault, TournamentsStep) then b.(members := [], teams := [])
    else LaterEmptied(b.(members := [], teams := [], tournaments := []), fault)
  }

  /** The lines of the steps before the users step, ending in the error if one of them stopped the wipe. */
  function EmptiedLog(b: Tables, fault: Option<Fault>): seq<LogLine> {
    var m := Deleted(MembersStep, |b.members|);
    if Hits(fault, MembersStep) then [Failed(fault.value.message)]
    else if Hits(fault, TeamsStep) then [m, Failed(fault.value.message)]
    else if Hits(fault, TournamentsStep) then [m, Deleted(TeamsStep, |b.teams|), Failed(fault.value.message)]
    else [m, Deleted(TeamsStep, |b.teams|), Deleted(TournamentsStep, |b.tournaments|)] +
         LaterLog(b.(members := [], teams := [], tournaments := []), fault)
  }

  /**
   * Each step before the users step empties its table exactly when it
   * completes; deleting the teams also empties the memberships.
   */
  lemma EmptiedTables(b: Tables, fault: Option<Fault>)
    ensures var a := Emptied(b, fault);
      && a.members == (if Completes(fault, MembersStep) then [] else b.members)
      && a.teams == (if Completes(fault, TeamsStep) then [] else b.teams)
      && a.tournaments == (if Completes(fault, TournamentsStep) then [] else b.tournaments)
      && a.sessions == (if Completes(fault, SessionsStep) then [] else b.sessions)
      && a.accounts == (if Completes(fault, AccountsStep) then [] else b.accounts)
      && a.games == (if Completes(fault, GamesStep) then [] else b.games)
      && a.users == b.users && a.nextId == b.nextId
  {
  }

  /**
   * The tables after the wipe: the users step, when reached, keeps only the
   * admin's own row.
   */
  function After(b: Tables, adminId: Id, fault: Option<Fault>): (a: Tables)
  {
    var t := Emptied(b, fault);
    if Completes(fault, UsersStep) then t.(users := UsersWithId(t.users, adminId)) else t
  }

  /**
   * A wipe that reaches the users step leaves nothing but the admin's own
   * user row and, when the games deletion was refused, the games.
   */
  lemma AfterWipe(b: Tables, adminId: Id, fault: Option<Fault>)
    requires Completes(fault, UsersStep)
    ensures var a := After(b, adminId, fault);
      && (forall u :: u in a.users ==> u.id == adminId)
      && (forall u :: u in b.users && u.id == adminId ==> u in a.users)
      && a.members == [] && a.teams == [] && a.tournaments == [] && a.sessions == [] && a.accounts == []
      && (a.games == [] <==> !Hits(fault, GamesStep) || b.games == [])
  {
    EmptiedTables(b, fault);
  }

  /**
   * The `results` lines: a start line, the lines of the deletions, and a
   * final line that is the completion message or the error that stopped the
   * wipe.
   */
  function Log(b: Tables, adminId: Id, fault: Option<Fault>): seq<LogLine> {
    [Started] + EmptiedLog(b, fault) +
      (if StopsEarly(fault) then []
       else if Hits(fault, UsersStep) then [Failed(fault.value.message)]
       else [Deleted(UsersStep, |b.users| - |UsersWithId(b.users, adminId)|), Completed])
  }

  /** The answer of an ADMIN's request: 200 with the log when the wipe completes, 500 with the error otherwise. */
  function Outcome(b: Tables, adminId: Id, fault: Option<Fault>): ClearResponse {
    if Completes(fault, UsersStep) then Cleared(Log(b, adminId, fault))
    else ClearFailed(fault.value.message, Log(b, adminId, fault))
  }

  /**
   * The log starts with the start line and ends with the completion line
   * exactly when the wipe completes, with the error otherwise.
   */
  lemma LogEnds(b: Tables, adminId: Id, fault: Option<Fault>)
    ensures var r := Log(b, adminId, fault);
      && r[0] == Started
      && (Completes(fault, UsersStep) ==> r[|r| - 1] == Completed)
      && (!Completes(fault, UsersStep) ==> fault.Some? && r[|r| - 1] == Failed(fault.value.message))
  {
  }

  /** Every completed deletion is reported with the number of rows it removed. */
  lemma LogCounts(b: Tables, adminId: Id, fault: Option<Fault>)
    ensures var r := Log(b, adminId, fault);
      && (forall s :: s != UsersStep && Completes(fault, s) ==> Deleted(s, Size(b, s)) in r)
      && (Completes(fault, UsersStep) ==> Deleted(UsersStep, |b.users| - |UsersWithId(b.users, adminId)|) in r)
  {
    var r := Log(b, adminId, fault);
    forall s | s != UsersStep && Completes(fault, s) ensures Deleted(s, Size(b, s)) in r {
      assert r[1 + s.Order()] == Deleted(s, Size(b, s));
    }
  }

  /** The games warning appears exactly when it is due, with the database's message. */
  lemma LogWarns(b: Tables, adminId: Id, fault: Option<Fault>)
    ensures forall m :: GamesWarning(m) in Log(b, adminId, fault) <==> Warns(fault) && m == fault.value.message
  {
  }

  /** One deletion before the users step, with its count line. */
  method RunStep(store: Store, s: Step) returns (line: LogLine)
    requires store.Valid() && s != UsersStep
    modifies store
    ensures store.Valid()
    ensures store.Contents() == Apply(old(store.Contents()), s)
    ensures line == Deleted(s, Size(old(store.Contents()), s))
  {
    var count: nat;
    match s {
      case MembersStep => count := store.DeleteAllTeamMembers();
      case TeamsStep => count := store.DeleteAllTeams();
      case TournamentsStep => count := store.DeleteAllTournaments();
      case SessionsStep => count := store.DeleteAllSessions();
      case AccountsStep => count := store.DeleteAllAccounts();
      case GamesStep => count := store.DeleteAllGames();
    }
    line := Deleted(s, count);
  }

  /** The games deletion in its own `try`: a refusal is logged, unless the table is missing, and skipped. */
  method EmptyGames(store: Store, fault: Option<Fault>) returns (lines: seq<LogLine>)
    requires store.Valid()
    modifies store
    ensures store.Valid()
    ensures store.Contents() == if Hits(fault, GamesStep) then old(store.Contents()) else old(store.Contents()).(games := [])
    ensures lines == GamesLines(old(store.Contents()), fault)
  {
    if fault.Some? && fault.value.step == GamesStep {
      if !Chars.Contains(fault.value.message, "does not exist") {
        return [GamesWarning(fault.value.message)];
      }
      return [];
    }
    var line := RunStep(store, GamesStep);
    return [line];
  }

  /** The sessions, accounts and games deletions. */
  method EmptyLater(store: Store, fault: Option<Fault>) returns (results: seq<LogLine>)
    requires store.Valid()
    modifies store
    ensures store.Valid()
    ensures store.Contents() == LaterEmptied(old(store.Contents()), fault)
    ensures results == LaterLog(old(store.Contents()), fault)
  {
    ghost var c := store.Contents();
    if fault.Some? && fault.value.step == SessionsStep {
      return [Failed(fault.value.message)];
    }
    var line := RunStep(store, SessionsStep);
    results := [line];
    if fault.Some? && fault.value.step == AccountsStep {
      return results + [Failed(fault.value.message)];
    }
    line := RunStep(store, AccountsStep);
    results := results + [line];
    assert results == [Deleted(SessionsStep, |c.sessions|), Deleted(AccountsStep, |c.accounts|)];
    var games := EmptyGames(store, fault);
    results := results + games;
  }

  /**
   * The memberships, teams and tournaments deletions; `stopped` when one of
   * them was refused, which ends the wipe there.
   */
  method EmptyEarly(store: Store, fault: Option<Fault>) returns (results: seq<LogLine>, stopped: bool)
    requires store.Valid()
    modifies store
    ensures store.Valid()
    ensures stopped <==> Hits(fault, MembersStep) || Hits(fault, TeamsStep) || Hits(fault, TournamentsStep)
    ensures Hits(fault, MembersStep) ==> store.Contents() == old(store.Contents()) && results == [Failed(fault.value.message)]
    ensures Hits(fault, TeamsStep) ==>
      && store.Contents() == old(store.Contents()).(members := [])
      && results == [Deleted(MembersStep, |old(store.members)|), Failed(fault.value.message)]
    ensures Hits(fault, TournamentsStep) ==>
      && store.Contents() == old(store.Contents()).(members := [], teams := [])
      && results == [Deleted(MembersStep, |old(store.members)|), Deleted(TeamsStep, |old(store.teams)|), Failed(fault.value.message)]
    ensures !stopped ==>
      && store.Contents() == old(store.Contents()).(members := [], teams := [], tournaments := [])
      && results == [Deleted(MembersStep, |old(store.members)|), Deleted(TeamsStep, |old(store.teams)|),
                     Deleted(TournamentsStep, |old(store.tournaments)|)]
  {
    if fault.Some? && fault.value.step == MembersStep {
      return [Failed(fault.value.message)], true;
    }
    var line := RunStep(store, MembersStep);
    results := [line];
    if fault.Some? && fault.value.step == TeamsStep {
      return results + [Failed(fault.value.message)], true;
    }
    line := RunStep(store, TeamsStep);
    results := results + [line];
    if fault.Some? && fault.value.step == TournamentsStep {
      return results + [Failed(fault.value.message)], true;
    }
    line := RunStep(store, TournamentsStep);
    results := results + [line];
    stopped := false;
  }

  /** The deletions before the users step, stopping at the first refused one other than the games step. */
  method EmptyTables(store: Store, fault: Option<Fault>) returns (results: seq<LogLine>)
    requires store.Valid()
    modifies store
    ensures store.Valid()
    ensures store.Contents() == Emptied(old(store.Contents()), fault)
    ensures results == EmptiedLog(old(store.Contents()), fault)
  {
    var stopped;
    results, stopped := EmptyEarly(store, fault);
    if stopped {
      return;
    }
    var later := EmptyLater(store, fault);
    results := results + later;
  }

  /**
   * 401 unless the caller is ADMIN. Otherwise the deletions run in order;
   * `fault` names the one the database refuses, if any. A refused games
   * deletion is logged and skipped; any other refusal stops the wipe with
   * 500, the earlier deletions kept.
   */
  method Clear(store: Store, session: Option<SessionUser>, fault: Option<Fault>) returns (resp: ClearResponse)
    requires store.Valid()
    modifies store
    ensures store.Valid()
    ensures !IsAdmin(session) ==> resp == Denied && store.Contents() == old(store.Contents())
    ensures IsAdmin(session) ==>
      && store.Contents() == After(old(store.Contents()), session.value.id, fault)
      && resp == Outcome(old(store.Contents()), session.value.id, fault)
  {
    if !IsAdmin(session) {
      return Denied;
    }
    resp := Wipe(store, session.value.id, fault);
  }

  /** The deletions of an ADMIN's request; `adminId` is the caller's own user row. */
  method Wipe(store: Store, adminId: Id, fault: Option<Fault>) returns (resp: ClearResponse)
    requires store.Valid()
    modifies store
    ensures store.Valid()
    ensures store.Contents() == After(old(store.Contents()), adminId, fault)
    ensures resp == Outcome(old(store.Contents()), adminId, fault)
  {
    ghost var b := store.Contents();
    var emptied := EmptyTables(store, fault);
    if StopsEarly(fault) {
      StoppedEarly(b, adminId, fault);
      return ClearFailed(fault.value.message, [Started] + emptied);
    }
    if Hits(fault, UsersStep) {
      StoppedAtUsers(b, adminId, fault);
      return ClearFailed(fault.value.message, [Started] + emptied + [Failed(fault.value.message)]);
    }
    WipeOutcome(b, adminId, fault);
    var deletedUsers := DeleteOtherUsers(store, adminId);
    CompletedAnswer(b, adminId, fault, emptied, deletedUsers);
    return Cleared([Started] + emptied + [Deleted(UsersStep, deletedUsers), Completed]);
  }

  /**
   * The users step, reached with every dependent table empty: every user
   * but the admin is deleted, and the count of deleted rows is reported.
   */
  method DeleteOtherUsers(store: Store, adminId: Id) returns (count: nat)
    requires store.Valid()
    requires store.teams == [] && store.members == [] && store.sessions == [] && store.accounts == []
    modifies store
    ensures store.Valid()
    ensures store.Contents() == old(store.Contents()).(users := UsersWithId(old(store.users), adminId))
    ensures count == |old(store.users)| - |UsersWithId(old(store.users), adminId)|
  {
    var deleted := store.DeleteUsersExcept(adminId);
    assert MembershipsOf([], adminId) == [] && RowsOf([], adminId) == [];
    count := deleted.value;
  }

  /** A wipe stopped before the games step leaves the tables the earlier steps left. */
  lemma StoppedEarly(b: Tables, adminId: Id, fault: Option<Fault>)
    requires StopsEarly(fault)
    ensures fault.Some? && After(b, adminId, fault) == Emptied(b, fault)
    ensures Outcome(b, adminId, fault) == ClearFailed(fault.value.message, [Started] + EmptiedLog(b, fault))
  {
    assert [Started] + EmptiedLog(b, fault) + [] == [Started] + EmptiedLog(b, fault);
  }

  /** A wipe whose users step is refused leaves the tables the earlier steps left. */
  lemma StoppedAtUsers(b: Tables, adminId: Id, fault: Option<Fault>)
    requires !StopsEarly(fault) && Hits(fault, UsersStep)
    ensures fault.Some? && After(b, adminId, fault) == Emptied(b, fault)
    ensures Outcome(b, adminId, fault) ==
      ClearFailed(fault.value.message, [Started] + EmptiedLog(b, fault) + [Failed(fault.value.message)])
  {
  }

  /** The answer of a completed wipe, from its log of the earlier steps and its count of deleted users. */
  lemma CompletedAnswer(b: Tables, adminId: Id, fault: Option<Fault>, emptied: seq<LogLine>, deleted: nat)
    requires !StopsEarly(fault) && !Hits(fault, UsersStep)
    requires emptied == EmptiedLog(b, fault) && deleted == |b.users| - |UsersWithId(b.users, adminId)|
    ensures Outcome(b, adminId, fault) == Cleared([Started] + emptied + [Deleted(UsersStep, deleted), Completed])
  {
    WipeOutcome(b, adminId, fault);
  }

  /** A wipe that reaches the users step finds no team left and every user still present. */
  lemma WipeOutcome(b: Tables, adminId: Id, fault: Option<Fault>)
    requires !StopsEarly(fault) && !Hits(fault, UsersStep)
    ensures Completes(fault, UsersStep)
    ensures Emptied(b, fault).teams == [] && Emptied(b, fault).users == b.users
    ensures After(b, adminId, fault) == Emptied(b, fault).(users := UsersWithId(b.users, adminId))
    ensures Outcome(b, adminId, fault) == Cleared([Started] + EmptiedLog(b, fault) +
      [Deleted(UsersStep, |b.users| - |UsersWithId(b.users, adminId)|), Completed])
  {
    CompletesWipe(fault);
    EmptiedTables(b, fault);
  }
}
