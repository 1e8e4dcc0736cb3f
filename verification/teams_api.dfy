/**
 * `GET /api/teams` and `POST /api/teams` (src/app/api/teams/route.ts): the
 * team list for any signed-in user, and the staff-only creation of a team
 * together with its initial members.
 */
module TeamsApi {
  import opened Wrappers
  import opened Schema
  import opened Db

  /** The JSON body of the create request; `playerIds` is `None` when absent or not an array. */
  datatype TeamBody = TeamBody(
    name: Option<string>, tag: Option<string>, description: Option<string>,
    managerId: Option<Id>, status: Option<string>, playerIds: Option<seq<Id>>)

  /** The created team with its `members` included. */
  datatype CreatedTeam = CreatedTeam(team: Team, members: seq<TeamMember>)

  const FieldsRequired: string := "Name, tag, and managerId are required"
  const TagExists: string := "Team with this tag already exists"
  const NotAManager: string := "Manager not found or user is not a manager"

  /**
   * `GET`: 401 without a session; otherwise the summary of every team,
   * newest first.
   */
  function ListTeams(store: Store, session: Option<SessionUser>): (r: Response<seq<TeamSummary>>)
    reads store
    ensures r.Error? <==> session.None?
    ensures r.Error? ==> r.status == 401 && r.error == Unauthorized
    ensures r.Ok? ==> r.status == 200 && |r.value| == |store.teams|
    ensures r.Ok? ==> forall i :: 0 <= i < |store.teams| ==>
      var t := store.teams[|store.teams| - 1 - i];
      r.value[i] == TeamSummary(t.id, t.name, t.tag, t.status)
  {
    if session.None? then Error(401, Unauthorized)
    else Ok(200, Summaries(Seqs.Reverse(store.teams)))
  }

  /** The enum value a status string names; `None` for any other string, which the insert rejects. */
  function ParseStatus(s: string): (r: Option<TeamStatus>)
    ensures r == Some(ACTIVE) <==> s == "ACTIVE"
    ensures r == Some(INACTIVE) <==> s == "INACTIVE"
    ensures r == Some(DISBANDED) <==> s == "DISBANDED"
  {
    if s == "ACTIVE" then Some(ACTIVE)
    else if s == "INACTIVE" then Some(INACTIVE)
    else if s == "DISBANDED" then Some(DISBANDED)
    else None
  }

  /** `status || "ACTIVE"` */
  function StatusText(status: Option<string>): (s: string)
    ensures Present(status) ==> s == status.value
    ensures !Present(status) ==> ParseStatus(s) == Some(ACTIVE)
  {
    if Present(status) then status.value else "ACTIVE"
  }

  /**
   * The nested member creates: one row per listed player with no role, and
   * none unless `playerIds` is a non-empty array.
   */
  function PlayerSpecs(playerIds: Option<seq<Id>>): (r: seq<NewMember>)
    ensures playerIds.None? ==> r == []
    ensures playerIds.Some? ==> |r| == |playerIds.value|
    ensures playerIds.Some? ==> forall k :: 0 <= k < |r| ==> r[k] == NewMember(playerIds.value[k], None)
  {
    if playerIds.Some? && playerIds.value != [] then
      var ids := playerIds.value;
      seq(|ids|, k requires 0 <= k < |ids| => NewMember(ids[k], None))
    else []
  }

  /**
   * `POST`: 401 unless ADMIN or MANAGER; 400 without name, tag or manager;
   * 400 when the tag is taken; 400 when the manager id is not a MANAGER user.
   * Otherwise the team and one membership per listed player are inserted in
   * one step; an unknown status, an unknown or repeated player answers 500
   * with nothing written.
   */
  method CreateTeam(store: Store, session: Option<SessionUser>, body: TeamBody) returns (resp: Response<CreatedTeam>)
    requires store.Valid()
    modifies store
    ensures store.Valid()
    ensures !IsStaff(session) ==> resp == Error(401, Unauthorized) && store.Contents() == old(store.Contents())
    ensures IsStaff(session) && !(Present(body.name) && Present(body.tag) && body.managerId.Some?) ==>
      resp == Error(400, FieldsRequired) && store.Contents() == old(store.Contents())
    ensures IsStaff(session) && Present(body.name) && Present(body.tag) && body.managerId.Some? && TagTaken(old(store.teams), body.tag.value) ==>
      resp == Error(400, TagExists) && store.Contents() == old(store.Contents())
    ensures IsStaff(session) && Present(body.name) && Present(body.tag) && body.managerId.Some? && !TagTaken(old(store.teams), body.tag.value) ==>
      var manager := old(store.UserById(body.managerId.value));
      && (manager.None? || manager.value.role != MANAGER ==> resp == Error(400, NotAManager) && store.Contents() == old(store.Contents()))
      && (manager.Some? && manager.value.role == MANAGER ==>
            && (resp.Ok? <==>
                  && ParseStatus(StatusText(body.status)).Some?
                  && (forall s :: s in PlayerSpecs(body.playerIds) ==> s.userId in UserIds(old(store.users)))
                  && DistinctUsers(PlayerSpecs(body.playerIds)))
            && (resp.Error? ==> resp == Error(500, InternalError) && store.Contents() == old(store.Contents())))
    ensures resp.Ok? ==>
      && resp.status == 201
      && body.name.Some? && body.tag.Some? && body.managerId.Some?
      && ParseStatus(StatusText(body.status)).Some?
      && resp.value.team == Team(old(store.nextId), body.name.value, body.tag.value, OrNull(body.description),
                                 ParseStatus(StatusText(body.status)).value, body.managerId.value)
      && store.teams == old(store.teams) + [resp.value.team]
      && resp.value.members == NewMemberRows(old(store.nextId) + 1, resp.value.team.id, PlayerSpecs(body.playerIds))
      && store.members == old(store.members) + resp.value.members
    ensures resp.Ok? ==> forall id ::
      (exists m :: m in resp.value.members && m.userId == id && m.role.None?) <==>
      (body.playerIds.Some? && id in body.playerIds.value)
    ensures store.users == old(store.users) && store.games == old(store.games) && store.tournaments == old(store.tournaments)
    ensures store.sessions == old(store.sessions) && store.accounts == old(store.accounts)
  {
    if !IsStaff(session) {
      return Error(401, Unauthorized);
    }
    if !Present(body.name) || !Present(body.tag) || body.managerId.None? {
      return Error(400, FieldsRequired);
    }
    var existingTeam := store.TeamByTag(body.tag.value);
    if existingTeam.Some? {
      return Error(400, TagExists);
    }
    var manager := store.UserById(body.managerId.value);
    if manager.None? || manager.value.role != MANAGER {
      return Error(400, NotAManager);
    }
    resp := InsertTeam(store, body);
  }

  /**
   * The insert of a validated request: 500 with nothing written when the
   * status is unknown or the listed players are unknown or repeated.
   */
  method InsertTeam(store: Store, body: TeamBody) returns (resp: Response<CreatedTeam>)
    requires store.Valid()
    requires Present(body.name) && Present(body.tag) && body.managerId.Some? && !TagTaken(store.teams, body.tag.value)
    requires body.managerId.value in UserIds(store.users)
    modifies store
    ensures store.Valid()
    ensures resp.Ok? <==>
      && ParseStatus(StatusText(body.status)).Some?
      && (forall s :: s in PlayerSpecs(body.playerIds) ==> s.userId in UserIds(old(store.users)))
      && DistinctUsers(PlayerSpecs(body.playerIds))
    ensures resp.Error? ==> resp == Error(500, InternalError) && store.Contents() == old(store.Contents())
    ensures resp.Ok? ==>
      && resp.status == 201
      && resp.value.team == Team(old(store.nextId), body.name.value, body.tag.value, OrNull(body.description),
                                 ParseStatus(StatusText(body.status)).value, body.managerId.value)
      && store.teams == old(store.teams) + [resp.value.team]
      && resp.value.members == NewMemberRows(old(store.nextId) + 1, resp.value.team.id, PlayerSpecs(body.playerIds))
      && store.members == old(store.members) + resp.value.members
    ensures resp.Ok? ==> forall id ::
      (exists m :: m in resp.value.members && m.userId == id && m.role.None?) <==>
      (body.playerIds.Some? && id in body.playerIds.value)
    ensures store.users == old(store.users) && store.games == old(store.games) && store.tournaments == old(store.tournaments)
    ensures store.sessions == old(store.sessions) && store.accounts == old(store.accounts)
  {
    var status := ParseStatus(StatusText(body.status));
    if status.None? {
      return Error(500, InternalError);
    }
    var specs := PlayerSpecs(body.playerIds);
    SpecsUsers(specs, store.users);
    var team := store.CreateTeam(body.name.value, body.tag.value, OrNull(body.description), status.value,
                                 body.managerId.value, specs);
    if team.None? {
      return Error(500, InternalError);
    }
    var rows := NewMemberRows(team.value.id + 1, team.value.id, specs);
    RowsListPlayers(team.value.id + 1, team.value.id, body.playerIds);
    return Ok(201, CreatedTeam(team.value, rows));
  }

  lemma SpecsUsers(specs: seq<NewMember>, users: seq<User>)
    ensures (forall s :: s in specs ==> s.userId in UserIds(users)) <==>
            (forall k :: 0 <= k < |specs| ==> specs[k].userId in UserIds(users))
  {
  }

  /** The nested rows carry exactly the listed players, none of them with a role. */
  lemma RowsListPlayers(firstId: Id, teamId: Id, playerIds: Option<seq<Id>>)
    ensures forall id ::
      (exists m :: m in NewMemberRows(firstId, teamId, PlayerSpecs(playerIds)) && m.userId == id && m.role.None?) <==>
      (playerIds.Some? && id in playerIds.value)
  {
    var rows := NewMemberRows(firstId, teamId, PlayerSpecs(playerIds));
    forall id ensures (exists m :: m in rows && m.userId == id && m.role.None?) <==>
                      (playerIds.Some? && id in playerIds.value) {
      if playerIds.Some? && id in playerIds.value {
        var k :| 0 <= k < |playerIds.value| && playerIds.value[k] == id;
        assert rows[k] in rows;
      }
    }
  }
}
