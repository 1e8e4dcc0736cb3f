/**
 * `GET /api/players` and `POST /api/players` (src/app/api/players/route.ts):
 * staff-only listing of the PLAYER users with their memberships, and the
 * guarded creation of a player with an optional team membership.
 */
module PlayersApi {
  import opened Wrappers
  import opened Seqs
  import opened Schema
  import opened Db

  /** The JSON body of the create request; `None` is an absent or null field. */
  datatype PlayerBody = PlayerBody(
    email: Option<string>, password: Option<string>, name: Option<string>,
    username: Option<string>, bio: Option<string>, avatar: Option<string>,
    teamId: Option<Id>, teamRole: Option<string>)

  /** A user together with its membership rows. */
  datatype PlayerEntry = PlayerEntry(user: User, teamMembers: seq<TeamMember>)

  const CredentialsRequired: string := "Email and password are required"
  const EmailExists: string := "User with this email already exists"

  function Entries(us: seq<User>, members: seq<TeamMember>): (r: seq<PlayerEntry>)
    ensures |r| == |us|
    ensures forall i :: 0 <= i < |us| ==> r[i] == PlayerEntry(us[i], MembershipsOf(members, us[i].id))
  {
    seq(|us|, i requires 0 <= i < |us| => PlayerEntry(us[i], MembershipsOf(members, us[i].id)))
  }

  /**
   * `GET`: 401 unless the caller is ADMIN or MANAGER; otherwise every user
   * whose role is PLAYER, each once, newest first, with its memberships.
   */
  function ListPlayers(store: Store, session: Option<SessionUser>): (r: Response<seq<PlayerEntry>>)
    reads store
    ensures r.Error? <==> !IsStaff(session)
    ensures r.Error? ==> r.status == 401 && r.error == Unauthorized
    ensures r.Ok? ==> r.status == 200
    ensures r.Ok? ==> forall u :: u in store.users && u.role == PLAYER <==> exists e :: e in r.value && e.user == u
    ensures r.Ok? ==> forall e :: e in r.value ==> e.teamMembers == MembershipsOf(store.members, e.user.id)
    ensures r.Ok? ==> |r.value| == |OfRole(store.users, PLAYER)|
    ensures r.Ok? ==> forall i :: 0 <= i < |r.value| ==>
      var ps := OfRole(store.users, PLAYER);
      r.value[i] == PlayerEntry(ps[|ps| - 1 - i], MembershipsOf(store.members, ps[|ps| - 1 - i].id))
  {
    if !IsStaff(session) then Error(401, Unauthorized)
    else
      var players := Reverse(OfRole(store.users, PLAYER));
      var r := Entries(players, store.members);
      ReverseMembers(OfRole(store.users, PLAYER));
      forall u ensures u in store.users && u.role == PLAYER <==> exists e :: e in r && e.user == u {
        if u in players {
          var i :| 0 <= i < |players| && players[i] == u;
          assert r[i] in r && r[i].user == u;
        }
        if exists e :: e in r && e.user == u {
          var e :| e in r && e.user == u;
          var i :| 0 <= i < |r| && r[i] == e;
          assert players[i] == u;
        }
      }
      Ok(200, r)
  }

  /** The PLAYER row a create request inserts. */
  function PlayerData(body: PlayerBody, hash: string -> string): UserData
    requires body.email.Some? && body.password.Some?
  {
    NewUserData(body.email.value, body.password.value, body.name, body.username, body.bio, body.avatar, PLAYER, hash)
  }

  /**
   * `POST`: 401 unless ADMIN or MANAGER; 400 without e-mail and password;
   * 400 when the e-mail is taken; otherwise the PLAYER row is written, then,
   * if a team id was given, one membership. The team id is not checked
   * beforehand: a failing membership insert answers 500 with the user row
   * already written. A username clash makes the user insert fail: 500,
   * nothing written.
   */
  method CreatePlayer(store: Store, session: Option<SessionUser>, body: PlayerBody, hash: string -> string)
    returns (resp: Response<PlayerEntry>)
    requires store.Valid()
    modifies store
    ensures store.Valid()
    ensures !IsStaff(session) ==> resp == Error(401, Unauthorized) && store.Contents() == old(store.Contents())
    ensures IsStaff(session) && !(Present(body.email) && Present(body.password)) ==>
      resp == Error(400, CredentialsRequired) && store.Contents() == old(store.Contents())
    ensures IsStaff(session) && Present(body.email) && Present(body.password) && EmailTaken(old(store.users), body.email.value) ==>
      resp == Error(400, EmailExists) && store.Contents() == old(store.Contents())
    ensures IsStaff(session) && Present(body.email) && Present(body.password) && !EmailTaken(old(store.users), body.email.value) ==>
      && (resp.Ok? <==> !UsernameTaken(old(store.users), OrNull(body.username)) &&
                        (body.teamId.None? || body.teamId.value in TeamIds(old(store.teams))))
      && (resp.Error? ==> resp == Error(500, InternalError))
      && (UsernameTaken(old(store.users), OrNull(body.username)) ==> store.Contents() == old(store.Contents()))
    ensures resp.Ok? ==>
      && resp.status == 201
      && body.email.Some? && body.password.Some?
      && resp.value.user == PlayerData(body, hash).WithId(old(store.nextId))
      && store.users == old(store.users) + [resp.value.user]
      && resp.value.teamMembers ==
           (if body.teamId.Some? then [TeamMember(old(store.nextId) + 1, resp.value.user.id, body.teamId.value, OrNull(body.teamRole))] else [])
      && store.members == old(store.members) + resp.value.teamMembers
    ensures resp.status == 500 && !UsernameTaken(old(store.users), OrNull(body.username)) ==>
      && body.email.Some? && body.password.Some?
      && store.users == old(store.users) + [PlayerData(body, hash).WithId(old(store.nextId))]
      && store.members == old(store.members)
    ensures store.teams == old(store.teams) && store.games == old(store.games) && store.tournaments == old(store.tournaments)
    ensures store.sessions == old(store.sessions) && store.accounts == old(store.accounts)
  {
    if !IsStaff(session) {
      return Error(401, Unauthorized);
    }
    if !Present(body.email) || !Present(body.password) {
      return Error(400, CredentialsRequired);
    }
    var existingUser := store.UserByEmail(body.email.value);
    if existingUser.Some? {
      return Error(400, EmailExists);
    }
    var user := store.CreateUser(PlayerData(body, hash));
    if user.None? {
      return Error(500, InternalError);
    }
    if body.teamId.Some? {
      var member := store.CreateTeamMember(user.value.id, body.teamId.value, OrNull(body.teamRole));
      if member.None? {
        assert !MembershipTaken(old(store.members), user.value.id, body.teamId.value) by {
          forall i | 0 <= i < |old(store.members)| ensures old(store.members)[i].userId != user.value.id {
            assert old(store.members)[i].userId in UserIds(old(store.users));
          }
        }
        return Error(500, InternalError);
      }
      return Ok(201, PlayerEntry(user.value, [member.value]));
    }
    return Ok(201, PlayerEntry(user.value, []));
  }
}
