/**
 * `GET /api/games` and `POST /api/games` (src/app/api/games/route.ts): the
 * public game catalogue, and its admin-only extension by a game whose name
 * is not yet used.
 */
module GamesApi {
  import opened Wrappers
  import opened Schema
  import opened Db

  /** The JSON body of the create request; `playersPerTeam` is `None` when absent. */
  datatype GameBody = GameBody(
    name: Option<string>, description: Option<string>, icon: Option<string>,
    color: Option<string>, playersPerTeam: Option<int>)

  const NameRequired: string := "Name is required"
  const NameExists: string := "Game with this name already exists"

  /** `GET`: no session needed; every game, newest first. */
  function ListGames(store: Store): (r: Response<seq<Game>>)
    reads store
    ensures r.Ok? && r.status == 200 && |r.value| == |store.games|
    ensures forall i :: 0 <= i < |store.games| ==> r.value[i] == store.games[|store.games| - 1 - i]
  {
    Ok(200, Seqs.Reverse(store.games))
  }

  /** `playersPerTeam || 5`: an absent or zero team size becomes five. */
  function TeamSize(playersPerTeam: Option<int>): (n: int)
    ensures n != 0
    ensures playersPerTeam.Some? && playersPerTeam.value != 0 ==> n == playersPerTeam.value
    ensures playersPerTeam.None? || playersPerTeam.value == 0 ==> n == 5
  {
    if playersPerTeam.Some? && playersPerTeam.value != 0 then playersPerTeam.value else 5
  }

  /**
   * `POST`: 401 unless ADMIN; 400 without a name; 400 when the name is
   * taken; otherwise the game is inserted with blank optional fields as
   * null and the default team size.
   */
  method CreateGame(store: Store, session: Option<SessionUser>, body: GameBody) returns (resp: Response<Game>)
    requires store.Valid()
    modifies store
    ensures store.Valid()
    ensures resp.Ok? <==> IsAdmin(session) && Present(body.name) && !GameNameTaken(old(store.games), body.name.value)
    ensures !IsAdmin(session) ==> resp == Error(401, Unauthorized)
    ensures IsAdmin(session) && !Present(body.name) ==> resp == Error(400, NameRequired)
    ensures IsAdmin(session) && Present(body.name) && GameNameTaken(old(store.games), body.name.value) ==>
      resp == Error(400, NameExists)
    ensures resp.Error? ==> store.Contents() == old(store.Contents())
    ensures resp.Ok? ==>
      && resp.status == 201 && body.name.Some?
      && resp.value == Game(old(store.nextId), body.name.value, OrNull(body.description), OrNull(body.icon),
                            OrNull(body.color), TeamSize(body.playersPerTeam))
      && store.games == old(store.games) + [resp.value]
    ensures store.users == old(store.users) && store.teams == old(store.teams) && store.members == old(store.members)
    ensures store.tournaments == old(store.tournaments) && store.sessions == old(store.sessions) && store.accounts == old(store.accounts)
  {
    if !IsAdmin(session) {
      return Error(401, Unauthorized);
    }
    if !Present(body.name) {
      return Error(400, NameRequired);
    }
    var existingGame := store.GameByName(body.name.value);
    if existingGame.Some? {
      return Error(400, NameExists);
    }
    var game := store.CreateGame(body.name.value, OrNull(body.description), OrNull(body.icon),
                                 OrNull(body.color), TeamSize(body.playersPerTeam));
    return Ok(201, game.value);
  }
}
