/**
 * `GET /api/tournaments` and `POST /api/tournaments`
 * (src/app/api/tournaments/route.ts): the public list of tournaments, latest
 * start first, and their staff-only creation with defaults.
 */
module TournamentsApi {
  import opened Wrappers
  import opened Schema
  import opened Db

  /** The JSON body of the create request. */
  datatype TournamentBody = TournamentBody(
    name: Option<string>, description: Option<string>, startDate: Option<string>,
    endDate: Option<string>, game: Option<string>, status: Option<string>)

  const FieldsRequired: string := "Name and start date are required"

  /** Lexicographic order on date strings: `a` is not after `b`. */
  predicate NotAfter(a: string, b: string)
    decreases |a|
  {
    a == [] || (b != [] && (a[0] < b[0] || (a[0] == b[0] && NotAfter(a[1..], b[1..]))))
  }

  /** Any two dates are comparable. */
  lemma {:induction false} NotAfterTotal(a: string, b: string)
    ensures NotAfter(a, b) || NotAfter(b, a)
    decreases |a|
  {
    if a != [] && b != [] && a[0] == b[0] {
      NotAfterTotal(a[1..], b[1..]);
    }
  }

  /** Latest start first: each tournament starts no later than the one before it. */
  predicate LatestFirst(ts: seq<Tournament>) {
    forall i :: 0 < i < |ts| ==> NotAfter(ts[i].startDate, ts[i - 1].startDate)
  }

  /** Puts `t` into a latest-first list before the first tournament that does not start after it. */
  function Insert(t: Tournament, ts: seq<Tournament>): (r: seq<Tournament>)
    requires LatestFirst(ts)
    ensures LatestFirst(r)
    ensures multiset(r) == multiset(ts) + multiset{t}
    ensures r != [] && (r[0] == t || (ts != [] && r[0] == ts[0]))
  {
    if ts == [] then [t]
    else if NotAfter(ts[0].startDate, t.startDate) then [t] + ts
    else
      NotAfterTotal(ts[0].startDate, t.startDate);
      var rest := Insert(t, ts[1..]);
      assert ts == [ts[0]] + ts[1..];
      [ts[0]] + rest
  }

  /** `orderBy: { startDate: "desc" }` */
  function LatestFirstOrder(ts: seq<Tournament>): (r: seq<Tournament>)
    ensures LatestFirst(r)
    ensures multiset(r) == multiset(ts)
  {
    if ts == [] then []
    else
      assert ts == [ts[0]] + ts[1..];
      Insert(ts[0], LatestFirstOrder(ts[1..]))
  }

  /** `GET`: no session needed; every tournament once, latest start first. */
  function ListTournaments(store: Store): (r: Response<seq<Tournament>>)
    reads store
    ensures r.Ok? && r.status == 200
    ensures multiset(r.value) == multiset(store.tournaments)
    ensures LatestFirst(r.value)
  {
    Ok(200, LatestFirstOrder(store.tournaments))
  }

  /** `status || "UPCOMING"` */
  function StatusText(status: Option<string>): (s: string)
    ensures s != []
    ensures Present(status) ==> s == status.value
    ensures !Present(status) ==> s == "UPCOMING"
  {
    if Present(status) then status.value else "UPCOMING"
  }

  /**
   * `POST`: 401 unless ADMIN or MANAGER; 400 without name or start date;
   * otherwise the tournament is always inserted: names need not be unique.
   */
  method CreateTournament(store: Store, session: Option<SessionUser>, body: TournamentBody)
    returns (resp: Response<Tournament>)
    requires store.Valid()
    modifies store
    ensures store.Valid()
    ensures resp.Ok? <==> IsStaff(session) && Present(body.name) && Present(body.startDate)
    ensures !IsStaff(session) ==> resp == Error(401, Unauthorized)
    ensures IsStaff(session) && !(Present(body.name) && Present(body.startDate)) ==> resp == Error(400, FieldsRequired)
    ensures resp.Error? ==> store.Contents() == old(store.Contents())
    ensures resp.Ok? ==>
      && resp.status == 201 && body.name.Some? && body.startDate.Some?
      && resp.value == Tournament(old(store.nextId), body.name.value, OrNull(body.description), body.startDate.value,
                                  OrNull(body.endDate), OrNull(body.game), StatusText(body.status))
      && store.tournaments == old(store.tournaments) + [resp.value]
    ensures store.users == old(store.users) && store.teams == old(store.teams) && store.members == old(store.members)
    ensures store.games == old(store.games) && store.sessions == old(store.sessions) && store.accounts == old(store.accounts)
  {
    if !IsStaff(session) {
      return Error(401, Unauthorized);
    }
    if !Present(body.name) || !Present(body.startDate) {
      return Error(400, FieldsRequired);
    }
    var tournament := store.CreateTournament(body.name.value, OrNull(body.description), body.startDate.value,
                                             OrNull(body.endDate), OrNull(body.game), StatusText(body.status));
    return Ok(201, tournament);
  }
}
