/**
 * The new-team page (src/app/dashboard/teams/new/page.tsx): the form's
 * initial state, the upper-casing tag field, the player checkboxes and the
 * body of the `POST /api/teams` request the submit handler sends.
 */
module NewTeamPage {
  import opened Wrappers
  import opened Chars
  import opened Forms

  /** The page's form state; `selectedPlayerIds` is the ticked players in click order. */
  datatype TeamForm = TeamForm(
    name: string, tag: string, description: string, managerId: string,
    status: string, selectedPlayerIds: seq<string>)

  /** The JSON body of the create request. */
  datatype TeamRequest = TeamRequest(
    name: string, tag: string, description: Option<string>, managerId: string,
    status: string, playerIds: seq<string>)

  /** The form as the page opens: blank fields, status ACTIVE, no player ticked. */
  function InitialForm(): (f: TeamForm)
    ensures f.name == f.tag == f.description == f.managerId == []
    ensures f.status == "ACTIVE" && f.selectedPlayerIds == []
  {
    TeamForm([], [], [], [], "ACTIVE", [])
  }

  /** Typing in the tag field stores `value.toUpperCase()`; nothing else changes. */
  function SetTag(form: TeamForm, value: string): (r: TeamForm)
    ensures |r.tag| == |value|
    ensures forall i :: 0 <= i < |value| && !('a' <= value[i] <= 'z') && !('\U{0430}' <= value[i] <= '\U{045F}') ==>
      r.tag[i] == value[i]
    ensures r.(tag := form.tag) == form
    ensures r.tag == Upper(value)
    ensures forall i :: 0 <= i < |value| && 'a' <= value[i] <= 'z' ==> r.tag[i] == (value[i] as int - 0x20) as char
  {
    form.(tag := Upper(value))
  }

  /** `togglePlayer`: the checkbox of one player flips; the other fields are untouched. */
  function TogglePlayer(form: TeamForm, playerId: string): (r: TeamForm)
    ensures playerId in r.selectedPlayerIds <==> playerId !in form.selectedPlayerIds
    ensures forall x :: x != playerId ==> (x in r.selectedPlayerIds <==> x in form.selectedPlayerIds)
    ensures playerId !in form.selectedPlayerIds ==> r.selectedPlayerIds == form.selectedPlayerIds + [playerId]
    ensures r.(selectedPlayerIds := form.selectedPlayerIds) == form
  {
    form.(selectedPlayerIds := Toggle(form.selectedPlayerIds, playerId))
  }

  /** `handleSubmit`'s request body: a blank description is sent as null, the ticked players as `playerIds`. */
  function Body(form: TeamForm): (r: TeamRequest)
    ensures r.name == form.name && r.tag == form.tag && r.managerId == form.managerId
    ensures r.status == form.status && r.playerIds == form.selectedPlayerIds
    ensures r.description.None? <==> form.description == []
    ensures r.description.Some? ==> r.description.value == form.description
  {
    TeamRequest(form.name, form.tag, NullIfEmpty(form.description), form.managerId,
                form.status, form.selectedPlayerIds)
  }

  /** Upper-casing one character twice is upper-casing it once. */
  lemma UpperCharIdempotent(c: char)
    ensures UpperChar(UpperChar(c)) == UpperChar(c)
  {
  }

  /** Whatever was typed, the stored tag is already upper case: upper-casing it again changes nothing. */
  lemma TagIsUpper(form: TeamForm, value: string)
    ensures Upper(SetTag(form, value).tag) == SetTag(form, value).tag
  {
    var t := SetTag(form, value).tag;
    forall i | 0 <= i < |t| ensures Upper(t)[i] == t[i] {
      UpperCharIdempotent(value[i]);
    }
  }

  /** The form after the player checkboxes were clicked, in order, from `form`. */
  function AfterClicks(form: TeamForm, clicks: seq<string>): (r: TeamForm)
    ensures r.selectedPlayerIds == ToggleAll(form.selectedPlayerIds, clicks)
    ensures r.(selectedPlayerIds := form.selectedPlayerIds) == form
    decreases |clicks|
  {
    if clicks == [] then form else AfterClicks(TogglePlayer(form, clicks[0]), clicks[1..])
  }

  /**
   * However the player checkboxes are clicked after the page opens, the
   * request names each player at most once.
   */
  lemma RequestPlayersDistinct(clicks: seq<string>)
    ensures NoDuplicates(Body(AfterClicks(InitialForm(), clicks)).playerIds)
  {
    ToggleAllNoDuplicates([], clicks);
  }

  /** How many times `id` occurs among `clicks`. */
  function Clicks(clicks: seq<string>, id: string): nat {
    multiset(clicks)[id]
  }

  /** Counting the clicks on `id`: the first click, then the rest. */
  lemma ClicksFirst(clicks: seq<string>, id: string)
    requires clicks != []
    ensures Clicks(clicks, id) == (if clicks[0] == id then 1 else 0) + Clicks(clicks[1..], id)
  {
    assert clicks == [clicks[0]] + clicks[1..];
    assert multiset(clicks) == multiset([clicks[0]]) + multiset(clicks[1..]);
  }

  /**
   * After a series of clicks a player is selected exactly when it was
   * selected before and its box was clicked an even number of times, or it
   * was not and its box was clicked an odd number of times.
   */
  lemma {:induction false} ToggleAllParity(ids: seq<string>, clicks: seq<string>, id: string)
    ensures id in ToggleAll(ids, clicks) <==> (id in ids <==> Clicks(clicks, id) % 2 == 0)
    decreases |clicks|
  {
    if clicks != [] {
      var c, rest := clicks[0], clicks[1..];
      ClicksFirst(clicks, id);
      ToggleAllParity(Toggle(ids, c), rest, id);
      var n := Clicks(rest, id);
      if c == id {
        assert id in Toggle(ids, c) <==> id !in ids;
        assert Clicks(clicks, id) % 2 == 0 <==> n % 2 == 1;
      } else {
        assert id in Toggle(ids, c) <==> id in ids;
        assert Clicks(clicks, id) == n;
      }
    }
  }

  /** From the initial form, the request names a player exactly when its box was clicked an odd number of times. */
  lemma RequestPlayersOddClicks(clicks: seq<string>, id: string)
    ensures id in Body(AfterClicks(InitialForm(), clicks)).playerIds <==> Clicks(clicks, id) % 2 == 1
  {
    ToggleAllParity([], clicks, id);
  }
}
