/**
 * The players dashboard page (src/app/dashboard/players/page.tsx): the
 * `cleanName` normaliser applied to the name before saving, the request the
 * submit handler sends, the avatar removal that follows a successful edit, and
 * the form prefilled when a player is opened for editing.
 */
module PlayersPage {
  import opened Wrappers
  import opened Chars
  import opened WordSplit
  import opened Dedup
  import opened Forms

  /** Quote characters `cleanName` deletes before comparing words. */
  const NameStrip: set<char> := {'\'', '"', '`'}

  /** `word.toLowerCase().replace(/['"`]/g, "").trim()` */
  function NameKey(w: string): string {
    Trim(Strip(Lower(w), NameStrip))
  }

  /** `half.toLowerCase().replace(/['"`\s]/g, "")`: the form in which the two halves are compared. */
  function HalfKey(s: string): string {
    Strip(Lower(s), NameStrip + Whitespace)
  }

  /**
   * The halving step: `t` is cut at `floor(|t| / 2)`, both halves are trimmed,
   * and when both are non-empty and the second's comparison form equals or
   * starts with the first's, only the first half is kept.
   */
  function Collapse(t: string): (r: string)
    ensures |r| <= |t|
    ensures r == t || (r != [] && r == Trim(t[..|t| / 2]))
    ensures var first, second := Trim(t[..|t| / 2]), Trim(t[|t| / 2..]);
      first != [] && second != [] && HalfKey(first) <= HalfKey(second) ==> r == first
    ensures var first, second := Trim(t[..|t| / 2]), Trim(t[|t| / 2..]);
      !(first != [] && second != [] && HalfKey(first) <= HalfKey(second)) ==> r == t
  {
    var half := |t| / 2;
    var first, second := Trim(t[..half]), Trim(t[half..]);
    if first != [] && second != [] && (HalfKey(first) == HalfKey(second) || HalfKey(first) <= HalfKey(second))
    then first
    else t
  }

  /** The word loop of `cleanName` followed by `join(" ").trim()`. */
  function DedupName(t: string): string {
    Trim(Join(FirstOccurrences(SplitWs(t), NameKey)))
  }

  /** What `cleanName` returns, as a function of its argument. */
  function CleanNameSpec(name: Option<string>): Option<string> {
    if !Present(name) then None
    else
      var result := DedupName(Collapse(Trim(name.value)));
      if |result| > 0 then Some(result) else None
  }

  /** The halving step of `cleanName` on the trimmed name. */
  method HalveIfDoubled(original: string) returns (trimmed: string)
    ensures trimmed == Collapse(original)
  {
    trimmed := original;
    var halfLength := |original| / 2;
    var firstHalf := Trim(original[..halfLength]);
    var secondHalf := Trim(original[halfLength..]);
    if |firstHalf| > 0 && |secondHalf| > 0 {
      var normalizedFirst := HalfKey(firstHalf);
      var normalizedSecond := HalfKey(secondHalf);
      if normalizedFirst == normalizedSecond || normalizedFirst <= normalizedSecond {
        trimmed := firstHalf;
      }
    }
  }

  /** `cleanName` (src/app/dashboard/players/page.tsx:91-131). */
  method CleanName(name: Option<string>) returns (r: Option<string>)
    ensures r == CleanNameSpec(name)
  {
    if !Present(name) {
      return None;
    }
    var trimmed := HalveIfDoubled(Trim(name.value));
    var words := SplitWs(trimmed);
    var cleaned := DedupWords(words, NameKey);
    var result := Trim(Join(cleaned));
    r := if |result| > 0 then Some(result) else None;
  }

  /**
   * The de-duplicated text is the kept words joined by single spaces; its
   * words are exactly the first occurrences of the words of `t`.
   */
  lemma DedupNameWords(t: string)
    ensures DedupName(t) == Join(FirstOccurrences(Words(t), NameKey))
    ensures Words(DedupName(t)) == FirstOccurrences(Words(t), NameKey)
  {
    var kept := FirstOccurrences(Words(t), NameKey);
    assert NameKey([]) == [];
    FirstOccurrencesSplit(t, NameKey);
    FirstOccurrencesAreWords(Words(t), NameKey);
    JoinTrimmed(kept);
    WordsOfJoin(kept);
  }

  /**
   * `cleanName` yields `null` exactly when the name is null or empty, or when
   * no word of the (possibly halved) trimmed name has a non-empty normalised
   * form; otherwise the result is non-empty and no longer than the trimmed name.
   */
  lemma CleanNameNull(name: Option<string>)
    ensures CleanNameSpec(name).None? <==>
      !Present(name) || Seen(Words(Collapse(Trim(name.value))), NameKey) == {}
    ensures CleanNameSpec(name).Some? ==>
      CleanNameSpec(name).value != [] && |CleanNameSpec(name).value| <= |Trim(name.value)|
  {
    if Present(name) {
      var t := Collapse(Trim(name.value));
      var kept := FirstOccurrences(Words(t), NameKey);
      DedupNameWords(t);
      FirstOccurrencesDistinct(Words(t), NameKey);
      FirstOccurrencesAreWords(Words(t), NameKey);
      JoinEdges(kept);
      FirstOccurrencesJoinBound(Words(t), NameKey);
      JoinWordsBound(t);
    }
  }

  /**
   * The words of a non-null result are the first occurrences of the words of
   * the (possibly halved) trimmed name, in their order and spelling; no two
   * share a normalised form and none normalises to the empty string.
   */
  lemma CleanNameWords(name: Option<string>)
    requires CleanNameSpec(name).Some?
    ensures var ws, out := Words(Collapse(Trim(name.value))), Words(CleanNameSpec(name).value);
      var pos := KeptPositions(ws, NameKey);
      && out == FirstOccurrences(ws, NameKey)
      && (forall k :: 0 <= k < |out| ==> NameKey(out[k]) != [])
      && (forall k, l :: 0 <= k < l < |out| ==> NameKey(out[k]) != NameKey(out[l]))
      && |pos| == |out|
      && (forall k :: 0 <= k < |pos| ==> pos[k] < |ws| && out[k] == ws[pos[k]])
      && (forall i :: 0 <= i < |ws| ==> (i in pos <==> IsFirst(ws, i, NameKey)))
  {
    var t := Collapse(Trim(name.value));
    assert CleanNameSpec(name).value == DedupName(t);
    DedupNameWords(t);
    FirstOccurrencesDistinct(Words(t), NameKey);
    FirstOccurrencesPositions(Words(t), NameKey);
    KeptPositionsFirst(Words(t), NameKey);
  }

  lemma TrimLeadingSpace(s: string)
    requires s != [] && !IsSpace(s[0]) && !IsSpace(s[|s| - 1])
    ensures Trim(" " + s) == s
  {
    assert (" " + s)[1..] == s;
    assert TrimStart(" " + s) == TrimStart(s);
    TrimUnchanged(s);
  }

  /** When both trimmed halves are the same non-empty text, the halving keeps that text. */
  lemma CollapseEqualHalves(t: string, s: string)
    requires s != [] && Trim(t[..|t| / 2]) == s && Trim(t[|t| / 2..]) == s
    ensures Collapse(t) == s
  {
  }

  /** A name typed twice with nothing in between is halved back to one copy. */
  lemma CollapseDoubled(s: string)
    requires s != [] && !IsSpace(s[0]) && !IsSpace(s[|s| - 1])
    ensures Collapse(s + s) == s
  {
    TrimUnchanged(s);
    var t := s + s;
    assert |t| / 2 == |s|;
    assert t[..|s|] == s && t[|s|..] == s;
    CollapseEqualHalves(t, s);
  }

  /** A name typed twice with a space in between is halved back to one copy. */
  lemma CollapseDoubledSpaced(s: string)
    requires s != [] && !IsSpace(s[0]) && !IsSpace(s[|s| - 1])
    ensures Collapse(s + " " + s) == s
  {
    var rest := " " + s;
    var t := s + rest;
    assert t == s + " " + s;
    assert |t| == 2 * |s| + 1;
    assert |t| / 2 == |s|;
    assert Trim(t[..|s|]) == s by {
      assert t[..|s|] == s;
      TrimUnchanged(s);
    }
    assert Trim(t[|s|..]) == s by {
      assert t[|s|..] == rest;
      TrimLeadingSpace(s);
    }
    CollapseEqualHalves(t, s);
  }

  /** The de-duplicated single copy a doubled name is saved as. */
  function OnceCleaned(ws: seq<string>): Option<string> {
    var once := FirstOccurrences(ws, NameKey);
    if once == [] then None else Some(Join(once))
  }

  lemma CleanNameOfCollapsed(d: string, ws: seq<string>)
    requires d != [] && Trim(d) == d && AllWords(ws) && Collapse(d) == Join(ws)
    ensures CleanNameSpec(Some(d)) == OnceCleaned(ws)
  {
    var once := FirstOccurrences(ws, NameKey);
    FirstOccurrencesAreWords(ws, NameKey);
    JoinEdges(once);
    WordsOfJoin(ws);
    DedupNameWords(Join(ws));
    assert DedupName(Join(ws)) == Join(once);
  }

  /** Joined words neither start nor end with whitespace. */
  lemma JoinedEdges(ws: seq<string>)
    requires ws != [] && AllWords(ws)
    ensures Join(ws) != [] && !IsSpace(Join(ws)[0]) && !IsSpace(Join(ws)[|Join(ws)| - 1])
  {
    JoinEdges(ws);
    assert IsWord(ws[0]) && IsWord(ws[|ws| - 1]);
  }

  /** Two copies of an unpadded text side by side are unpadded. */
  lemma CopiesUnpadded(s: string)
    requires s != [] && !IsSpace(s[0]) && !IsSpace(s[|s| - 1])
    ensures Trim(s + s) == s + s
  {
    var d := s + s;
    assert d[0] == s[0] && d[|d| - 1] == s[|s| - 1];
    TrimUnchanged(d);
  }

  /** Two copies of an unpadded text around one space are unpadded. */
  lemma SpacedCopiesUnpadded(s: string)
    requires s != [] && !IsSpace(s[0]) && !IsSpace(s[|s| - 1])
    ensures Trim(s + " " + s) == s + " " + s
  {
    var e := s + " " + s;
    assert e[0] == s[0] && e[|e| - 1] == s[|s| - 1];
    TrimUnchanged(e);
  }

  /** A name typed twice is unpadded and halves back to one copy. */
  lemma DoubledHalves(ws: seq<string>, s: string)
    requires ws != [] && AllWords(ws) && s == Join(ws)
    ensures s + s != [] && Trim(s + s) == s + s && Collapse(s + s) == s
    ensures s + " " + s != [] && Trim(s + " " + s) == s + " " + s && Collapse(s + " " + s) == s
  {
    JoinedEdges(ws);
    CopiesUnpadded(s);
    SpacedCopiesUnpadded(s);
    CollapseDoubled(s);
    CollapseDoubledSpaced(s);
  }

  /**
   * Saving a name typed twice, `w1 … wn w1 … wn`, stores the de-duplicated
   * single copy, or null when no word survives.
   */
  lemma CleanNameDoubled(ws: seq<string>, s: string)
    requires ws != [] && AllWords(ws) && s == Join(ws)
    ensures CleanNameSpec(Some(s + s)) == OnceCleaned(ws)
  {
    DoubledHalves(ws, s);
    CleanNameOfCollapsed(s + s, ws);
  }

  /** The same with a space between the two copies. */
  lemma CleanNameDoubledSpaced(ws: seq<string>, s: string)
    requires ws != [] && AllWords(ws) && s == Join(ws)
    ensures CleanNameSpec(Some(s + " " + s)) == OnceCleaned(ws)
  {
    DoubledHalves(ws, s);
    CleanNameOfCollapsed(s + " " + s, ws);
  }

  /** The dialog's form fields; every field is a (possibly empty) string. */
  datatype PlayerForm = PlayerForm(
    email: string, password: string, name: string, username: string,
    bio: string, avatar: string, teamId: string, teamRole: string)

  /** The JSON body of the save request; `password` is absent unless typed. */
  datatype PlayerPayload = PlayerPayload(
    email: string, name: Option<string>, username: Option<string>, bio: Option<string>,
    avatar: Option<string>, teamId: Option<string>, teamRole: Option<string>,
    password: Option<string>)

  /** What submitting the dialog does: an alert and no request, or one request. */
  datatype Submission =
    | Rejected(alert: string)
    | Send(verb: Verb, url: string, payload: PlayerPayload)

  const PasswordRequired: string := "\U{041F}\U{0430}\U{0440}\U{043E}\U{043B}\U{044C} \U{043E}\U{0431}\U{044F}\U{0437}\U{0430}\U{0442}\U{0435}\U{043B}\U{0435}\U{043D} \U{0434}\U{043B}\U{044F} \U{043D}\U{043E}\U{0432}\U{043E}\U{0433}\U{043E} \U{0438}\U{0433}\U{0440}\U{043E}\U{043A}\U{0430}"

  /**
   * `handleSubmit` up to the request: `editing` is the id of the player being
   * edited, if any.
   */
  function Submit(form: PlayerForm, editing: Option<string>): (r: Submission)
    ensures r.Rejected? <==> editing.None? && form.password == []
    ensures r.Send? ==> (r.verb == PUT <==> editing.Some?)
    ensures r.Send? ==> r.url == if editing.Some? then "/api/players/" + editing.value else "/api/players"
    ensures r.Send? ==> r.payload.email == form.email
    ensures r.Send? ==> r.payload.name == if form.name == [] then None else CleanNameSpec(Some(form.name))
    ensures r.Send? ==> (r.payload.password.Some? <==> form.password != [])
    ensures r.Send? && r.payload.password.Some? ==> r.payload.password.value == form.password
    ensures r.Send? ==>
      && (r.payload.username.None? <==> form.username == [])
      && (r.payload.bio.None? <==> form.bio == [])
      && (r.payload.avatar.None? <==> form.avatar == [])
      && (r.payload.teamId.None? <==> form.teamId == [])
      && (r.payload.teamRole.None? <==> form.teamRole == [])
    ensures r.Send? ==>
      && r.payload.username == NullIfEmpty(form.username)
      && r.payload.bio == NullIfEmpty(form.bio)
      && r.payload.avatar == NullIfEmpty(form.avatar)
      && r.payload.teamId == NullIfEmpty(form.teamId)
      && r.payload.teamRole == NullIfEmpty(form.teamRole)
    ensures r.Rejected? ==> r.alert == PasswordRequired
  {
    var url := if editing.Some? then "/api/players/" + editing.value else "/api/players";
    var verb := if editing.Some? then PUT else POST;
    var cleanedName := if form.name != [] then CleanNameSpec(Some(form.name)) else None;
    var payload := PlayerPayload(
      form.email, cleanedName, NullIfEmpty(form.username), NullIfEmpty(form.bio),
      NullIfEmpty(form.avatar), NullIfEmpty(form.teamId), NullIfEmpty(form.teamRole),
      NullIfEmpty(form.password));
    if editing.None? && form.password == [] then Rejected(PasswordRequired)
    else Send(verb, url, payload)
  }

  /**
   * After a successful save: the avatar DELETE request issued when an edited
   * player had an avatar and the form's avatar is now empty.
   */
  function AvatarDeleteUrl(saved: bool, editing: Option<string>, originalAvatar: Option<string>, formAvatar: string): (r: Option<string>)
    ensures r.Some? <==> saved && editing.Some? && Present(originalAvatar) && formAvatar == []
    ensures r.Some? ==> r.value == "/api/users/" + editing.value + "/avatar"
  {
    if saved && editing.Some? && Present(originalAvatar) && formAvatar == []
    then Some("/api/users/" + editing.value + "/avatar")
    else None
  }

  /** A membership as the players list returns it. */
  datatype Membership = Membership(teamId: string, role: Option<string>)

  /** A row of the players list. */
  datatype PlayerRow = PlayerRow(
    id: string, email: string, name: Option<string>, username: Option<string>,
    bio: Option<string>, avatar: Option<string>, teamMembers: seq<Membership>)

  /** The dialog state `handleOpenEdit` sets. */
  datatype EditState = EditState(form: PlayerForm, preview: Option<string>, originalAvatar: Option<string>)

  /**
   * `handleOpenEdit`: every nullable field becomes "" when null, the password
   * is blank, the team and role come from the first membership, and the
   * avatar preview and remembered original are the avatar or null.
   */
  function OpenEdit(p: PlayerRow): (r: EditState)
    ensures r.form.email == p.email && r.form.password == []
    ensures r.form.name == p.name.GetOr([]) && r.form.username == p.username.GetOr([])
    ensures r.form.bio == p.bio.GetOr([]) && r.form.avatar == p.avatar.GetOr([])
    ensures r.form.teamId == if p.teamMembers == [] then [] else p.teamMembers[0].teamId
    ensures r.form.teamRole == if p.teamMembers == [] then [] else p.teamMembers[0].role.GetOr([])
    ensures r.preview == r.originalAvatar == OrNull(p.avatar)
  {
    var avatar := p.avatar.GetOr([]);
    var form := PlayerForm(
      p.email, [], p.name.GetOr([]), p.username.GetOr([]), p.bio.GetOr([]), avatar,
      if p.teamMembers == [] then [] else p.teamMembers[0].teamId,
      if p.teamMembers == [] then [] else p.teamMembers[0].role.GetOr([]));
    EditState(form, NullIfEmpty(avatar), NullIfEmpty(avatar))
  }

  /**
   * Opening a player and saving without touching the form sends back the
   * stored values (blank ones as null), the cleaned name, no password, and
   * asks for no avatar removal.
   */
  lemma EditUnchangedRoundTrip(p: PlayerRow)
    ensures var st := OpenEdit(p);
      var r := Submit(st.form, Some(p.id));
      && r.Send? && r.verb == PUT
      && r.payload.email == p.email
      && r.payload.name == CleanNameSpec(p.name)
      && r.payload.username == OrNull(p.username)
      && r.payload.bio == OrNull(p.bio)
      && r.payload.avatar == OrNull(p.avatar)
      && r.payload.password.None?
      && AvatarDeleteUrl(true, Some(p.id), st.originalAvatar, st.form.avatar).None?
  {
    var st := OpenEdit(p);
    var r := Submit(st.form, Some(p.id));
    if Present(p.name) {
      assert st.form.name == p.name.value;
    } else {
      assert st.form.name == [];
    }
    assert r.payload.name == CleanNameSpec(p.name);
  }
}
