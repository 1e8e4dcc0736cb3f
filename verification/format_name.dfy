/**
 * Display names (src/lib/format-name.ts): `cleanDuplicateText` removes
 * repeated words, `formatUserName` picks one of username, name and email,
 * `getUserInitial` gives the avatar letter.
 */
module FormatName {
  import opened Wrappers
  import opened Chars
  import opened WordSplit
  import opened Dedup

  /** Characters `cleanDuplicateText` deletes before comparing words. */
  const DupStrip: set<char> := {'\'', '"', '`', '@'}

  /** `word.toLowerCase().replace(/['"`@]/g, '').trim()` */
  function DupKey(w: string): string {
    Trim(Strip(Lower(w), DupStrip))
  }

  /** What `cleanDuplicateText` returns, as a function of its input. */
  function CleanDuplicate(text: string): string {
    if text == [] then text
    else Trim(Join(FirstOccurrences(SplitWs(Trim(text)), DupKey)))
  }

  /** `cleanDuplicateText`: empty input is returned as is, otherwise repeated words are removed. */
  method CleanDuplicateText(text: string) returns (r: string)
    ensures r == CleanDuplicate(text)
  {
    if text == [] {
      return text;
    }
    var words := SplitWs(Trim(text));
    var cleaned := DedupWords(words, DupKey);
    r := Trim(Join(cleaned));
  }

  /**
   * The result is the first occurrences of the input's whitespace-separated
   * words, joined by single spaces: splitting it again gives exactly the kept
   * words, and joining those gives it back. The empty input stays empty.
   */
  lemma CleanDuplicateWords(text: string)
    ensures text == [] ==> CleanDuplicate(text) == []
    ensures Words(CleanDuplicate(text)) == FirstOccurrences(Words(Trim(text)), DupKey)
    ensures CleanDuplicate(text) == Join(Words(CleanDuplicate(text)))
  {
    var kept := FirstOccurrences(Words(Trim(text)), DupKey);
    FirstOccurrencesAreWords(Words(Trim(text)), DupKey);
    JoinTrimmed(kept);
    WordsOfJoin(kept);
    if text != [] {
      assert DupKey([]) == [];
      FirstOccurrencesSplit(Trim(text), DupKey);
    }
  }

  /**
   * No two words of the result share a normalised form (lower case, without
   * ' " ` @), and no word of the result normalises to the empty string.
   */
  lemma CleanDuplicateNoRepeats(text: string)
    ensures forall k :: 0 <= k < |Words(CleanDuplicate(text))| ==> DupKey(Words(CleanDuplicate(text))[k]) != []
    ensures forall k, l :: 0 <= k < l < |Words(CleanDuplicate(text))| ==>
      DupKey(Words(CleanDuplicate(text))[k]) != DupKey(Words(CleanDuplicate(text))[l])
  {
    CleanDuplicateWords(text);
    FirstOccurrencesDistinct(Words(Trim(text)), DupKey);
  }

  /**
   * The words of the result are input words at increasing positions, with
   * their original spelling; a position is kept exactly when it holds the
   * first word with its normalised form, and that form is not empty.
   */
  lemma CleanDuplicateKeepsFirst(text: string)
    ensures var ws, out, pos := Words(Trim(text)), Words(CleanDuplicate(text)), KeptPositions(Words(Trim(text)), DupKey);
      && |pos| == |out|
      && (forall k :: 0 <= k < |pos| ==> pos[k] < |ws| && out[k] == ws[pos[k]])
      && (forall k, l :: 0 <= k < l < |pos| ==> pos[k] < pos[l])
      && (forall i :: 0 <= i < |ws| ==> (i in pos <==> IsFirst(ws, i, DupKey)))
  {
    CleanDuplicateWords(text);
    FirstOccurrencesPositions(Words(Trim(text)), DupKey);
    KeptPositionsFirst(Words(Trim(text)), DupKey);
  }

  /**
   * Every input word is represented: each non-empty normalised form of the
   * input is the form of some word of the result.
   */
  lemma CleanDuplicateCovers(text: string)
    ensures Seen(Words(CleanDuplicate(text)), DupKey) == Seen(Words(Trim(text)), DupKey)
  {
    CleanDuplicateWords(text);
    FirstOccurrencesDistinct(Words(Trim(text)), DupKey);
  }

  /**
   * A text made only of whitespace and of words that normalise to nothing
   * (such as `@` or `''`) cleans to the empty string.
   */
  lemma CleanDuplicateSymbolsOnly(text: string)
    requires forall k :: 0 <= k < |Words(Trim(text))| ==> DupKey(Words(Trim(text))[k]) == []
    ensures CleanDuplicate(text) == []
  {
    var ws := Words(Trim(text));
    assert Seen(ws, DupKey) == {} by {
      forall x | x in Seen(ws, DupKey) ensures false {
        SeenMembers(ws, x, DupKey);
      }
    }
    FirstOccurrencesDistinct(ws, DupKey);
    CleanDuplicateWords(text);
  }

  /** Cleaning twice is the same as cleaning once. */
  lemma CleanDuplicateIdempotent(text: string)
    ensures CleanDuplicate(CleanDuplicate(text)) == CleanDuplicate(text)
  {
    var r := CleanDuplicate(text);
    CleanDuplicateWords(text);
    if r != [] {
      var kept := Words(r);
      TrimUnchanged(r) by {
        JoinEdges(kept);
        assert IsWord(kept[0]) && IsWord(kept[|kept| - 1]);
      }
      assert Words(Trim(r)) == kept;
      FirstOccurrencesIdempotent(Words(Trim(text)), DupKey);
      CleanDuplicateWords(r);
    }
  }

  /** The fields `formatUserName` and `getUserInitial` read. */
  datatype Person = Person(username: Option<string>, name: Option<string>, email: string)

  /** The username filter applied to a cleaned name (src/lib/format-name.ts:44-54). */
  function WithoutUsername(cleanedName: string, username: string): string {
    var usernameLower := Lower(username);
    Trim(Join(KeepUnrelated(SplitWs(cleanedName), usernameLower)))
  }

  /** Words that neither equal, contain nor are contained in `usernameLower`. */
  function KeepUnrelated(ws: seq<string>, usernameLower: string): seq<string> {
    if ws == [] then []
    else
      var wordLower := Strip(Lower(ws[0]), DupStrip);
      var keep := wordLower != usernameLower && !Contains(wordLower, usernameLower) && !Contains(usernameLower, wordLower);
      (if keep then [ws[0]] else []) + KeepUnrelated(ws[1..], usernameLower)
  }

  /** The `if (user.name)` branch, including its username filter. */
  function NameBranch(name: string, username: Option<string>, email: string): string {
    var cleanedName := CleanDuplicate(name);
    var filtered := if Present(username) then WithoutUsername(cleanedName, username.value) else cleanedName;
    if filtered != [] then filtered else email
  }

  /**
   * `formatUserName`: "@" and the cleaned username when there is a username;
   * otherwise the cleaned name, or the email when the name cleans to nothing;
   * otherwise the email. The username filter inside the name branch never
   * applies, because that branch is only reached without a username.
   */
  function FormatUserName(u: Person): (r: string)
    ensures Present(u.username) ==> r == "@" + CleanDuplicate(u.username.value)
    ensures !Present(u.username) ==>
      r == if Present(u.name) && CleanDuplicate(u.name.value) != [] then CleanDuplicate(u.name.value) else u.email
    ensures r == [] ==> u.email == []
  {
    if Present(u.username) then "@" + CleanDuplicate(u.username.value)
    else if Present(u.name) then NameBranch(u.name.value, u.username, u.email)
    else u.email
  }

  /** With a username, neither the name nor the email affects the display name. */
  lemma FormatUserNameUsernameWins(u: Person, name: Option<string>, email: string)
    requires Present(u.username)
    ensures FormatUserName(u) == FormatUserName(Person(u.username, name, email))
    ensures FormatUserName(u)[0] == '@'
    ensures Words(FormatUserName(u)[1..]) == FirstOccurrences(Words(Trim(u.username.value)), DupKey)
  {
    assert FormatUserName(u)[1..] == CleanDuplicate(u.username.value);
    CleanDuplicateWords(u.username.value);
  }

  /** The first of username, name and email that is not empty. */
  function FirstField(u: Person): string {
    if Present(u.username) then u.username.value
    else if Present(u.name) then u.name.value
    else u.email
  }

  /**
   * `getUserInitial`: the upper-cased first character of the first non-empty
   * field among username, name and email. With all three empty the source
   * indexes an empty string and throws; that case is `None`.
   */
  function UserInitial(u: Person): (r: Option<char>)
    ensures r.None? <==> !Present(u.username) && !Present(u.name) && u.email == []
    ensures r.Some? ==> FirstField(u) != [] && r.value == UpperChar(FirstField(u)[0])
  {
    if Present(u.username) then Some(UpperChar(u.username.value[0]))
    else if Present(u.name) then Some(UpperChar(u.name.value[0]))
    else if u.email != [] then Some(UpperChar(u.email[0]))
    else None
  }
}
