/**
 * Splitting a string into whitespace-separated words (`s.split(/\s+/)` on a
 * trimmed string) and joining words with single spaces (`words.join(" ")`).
 */
module WordSplit {
  import opened Chars

  /** A word as `split(/\s+/)` yields it from a trimmed, non-empty string. */
  predicate IsWord(w: string) {
    w != [] && NoSpace(w)
  }

  predicate AllWords(ws: seq<string>) {
    forall k :: 0 <= k < |ws| ==> IsWord(ws[k])
  }

  /** Length of the leading run of non-whitespace characters. */
  function RunLength(s: string): (n: nat)
    ensures n <= |s|
    ensures forall i :: 0 <= i < n ==> !IsSpace(s[i])
    ensures n < |s| ==> IsSpace(s[n])
  {
    if s == [] || IsSpace(s[0]) then 0 else 1 + RunLength(s[1..])
  }

  /** The maximal runs of non-whitespace characters of `s`, left to right. */
  function Words(s: string): (ws: seq<string>)
    ensures AllWords(ws)
    decreases |s|
  {
    if s == [] then []
    else if IsSpace(s[0]) then Words(s[1..])
    else
      var n := RunLength(s);
      [s[..n]] + Words(s[n..])
  }

  /**
   * `s.split(/\s+/)` for a string without leading or trailing whitespace:
   * JavaScript splits the empty string into one empty piece.
   */
  function SplitWs(s: string): (ws: seq<string>)
    ensures s != [] ==> ws == Words(s)
    ensures s == [] ==> ws == [[]]
  {
    if s == [] then [[]] else Words(s)
  }

  /** `ws.join(" ")` */
  function Join(ws: seq<string>): string {
    if ws == [] then []
    else if |ws| == 1 then ws[0]
    else ws[0] + " " + Join(ws[1..])
  }

  /** Appending a word at the end of the list appends it, after a space, to the joined text. */
  lemma {:induction false} JoinSnoc(ws: seq<string>, w: string)
    ensures Join(ws + [w]) == if ws == [] then w else Join(ws) + " " + w
  {
    if |ws| > 1 {
      JoinSnoc(ws[1..], w);
      assert (ws + [w])[1..] == ws[1..] + [w];
    } else if |ws| == 1 {
      assert (ws + [w])[1..] == [w];
    }
  }

  /** Joined words start and end with a word character, so `trim` leaves them alone. */
  lemma {:induction false} JoinEdges(ws: seq<string>)
    requires AllWords(ws)
    ensures ws == [] <==> Join(ws) == []
    ensures ws != [] ==> Join(ws)[0] == ws[0][0] && Join(ws)[|Join(ws)| - 1] == ws[|ws| - 1][|ws[|ws| - 1]| - 1]
  {
    if |ws| > 1 {
      JoinEdges(ws[1..]);
    }
  }

  /** Joining words and trimming the result gives the joined words back. */
  lemma JoinTrimmed(ws: seq<string>)
    requires AllWords(ws)
    ensures Trim(Join(ws)) == Join(ws)
  {
    JoinEdges(ws);
    if ws != [] {
      assert IsWord(ws[0]) && IsWord(ws[|ws| - 1]);
    }
    TrimUnchanged(Join(ws));
  }

  /** Splitting a single word gives that word back. */
  lemma WordsOfWord(w: string)
    requires IsWord(w)
    ensures RunLength(w) == |w|
    ensures Words(w) == [w]
  {
    assert w[..|w|] == w;
    assert w[|w|..] == [];
  }

  /** Round trip: splitting words joined by single spaces gives the same words. */
  lemma {:induction false} WordsOfJoin(ws: seq<string>)
    requires AllWords(ws)
    ensures Words(Join(ws)) == ws
  {
    if ws == [] {
    } else if |ws| == 1 {
      assert IsWord(ws[0]);
      WordsOfWord(ws[0]);
    } else {
      var w := ws[0];
      assert IsWord(w);
      var rest := Join(ws[1..]);
      var s := w + " " + rest;
      assert Join(ws) == s;
      var n := RunLength(s);
      assert s[|w|] == ' ';
      assert n == |w|;
      assert s[..n] == w;
      assert s[n..] == " " + rest;
      assert (" " + rest)[1..] == rest;
      assert AllWords(ws[1..]);
      WordsOfJoin(ws[1..]);
      assert ws == [w] + ws[1..];
    }
  }

  /** The leading run stops at the first whitespace character, wherever that lies. */
  lemma RunLengthBefore(a: string, t: string)
    requires RunLength(a) < |a| || (t != [] && IsSpace(t[0]))
    ensures RunLength(a + t) == RunLength(a)
  {
    var s := a + t;
    var m := RunLength(a);
    var n := RunLength(s);
    assert m < |s| && IsSpace(s[m]);
    assert forall i :: 0 <= i < m ==> s[i] == a[i];
  }

  /**
   * Any whitespace character separates words, however many stand together:
   * the words on both sides of it are the words of the whole.
   */
  lemma {:induction false} WordsAtSpace(a: string, c: char, b: string)
    requires IsSpace(c)
    ensures Words(a + [c] + b) == Words(a) + Words(b)
    decreases |a|
  {
    var s := a + [c] + b;
    if a == [] {
      assert s[1..] == b;
    } else if IsSpace(a[0]) {
      assert s[1..] == a[1..] + [c] + b;
      WordsAtSpace(a[1..], c, b);
    } else {
      var m := RunLength(a);
      RunLengthBefore(a, [c] + b);
      assert a + [c] + b == a + ([c] + b);
      assert s[..m] == a[..m];
      assert s[m..] == a[m..] + [c] + b;
      WordsAtSpace(a[m..], c, b);
    }
  }

  /** The words of a string, joined with single spaces, are no longer than the string. */
  lemma {:induction false} JoinWordsBound(s: string)
    ensures |Join(Words(s))| <= |s|
    decreases |s|
  {
    if s == [] {
    } else if IsSpace(s[0]) {
      JoinWordsBound(s[1..]);
    } else {
      var n := RunLength(s);
      var rest := Words(s[n..]);
      if rest == [] {
        assert Words(s) == [s[..n]];
      } else {
        assert n < |s|;
        assert IsSpace(s[n..][0]);
        assert Words(s[n..]) == Words(s[n..][1..]);
        assert s[n..][1..] == s[n + 1..];
        JoinWordsBound(s[n + 1..]);
        assert Words(s)[1..] == rest;
      }
    }
  }
}
