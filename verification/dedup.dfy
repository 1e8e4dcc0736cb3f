/**
 * The word de-duplication loop shared by `cleanDuplicateText`
 * (src/lib/format-name.ts) and `cleanName` (the players page): walk the
 * words left to right, keep a word when its comparison key is non-empty and
 * has not been seen yet, and remember the key.
 */
module Dedup {
  import opened Chars
  import opened WordSplit

  /**
   * The comparison key of a word (`normalized` in the source); each caller
   * supplies its own: lower-casing plus deletion of some quote characters.
   */
  type Key = string -> string

  /** The non-empty keys of `ws`: what the `seen` set holds after visiting `ws`. */
  function Seen(ws: seq<string>, key: Key): set<string> {
    set w | w in ws && key(w) != [] :: key(w)
  }

  /** Position `i` holds the first word of `ws` with its (non-empty) key. */
  predicate IsFirst(ws: seq<string>, i: nat, key: Key)
    requires i < |ws|
  {
    key(ws[i]) != [] &&
    forall j :: 0 <= j < i ==> key(ws[j]) != key(ws[i])
  }

  /**
   * The words the loop keeps, defined one input word at a time: the last
   * word is kept when its key is non-empty and no earlier word has that key.
   */
  function FirstOccurrences(ws: seq<string>, key: Key): seq<string>
    decreases |ws|
  {
    if ws == [] then []
    else
      var init, w := ws[..|ws| - 1], ws[|ws| - 1];
      var k := key(w);
      if k != [] && k !in Seen(init, key)
      then FirstOccurrences(init, key) + [w]
      else FirstOccurrences(init, key)
  }

  /** The positions of the words `FirstOccurrences` keeps, in increasing order. */
  function KeptPositions(ws: seq<string>, key: Key): seq<nat>
    decreases |ws|
  {
    if ws == [] then []
    else
      var n := |ws| - 1;
      if IsFirst(ws, n, key)
      then KeptPositions(ws[..n], key) + [n]
      else KeptPositions(ws[..n], key)
  }

  /**
   * The `cleaned` / `seen` loop (src/lib/format-name.ts:12-18,
   * src/app/dashboard/players/page.tsx:115-127).
   */
  method DedupWords(words: seq<string>, key: Key) returns (cleaned: seq<string>)
    ensures cleaned == FirstOccurrences(words, key)
  {
    var seen: set<string> := {};
    cleaned := [];
    for i := 0 to |words|
      invariant cleaned == FirstOccurrences(words[..i], key)
      invariant seen == Seen(words[..i], key)
    {
      var word := words[i];
      var normalized := key(word);
      assert words[..i + 1][..i] == words[..i];
      SeenSnoc(words[..i], word, key);
      assert words[..i] + [word] == words[..i + 1];
      if normalized != [] && normalized !in seen {
        cleaned := cleaned + [word];
        seen := seen + {normalized};
      }
    }
    assert words[..|words|] == words;
  }

  lemma SeenSnoc(ws: seq<string>, w: string, key: Key)
    ensures Seen(ws + [w], key) == Seen(ws, key) + (if key(w) != [] then {key(w)} else {})
  {
    var lhs, rhs := Seen(ws + [w], key), Seen(ws, key) + (if key(w) != [] then {key(w)} else {});
    forall k | k in lhs ensures k in rhs {
      var v :| v in ws + [w] && key(v) != [] && key(v) == k;
      if v != w {
        assert v in ws;
      }
    }
    forall k | k in rhs ensures k in lhs {
      if k in Seen(ws, key) {
        var v :| v in ws && key(v) != [] && key(v) == k;
        assert v in ws + [w];
      } else {
        assert w in ws + [w];
      }
    }
  }

  /** A key is in `Seen(ws)` exactly when it is the non-empty key of some word of `ws`. */
  lemma SeenMembers(ws: seq<string>, x: string, key: Key)
    ensures x in Seen(ws, key) <==> x != [] && exists j :: 0 <= j < |ws| && key(ws[j]) == x
  {
    if x in Seen(ws, key) {
      var v :| v in ws && key(v) != [] && key(v) == x;
      var j :| 0 <= j < |ws| && ws[j] == v;
    }
    if x != [] && exists j :: 0 <= j < |ws| && key(ws[j]) == x {
      var j :| 0 <= j < |ws| && key(ws[j]) == x;
      assert ws[j] in ws;
    }
  }

  /** The last word is kept exactly when its key is non-empty and unseen in the words before it. */
  lemma LastIsFirst(ws: seq<string>, key: Key)
    requires ws != []
    ensures IsFirst(ws, |ws| - 1, key) <==> key(ws[|ws| - 1]) != [] && key(ws[|ws| - 1]) !in Seen(ws[..|ws| - 1], key)
  {
    var n := |ws| - 1;
    SeenMembers(ws[..n], key(ws[n]), key);
    assert forall j :: 0 <= j < n ==> ws[..n][j] == ws[j];
  }

  /**
   * The kept words are the input words at strictly increasing positions: a
   * subsequence, in the original order and spelling.
   */
  lemma {:induction false} FirstOccurrencesPositions(ws: seq<string>, key: Key)
    ensures |KeptPositions(ws, key)| == |FirstOccurrences(ws, key)|
    ensures forall k :: 0 <= k < |KeptPositions(ws, key)| ==>
      KeptPositions(ws, key)[k] < |ws| && FirstOccurrences(ws, key)[k] == ws[KeptPositions(ws, key)[k]]
    ensures forall k, l :: 0 <= k < l < |KeptPositions(ws, key)| ==>
      KeptPositions(ws, key)[k] < KeptPositions(ws, key)[l]
    decreases |ws|
  {
    if ws != [] {
      FirstOccurrencesPositions(ws[..|ws| - 1], key);
      LastIsFirst(ws, key);
    }
  }

  /** First-occurrence characterisation: a position is kept exactly when it holds the first word with its non-empty key. */
  lemma {:induction false} KeptPositionsFirst(ws: seq<string>, key: Key)
    ensures forall i :: 0 <= i < |ws| ==> (i in KeptPositions(ws, key) <==> IsFirst(ws, i, key))
    decreases |ws|
  {
    if ws != [] {
      var n := |ws| - 1;
      var init := ws[..n];
      KeptPositionsFirst(init, key);
      FirstOccurrencesPositions(init, key);
      var before := KeptPositions(init, key);
      assert n !in before;
      assert KeptPositions(ws, key) == if IsFirst(ws, n, key) then before + [n] else before;
      forall i | 0 <= i < |ws| ensures i in KeptPositions(ws, key) <==> IsFirst(ws, i, key) {
        if i < n {
          assert forall j :: 0 <= j <= i ==> init[j] == ws[j];
          assert IsFirst(ws, i, key) <==> IsFirst(init, i, key);
        }
      }
    }
  }

  /**
   * No two kept words share a key, every kept key is non-empty, and the set
   * of kept keys is the set of all non-empty keys of the input: every word
   * is either kept or has its key represented by an earlier kept word.
   */
  lemma {:induction false} FirstOccurrencesDistinct(ws: seq<string>, key: Key)
    ensures forall k :: 0 <= k < |FirstOccurrences(ws, key)| ==> key(FirstOccurrences(ws, key)[k]) != []
    ensures forall k, l :: 0 <= k < l < |FirstOccurrences(ws, key)| ==>
      key(FirstOccurrences(ws, key)[k]) != key(FirstOccurrences(ws, key)[l])
    ensures Seen(FirstOccurrences(ws, key), key) == Seen(ws, key)
    ensures FirstOccurrences(ws, key) == [] <==> Seen(ws, key) == {}
    decreases |ws|
  {
    var r := FirstOccurrences(ws, key);
    if ws != [] {
      var n := |ws| - 1;
      var init, w := ws[..n], ws[n];
      assert ws == init + [w];
      FirstOccurrencesDistinct(init, key);
      var r' := FirstOccurrences(init, key);
      var k := key(w);
      SeenSnoc(init, w, key);
      if k != [] && k !in Seen(init, key) {
        assert r == r' + [w];
        SeenSnoc(r', w, key);
        forall i | 0 <= i < |r'| ensures key(r'[i]) != k {
          assert r'[i] in r';
        }
      }
      if r != [] {
        assert r[0] in r;
      }
    }
  }

  /** Words whose keys are non-empty and pairwise distinct are all kept. */
  lemma {:induction false} FirstOccurrencesFixed(ws: seq<string>, key: Key)
    requires forall k :: 0 <= k < |ws| ==> key(ws[k]) != []
    requires forall k, l :: 0 <= k < l < |ws| ==> key(ws[k]) != key(ws[l])
    ensures FirstOccurrences(ws, key) == ws
    decreases |ws|
  {
    if ws != [] {
      var n := |ws| - 1;
      var init, w := ws[..n], ws[n];
      FirstOccurrencesFixed(init, key);
      SeenMembers(init, key(w), key);
      assert ws == init + [w];
    }
  }

  /** Running the loop on its own output changes nothing. */
  lemma FirstOccurrencesIdempotent(ws: seq<string>, key: Key)
    ensures FirstOccurrences(FirstOccurrences(ws, key), key) == FirstOccurrences(ws, key)
  {
    FirstOccurrencesDistinct(ws, key);
    FirstOccurrencesFixed(FirstOccurrences(ws, key), key);
  }

  /** Kept words are words of the input, so a list of words stays a list of words. */
  lemma FirstOccurrencesAreWords(ws: seq<string>, key: Key)
    requires AllWords(ws)
    ensures AllWords(FirstOccurrences(ws, key))
  {
    FirstOccurrencesPositions(ws, key);
  }

  /** Dropping words never makes the joined text longer. */
  lemma {:induction false} FirstOccurrencesJoinBound(ws: seq<string>, key: Key)
    ensures |Join(FirstOccurrences(ws, key))| <= |Join(ws)|
    decreases |ws|
  {
    if ws != [] {
      var n := |ws| - 1;
      var init, w := ws[..n], ws[n];
      assert ws == init + [w];
      FirstOccurrencesJoinBound(init, key);
      var r' := FirstOccurrences(init, key);
      JoinSnoc(init, w);
      JoinSnoc(r', w);
      if init == [] {
        assert r' == [];
      }
    }
  }

  /** The empty piece JavaScript's `split` yields for an empty string is never kept. */
  lemma FirstOccurrencesSplit(s: string, key: Key)
    requires key([]) == []
    ensures FirstOccurrences(SplitWs(s), key) == FirstOccurrences(Words(s), key)
  {
    if s == [] {
      var e: string := [];
      assert key(e) == [];
      assert SplitWs(s)[..0] == [];
    }
  }
}
