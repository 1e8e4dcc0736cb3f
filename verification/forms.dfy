/**
 * Form-state helpers shared by the dashboard pages: the `field || null`
 * mapping of a blank form field, the request verb of a save, and the
 * checkbox selection toggle of the managers page (`toggleTeam`) and the
 * new-team page (`togglePlayer`), which are the same expression.
 */
module Forms {
  import opened Wrappers

  datatype Verb = POST | PUT

  /** `s || null` for a form field. */
  function NullIfEmpty(s: string): (r: Option<string>)
    ensures r.None? <==> s == []
    ensures r.Some? ==> r.value == s
  {
    if s == [] then None else Some(s)
  }

  /** `ids.filter((x) => x !== id)`: every occurrence of `id` dropped, the rest in order. */
  function Without(ids: seq<string>, id: string): (r: seq<string>)
    ensures |r| <= |ids|
    ensures id !in r
    ensures forall x :: x != id ==> (x in r <==> x in ids)
  {
    if ids == [] then []
    else (if ids[0] == id then [] else [ids[0]]) + Without(ids[1..], id)
  }

  /**
   * `ids.includes(id) ? ids.filter((x) => x !== id) : [...ids, id]`: a
   * listed id is deselected (every copy of it), an unlisted one is appended.
   */
  function Toggle(ids: seq<string>, id: string): (r: seq<string>)
    ensures id !in ids ==> r == ids + [id]
    ensures id in ids ==> r == Without(ids, id)
    ensures id in r <==> id !in ids
    ensures forall x :: x != id ==> (x in r <==> x in ids)
  {
    if id in ids then Without(ids, id) else ids + [id]
  }

  /** Dropping an id distributes over concatenation, so the kept ids stay in their order. */
  lemma {:induction false} WithoutConcat(a: seq<string>, b: seq<string>, id: string)
    ensures Without(a + b, id) == Without(a, id) + Without(b, id)
    decreases |a|
  {
    if a != [] {
      assert (a + b)[1..] == a[1..] + b;
      WithoutConcat(a[1..], b, id);
    } else {
      assert a + b == b;
    }
  }

  /** Dropping an id that is not listed changes nothing. */
  lemma {:induction false} WithoutAbsent(ids: seq<string>, id: string)
    requires id !in ids
    ensures Without(ids, id) == ids
    decreases |ids|
  {
    if ids != [] {
      assert ids[0] != id;
      WithoutAbsent(ids[1..], id);
      assert [ids[0]] + ids[1..] == ids;
    }
  }

  /** Dropping an id keeps the number of copies of every other id. */
  lemma {:induction false} WithoutCounts(ids: seq<string>, id: string)
    ensures multiset(Without(ids, id))[id] == 0
    ensures forall x :: x != id ==> multiset(Without(ids, id))[x] == multiset(ids)[x]
    decreases |ids|
  {
    if ids != [] {
      WithoutCounts(ids[1..], id);
      assert ids == [ids[0]] + ids[1..];
    }
  }

  /** Ticking an unticked box and unticking it again restores the selection. */
  lemma ToggleTwiceAbsent(ids: seq<string>, id: string)
    requires id !in ids
    ensures Toggle(Toggle(ids, id), id) == ids
  {
    WithoutConcat(ids, [id], id);
    WithoutAbsent(ids, id);
    assert Without([id], id) == [];
  }

  /** Unticking a ticked box and ticking it again moves the id to the end, once. */
  lemma ToggleTwicePresent(ids: seq<string>, id: string)
    requires id in ids
    ensures Toggle(Toggle(ids, id), id) == Without(ids, id) + [id]
  {
  }

  /** No id listed twice. */
  predicate NoDuplicates(ids: seq<string>) {
    forall i, j :: 0 <= i < j < |ids| ==> ids[i] != ids[j]
  }

  /** Dropping an id never introduces a repeat. */
  lemma {:induction false} WithoutNoDuplicates(ids: seq<string>, id: string)
    requires NoDuplicates(ids)
    ensures NoDuplicates(Without(ids, id))
    decreases |ids|
  {
    if ids != [] {
      WithoutNoDuplicates(ids[1..], id);
      var rest := Without(ids[1..], id);
      if ids[0] != id {
        assert ids[0] !in ids[1..];
        assert ids[0] !in rest;
        var r := [ids[0]] + rest;
        forall i, j | 0 <= i < j < |r| ensures r[i] != r[j] {
          if i == 0 {
            assert r[j] == rest[j - 1] && r[j] in rest;
          } else {
            assert r[i] == rest[i - 1] && r[j] == rest[j - 1];
          }
        }
      }
    }
  }

  /** A selection built by toggling never lists an id twice. */
  lemma ToggleNoDuplicates(ids: seq<string>, id: string)
    requires NoDuplicates(ids)
    ensures NoDuplicates(Toggle(ids, id))
  {
    if id in ids {
      WithoutNoDuplicates(ids, id);
    }
  }

  /** The selection after a series of clicks, starting from `ids`. */
  function ToggleAll(ids: seq<string>, clicks: seq<string>): seq<string>
    decreases |clicks|
  {
    if clicks == [] then ids else ToggleAll(Toggle(ids, clicks[0]), clicks[1..])
  }

  /** However the boxes are clicked, a selection that starts empty never lists an id twice. */
  lemma {:induction false} ToggleAllNoDuplicates(ids: seq<string>, clicks: seq<string>)
    requires NoDuplicates(ids)
    ensures NoDuplicates(ToggleAll(ids, clicks))
    decreases |clicks|
  {
    if clicks != [] {
      ToggleNoDuplicates(ids, clicks[0]);
      ToggleAllNoDuplicates(Toggle(ids, clicks[0]), clicks[1..]);
    }
  }
}
