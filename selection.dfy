/** The selection (`selectedElements`): an ordered list of token ids. */
module Selection {
  import opened Tokens

  /** `selectedElements.filter(el => el !== div)`. */
  function Remove(sel: seq<nat>, id: nat): (r: seq<nat>)
    ensures forall x :: x in r <==> x in sel && x != id
    ensures Distinct(sel) ==> Distinct(r)
    ensures id !in sel ==> r == sel
  {
    if sel == [] then []
    else if sel[0] == id then Remove(sel[1..], id)
    else
      var rest := Remove(sel[1..], id);
      assert Distinct(sel) ==> Distinct(sel[1..]) && sel[0] !in sel[1..];
      [sel[0]] + rest
  }

  /** Filtering a concatenation filters each part. */
  lemma {:induction false} RemoveConcat(x: seq<nat>, y: seq<nat>, id: nat)
    ensures Remove(x + y, id) == Remove(x, id) + Remove(y, id)
  {
    if x == [] {
      assert [] + y == y;
    } else {
      assert (x + y)[1..] == x[1..] + y;
      RemoveConcat(x[1..], y, id);
    }
  }

  /** Removing an id that occurs once, between `a` and `b`, joins `a` and `b`. */
  lemma RemoveBetween(a: seq<nat>, x: nat, b: seq<nat>)
    requires x !in a && x !in b
    ensures Remove(a + [x] + b, x) == a + b
  {
    RemoveConcat(a + [x], b, x);
    RemoveSnoc(a, x, x);
    assert Remove(a, x) + [] == a;
  }

  /** In a list without repeats, removing the member at `k` closes the gap and keeps the order. */
  lemma RemoveAt(sel: seq<nat>, k: nat)
    requires Distinct(sel) && k < |sel|
    ensures Remove(sel, sel[k]) == sel[..k] + sel[k + 1..]
  {
    var a, x, b := sel[..k], sel[k], sel[k + 1..];
    assert sel == a + [x] + b;
    assert x !in a && x !in b;
    RemoveBetween(a, x, b);
  }

  /** Filtering a list extended by one element filters the list, then that element. */
  lemma {:induction false} RemoveSnoc(sel: seq<nat>, x: nat, id: nat)
    ensures Remove(sel + [x], id) == Remove(sel, id) + (if x == id then [] else [x])
  {
    if sel == [] {
      assert [] + [x] == [x];
    } else {
      assert (sel + [x])[1..] == sel[1..] + [x];
      RemoveSnoc(sel[1..], x, id);
    }
  }

  /** A shift-click: drop the token if it is selected, otherwise append it. */
  function Toggle(sel: seq<nat>, id: nat): (r: seq<nat>)
    ensures forall x :: x != id ==> (x in r <==> x in sel)
    ensures id in r <==> id !in sel
    ensures id !in sel ==> r == sel + [id]
    ensures id in sel ==> r == Remove(sel, id)
    ensures Distinct(sel) ==> Distinct(r)
  {
    if id in sel then Remove(sel, id) else sel + [id]
  }

  /** A click on token `id`: with shift it toggles, without it selects exactly that token. */
  function Click(sel: seq<nat>, id: nat, shift: bool): (r: seq<nat>)
    ensures !shift ==> r == [id]
    ensures shift ==> forall x :: x != id ==> (x in r <==> x in sel)
    ensures shift ==> (id in r <==> id !in sel)
    ensures shift && id !in sel ==> r == sel + [id]
    ensures shift && id in sel ==> r == Remove(sel, id)
  {
    if shift then Toggle(sel, id) else [id]
  }

  /** The selection step of pointer-down: an unselected token collapses the selection to itself. */
  function Collapse(sel: seq<nat>, id: nat): (r: seq<nat>)
    ensures id in r
    ensures id in sel ==> r == sel
    ensures id !in sel ==> r == [id]
  {
    if id in sel then sel else [id]
  }

  /**
   * Two shift-clicks on the same token restore membership. If the token was not selected the
   * list comes back exactly; if it was, it comes back with that token moved to the end.
   */
  lemma {:induction false} ToggleTwice(sel: seq<nat>, id: nat)
    ensures forall x :: x in Toggle(Toggle(sel, id), id) <==> x in sel
    ensures id !in sel ==> Toggle(Toggle(sel, id), id) == sel
    ensures id in sel ==> Toggle(Toggle(sel, id), id) == Remove(sel, id) + [id]
  {
    if id !in sel {
      RemoveAppended(sel, id);
    }
  }

  lemma {:induction false} RemoveAppended(sel: seq<nat>, id: nat)
    requires id !in sel
    ensures Remove(sel + [id], id) == sel
  {
    if sel == [] {
    } else {
      assert (sel + [id])[1..] == sel[1..] + [id];
      RemoveAppended(sel[1..], id);
    }
  }

  /**
   * A shift-click on an unselected token is preceded by its pointer-down, which has already
   * collapsed the selection to that token; the click then toggles it off again.
   */
  lemma ShiftClickOnUnselected(sel: seq<nat>, id: nat)
    requires id !in sel
    ensures Click(Collapse(sel, id), id, true) == []
  {
  }

  /** Removing one id that names exactly one token removes exactly one token. */
  lemma {:induction false} RemoveOneCount(ts: seq<Token>, x: nat)
    requires UniqueIds(ts) && x in IdsOf(ts)
    ensures |Without(ts, [x])| == |ts| - 1
  {
    if ts != [] {
      var tail := ts[1..];
      assert UniqueIds(tail);
      if ts[0].id == x {
        forall i | 0 <= i < |tail| ensures tail[i].id in [x] <==> tail[i].id in [] {
          assert tail[i].id == ts[i + 1].id;
        }
        WithoutSameMembers(tail, [x], []);
        WithoutNothing(tail);
      } else {
        var m :| 0 <= m < |ts| && IdsOf(ts)[m] == x;
        assert IdsOf(tail)[m - 1] == x;
        RemoveOneCount(tail, x);
      }
    }
  }

  /**
   * Deleting a selection removes exactly as many tokens as are selected: the selection names
   * each of them once, and each names one token.
   */
  lemma {:induction false} DeleteCount(ts: seq<Token>, sel: seq<nat>)
    requires UniqueIds(ts) && SelectionWithin(sel, ts)
    ensures |Without(ts, sel)| == |ts| - |sel|
  {
    if sel == [] {
      WithoutNothing(ts);
    } else {
      var init, x := sel[..|sel| - 1], sel[|sel| - 1];
      assert sel == init + [x];
      assert SelectionWithin(init, ts);
      DeleteCount(ts, init);
      WithoutStep(ts, init, x);
      var rest := Without(ts, init);
      WithoutKeepsUnique(ts, init);
      assert x !in init && x in sel && x in IdsOf(ts);
      var m :| 0 <= m < |ts| && IdsOf(ts)[m] == x;
      assert ts[m] in rest;
      var j :| 0 <= j < |rest| && rest[j] == ts[m];
      assert IdsOf(rest)[j] == x;
      RemoveOneCount(rest, x);
    }
  }
}
