/** Dragging the selected tokens (the pointer-down / pointer-move handlers of each token). */
module Drag {
  import opened Wrappers
  import opened Tokens

  /** `SNAP_SIZE`: the grid that snapping rounds to. */
  const SnapSize := 5

  /**
   * `Math.round(n / SNAP_SIZE) * SNAP_SIZE` for a whole `n`. A quotient n/5 never ends in
   * exactly .5, so rounding to the nearest integer is flooring (n + 2) / 5.
   */
  function Snap(n: int): (r: int)
    ensures r % SnapSize == 0
    ensures -2 <= r - n <= 2
  {
    ((n + 2) / SnapSize) * SnapSize
  }

  function Abs(x: int): nat {
    if x < 0 then -x else x
  }

  /** No multiple of the grid is closer to `n` than the snapped value. */
  lemma SnapNearest(n: int, m: int)
    requires m % SnapSize == 0
    ensures Abs(Snap(n) - n) <= Abs(m - n)
  {
    var q := m / SnapSize;
    assert m == q * SnapSize;
    var s := Snap(n) / SnapSize;
    assert Snap(n) == s * SnapSize;
    if q < s {
      assert m <= Snap(n) - SnapSize;
    } else if q > s {
      assert m >= Snap(n) + SnapSize;
    }
  }

  /** Snapping a coordinate that is already on the grid leaves it where it is. */
  lemma SnapOnGrid(n: int)
    requires n % SnapSize == 0
    ensures Snap(n) == n
  {
    SnapNearest(n, n);
  }

  /** One entry of `startPositions`: a selected token and where it stood at pointer-down. */
  datatype DragStart = DragStart(id: nat, startX: int, startY: int)

  /** `selectedElements.map(...)`: the recorded start of every selected token, in selection order. */
  function Starts(ts: seq<Token>, sel: seq<nat>): (r: seq<DragStart>)
    requires forall x :: x in sel ==> x in IdsOf(ts)
    ensures |r| == |sel|
    ensures forall k :: 0 <= k < |sel| ==> r[k].id == sel[k]
  {
    seq(|sel|, k requires 0 <= k < |sel| =>
      var t := ts[Find(ts, sel[k])];
      DragStart(sel[k], StartOf(t.left), StartOf(t.top)))
  }

  /** The coordinate a pointer-move writes: start plus delta, snapped when snapping is on. */
  function Target(start: int, delta: int, snap: bool): int {
    if snap then Snap(start + delta) else start + delta
  }

  /** The last session entry for `id`: the `forEach` writes in order, so the last write stays. */
  function LastFor(session: seq<DragStart>, id: nat): (r: Option<DragStart>)
    ensures r.Some? ==> r.value in session && r.value.id == id
    ensures r.None? ==> forall k :: 0 <= k < |session| ==> session[k].id != id
  {
    if session == [] then None
    else if session[|session| - 1].id == id then Some(session[|session| - 1])
    else LastFor(session[..|session| - 1], id)
  }

  /** Token `t` after a pointer-move of (dx, dy) in the given drag session. */
  function Moved(t: Token, session: seq<DragStart>, dx: int, dy: int, snap: bool): (r: Token)
    ensures r.id == t.id && r.look == t.look
  {
    match LastFor(session, t.id)
    case None => t
    case Some(s) => t.(left := Px(Target(s.startX, dx, snap)), top := Px(Target(s.startY, dy, snap)))
  }

  /** The whole stage after a pointer-move of (dx, dy) from the pointer-down position. */
  function MoveAll(ts: seq<Token>, session: seq<DragStart>, dx: int, dy: int, snap: bool): (r: seq<Token>)
    ensures |r| == |ts|
    ensures forall i :: 0 <= i < |ts| ==> r[i] == Moved(ts[i], session, dx, dy, snap)
  {
    seq(|ts|, i requires 0 <= i < |ts| => Moved(ts[i], session, dx, dy, snap))
  }

  /** One `forEach` step: the token of entry `e` goes to its target, the others stay. */
  function Place(ts: seq<Token>, e: DragStart, dx: int, dy: int, snap: bool): (r: seq<Token>)
    ensures |r| == |ts|
    ensures forall i :: 0 <= i < |ts| ==> r[i].id == ts[i].id && r[i].look == ts[i].look
  {
    seq(|ts|, i requires 0 <= i < |ts| =>
      if ts[i].id == e.id
      then ts[i].(left := Px(Target(e.startX, dx, snap)), top := Px(Target(e.startY, dy, snap)))
      else ts[i])
  }

  /** Processing the session entry by entry computes `MoveAll`. */
  lemma MoveAllStep(ts: seq<Token>, session: seq<DragStart>, e: DragStart, dx: int, dy: int, snap: bool)
    ensures MoveAll(ts, session + [e], dx, dy, snap) == Place(MoveAll(ts, session, dx, dy, snap), e, dx, dy, snap)
  {
    assert (session + [e])[..|session|] == session;
  }

  /**
   * A drag of the selection moves exactly the selected tokens: each selected token goes to its
   * recorded start plus (dx, dy), snapped if snapping is on; nothing else changes.
   */
  lemma DragMovesSelected(ts: seq<Token>, sel: seq<nat>, dx: int, dy: int, snap: bool)
    requires UniqueIds(ts) && SelectionWithin(sel, ts)
    ensures forall i :: 0 <= i < |ts| ==>
      var r := MoveAll(ts, Starts(ts, sel), dx, dy, snap)[i];
      r.id == ts[i].id && r.look == ts[i].look &&
      (ts[i].id in sel ==>
        r.left == Px(Target(StartOf(ts[i].left), dx, snap)) &&
        r.top == Px(Target(StartOf(ts[i].top), dy, snap))) &&
      (ts[i].id !in sel ==> r == ts[i])
  {
    var session := Starts(ts, sel);
    forall i | 0 <= i < |ts|
      ensures var r := MoveAll(ts, session, dx, dy, snap)[i];
        (ts[i].id in sel ==>
          r.left == Px(Target(StartOf(ts[i].left), dx, snap)) &&
          r.top == Px(Target(StartOf(ts[i].top), dy, snap))) &&
        (ts[i].id !in sel ==> r == ts[i])
    {
      var id := ts[i].id;
      FindUnique(ts, i);
      match LastFor(session, id)
      case None =>
      case Some(s) =>
        var k :| 0 <= k < |session| && session[k] == s;
        assert sel[k] == id;
    }
  }

  /** With snapping on, every coordinate a drag writes is on the grid and within 2 of the exact one. */
  lemma SnappedTargets(ts: seq<Token>, sel: seq<nat>, dx: int, dy: int)
    requires UniqueIds(ts) && SelectionWithin(sel, ts)
    ensures forall i :: 0 <= i < |ts| && ts[i].id in sel ==>
      var r := MoveAll(ts, Starts(ts, sel), dx, dy, true)[i];
      r.left.Px? && r.left.n % SnapSize == 0 && Abs(r.left.n - (StartOf(ts[i].left) + dx)) <= 2 &&
      r.top.Px? && r.top.n % SnapSize == 0 && Abs(r.top.n - (StartOf(ts[i].top) + dy)) <= 2
  {
    DragMovesSelected(ts, sel, dx, dy, true);
  }
}
