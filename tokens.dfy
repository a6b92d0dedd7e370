/** Placed tokens: the `.item` divs of the stage, taken out of the DOM. */
module Tokens {
  import opened Registry

  /** A `left`/`top` style value: a pixel offset, or a string that `parseInt` cannot read. */
  datatype Coord = Px(n: int) | Unreadable

  /** `parseInt(el.style.left) || 0`: the start coordinate a drag reads. */
  function StartOf(c: Coord): (r: int)
    ensures c.Px? ==> r == c.n
    ensures c.Unreadable? ==> r == 0
  {
    match c
    case Px(n) => n
    case Unreadable => 0
  }

  /** Everything a token shows except where it stands; this is also a clipboard entry. */
  datatype Appearance = Appearance(
    icon: string,
    labelText: string,
    labelVisible: bool,
    backgroundColor: string,
    textColor: string,
    borderRadius: string,
    border: string,
    width: int,
    height: int,
    fontSize: int)

  /** A placed token; `id` stands for the identity of its div. */
  datatype Token = Token(id: nat, look: Appearance, left: Coord, top: Coord)

  /** Where `addItem` puts a new token, and where a paste puts every copy. */
  const AddOffset := 40
  const PasteOffset := 60

  const BorderStyle := "2px solid #333"
  const DefaultTextColor := "#000"

  /** `Math.floor(size / 2.5)`, which for a whole size is the largest f with 2.5 * f <= size. */
  function FontSize(size: nat): (f: nat)
    ensures 5 * f <= 2 * size < 5 * f + 5
  {
    (2 * size) / 5
  }

  /** `data.textColor || '#000'`: an absent or empty colour falls back to black. */
  function TextColorOf(info: Instrument): (c: string)
    ensures info.textColor.Some? && info.textColor.value != "" ==> c == info.textColor.value
    ensures info.textColor.None? || info.textColor.value == "" ==> c == DefaultTextColor
  {
    match info.textColor
    case Some(t) => if t != "" then t else DefaultTextColor
    case None => DefaultTextColor
  }

  /** The appearance `addItem` gives a new token of registry entry `info` at the chosen size. */
  function NewLook(info: Instrument, size: nat): (a: Appearance)
    ensures a.icon == info.icon && a.backgroundColor == info.color
    ensures a.width == a.height == size
    ensures 5 * a.fontSize <= 2 * size < 5 * a.fontSize + 5
    ensures a.labelText == " " && !a.labelVisible
    ensures a.borderRadius == "50%" <==> info.shape == Circle
    ensures a.border == BorderStyle <==> info.hasBorder
    ensures info.textColor.None? ==> a.textColor == DefaultTextColor
  {
    Appearance(
      info.icon, " ", false, info.color, TextColorOf(info),
      if info.shape == Circle then "50%" else "",
      if info.hasBorder then BorderStyle else "none",
      size, size, FontSize(size))
  }

  function IdsOf(ts: seq<Token>): (ids: seq<nat>)
    ensures |ids| == |ts|
    ensures forall i :: 0 <= i < |ts| ==> ids[i] == ts[i].id
  {
    seq(|ts|, i requires 0 <= i < |ts| => ts[i].id)
  }

  predicate UniqueIds(ts: seq<Token>) {
    forall i, j :: 0 <= i < j < |ts| ==> ts[i].id != ts[j].id
  }

  /** Every id is below `n`, so `n`, `n + 1`, ... are fresh identities. */
  predicate IdsBelow(ts: seq<Token>, n: nat) {
    forall i :: 0 <= i < |ts| ==> ts[i].id < n
  }

  predicate Distinct(s: seq<nat>) {
    forall i, j :: 0 <= i < j < |s| ==> s[i] != s[j]
  }

  /** The selection invariant: no id twice, and every selected token is on the stage. */
  predicate SelectionWithin(sel: seq<nat>, ts: seq<Token>) {
    Distinct(sel) && forall x :: x in sel ==> x in IdsOf(ts)
  }

  /** The token that `id` names; with unique ids it is the only one. */
  function Find(ts: seq<Token>, id: nat): (k: nat)
    requires id in IdsOf(ts)
    ensures k < |ts| && ts[k].id == id
    ensures forall j :: 0 <= j < k ==> ts[j].id != id
  {
    if ts[0].id == id then 0
    else
      assert id in IdsOf(ts[1..]) by {
        var m :| 0 <= m < |ts| && IdsOf(ts)[m] == id;
        assert IdsOf(ts[1..])[m - 1] == id;
      }
      1 + Find(ts[1..], id)
  }

  lemma FindUnique(ts: seq<Token>, k: nat)
    requires UniqueIds(ts) && k < |ts|
    ensures ts[k].id in IdsOf(ts) && Find(ts, ts[k].id) == k
  {
    assert IdsOf(ts)[k] == ts[k].id;
  }

  /** Tokens whose id is not in `gone`, in stage order (`el.remove()` for each of them). */
  function Without(ts: seq<Token>, gone: seq<nat>): (r: seq<Token>)
    ensures |r| <= |ts|
    ensures forall t {:trigger t in r} {:trigger t in ts} :: t in r <==> t in ts && t.id !in gone
  {
    if ts == [] then []
    else if ts[0].id in gone then Without(ts[1..], gone)
    else [ts[0]] + Without(ts[1..], gone)
  }

  /** Renames tokens to fresh consecutive ids starting at `n`, keeping everything else. */
  function Renumber(ts: seq<Token>, n: nat): (r: seq<Token>)
    ensures |r| == |ts|
    ensures forall i :: 0 <= i < |ts| ==> r[i] == ts[i].(id := n + i)
  {
    seq(|ts|, i requires 0 <= i < |ts| => ts[i].(id := n + i))
  }

  /** A token with the next fresh id keeps ids unique and fresh below the next counter value. */
  lemma AppendFresh(ts: seq<Token>, t: Token, n: nat, sel: seq<nat>)
    requires UniqueIds(ts) && IdsBelow(ts, n) && t.id == n
    ensures UniqueIds(ts + [t]) && IdsBelow(ts + [t], n + 1)
    ensures SelectionWithin(sel, ts) ==> SelectionWithin(sel, ts + [t])
  {
    assert IdsOf(ts) == IdsOf(ts + [t])[..|ts|];
  }

  /** Removing ids one at a time removes them all. */
  lemma {:induction false} WithoutStep(ts: seq<Token>, gone: seq<nat>, x: nat)
    ensures Without(Without(ts, gone), [x]) == Without(ts, gone + [x])
  {
    if ts != [] {
      WithoutStep(ts[1..], gone, x);
    }
  }

  lemma {:induction false} WithoutNothing(ts: seq<Token>)
    ensures Without(ts, []) == ts
  {
    if ts != [] {
      WithoutNothing(ts[1..]);
    }
  }

  /** What remains after a removal is a part of the stage, so its ids stay unique. */
  /** What is left after a removal still has ids below the counter. */
  lemma WithoutBelow(ts: seq<Token>, gone: seq<nat>, n: nat)
    requires IdsBelow(ts, n)
    ensures IdsBelow(Without(ts, gone), n)
  {
    var r := Without(ts, gone);
    forall i | 0 <= i < |r| ensures r[i].id < n {
      assert r[i] in r;
      var j :| 0 <= j < |ts| && ts[j] == r[i];
    }
  }

  lemma {:induction false} WithoutKeepsUnique(ts: seq<Token>, gone: seq<nat>)
    requires UniqueIds(ts)
    ensures UniqueIds(Without(ts, gone))
  {
    if ts != [] {
      var tail := ts[1..];
      assert UniqueIds(tail);
      WithoutKeepsUnique(tail, gone);
      var rest := Without(tail, gone);
      if ts[0].id !in gone {
        forall j | 0 <= j < |rest| ensures rest[j].id != ts[0].id {
          assert rest[j] in tail;
          var m :| 0 <= m < |tail| && tail[m] == rest[j];
          assert ts[m + 1] == rest[j];
        }
        var r := [ts[0]] + rest;
        forall i, j | 0 <= i < j < |r| ensures r[i].id != r[j].id {
          assert r[j] == rest[j - 1];
          if i > 0 {
            assert r[i] == rest[i - 1];
          }
        }
      }
    }
  }

  /** Removal looks only at whether each token's id is among those removed. */
  lemma {:induction false} WithoutSameMembers(ts: seq<Token>, a: seq<nat>, b: seq<nat>)
    requires forall i :: 0 <= i < |ts| ==> (ts[i].id in a <==> ts[i].id in b)
    ensures Without(ts, a) == Without(ts, b)
  {
    if ts != [] {
      WithoutSameMembers(ts[1..], a, b);
    }
  }
}
