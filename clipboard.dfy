/** Copy and paste (the Ctrl+C / Ctrl+V keydown handler). */
module Clipboard {
  import opened Tokens

  /** The appearance of the token `id` names. */
  function LookOf(ts: seq<Token>, id: nat): Appearance
    requires id in IdsOf(ts)
  {
    ts[Find(ts, id)].look
  }

  /** What Ctrl+C stores: the selected tokens' appearances in selection order, without positions. */
  function Snapshot(ts: seq<Token>, sel: seq<nat>): (clip: seq<Appearance>)
    requires forall x :: x in sel ==> x in IdsOf(ts)
    ensures |clip| == |sel|
    ensures forall k :: 0 <= k < |sel| ==> exists i :: 0 <= i < |ts| && ts[i].id == sel[k] && clip[k] == ts[i].look
  {
    var clip := seq(|sel|, k requires 0 <= k < |sel| => LookOf(ts, sel[k]));
    assert forall k :: 0 <= k < |sel| ==>
      var i := Find(ts, sel[k]); i < |ts| && ts[i].id == sel[k] && clip[k] == ts[i].look;
    clip
  }

  /** The tokens one paste creates: one per entry, fresh ids from `n`, all at the paste offset. */
  function Stamp(clip: seq<Appearance>, n: nat): (r: seq<Token>)
    ensures |r| == |clip|
    ensures forall k :: 0 <= k < |r| ==>
      r[k].look == clip[k] && r[k].id == n + k && r[k].left == Px(PasteOffset) && r[k].top == Px(PasteOffset)
  {
    seq(|clip|, k requires 0 <= k < |clip| => Token(n + k, clip[k], Px(PasteOffset), Px(PasteOffset)))
  }

  /** The ids `n`, `n + 1`, ..., `n + len - 1`. */
  function Range(n: nat, len: nat): (r: seq<nat>)
    ensures |r| == len
    ensures forall k :: 0 <= k < len ==> r[k] == n + k
  {
    seq(len, k requires 0 <= k < len => n + k)
  }

  /**
   * Pasting what was copied: the k-th new token carries exactly the appearance (style, icon and
   * label) of the k-th selected token, stands at (60px, 60px) and has a fresh id.
   */
  lemma CopyThenPaste(ts: seq<Token>, sel: seq<nat>, n: nat)
    requires UniqueIds(ts) && IdsBelow(ts, n) && SelectionWithin(sel, ts)
    ensures |Stamp(Snapshot(ts, sel), n)| == |sel|
    ensures forall k :: 0 <= k < |sel| ==>
      var t := Stamp(Snapshot(ts, sel), n)[k];
      t.id == n + k && t.id !in IdsOf(ts) && t.left == Px(PasteOffset) && t.top == Px(PasteOffset)
    ensures forall k, i :: 0 <= k < |sel| && 0 <= i < |ts| && ts[i].id == sel[k] ==>
      Stamp(Snapshot(ts, sel), n)[k].look == ts[i].look
  {
    forall k, i | 0 <= k < |sel| && 0 <= i < |ts| && ts[i].id == sel[k]
      ensures Stamp(Snapshot(ts, sel), n)[k].look == ts[i].look
    {
      FindUnique(ts, i);
    }
  }

  /**
   * The pasted tokens are what the selection becomes: their ids are the fresh range from `n`,
   * pairwise distinct and unused on the stage, so the stage keeps unique ids.
   */
  lemma PastedIds(ts: seq<Token>, clip: seq<Appearance>, n: nat)
    requires UniqueIds(ts) && IdsBelow(ts, n)
    ensures IdsOf(Stamp(clip, n)) == Range(n, |clip|)
    ensures Distinct(Range(n, |clip|))
    ensures UniqueIds(ts + Stamp(clip, n)) && IdsBelow(ts + Stamp(clip, n), n + |clip|)
    ensures SelectionWithin(Range(n, |clip|), ts + Stamp(clip, n))
  {
    var all := ts + Stamp(clip, n);
    forall x | x in Range(n, |clip|) ensures x in IdsOf(all) {
      var k :| 0 <= k < |clip| && Range(n, |clip|)[k] == x;
      assert IdsOf(all)[|ts| + k] == x;
    }
  }
}
