/** The per-type summary shown in the counter display (`updateCount`). */
module Counting {
  import opened Registry
  import opened Tokens
  import opened Numerals

  /** The counter display: the empty-stage message, or (button label, count) pairs. */
  datatype CountDisplay = Placeholder | Tally(parts: seq<(string, nat)>)

  /** How many placed tokens show `icon`. */
  function IconCount(ts: seq<Token>, icon: string): nat {
    if ts == [] then 0
    else IconCount(ts[..|ts| - 1], icon) + (if ts[|ts| - 1].look.icon == icon then 1 else 0)
  }

  /** No token counts for an icon exactly when no token shows it. */
  lemma {:induction false} IconCountZero(ts: seq<Token>, icon: string)
    ensures IconCount(ts, icon) == 0 <==> forall i :: 0 <= i < |ts| ==> ts[i].look.icon != icon
  {
    if ts != [] {
      var init := ts[..|ts| - 1];
      IconCountZero(init, icon);
      assert forall i :: 0 <= i < |init| ==> init[i] == ts[i];
    }
  }

  /** The pairs for the registry entries `reg` with a nonzero count, in registry order. */
  function Parts(reg: seq<(string, Instrument)>, ts: seq<Token>): seq<(string, nat)> {
    if reg == [] then []
    else
      var info := reg[|reg| - 1].1;
      var n := IconCount(ts, info.icon);
      Parts(reg[..|reg| - 1], ts) + (if n > 0 then [(info.btnLabel, n)] else [])
  }

  /** What `updateCount` shows for the stage `ts`. */
  function Summary(ts: seq<Token>): CountDisplay {
    var p := Parts(Instruments, ts);
    if |p| > 0 then Tally(p) else Placeholder
  }

  function Get(counts: map<string, nat>, key: string): nat {
    if key in counts then counts[key] else 0
  }

  /** `updateCount`: count tokens per icon text, then list the registry entries in order. */
  method CountItems(ts: seq<Token>) returns (d: CountDisplay)
    ensures d == Summary(ts)
  {
    var counts: map<string, nat> := map[];
    var i := 0;
    while i < |ts|
      invariant 0 <= i <= |ts|
      invariant forall icon :: Get(counts, icon) == IconCount(ts[..i], icon)
    {
      var icon := ts[i].look.icon;
      assert ts[..i + 1][..i] == ts[..i];
      counts := counts[icon := Get(counts, icon) + 1];
      i := i + 1;
    }
    assert ts[..|ts|] == ts;
    var parts: seq<(string, nat)> := [];
    var j := 0;
    while j < |Instruments|
      invariant 0 <= j <= |Instruments|
      invariant parts == Parts(Instruments[..j], ts)
    {
      var info := Instruments[j].1;
      var num := Get(counts, info.icon);
      assert Instruments[..j + 1][..j] == Instruments[..j];
      if num > 0 {
        parts := parts + [(info.btnLabel, num)];
      }
      j := j + 1;
    }
    assert Instruments[..|Instruments|] == Instruments;
    d := if |parts| > 0 then Tally(parts) else Placeholder;
  }

  /** The counter text: `【現在の楽器数】 ` and the parts `label:n個` joined by ` / `. */
  function CounterText(d: CountDisplay): (s: string)
    ensures d.Placeholder? <==> s == "舞台には何もありません"
  {
    match d
    case Placeholder => "舞台には何もありません"
    case Tally(parts) => "【現在の楽器数】 " + JoinParts(parts)
  }

  function JoinParts(parts: seq<(string, nat)>): string {
    if parts == [] then ""
    else if |parts| == 1 then PartText(parts[0])
    else PartText(parts[0]) + " / " + JoinParts(parts[1..])
  }

  function PartText(p: (string, nat)): string {
    p.0 + ":" + Decimal(p.1) + "個"
  }

  /** Counts depend on icons only: moving, recolouring or renaming tokens leaves the summary alone. */
  lemma {:induction false} SameIconsSameCount(a: seq<Token>, b: seq<Token>, icon: string)
    requires |a| == |b|
    requires forall i :: 0 <= i < |a| ==> a[i].look.icon == b[i].look.icon
    ensures IconCount(a, icon) == IconCount(b, icon)
  {
    if a != [] {
      SameIconsSameCount(a[..|a| - 1], b[..|b| - 1], icon);
    }
  }

  lemma {:induction false} SameIconsSameParts(reg: seq<(string, Instrument)>, a: seq<Token>, b: seq<Token>)
    requires |a| == |b|
    requires forall i :: 0 <= i < |a| ==> a[i].look.icon == b[i].look.icon
    ensures Parts(reg, a) == Parts(reg, b)
  {
    if reg != [] {
      SameIconsSameParts(reg[..|reg| - 1], a, b);
      SameIconsSameCount(a, b, reg[|reg| - 1].1.icon);
    }
  }

  lemma SameIconsSameSummary(a: seq<Token>, b: seq<Token>)
    requires |a| == |b|
    requires forall i :: 0 <= i < |a| ==> a[i].look.icon == b[i].look.icon
    ensures Summary(a) == Summary(b)
  {
    SameIconsSameParts(Instruments, a, b);
  }

  /**
   * The summary lists exactly the registry entries with a nonzero count, each with its count:
   * a pair is shown iff it is (button label, count) of an entry whose count is positive.
   */
  lemma {:induction false} PartsExactly(reg: seq<(string, Instrument)>, ts: seq<Token>)
    ensures forall p :: p in Parts(reg, ts) <==>
      exists k :: 0 <= k < |reg| && p == (reg[k].1.btnLabel, IconCount(ts, reg[k].1.icon)) && p.1 > 0
  {
    if reg != [] {
      var init := reg[..|reg| - 1];
      PartsExactly(init, ts);
      forall p
        ensures p in Parts(reg, ts) <==>
          exists k :: 0 <= k < |reg| && p == (reg[k].1.btnLabel, IconCount(ts, reg[k].1.icon)) && p.1 > 0
      {
        if p in Parts(init, ts) {
          var k :| 0 <= k < |init| && p == (init[k].1.btnLabel, IconCount(ts, init[k].1.icon)) && p.1 > 0;
          assert reg[k] == init[k];
        }
        if exists k :: 0 <= k < |reg| && p == (reg[k].1.btnLabel, IconCount(ts, reg[k].1.icon)) && p.1 > 0 {
          var k :| 0 <= k < |reg| && p == (reg[k].1.btnLabel, IconCount(ts, reg[k].1.icon)) && p.1 > 0;
          if k < |init| {
            assert init[k] == reg[k];
          }
        }
      }
    }
  }

  /** The registry positions of the entries `Parts` lists. */
  function PartIndices(reg: seq<(string, Instrument)>, ts: seq<Token>): seq<nat> {
    if reg == [] then []
    else
      PartIndices(reg[..|reg| - 1], ts) +
      (if IconCount(ts, reg[|reg| - 1].1.icon) > 0 then [|reg| - 1] else [])
  }

  /**
   * The summary follows registry order: the a-th pair belongs to registry entry idx[a], the
   * positions idx strictly increase, and they are exactly the entries with a positive count.
   */
  lemma {:induction false} PartsInRegistryOrder(reg: seq<(string, Instrument)>, ts: seq<Token>)
    ensures var idx := PartIndices(reg, ts);
      |idx| == |Parts(reg, ts)| &&
      (forall a :: 0 <= a < |idx| ==>
        idx[a] < |reg| &&
        Parts(reg, ts)[a] == (reg[idx[a]].1.btnLabel, IconCount(ts, reg[idx[a]].1.icon))) &&
      (forall a, b :: 0 <= a < b < |idx| ==> idx[a] < idx[b]) &&
      (forall k :: 0 <= k < |reg| ==> (k in idx <==> IconCount(ts, reg[k].1.icon) > 0))
  {
    PartsAligned(reg, ts);
    PartIndicesExact(reg, ts);
  }

  /** The a-th pair of `Parts` is the label and count of registry entry idx[a]. */
  lemma {:induction false} PartsAligned(reg: seq<(string, Instrument)>, ts: seq<Token>)
    ensures var idx := PartIndices(reg, ts);
      |idx| == |Parts(reg, ts)| &&
      forall a :: 0 <= a < |idx| ==>
        idx[a] < |reg| &&
        Parts(reg, ts)[a] == (reg[idx[a]].1.btnLabel, IconCount(ts, reg[idx[a]].1.icon))
  {
    if reg != [] {
      var init := reg[..|reg| - 1];
      PartsAligned(init, ts);
      var idx0 := PartIndices(init, ts);
      assert forall a :: 0 <= a < |idx0| ==> reg[idx0[a]] == init[idx0[a]];
    }
  }

  /** The positions strictly increase and are exactly the entries with a positive count. */
  lemma {:induction false} PartIndicesExact(reg: seq<(string, Instrument)>, ts: seq<Token>)
    ensures var idx := PartIndices(reg, ts);
      (forall a :: 0 <= a < |idx| ==> idx[a] < |reg|) &&
      (forall a, b :: 0 <= a < b < |idx| ==> idx[a] < idx[b]) &&
      (forall k :: 0 <= k < |reg| ==> (k in idx <==> IconCount(ts, reg[k].1.icon) > 0))
  {
    if reg != [] {
      var init := reg[..|reg| - 1];
      PartIndicesExact(init, ts);
      assert forall k :: 0 <= k < |init| ==> reg[k] == init[k];
    }
  }

  /** The placeholder is shown iff no registry entry has a token on the stage. */
  lemma {:induction false} PartsEmpty(reg: seq<(string, Instrument)>, ts: seq<Token>)
    ensures Parts(reg, ts) == [] <==> forall k :: 0 <= k < |reg| ==> IconCount(ts, reg[k].1.icon) == 0
  {
    if reg != [] {
      var init := reg[..|reg| - 1];
      PartsEmpty(init, ts);
      assert forall k :: 0 <= k < |init| ==> init[k] == reg[k];
    }
  }

  lemma PlaceholderIffEmpty(ts: seq<Token>)
    ensures Summary(ts) == Placeholder <==> forall k :: 0 <= k < |Instruments| ==> IconCount(ts, Instruments[k].1.icon) == 0
  {
    PartsEmpty(Instruments, ts);
  }

  /** Adding a token raises the count of its icon by one and no other count. */
  lemma AddOneCount(ts: seq<Token>, t: Token, icon: string)
    ensures IconCount(ts + [t], icon) == IconCount(ts, icon) + (if t.look.icon == icon then 1 else 0)
  {
    assert (ts + [t])[..|ts|] == ts;
  }

  /**
   * Because registry icons are distinct, adding a token of entry `m` raises the count shown for
   * entry `m` by one and leaves the count of every other entry as it was.
   */
  lemma AddRaisesOnlyItsType(ts: seq<Token>, t: Token, m: nat, k: nat)
    requires m < |Instruments| && k < |Instruments|
    requires t.look.icon == Instruments[m].1.icon
    ensures IconCount(ts + [t], Instruments[k].1.icon)
         == IconCount(ts, Instruments[k].1.icon) + (if k == m then 1 else 0)
  {
    AddOneCount(ts, t, Instruments[k].1.icon);
    if k < m {
      IconsDistinct(k, m);
    } else if m < k {
      IconsDistinct(m, k);
    }
  }
}
