/**
 * The token editor of script.js as one object: the placed tokens (the stage), the selection
 * (`selectedElements`), the clipboard, the hall choice, the counter display and the storage slot.
 */
module StageEditor {
  import opened Wrappers
  import opened Registry
  import opened Tokens
  import opened Selection
  import opened Drag
  import opened Counting
  import opened Clipboard
  import opened Persistence

  /** The characters `String.prototype.trim` strips: white space and line terminators. */
  predicate IsTrimmable(c: char) {
    c == '\t' || c == '\n' || c == '\U{000B}' || c == '\U{000C}' || c == '\r' || c == ' ' ||
    c == '\U{00A0}' || c == '\U{1680}' || ('\U{2000}' <= c <= '\U{200A}') ||
    c == '\U{2028}' || c == '\U{2029}' || c == '\U{202F}' || c == '\U{205F}' ||
    c == '\U{3000}' || c == '\U{FEFF}'
  }

  /** `s.trim() === ""`. */
  predicate IsBlank(s: string) {
    forall i :: 0 <= i < |s| ==> IsTrimmable(s[i])
  }

  /** The label after the rename prompt: a cancelled prompt keeps it, an answer replaces it. */
  function Renamed(a: Appearance, answer: Option<string>): (r: Appearance)
    ensures answer.None? ==> r == a
    ensures answer.Some? ==> r.labelText == answer.value && (r.labelVisible <==> !IsBlank(answer.value))
    ensures r.(labelText := a.labelText, labelVisible := a.labelVisible) == a
  {
    match answer
    case None => a
    case Some(name) => a.(labelText := name, labelVisible := !IsBlank(name))
  }

  /** The stage after `changeColor`: the selected tokens take the new background colour. */
  function Recolored(ts: seq<Token>, sel: seq<nat>, color: string): (r: seq<Token>)
    ensures |r| == |ts|
    ensures forall i :: 0 <= i < |ts| ==>
      r[i].id == ts[i].id && r[i].left == ts[i].left && r[i].top == ts[i].top &&
      r[i].look.(backgroundColor := ts[i].look.backgroundColor) == ts[i].look &&
      r[i].look.backgroundColor == (if ts[i].id in sel then color else ts[i].look.backgroundColor)
  {
    seq(|ts|, i requires 0 <= i < |ts| =>
      if ts[i].id in sel then ts[i].(look := ts[i].look.(backgroundColor := color)) else ts[i])
  }

  /** `selectedElements.forEach(el => el.remove())`: take each listed token off the stage. */
  method RemoveEach(ts: seq<Token>, sel: seq<nat>) returns (r: seq<Token>)
    ensures r == Without(ts, sel)
  {
    WithoutNothing(ts);
    r := ts;
    var i := 0;
    while i < |sel|
      invariant 0 <= i <= |sel|
      invariant r == Without(ts, sel[..i])
    {
      WithoutStep(ts, sel[..i], sel[i]);
      assert sel[..i + 1] == sel[..i] + [sel[i]];
      r := Without(r, [sel[i]]);
      i := i + 1;
    }
    assert sel[..|sel|] == sel;
  }

  /** `selectedElements.filter(el => el !== div)`, element by element. */
  method Filter(sel: seq<nat>, id: nat) returns (kept: seq<nat>)
    ensures kept == Remove(sel, id)
  {
    kept := [];
    var i := 0;
    while i < |sel|
      invariant 0 <= i <= |sel|
      invariant kept == Remove(sel[..i], id)
    {
      RemoveSnoc(sel[..i], sel[i], id);
      assert sel[..i + 1] == sel[..i] + [sel[i]];
      if sel[i] != id {
        kept := kept + [sel[i]];
      }
      i := i + 1;
    }
    assert sel[..|sel|] == sel;
  }

  /** After deleting a selection the stage keeps unique, fresh ids and has that many fewer tokens. */
  lemma DeleteKeepsStage(ts: seq<Token>, sel: seq<nat>, n: nat)
    requires UniqueIds(ts) && IdsBelow(ts, n) && SelectionWithin(sel, ts)
    ensures UniqueIds(Without(ts, sel)) && IdsBelow(Without(ts, sel), n)
    ensures |Without(ts, sel)| == |ts| - |sel|
  {
    DeleteCount(ts, sel);
    WithoutKeepsUnique(ts, sel);
    WithoutBelow(ts, sel, n);
  }

  /** Adding a token of entry `key` raises that entry's count by one and no other entry's. */
  lemma AddedCounts(ts: seq<Token>, t: Token, key: string)
    requires IsKey(key) && t.look.icon == Lookup(key).icon
    ensures forall k :: 0 <= k < |Instruments| ==>
      IconCount(ts + [t], Instruments[k].1.icon)
        == IconCount(ts, Instruments[k].1.icon) + (if Instruments[k].0 == key then 1 else 0)
  {
    var m := IndexOf(key);
    forall k | 0 <= k < |Instruments|
      ensures IconCount(ts + [t], Instruments[k].1.icon)
        == IconCount(ts, Instruments[k].1.icon) + (if Instruments[k].0 == key then 1 else 0)
    {
      AddRaisesOnlyItsType(ts, t, m, k);
      if k < m {
        KeysDistinct(k, m);
      } else if m < k {
        KeysDistinct(m, k);
      }
    }
  }

  /**
   * The `clipboard.forEach` of Ctrl+V: one new token per entry, with fresh ids from `first`,
   * each pushed onto the selection as it is made.
   */
  method StampEach(clip: seq<Appearance>, first: nat) returns (added: seq<Token>, sel: seq<nat>)
    ensures added == Stamp(clip, first) && sel == Range(first, |clip|)
  {
    added, sel := [], [];
    var n := first;
    var i := 0;
    while i < |clip|
      invariant 0 <= i <= |clip|
      invariant n == first + i
      invariant added == Stamp(clip, first)[..i]
      invariant sel == Range(first, i)
    {
      added := added + [Token(n, clip[i], Px(PasteOffset), Px(PasteOffset))];
      sel := sel + [n];
      n := n + 1;
      i := i + 1;
    }
  }

  class Editor {
    var tokens: seq<Token>
    var selection: seq<nat>
    var clipboard: seq<Appearance>
    /** The next fresh identity: every div ever created has a smaller one. */
    var nextId: nat
    /** The value of the hall selector. */
    var hall: string
    var counter: CountDisplay
    /** The storage slot `stageLayout_quick`. */
    var stored: Option<LayoutDocument>

    /** Ids are unique and fresh below `nextId`, the selection names tokens on the stage, the counter is current. */
    ghost predicate Valid()
      reads this
    {
      UniqueIds(tokens) && IdsBelow(tokens, nextId) && SelectionWithin(selection, tokens) &&
      counter == Summary(tokens)
    }

    /** An empty stage with the page's initial hall choice and whatever storage already holds. */
    constructor (hall: string, stored: Option<LayoutDocument>)
      ensures Valid()
      ensures tokens == [] && selection == [] && clipboard == [] && counter == Placeholder
      ensures this.hall == hall && this.stored == stored
    {
      tokens, selection, clipboard, nextId := [], [], [], 0;
      this.hall, this.stored := hall, stored;
      PlaceholderIffEmpty([]);
      counter := Placeholder;
    }

    /** `updateCount`: recompute the counter display from the stage. */
    method UpdateCount()
      modifies this`counter
      ensures counter == Summary(tokens)
    {
      counter := CountItems(tokens);
    }

    /** `clearSelection`, also the stage's own click handler. */
    method ClearSelection()
      requires Valid()
      modifies this`selection
      ensures Valid() && selection == []
    {
      selection := [];
    }

    /** `addItem(type)`: one new token of that registry entry at (40px, 40px), label hidden. */
    method AddItem(key: string, size: nat)
      requires Valid() && IsKey(key)
      modifies this
      ensures Valid()
      ensures tokens == old(tokens) + [Token(old(nextId), NewLook(Lookup(key), size), Px(AddOffset), Px(AddOffset))]
      ensures forall k :: 0 <= k < |Instruments| ==>
        IconCount(tokens, Instruments[k].1.icon)
          == IconCount(old(tokens), Instruments[k].1.icon) + (if Instruments[k].0 == key then 1 else 0)
      ensures selection == old(selection) && clipboard == old(clipboard)
      ensures hall == old(hall) && stored == old(stored) && nextId == old(nextId) + 1
    {
      var t := Token(nextId, NewLook(Lookup(key), size), Px(AddOffset), Px(AddOffset));
      AppendFresh(tokens, t, nextId, selection);
      AddedCounts(tokens, t, key);
      tokens := tokens + [t];
      nextId := nextId + 1;
      UpdateCount();
    }

    /** A click on token `id`: shift toggles it, otherwise it becomes the whole selection. */
    method OnClick(id: nat, shift: bool)
      requires Valid() && id in IdsOf(tokens)
      modifies this`selection
      ensures Valid()
      ensures selection == Click(old(selection), id, shift)
    {
      if shift {
        if id in selection {
          selection := Filter(selection, id);
        } else {
          selection := selection + [id];
        }
      } else {
        ClearSelection();
        selection := [id];
      }
    }

    /** The double-click rename prompt; `answer` is None when the prompt is cancelled. */
    method OnDoubleClick(id: nat, answer: Option<string>)
      requires Valid() && id in IdsOf(tokens)
      modifies this`tokens
      ensures Valid()
      ensures var k := Find(old(tokens), id);
        tokens == old(tokens)[k := old(tokens)[k].(look := Renamed(old(tokens)[k].look, answer))]
    {
      var k := Find(tokens, id);
      var t := tokens[k];
      tokens := tokens[k := t.(look := Renamed(t.look, answer))];
      assert IdsOf(tokens) == IdsOf(old(tokens));
      SameIconsSameSummary(old(tokens), tokens);
    }

    /**
     * Pointer-down on token `id`. A mouse button other than the main one is ignored (None).
     * Otherwise an unselected token collapses the selection to itself, and the drag session
     * records where every selected token starts.
     */
    method OnPointerDown(id: nat, button: int, isMouse: bool) returns (session: Option<seq<DragStart>>)
      requires Valid() && id in IdsOf(tokens)
      modifies this`selection
      ensures Valid()
      ensures button != 0 && isMouse ==> session == None && selection == old(selection)
      ensures !(button != 0 && isMouse) ==>
        selection == Collapse(old(selection), id) && session == Some(Starts(tokens, selection))
    {
      if button != 0 && isMouse {
        session := None;
        return;
      }
      if id !in selection {
        ClearSelection();
        selection := [id];
      }
      var sel, ts := selection, tokens;
      var starts: seq<DragStart> := [];
      var i := 0;
      while i < |sel|
        invariant 0 <= i <= |sel|
        invariant starts == Starts(ts, sel)[..i]
      {
        var t := ts[Find(ts, sel[i])];
        starts := starts + [DragStart(sel[i], StartOf(t.left), StartOf(t.top))];
        i := i + 1;
      }
      assert starts == Starts(ts, sel);
      session := Some(starts);
    }

    /** Pointer-move by (dx, dy) from where the pointer went down: each recorded token goes to its target. */
    method OnPointerMove(session: seq<DragStart>, dx: int, dy: int, snap: bool)
      requires Valid()
      modifies this`tokens
      ensures Valid()
      ensures tokens == MoveAll(old(tokens), session, dx, dy, snap)
    {
      var start := tokens;
      var ts := start;
      var i := 0;
      assert MoveAll(start, session[..0], dx, dy, snap) == start;
      while i < |session|
        invariant 0 <= i <= |session|
        invariant ts == MoveAll(start, session[..i], dx, dy, snap)
      {
        MoveAllStep(start, session[..i], session[i], dx, dy, snap);
        assert session[..i + 1] == session[..i] + [session[i]];
        ts := Place(ts, session[i], dx, dy, snap);
        i := i + 1;
      }
      assert session[..|session|] == session;
      tokens := ts;
      assert IdsOf(tokens) == IdsOf(old(tokens));
      SameIconsSameSummary(old(tokens), tokens);
    }

    /** Pointer-up: release the pointer and refresh the counter. */
    method OnPointerUp()
      requires Valid()
      modifies this`counter
      ensures Valid() && counter == old(counter)
    {
      UpdateCount();
    }

    /** `deleteSelected`: with a nonempty, confirmed selection, remove every selected token. */
    method DeleteSelected(confirmed: bool)
      requires Valid()
      modifies this`tokens, this`selection, this`counter
      ensures Valid()
      ensures old(selection) != [] && confirmed ==>
        tokens == Without(old(tokens), old(selection)) && selection == [] &&
        |tokens| == |old(tokens)| - |old(selection)|
      ensures !(old(selection) != [] && confirmed) ==> tokens == old(tokens) && selection == old(selection)
      ensures clipboard == old(clipboard) && hall == old(hall) && stored == old(stored) && nextId == old(nextId)
    {
      if |selection| > 0 && confirmed {
        var ts := RemoveEach(tokens, selection);
        DeleteKeepsStage(tokens, selection, nextId);
        tokens := ts;
        selection := [];
        UpdateCount();
      }
    }

    /** `clearAll`: when confirmed, empty the stage and the selection. */
    method ClearAll(confirmed: bool)
      requires Valid()
      modifies this
      ensures Valid()
      ensures confirmed ==> tokens == [] && selection == [] && counter == Placeholder
      ensures !confirmed ==> tokens == old(tokens) && selection == old(selection)
      ensures clipboard == old(clipboard) && hall == old(hall) && stored == old(stored) && nextId == old(nextId)
    {
      if confirmed {
        tokens := [];
        selection := [];
        UpdateCount();
        PlaceholderIffEmpty([]);
      }
    }

    /** `changeColor`: every selected token takes the picked background colour. */
    method ChangeColor(color: string)
      requires Valid()
      modifies this`tokens
      ensures Valid()
      ensures tokens == Recolored(old(tokens), selection, color)
    {
      var start, sel := tokens, selection;
      var ts := start;
      var i := 0;
      assert Recolored(start, sel[..0], color) == start;
      while i < |sel|
        invariant 0 <= i <= |sel|
        invariant ts == Recolored(start, sel[..i], color)
      {
        assert sel[..i + 1] == sel[..i] + [sel[i]];
        assert Recolored(ts, [sel[i]], color) == Recolored(start, sel[..i + 1], color);
        ts := Recolored(ts, [sel[i]], color);
        i := i + 1;
      }
      assert sel[..|sel|] == sel;
      tokens := ts;
      assert IdsOf(tokens) == IdsOf(old(tokens));
      SameIconsSameSummary(old(tokens), tokens);
    }

    /** Ctrl+C: with a nonempty selection, the clipboard becomes the selected tokens' appearances. */
    method Copy()
      requires Valid()
      modifies this`clipboard
      ensures Valid()
      ensures selection != [] ==> clipboard == Snapshot(tokens, selection)
      ensures selection == [] ==> clipboard == old(clipboard)
    {
      if |selection| > 0 {
        var ts, sel := tokens, selection;
        var clip: seq<Appearance> := [];
        var i := 0;
        while i < |sel|
          invariant 0 <= i <= |sel|
          invariant clip == Snapshot(ts, sel)[..i]
        {
          clip := clip + [LookOf(ts, sel[i])];
          i := i + 1;
        }
        clipboard := clip;
      }
    }

    /**
     * Ctrl+V: with a nonempty clipboard, one new token per entry at (60px, 60px), and the
     * selection becomes exactly the new tokens; the clipboard itself is left as it was.
     */
    method Paste()
      requires Valid()
      modifies this
      ensures Valid()
      ensures old(clipboard) != [] ==>
        tokens == old(tokens) + Stamp(old(clipboard), old(nextId)) &&
        selection == Range(old(nextId), |old(clipboard)|) &&
        nextId == old(nextId) + |old(clipboard)|
      ensures old(clipboard) == [] ==> tokens == old(tokens) && selection == old(selection) && nextId == old(nextId)
      ensures clipboard == old(clipboard) && hall == old(hall) && stored == old(stored)
    {
      if |clipboard| > 0 {
        ClearSelection();
        var clip, first := clipboard, nextId;
        var added, sel := StampEach(clip, first);
        PastedIds(tokens, clip, first);
        tokens, selection, nextId := tokens + added, sel, first + |clip|;
        UpdateCount();
      }
    }

    /** The keydown handler: Ctrl+c copies, Ctrl+v pastes, anything else does nothing. */
    method KeyDown(ctrlKey: bool, key: string)
      requires Valid()
      modifies this
      ensures Valid()
      ensures !ctrlKey || (key != "c" && key != "v") ==>
        tokens == old(tokens) && selection == old(selection) && clipboard == old(clipboard) &&
        nextId == old(nextId)
      ensures ctrlKey && key == "c" ==>
        tokens == old(tokens) && selection == old(selection) && nextId == old(nextId) &&
        clipboard == (if old(selection) != [] then Snapshot(tokens, selection) else old(clipboard))
      ensures ctrlKey && key == "v" && old(clipboard) != [] ==>
        tokens == old(tokens) + Stamp(old(clipboard), old(nextId)) &&
        selection == Range(old(nextId), |old(clipboard)|) && clipboard == old(clipboard) &&
        nextId == old(nextId) + |old(clipboard)|
      ensures ctrlKey && key == "v" && old(clipboard) == [] ==>
        tokens == old(tokens) && selection == old(selection) && clipboard == old(clipboard) &&
        nextId == old(nextId)
      ensures hall == old(hall) && stored == old(stored)
    {
      if ctrlKey && key == "c" {
        Copy();
      }
      if ctrlKey && key == "v" {
        Paste();
      }
    }

    /** `saveLayout` as intended: store the hall choice and a record of every token, in order. */
    method SaveLayout()
      requires Valid()
      modifies this`stored
      ensures Valid()
      ensures stored == Some(Save(hall, tokens))
    {
      var ts := tokens;
      var items: seq<ItemRecord> := [];
      var i := 0;
      while i < |ts|
        invariant 0 <= i <= |ts|
        invariant items == Save(hall, ts).items[..i]
      {
        items := items + [Record(ts[i])];
        i := i + 1;
      }
      assert items == Save(hall, ts).items;
      stored := Some(LayoutDocument(hall, items));
    }

    /**
     * `saveLayout` exactly as written: it reads `div.style.left` before any `div` is in scope, so
     * it throws before `localStorage.setItem` and nothing changes. On a stage with tokens the slot
     * therefore does not hold what `SaveLayout` stores, unless it already held it.
     */
    method SaveLayoutAsWritten() returns (thrown: string)
      requires Valid()
      ensures thrown == SaveError
      ensures unchanged(this)
      ensures old(stored) != Some(Save(hall, tokens)) ==> stored != Some(Save(hall, tokens))
      ensures old(stored).None? && tokens != [] ==> stored.None? && |Save(hall, tokens).items| == |tokens| > 0
    {
      thrown := SaveError;
    }

    /**
     * `loadLayout`: with nothing stored, nothing happens. Otherwise the hall is restored when the
     * document names one, the stage is emptied and refilled from the items, and (unlike the
     * code as written) the selection is cleared with it.
     */
    method LoadLayout()
      requires Valid()
      modifies this
      ensures Valid()
      ensures old(stored).None? ==>
        tokens == old(tokens) && selection == old(selection) && hall == old(hall) && nextId == old(nextId)
      ensures old(stored).Some? ==>
        tokens == Restore(old(stored).value.items, old(nextId)) && selection == [] &&
        hall == LoadedHall(old(hall), old(stored).value) &&
        nextId == old(nextId) + |old(stored).value.items|
      ensures clipboard == old(clipboard) && stored == old(stored)
    {
      if stored.None? {
        return;
      }
      var doc := stored.value;
      if doc.hall != "" {
        hall := doc.hall;
      }
      tokens := [];
      selection := [];
      ReviveAll(doc.items);
      UpdateCount();
    }

    /** `loadLayout` exactly as written: the selection is kept, naming tokens no longer on the stage. */
    method LoadLayoutAsWritten()
      requires Valid()
      modifies this
      ensures UniqueIds(tokens) && IdsBelow(tokens, nextId) && counter == Summary(tokens)
      ensures selection == old(selection) && clipboard == old(clipboard) && stored == old(stored)
      ensures old(stored).None? ==> tokens == old(tokens) && hall == old(hall) && nextId == old(nextId)
      ensures old(stored).Some? ==>
        tokens == Restore(old(stored).value.items, old(nextId)) &&
        hall == LoadedHall(old(hall), old(stored).value) &&
        nextId == old(nextId) + |old(stored).value.items|
      ensures old(stored).Some? && old(selection) != [] ==> !SelectionWithin(selection, tokens)
    {
      if stored.None? {
        return;
      }
      var doc := stored.value;
      if doc.hall != "" {
        hall := doc.hall;
      }
      tokens := [];
      ReviveAll(doc.items);
      UpdateCount();
      if selection != [] {
        StaleSelectionAfterLoad(old(tokens), selection, doc.items, old(nextId));
      }
    }

    /** The `items.forEach` of `loadLayout`: append one rebuilt token per record. */
    method ReviveAll(items: seq<ItemRecord>)
      requires tokens == []
      modifies this`tokens, this`nextId
      ensures tokens == Restore(items, old(nextId)) && nextId == old(nextId) + |items|
      ensures UniqueIds(tokens) && IdsBelow(tokens, nextId)
    {
      var first := nextId;
      var ts: seq<Token> := [];
      var n := first;
      var i := 0;
      while i < |items|
        invariant 0 <= i <= |items|
        invariant n == first + i
        invariant ts == Restore(items, first)[..i]
      {
        ts := ts + [Revive(items[i], n)];
        n := n + 1;
        i := i + 1;
      }
      assert ts == Restore(items, first);
      assert forall k :: 0 <= k < |ts| ==> ts[k].id == IdsOf(ts)[k] == first + k;
      tokens, nextId := ts, n;
    }
  }
}
