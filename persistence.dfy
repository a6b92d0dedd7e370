/** Saving and loading the layout (`saveLayout` / `loadLayout`), JSON and storage left aside. */
module Persistence {
  import opened Wrappers
  import opened Tokens

  /** The storage slot the layout document is written to. */
  const StorageKey := "stageLayout_quick"

  /** What `saveLayout` as written throws: line 187 names a `div` that is not in scope. */
  const SaveError := "ReferenceError: div is not defined"

  /** One element of the document's `items` array. */
  datatype ItemRecord = ItemRecord(
    icon: string,
    labelText: string,
    isLabelVisible: bool,
    left: Coord,
    top: Coord,
    backgroundColor: string,
    textColor: string,
    borderRadius: string,
    border: string,
    width: int,
    height: int,
    fontSize: int)

  /** The persisted unit: the hall choice and the items in stage order. */
  datatype LayoutDocument = LayoutDocument(hall: string, items: seq<ItemRecord>)

  /** The record `saveLayout` writes for one token. */
  function Record(t: Token): (r: ItemRecord)
    ensures Revive(r, t.id) == t
  {
    var a := t.look;
    ItemRecord(a.icon, a.labelText, a.labelVisible, t.left, t.top, a.backgroundColor,
      a.textColor, a.borderRadius, a.border, a.width, a.height, a.fontSize)
  }

  /** The token `loadLayout` rebuilds from one record, under the fresh identity `id`. */
  function Revive(r: ItemRecord, id: nat): (t: Token)
    ensures t.id == id && t.left == r.left && t.top == r.top
  {
    Token(id,
      Appearance(r.icon, r.labelText, r.isLabelVisible, r.backgroundColor, r.textColor,
        r.borderRadius, r.border, r.width, r.height, r.fontSize),
      r.left, r.top)
  }

  /** The document `saveLayout` means to store. */
  function Save(hall: string, ts: seq<Token>): (doc: LayoutDocument)
    ensures doc.hall == hall && |doc.items| == |ts|
  {
    LayoutDocument(hall, seq(|ts|, i requires 0 <= i < |ts| => Record(ts[i])))
  }

  /** The tokens `loadLayout` puts on the emptied stage, with ids `n`, `n + 1`, ... */
  function Restore(items: seq<ItemRecord>, n: nat): (ts: seq<Token>)
    ensures |ts| == |items|
    ensures IdsOf(ts) == seq(|items|, i requires 0 <= i < |items| => n + i)
  {
    seq(|items|, i requires 0 <= i < |items| => Revive(items[i], n + i))
  }

  /** `if (parsed.hall)`: an empty hall string leaves the current choice alone. */
  function LoadedHall(current: string, doc: LayoutDocument): (h: string)
    ensures doc.hall != "" ==> h == doc.hall
    ensures doc.hall == "" ==> h == current
  {
    if doc.hall != "" then doc.hall else current
  }

  /** A record is exactly what it revives to, field for field. */
  lemma RecordRevive(r: ItemRecord, id: nat)
    ensures Record(Revive(r, id)) == r
  {
  }

  /**
   * Loading what was saved rebuilds the same tokens in the same order, attribute for attribute;
   * only their identities are new. A nonempty hall comes back too.
   */
  lemma LoadAfterSave(hall: string, current: string, ts: seq<Token>, n: nat)
    ensures Restore(Save(hall, ts).items, n) == Renumber(ts, n)
    ensures hall != "" ==> LoadedHall(current, Save(hall, ts)) == hall
  {
    var r := Restore(Save(hall, ts).items, n);
    forall i | 0 <= i < |ts| ensures r[i] == Renumber(ts, n)[i] {
      assert r[i] == Revive(Record(ts[i]), n + i);
    }
  }

  /** Saving what was loaded writes the same items back: no field is lost in either direction. */
  lemma SaveAfterLoad(hall: string, doc: LayoutDocument, n: nat)
    ensures Save(hall, Restore(doc.items, n)).items == doc.items
  {
    var items := Save(hall, Restore(doc.items, n)).items;
    forall i | 0 <= i < |doc.items| ensures items[i] == doc.items[i] {
      RecordRevive(doc.items[i], n + i);
    }
  }

  /**
   * `loadLayout` as written keeps `selectedElements`. The old selection names only tokens that
   * existed before the load, and every restored token has a newer id, so a nonempty selection
   * no longer names a single token on the stage.
   */
  lemma StaleSelectionAfterLoad(ts: seq<Token>, sel: seq<nat>, items: seq<ItemRecord>, n: nat)
    requires IdsBelow(ts, n) && SelectionWithin(sel, ts) && sel != []
    ensures forall x :: x in sel ==> x !in IdsOf(Restore(items, n))
    ensures !SelectionWithin(sel, Restore(items, n))
  {
    forall x | x in sel ensures x < n {
      var m :| 0 <= m < |ts| && IdsOf(ts)[m] == x;
    }
    assert sel[0] in sel;
  }
}
