/** The fixed palette of instruments (the INSTRUMENTS table of script.js). */
module Registry {
  import opened Wrappers

  datatype Shape = Circle | Square

  /** One registry entry; `textColor` is absent for every entry but the conductor. */
  datatype Instrument = Instrument(
    icon: string,
    color: string,
    textColor: Option<string>,
    labelText: string,
    btnLabel: string,
    shape: Shape,
    hasBorder: bool)

  /** The registry in its declaration order, which is also the order of the count summary. */
  const Instruments: seq<(string, Instrument)> := [
    ("conductor",  Instrument("指", "#333", Some("#fff"), " ", "指揮者", Square, true)),
    ("chair",      Instrument("O", "#ffadad", None, " ", "椅子", Circle, true)),
    ("cello",      Instrument("ﾋﾟｱﾉ", "#ffd6a5", None, " ", "ピアノ椅子", Circle, true)),
    ("cb",         Instrument("ﾊﾞｽ", "#fdffb6", None, " ", "バス椅子", Circle, true)),
    ("harp",       Instrument("Hp", "#caffbf", None, " ", "ハープ", Square, true)),
    ("harp_chair", Instrument("H席", "#caffbf", None, " ", "ハープ椅子", Circle, true)),
    ("percussion", Instrument("打", "#ffc6ff", None, "打楽器", "打楽器", Square, true)),
    ("stand",      Instrument("X", "#dddddd", None, " ", "譜面台", Square, false))
  ]

  predicate IsKey(key: string) {
    exists i :: 0 <= i < |Instruments| && Instruments[i].0 == key
  }

  /** Position of `key` in the registry. */
  function IndexOf(key: string): (i: nat)
    requires IsKey(key)
    ensures i < |Instruments| && Instruments[i].0 == key
  {
    IndexFrom(key, 0)
  }

  function IndexFrom(key: string, from: nat): (i: nat)
    requires from <= |Instruments|
    requires exists k :: from <= k < |Instruments| && Instruments[k].0 == key
    ensures from <= i < |Instruments| && Instruments[i].0 == key
    decreases |Instruments| - from
  {
    if Instruments[from].0 == key then from else IndexFrom(key, from + 1)
  }

  /** `INSTRUMENTS[type]` for a key of the table. */
  function Lookup(key: string): (info: Instrument)
    requires IsKey(key)
    ensures exists i :: 0 <= i < |Instruments| && Instruments[i] == (key, info)
  {
    Instruments[IndexOf(key)].1
  }

  /** No two entries share an icon, so counting by icon text counts by type. */
  lemma IconsDistinct(i: int, j: int)
    requires 0 <= i < j < |Instruments|
    ensures Instruments[i].1.icon != Instruments[j].1.icon
  {
  }

  /** No two entries share a key (an object literal cannot repeat a key). */
  lemma KeysDistinct(i: int, j: int)
    requires 0 <= i < j < |Instruments|
    ensures Instruments[i].0 != Instruments[j].0
  {
  }
}
