# Orchestra stage layout editor — a Dafny model of its token editor

The editor places labelled, coloured tokens (conductor, chairs, harp, percussion, music stands…)
on a stage. Users can select them singly or with shift-click, drag them with optional snapping
to a 5-pixel grid, rename and recolour them, delete them or clear the stage, copy and paste them,
and save and load the layout. A counter line shows how many tokens of each type are on the stage.

This project models that editor state machine from `script.js` without the DOM:

- `Registry`: the fixed instrument table, in declaration order.
- `Tokens`: placed tokens. Each is a record with an id that stands for the identity of its div,
  an `Appearance` (icon, label and its visibility, colours, border, corner radius, width, height,
  font size) and a `left`/`top` coordinate. A coordinate is a pixel value or a string that
  `parseInt` cannot read. The module also gives the `addItem` defaults.
- `Selection`: the selection as an ordered list of ids. It covers click, shift-click toggle and
  the collapse on pointer-down.
- `Drag`: the drag session recorded at pointer-down, the pointer-move update and grid snapping.
  `Math.round(n / 5) * 5` becomes `((n + 2) / 5) * 5` on whole numbers.
- `Counting`: `updateCount`, as a loop over the stage and then over the registry.
- `Clipboard`: Ctrl+C snapshots and the tokens Ctrl+V stamps out.
- `Persistence`: the `LayoutDocument` (hall plus item records), save, load and their round trip.
- `Numerals`, `Colors`: `rgbToHex`, with decimal and hexadecimal numerals and their round trips.
- `StageEditor.Editor`: one object holding the stage, selection, clipboard, hall choice, counter
  display and storage slot. Its methods mirror the event handlers, and their loops are proved
  equal to the functions above.

The object invariant `Valid()` holds after every handler:

- token ids are unique and below the next fresh id;
- the selection has no repeats and names only tokens on the stage;
- the counter display equals `Summary` of the stage.

Loading a layout therefore clears the selection in this model, although the code does not (see
Findings). The as-written load is kept as a separate method and is shown to break the invariant.

The code also does the following, and the model keeps it. A shift-click on an unselected token
is preceded by that token's pointer-down, which has already collapsed the selection to it. The
shift-click then toggles it off again, so the gesture ends with an empty selection
(`Selection.ShiftClickOnUnselected`). The model treats the two handlers as separate operations,
as the code does.

## Model

| member | source | states |
|---|---|---|
| Registry.Lookup | script.js:12-21 | `INSTRUMENTS[type]` is the registry entry stored under that key |
| Registry.KeysDistinct | script.js:12-21 | no two registry entries share a key |
| Tokens.FontSize | script.js:57 | the font size f satisfies 5f ≤ 2·size < 5f + 5, i.e. f = floor(size / 2.5) |
| Tokens.TextColorOf | script.js:54 | the entry's text colour when present and non-empty, `#000` otherwise |
| Tokens.NewLook | script.js:46-61 | a new token shows the entry's icon and colour; width = height = size; font size floor(size/2.5); label " " hidden; radius `50%` iff circle; border `2px solid #333` iff `hasBorder`; text `#000` when the entry has none |
| Tokens.WithoutStep | script.js:164 | removing the selected tokens one at a time removes all of them |
| Tokens.WithoutKeepsUnique | script.js:164 | what is left after a removal still has unique ids |
| Tokens.StartOf | script.js:116-117 | `parseInt(left) \|\| 0`: a readable coordinate gives its pixel value, an unreadable one gives 0 |
| Tokens.Without | script.js:164 | the stage after removing the listed ids: exactly the tokens whose id is not listed remain, and none is added |
| Selection.Remove | script.js:77 | the filter keeps exactly the other members, without repeats if there were none, and is the identity when the token is absent |
| Selection.RemoveAt | script.js:77 | in a list without repeats, the filter removes the one occurrence and keeps the rest in order |
| Selection.Toggle | script.js:74-81 | shift-click on an unselected token appends it at the end of the selection; on a selected token it removes it and keeps the others in order; no repeats are introduced |
| Selection.Click | script.js:72-87 | a click without shift selects exactly `[token]`; with shift an unselected token is appended at the end and a selected one is removed, the rest keeping their order |
| Selection.Collapse | script.js:107-111 | pointer-down keeps a selection that contains the token; otherwise the selection becomes `[token]` |
| Selection.ToggleTwice | script.js:74-81 | two shift-clicks restore membership: an unselected token leaves the list exactly as it was; a selected one comes back at the end |
| Selection.ShiftClickOnUnselected | script.js:72-111 | pointer-down followed by shift-click on an unselected token ends with an empty selection |
| Selection.DeleteCount | script.js:162-167 | deleting a selection of S tokens leaves exactly S fewer tokens on the stage |
| Drag.Snap | script.js:134-137 | a snapped coordinate is a multiple of `SNAP_SIZE` = 5 and within 2 of the unsnapped one |
| Drag.SnapNearest | script.js:135-136 | no multiple of 5 is closer to the unsnapped coordinate than the snapped one |
| Drag.SnapOnGrid | script.js:135-136 | a coordinate already on the grid does not move when snapped |
| Drag.Starts | script.js:114-118 | one recorded start per selected token, in selection order |
| Drag.LastFor | script.js:130-141 | the entry found for a token is in the session and carries its id; no entry is found only when the session has none for that id |
| Drag.MoveAll | script.js:130-141 | the pointer-move update leaves the stage length alone and gives each token its `Moved` position |
| Drag.MoveAllStep | script.js:130-141 | applying the session entry by entry gives the whole pointer-move update |
| Drag.DragMovesSelected | script.js:107-141 | each selected token goes to its recorded start (`parseInt` or 0) plus (dx, dy), snapped when snapping is on; unselected tokens and every appearance stay unchanged |
| Drag.SnappedTargets | script.js:134-140 | with snapping on, every written left/top is a multiple of 5 within 2 of start + delta |
| Counting.CountItems | script.js:31-43 | the per-icon counting loop and the registry loop produce `Summary` of the stage |
| Counting.CounterText | script.js:43 | the empty-stage message is shown exactly when the display is the placeholder |
| Counting.SameIconsSameSummary | script.js:33-36 | counts depend only on the tokens' icons |
| Counting.IconCountZero | script.js:33-36 | an icon counts 0 exactly when no token on the stage shows it |
| Counting.PartsInRegistryOrder | script.js:37-42 | the listed pairs follow registry order: each pair belongs to a registry entry, their registry positions strictly increase, and they are exactly the entries with a positive count |
| Counting.PartsExactly | script.js:37-42 | a (button label, n) pair is listed iff some registry entry has that label and n > 0 tokens of its icon |
| Counting.PlaceholderIffEmpty | script.js:43 | the placeholder shows iff every registry entry has count 0 |
| Counting.AddRaisesOnlyItsType | script.js:31-44 | since registry icons are distinct, adding one token raises only its entry's count, by 1 |
| Clipboard.CopyThenPaste | script.js:297-325 | the k-th pasted token has the k-th copied token's appearance, a fresh id, and position (60px, 60px) |
| Clipboard.Snapshot | script.js:298-307 | Ctrl+C stores one appearance per selected token, in selection order, each that of a stage token carrying the selected id |
| Clipboard.Stamp | script.js:311-324 | Ctrl+V makes one token per clipboard entry, with that entry's appearance, the fresh id `n + k` and position (60px, 60px) |
| Clipboard.PastedIds | script.js:309-325 | pasted ids are the fresh range; they are distinct and unused; the stage keeps unique ids and the new selection names tokens on it |
| Persistence.LoadedHall | script.js:216-219 | a non-empty stored hall replaces the current one; an empty one leaves it alone |
| Persistence.Record | script.js:190-206 | the record saved for a token revives, under the same id, into that very token: no attribute is lost |
| Persistence.Save | script.js:184-207 | the document keeps the hall choice and holds one record per token |
| Persistence.Revive | script.js:221-234 | a revived token carries the given id and the record's `left`/`top` |
| Persistence.Restore | script.js:221-234 | load rebuilds one token per record, with the consecutive fresh ids `n`, `n + 1`, ... |
| Persistence.RecordRevive | script.js:191-204 | a record rebuilt into a token and saved again is the same record |
| Persistence.LoadAfterSave | script.js:190-235 | load after save rebuilds the same tokens in order, attribute for attribute, with only new ids, and restores a non-empty hall |
| Persistence.SaveAfterLoad | script.js:190-235 | save after load writes back exactly the loaded items |
| Persistence.StaleSelectionAfterLoad | script.js:211-235 | if load kept the old selection, no selected id would name a token on the reloaded stage |
| Numerals.DecimalRoundTrip | script.js:274 | `parseInt` of a number's decimal numeral gives the number back |
| Numerals.HexRoundTrip | script.js:274 | `toString(16)` read back as hexadecimal gives the number back |
| Colors.DigitRuns | script.js:273 | every match of `/\d+/g` is a non-empty run of decimal digits (maximality and order: `RunsAreMaximal`) |
| Colors.RunsAreMaximal | script.js:273 | the matches are every maximal digit run, in order: the string is digit-free text and the runs in turn, with non-empty text between two runs |
| Colors.NoRunsIffNoDigits | script.js:273 | the match finds nothing exactly when the string has no digit |
| Colors.RgbToHex | script.js:271-275 | empty input gives `#ffffff`; input not starting with `rgb` comes back unchanged; `rgb…` input without any digit throws (`None`); otherwise the result starts with `#` |
| Colors.Pad2 | script.js:274 | `padStart(2, '0')`: a string of two characters or more is unchanged, a shorter one is preceded by zeros up to length 2 |
| Colors.HexBytesFields | script.js:274 | mapping each run to its padded hex numeral and joining gives the text after `#` |
| Colors.RgbToHexFields | script.js:271-275 | for `rgb…` input with a digit, the result is `#` and one field per digit run, in order; each field has at least two hex digits and reads back as its run's value, exactly two when the value is below 256 |
| Colors.CssRgbRuns | script.js:273 | the digit runs of `rgb(r, g, b)` are the numerals of r, g and b |
| Colors.RgbToHexOfCss | script.js:271-275 | for `rgb(r, g, b)` with components up to 255 the result is the 7-character `#rrggbb`, and its three fields read back as r, g and b |
| Colors.PaddedByte | script.js:274 | a number padded to at least 2 hex digits reads back as itself; below 256 it takes exactly 2 |
| StageEditor.Renamed | script.js:91-98 | a cancelled prompt keeps the label; an answer becomes the label text, visible iff it is not blank after `trim`; nothing else changes |
| StageEditor.Recolored | script.js:178-180 | selected tokens get the new background colour; every other attribute and every unselected token is unchanged |
| StageEditor.Filter | script.js:77 | filtering the selection element by element gives `Remove(selection, id)`: every other id, in the same order |
| StageEditor.RemoveEach | script.js:164 | removing the selected tokens one by one leaves exactly the unselected ones, in stage order |
| StageEditor.DeleteKeepsStage | script.js:162-167 | after deleting a selection the stage keeps unique, fresh ids and has exactly as many fewer tokens as were selected |
| StageEditor.AddedCounts | script.js:31-66 | adding a token of one registry entry raises that entry's count by one and no other entry's |
| StageEditor.StampEach | script.js:310-324 | the paste loop makes exactly `Stamp` of the clipboard and pushes the fresh ids, in order, onto the selection |
| StageEditor.Editor.constructor | script.js:6-7 | the editor starts with an empty stage, selection and clipboard |
| StageEditor.Editor.UpdateCount | script.js:31-44 | the counter becomes `Summary` of the stage |
| StageEditor.Editor.ClearSelection | script.js:266-269 | the selection becomes empty |
| StageEditor.Editor.AddItem | script.js:46-66 | appends one token with the `addItem` defaults at (40px, 40px); only that type's count rises by 1; selection and clipboard are unchanged |
| StageEditor.Editor.OnClick | script.js:72-88 | the new selection is `Click(old selection, token, shift)` and the invariant holds |
| StageEditor.Editor.OnDoubleClick | script.js:91-98 | only that token's label and label visibility change, as `Renamed` says |
| StageEditor.Editor.OnPointerDown | script.js:102-124 | a non-main mouse button is ignored; otherwise the selection collapses and the session records every selected token's start |
| StageEditor.Editor.OnPointerMove | script.js:126-142 | the stage becomes `MoveAll` of the session, so only selected tokens move |
| StageEditor.Editor.OnPointerUp | script.js:144-149 | the counter is refreshed and is unchanged |
| StageEditor.Editor.DeleteSelected | script.js:162-168 | does nothing unless the selection is non-empty and confirmed; otherwise removes exactly the selected tokens (S fewer) and empties the selection |
| StageEditor.Editor.ClearAll | script.js:170-176 | confirmed: stage and selection empty and the placeholder shown; declined: nothing changes |
| StageEditor.Editor.ChangeColor | script.js:178-180 | the stage becomes `Recolored` of the selection |
| StageEditor.Editor.Copy | script.js:297-308 | a non-empty selection replaces the clipboard with its snapshot in selection order; an empty selection changes nothing |
| StageEditor.Editor.Paste | script.js:309-327 | a non-empty clipboard appends one stamped token per entry; the selection becomes exactly the new tokens; the clipboard is unchanged, so every paste adds the same number of tokens |
| StageEditor.Editor.KeyDown | script.js:296-328 | Ctrl+c copies; Ctrl+v pastes a non-empty clipboard and does nothing with an empty one; any other key changes nothing; the hall and the slot never change, and the next fresh id moves only by a paste |
| StageEditor.Editor.SaveLayout | script.js:184-209 | the slot holds `Save` of the hall and the stage, the document the code intends to write |
| StageEditor.Editor.SaveLayoutAsWritten | script.js:184-209 | the save as written throws a ReferenceError and changes nothing, so on a stage with tokens the slot does not receive the document `SaveLayout` stores |
| StageEditor.Editor.LoadLayout | script.js:211-236 | nothing happens when the slot is empty; otherwise the stage is rebuilt from the items, the hall restored, the selection cleared and the clipboard kept |
| StageEditor.Editor.LoadLayoutAsWritten | script.js:211-236 | the load as written changes nothing with an empty slot; otherwise it restores stage and hall but keeps the selection, which then names no token on the stage; clipboard and slot are unchanged |
| StageEditor.Editor.ReviveAll | script.js:221-234 | the stage becomes the restored tokens, with fresh, unique ids |

## Left out

- DOM construction and `innerHTML` templating are not modelled: tokens are records. Labels and
  icons are assumed to hold no markup, since load and paste inject them again as HTML.
- Style strings are kept as written. The browser normalises them when read back (for example
  `#ffadad` reads back as `rgb(255, 173, 173)`), and that is not modelled. Width, height and font
  size are whole pixel numbers, and `left`/`top` are pixel numbers or unreadable.
- `exportImage` is not modelled: cloning, SVG serialisation, canvas drawing and the download are
  browser calls.
- `changeHallBackground` and the palette buttons are DOM glue. The hall is only a string.
  Setting the hall selector to a value that is not one of its options is not modelled.
- `localStorage`, `JSON.stringify`/`JSON.parse` and `alert` are not modelled. The slot is an
  `Option<LayoutDocument>` field, so malformed stored JSON and a document without `items` cannot
  be expressed.
- `prompt` and `confirm` answers, the size selector, the colour picker value and the pointer
  deltas are parameters. Deltas are whole numbers; fractional `clientX`/`clientY` are not modelled.
- The colour-picker update on a plain click (`rgbToHex` of the clicked token's colour) is not
  modelled.
- Pointer capture, listener registration, `ondragstart` suppression and the browser's event
  order are not modelled. Each handler is a separate method. Two simultaneous drags are out of
  scope.
- The text shown before the first `updateCount` comes from the page markup, which is not part of
  this model. The constructor assumes the empty-stage message.
- `addItem` with a key outside the registry is excluded by its precondition. Only the palette
  buttons call it, always with a registry key.
- Handlers are called only for tokens on the stage (`id in IdsOf(tokens)`), since they are
  attached to those divs.
- Colors.RgbToHex: `parseInt` of a digit run longer than about 15 digits loses precision in
  JavaScript; the model reads every run exactly.

## Findings

| source | as written | input that shows it | evidently intended | confidence | as-written member | corrected member |
|---|---|---|---|---|---|---|
| script.js:187-188 | `saveLayout` reads `div.style.left` before any `div` is in scope. It throws a ReferenceError and never reaches `localStorage.setItem` (line 207), so the slot keeps its old value. | one token on the stage, empty slot, save: the slot stays empty | store `{hall, items}` with one record per token; the unused ratios are dropped | high, not executed | StageEditor.Editor.SaveLayoutAsWritten | StageEditor.Editor.SaveLayout |
| script.js:220 | `loadLayout` empties the stage but leaves `selectedElements` as it was, so the selection names divs no longer on the stage (`StaleSelectionAfterLoad`) | token A selected, a stored document, load: the selection is still [A] and A is gone | clear the selection along with the stage, keeping "selection ⊆ stage" | high, not executed | StageEditor.Editor.LoadLayoutAsWritten | StageEditor.Editor.LoadLayout |
