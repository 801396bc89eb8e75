# stuurman-desktop icon placement engine in Dafny

This project models the core of stuurman-desktop, an X11 desktop manager written in C. The model covers:

- **Cell placement generator** (`placement.dfy`, module `Placement`). This is the small state machine that proposes icon positions. It is a class with the same fields as the C struct. Each setter, reset and advance is proved equal to a specification function: `Next`, `CursorAt`, `Candidate`.
  - The lemmas cover the three possible outcomes of one advance, tier growth, the tier offset, bounds, left/right and top/bottom mirroring, and the row-major first sweep.
  - The bottom-to-top overflow test in the source reads the x cursor. The model keeps that behaviour as `AsWritten` and defines the intended test as `Intended`.
- **Reserved-region tracker** (`tracker.dfy`, module `Tracker`). The class holds the list of tracked windows and the single-slot pending notification. It implements mark-and-sweep over the client list, a property decoder that accepts exactly four cardinals, change detection and the overlap query.
- **Desktop layout and position bookkeeping**, in three modules:
  - `geometry.dfy`, module `DesktopGeometry`: item rectangles, rubber band, strict hit test, round-half-away-from-zero and snapping, working-area clipping, the cached-image timestamp check.
  - `itempos.dfy`, module `ItemPos`: the escaping serialiser of the item position file, GKeyFile's reading of a file in that layout (including its refusal of group names holding `[`, `]` or control characters, which fails the whole load), and the loader's lookup of one item by name.
  - `desktop.dfy`, module `Layout`. The `Desktop` class covers:
    - the occupancy test and first-fit layout over the generator;
    - the coalesced layout request;
    - the fixed/free item list;
    - selection, snapping, row deletion and hit testing.
- **Configuration** (`appconfig.dfy`, module `AppConfig`): defaults, loading from a key map, profile loading, and the text written by saving a profile. Save-then-load lemmas show what survives a round trip.
- **Wallpaper cache** (`wallpaper.dfy`, module `Wallpaper`): parameter equality, cache lookup, the per-desktop wallpaper slot update and the cache refresh decision.
- **Command dispatch** (`app.dfy`, module `App`): the run-request flags, the wallpaper-mode name lookup, the reference counter and coalesced config saving.
- **Desktop manager** (`manager.dfy`, module `Manager`): the per-monitor `mon_init` rule, the fill of the desktops array, the `fm_desktop_get` search and the wallpaper-change fan-out.

Shared pieces live in `common.dfy` (module `Common`) and `decimal.dfy` (module `Decimal`):

- `Common`: rectangles with GDK's intersection and union, and C's truncating division.
- `Decimal`: `%d` formatting, `strtol` and `atoi`, and GKeyFile's integer parse (`g_key_file_get_integer`).

The model represents the outside world as follows:

- X properties and client lists are inputs. Pixbuf sizes and Pango extents are inputs. The key file is a map from keys to strings.
- Idle callbacks are a pending flag plus an explicit dispatch method.
- Signals, dialogs and desktop start/stop are reported as effects.

Two details of the code that are easy to misread:

- `on_snap_to_grid` snaps from the working-area corner plus the 2-pixel `MARGIN`, not from the corner itself (`DesktopGeometry.SnapExample` shows both).
- The second argument of `wallpaper_manager_update_background` is a desktop index or −1, though the function tests it as a boolean. See Findings.

## Model

| member | source | states |
|---|---|---|
| Common.Union | src/desktop.c:434-437 | the item rectangle (union of icon and text rect) contains both, and each of its edges is an edge of one of them |
| Common.IntersectsUnion | src/desktop.c:439-453 | a rectangle meeting the icon or the text rect of an item meets the item's union rectangle |
| Common.IntersectsSymmetric | src/window-tracker.c:266 | GDK rectangle intersection (positive-area overlap) is symmetric |
| Common.CDiv | src/cell-placement-generator.h:140-141 | C integer division truncates toward zero: the quotient times the divisor lies between 0 and the dividend, within one divisor |
| Decimal.KeyFileInteger | src/desktop.c:273-274 | GKeyFile's integer parse yields only `gint` values; it refuses only an empty value, a value outside `gint`, or text after the number that does not start with a blank |
| Decimal.KeyFileIntegerOfDecimal | src/desktop.c:273-274 | a `gint` written with `%d` reads back as itself, also with blanks before it and with text after it that starts with a blank |
| Decimal.KeyFileIntegerRoundTrip | src/desktop.c:273-274 | a coordinate written with `%d` (src/desktop.c:350-351) is read back unchanged when it fits a `gint` |
| Decimal.KeyFileIntegerRefusesTrailing | src/desktop.c:273-274 | a number followed by a character that is neither a digit nor a blank is refused, so the getter yields 0 |
| Decimal.KeyFileIntegerRefusesWide | src/desktop.c:273-274 | a number outside `gint` is refused |
| Decimal.KeyFileIntegerRefusesNonNumber | src/desktop.c:273-274 | an empty value, and a value starting with a character that cannot begin a number, are refused |
| Decimal.StrtolOfDecimal | src/app-config.c:96-97 | `strtol` skips leading blanks, reads a `%d` number and stops right after its digits when the next character is not a digit |
| Decimal.AtoIRoundTrip | src/app-config.c:216-238 | a `%d` value written by save is read back unchanged by the integer key reader |
| Decimal.AtoIStops | src/app-config.c:96-97 | the integer key reader skips leading blanks and stops at the first character after the number that is not a digit |
| Decimal.AtoINoNumber | src/app-config.c:96-97 | the integer key reader yields 0 for an empty value and for one that starts with neither a blank, a sign nor a digit |
| Placement.CellPlacementGenerator.constructor | src/cell-placement-generator.h:30-54 | a new generator has an empty box, zero cell size, all rules off and the cursor at the origin |
| Placement.CellPlacementGenerator.SetBoundingBox | src/cell-placement-generator.h:56-67 | only the four box lines change |
| Placement.CellPlacementGenerator.SetCellSize | src/cell-placement-generator.h:69-76 | only the cell width and height change |
| Placement.CellPlacementGenerator.SetPlacementRules | src/cell-placement-generator.h:78-87 | only the rows/rtl/btt rules change |
| Placement.CellPlacementGenerator.ResetX | src/cell-placement-generator.h:89-96 | the x cursor goes to `right - cell_w` when right-to-left, else to `left` |
| Placement.CellPlacementGenerator.ResetY | src/cell-placement-generator.h:98-105 | the y cursor goes to `bottom - cell_h` when bottom-to-top, else to `top` |
| Placement.CellPlacementGenerator.ResetAxis1 | src/cell-placement-generator.h:107-114 | axis 1 is x in row mode and y in column mode; only that cursor is reset |
| Placement.CellPlacementGenerator.ResetAxis2 | src/cell-placement-generator.h:116-123 | axis 2 is the other axis; only that cursor is reset |
| Placement.CellPlacementGenerator.UpdateXY | src/cell-placement-generator.h:125-143 | the exposed position is the cursor plus the tier offset (`Candidate`) |
| Placement.CellPlacementGenerator.Reset | src/cell-placement-generator.h:145-152 | the cursor is at the start corner with tier 0, and the exposed position is candidate 0 |
| Placement.CellPlacementGenerator.AdvanceX | src/cell-placement-generator.h:154-171 | x moves one cell in the arrangement direction; overflow iff it passed the far edge |
| Placement.CellPlacementGenerator.AdvanceY | src/cell-placement-generator.h:173-190 | y moves one cell; overflow as written (the bottom-to-top branch tests x) |
| Placement.CellPlacementGenerator.AdvanceAxis1 | src/cell-placement-generator.h:192-199 | steps x in row mode, y in column mode; the other cursor is unchanged |
| Placement.CellPlacementGenerator.AdvanceAxis2 | src/cell-placement-generator.h:201-208 | steps the other axis; the first cursor is unchanged |
| Placement.CellPlacementGenerator.Advance | src/cell-placement-generator.h:211-225 | the cursor becomes `Next` of the old cursor and the exposed position its candidate |
| Placement.Next | src/cell-placement-generator.h:211-225 | the tier rises only by a wrap to the start corner; in row mode a step keeps the row or returns x to the line start, and in column mode it keeps the column or returns y to the line start |
| Placement.NextIsOneOfThree | src/cell-placement-generator.h:211-225 | one advance either steps axis 1, or resets axis 1 and steps axis 2, or resets both and raises the tier by one, each exactly under its overflow conditions |
| Placement.TierGrowth | src/cell-placement-generator.h:211-225 | the tier never decreases and grows by at most one per advance |
| Placement.CandidateOffset | src/cell-placement-generator.h:125-143 | with tier 0 the candidate is the cursor; otherwise it is shifted by `(1 + cell/div)*tier` in the rtl/btt direction, with divisors 16/24 swapped in row mode |
| Placement.NextInBounds | src/cell-placement-generator.h:154-190 | an advance from a cursor inside the box stays inside it (intended test, or top-to-bottom) |
| Placement.AlwaysInBounds | src/cell-placement-generator.h:145-225 | after reset and any number of advances the cursor stays within `left..right-cell_w` and `top..bottom-cell_h` |
| Placement.VariantsAgreeTopToBottom | src/cell-placement-generator.h:173-190 | top-to-bottom, the written and the intended overflow test produce the same sequence |
| Placement.BottomToTopLeavesBox | src/cell-placement-generator.h:176-180 | bottom-to-top, the written test lets the cursor go from (320,0) to (0,-60), outside the box; the intended test stays inside |
| Placement.BottomToTopNeverWraps | src/cell-placement-generator.h:176-180 | bottom-to-top as written, the tier never rises, and in column mode y walks upward without bound |
| Placement.NextMirrorX | src/cell-placement-generator.h:154-171 | flipping right-to-left mirrors one advance about the box's vertical centre |
| Placement.NextMirrorY | src/cell-placement-generator.h:173-190 | with the intended test, flipping bottom-to-top mirrors one advance about the horizontal centre |
| Placement.CandidateMirror | src/cell-placement-generator.h:125-143 | the tier offset mirrors along with the cursor |
| Placement.MirrorHorizontal | src/cell-placement-generator.h:145-225 | the whole right-to-left candidate sequence is the mirror image of the left-to-right one |
| Placement.MirrorVertical | src/cell-placement-generator.h:145-225 | with the intended test, the bottom-to-top sequence is the mirror image of the top-to-bottom one |
| Placement.SweepStep | src/cell-placement-generator.h:211-225 | in ltr/ttb row mode, an advance moves to the next column, or to column 0 of the next row, or to tier 1 after the last cell |
| Placement.FirstSweepRowMajor | src/cell-placement-generator.h:145-225 | the first `columns*rows` cursors visit every cell in row-major order, then tier 1 starts at the corner |
| Placement.WorkedExamples | src/cell-placement-generator.h:145-225 | box 400x300, cell 80x60, rows: (0,0),(80,0),(160,0),(240,0),(320,0),(0,60); with rtl: (320,0),(240,0) |
| Tracker.ToGint | src/window-tracker.c:135-138 | a 32-bit cardinal stored in a gint becomes the signed value congruent to it mod 2^32 |
| Tracker.DecodeStatus | src/window-tracker.c:126-145 | reserving iff the property has exactly four values, with the rect taken from them; otherwise not reserving with rect (0,0,0,0) |
| Tracker.Changed | src/window-tracker.c:149-154 | the corrected change test: the rect or the reserving flag differs from the record (properties in `ChangedIffRecordChanges`) |
| Tracker.ChangedAsWritten | src/window-tracker.c:149-154 | the test as written: the stored signed 1-bit flag is compared with `TRUE` (properties in `AsWrittenAlwaysChangedWhenReserving`) |
| Tracker.ChangedIffRecordChanges | src/window-tracker.c:149-162 | the intended change test is true iff applying the status changes the record; applying twice reports no change |
| Tracker.AsWrittenAlwaysChangedWhenReserving | src/window-tracker.c:149-154 | the written comparison of the signed 1-bit flag with TRUE always reports a change for a reserving status |
| Tracker.SpuriousChangeExample | src/window-tracker.c:149-154 | re-reading the same 4-value property reports a change although the record is unchanged |
| Tracker.FindXid | src/window-tracker.c:62-75 | the result is the first record with that xid, or none iff no record has it |
| Tracker.KeepUsed | src/window-tracker.c:77-108 | keeps exactly the used records and nothing else |
| Tracker.UpdateStatus | src/window-tracker.c:233-238 | a status update keeps the list length and every xid |
| Tracker.KeepUsedDistinct | src/window-tracker.c:77-108 | sweeping keeps xids distinct |
| Tracker.RefreshEnd | src/window-tracker.c:188-211 | after a refresh the tracked xids are exactly the listed ones, each once, refreshed; a notification is pending iff one was, a new record is reserving, or a reserving one was dropped |
| Tracker.OverlapsIgnoresMarks | src/window-tracker.c:256-281 | with all records used, overlap holds iff some reserving record's rect intersects the query |
| Tracker.NoReservationNoOverlap | src/window-tracker.c:256-281 | with no reserving record nothing overlaps |
| Tracker.WindowTracker.constructor | src/window-tracker.c:44-47 | no windows and no pending notification |
| Tracker.WindowTracker.EmitSignal | src/window-tracker.c:56-60 | a notification is pending afterwards, whether or not one already was |
| Tracker.WindowTracker.DispatchIdle | src/window-tracker.c:49-54 | the pending slot is cleared and exactly one notification is emitted if one was pending |
| Tracker.WindowTracker.WindowFromXid | src/window-tracker.c:62-75 | returns the first record with the xid and marks it used; otherwise returns none and changes nothing |
| Tracker.WindowTracker.MarkAllUnused | src/window-tracker.c:110-118 | every record is kept with its used flag cleared |
| Tracker.WindowTracker.DeleteUnused | src/window-tracker.c:77-108 | the list becomes the used records in order; a notification is requested iff a dropped record was reserving |
| Tracker.WindowTracker.ReadOverlapStatus | src/window-tracker.c:121-163 | no record: false and nothing changes; else the record takes the decoded status and the result says whether it changed |
| Tracker.WindowTracker.CreateWindowForXid | src/window-tracker.c:165-186 | prepends a used record with the decoded status; requests a notification iff the property is a valid 4-tuple |
| Tracker.WindowTracker.OnNetClientList | src/window-tracker.c:188-211 | unreadable list: nothing changes; else tracked xids equal the listed set, each record refreshed, notification as in RefreshEnd |
| Tracker.WindowTracker.EventFilter | src/window-tracker.c:213-241 | a client-list change on the root refreshes the list and requests a notification iff one was pending, a new window reserves or a dropped one did; a reservation change updates that window and requests one iff its status changed; any other event changes nothing |
| Tracker.WindowTracker.TestOverlap | src/window-tracker.c:256-281 | true iff some used, reserving record's rect intersects the query |
| ItemPos.EscapeChar | src/desktop.c:334-347 | one character becomes one or two characters, never a raw CR or LF |
| ItemPos.Escape | src/desktop.c:332-348 | the escaped name is at most twice as long and holds no raw line break |
| ItemPos.UnescapeEscape | src/desktop.c:332-348 | unescaping the escaped name gives back the name: the escaping is reversible |
| ItemPos.DecimalHasNoLineFeed | src/desktop.c:350-352 | a printed coordinate contains no line feed |
| ItemPos.ParseBlockOfBlock | src/desktop.c:331-352 | a written block reads back as one group, headed by the escaped name and holding the `%d` texts of x and y, leaving the rest of the text, exactly when GKeyFile accepts the escaped name as a group name; otherwise reading fails |
| ItemPos.ParseSerialize | src/desktop.c:317-357 | when GKeyFile accepts every saved name as a group name, reading the saved file gives one group per fixed item, in list order, headed by the item's escaped name (not its name) and holding the `%d` texts of x and y |
| ItemPos.Serialize | src/desktop.c:317-357 | one block per fixed item in list order; the text is empty iff no item is fixed |
| ItemPos.ParseGroup | src/desktop.c:257 | a `[header]` line yields its header exactly when the header is a group name GKeyFile accepts: not empty, no `[` or `]`, no control character |
| ItemPos.ParsePositions | src/desktop.c:257 | GKeyFile's reading of a file in the saved layout: every group read has a valid header, and any refused header fails the whole load |
| ItemPos.GetInteger | src/desktop.c:273-274 | `g_key_file_get_integer` always yields a `gint`, and 0 when the value is refused |
| ItemPos.LoadPosition | src/desktop.c:257-274 | a position is found only when the file loads and has a group with the item's name, and its coordinates are `gint` values |
| ItemPos.Groups | src/desktop.c:325-353 | one group per pinned item, the k-th written from the k-th item |
| ItemPos.EscapePlain | src/desktop.c:332-348 | escaping leaves a name unchanged iff it holds no backslash, CR or LF, and otherwise makes it longer |
| ItemPos.EscapeDistinct | src/desktop.c:332-348 | different names are written under different group headers |
| ItemPos.FindGroup | src/desktop.c:268 | the group lookup returns the first group with the header; none exactly when no group has it |
| ItemPos.SaveLoadEscaped | src/desktop.c:268-274 | when GKeyFile accepts every saved name as a group name, each saved item (names distinct, coordinates in `gint`) is found under its escaped name at its own x and y |
| ItemPos.UnreadableFileFails | src/desktop.c:257 | one saved name that GKeyFile refuses as a group name makes the whole load fail: no name, saved or not, is found |
| ItemPos.ReadableNameChars | src/desktop.c:332-348 | a saved name can be read back iff it is not empty and holds no `[`, no `]` and no control character other than CR and LF |
| ItemPos.BracketNameLosesAll | src/desktop.c:331-348 | a saved name holding `[` or `]`, such as `photo [1].jpg`, loses the position of every pinned item |
| ItemPos.Readable | src/desktop.c:325-353 | the corrected writer's choice: exactly the entries whose names GKeyFile accepts, in order |
| ItemPos.SaveReadableLoads | src/desktop.c:268-274 | when only the acceptable names are written, the file loads and every such item is found under its escaped name at its own position |
| ItemPos.LoadEscapedAbsent | src/desktop.c:268 | a name that was not saved is not found under its escaped name |
| ItemPos.SaveLoadPlain | src/desktop.c:268-274 | when GKeyFile accepts every saved name as a group name, the lookup by the raw basename, as written, reads back the position of every saved item whose name holds no backslash, CR or LF |
| ItemPos.LineBreakNameLost | src/desktop.c:268 | the lookup by the raw basename never finds a name that holds CR or LF, whatever was saved |
| ItemPos.BackslashNameLost | src/desktop.c:268 | an item `a\b` saved at (1,2) is not found by the raw-name lookup, and is found at (1,2) by the escaped one |
| ItemPos.SerializeAppend | src/desktop.c:325-353 | the file is the concatenation of one block per item |
| DesktopGeometry.ItemCentred | src/desktop.c:198-242 | an icon and a label no wider than the cell sit centred in it, off by at most one pixel from truncation |
| DesktopGeometry.TextBelowIcon | src/desktop.c:238-239 | the label starts below the icon rect (which includes the spacing) |
| DesktopGeometry.RectsFollowPosition | src/desktop.c:198-242 | moving the item position by (dx,dy) moves both rects by exactly (dx,dy) |
| DesktopGeometry.CheckTimestamp | src/desktop.c:70-75 | the cached image survives iff it exists and its timestamp matches; the timestamp is left as is |
| DesktopGeometry.CheckTimestampIdempotent | src/desktop.c:70-75 | checking twice with the same timestamp is the same as checking once |
| DesktopGeometry.RubberBand | src/desktop.c:781-810 | the band spans from the smaller to the larger coordinate on each axis, with non-negative size |
| DesktopGeometry.RubberBandSymmetric | src/desktop.c:781-810 | swapping the drag start and the pointer, on either axis, gives the same band |
| DesktopGeometry.PointInRectMeaning | src/desktop.c:1357-1360 | a hit point lies strictly inside: never on an edge, and never in a rect one pixel thin |
| DesktopGeometry.RoundDivIsRound | src/desktop.c:1306-1309 | the integer rounding equals `_round` of the real quotient (half away from zero) |
| DesktopGeometry.RoundDivNearest | src/desktop.c:1306-1309 | the rounded quotient is a nearest multiple, keeps the sign, and ties go away from zero |
| DesktopGeometry.SnapIsNearestGridPoint | src/desktop.c:1334-1335 | the snapped coordinate is on the grid through the origin, within half a cell of the old one, and no grid point is closer |
| DesktopGeometry.SnapIdempotent | src/desktop.c:1334-1335 | snapping a snapped coordinate changes nothing |
| DesktopGeometry.SnapExample | src/desktop.c:1320-1335 | 83 and 58 snap to 80 and 60 from origin 0 but to 82 and 62 from the margin origin 2; ±40 snap away from zero |
| DesktopGeometry.ClipWorkArea | src/desktop.c:1086-1106 | the overlap of monitor and work area, or the whole monitor when the overlap is empty, relative to the monitor's origin |
| DesktopGeometry.ClipWorkAreaBounds | src/desktop.c:1086-1106 | a non-empty overlap gives a monitor-relative area inside both the monitor and the work area; an empty one gives the whole monitor |
| DesktopGeometry.ClipWorkAreaCovering | src/desktop.c:1086-1106 | a work area covering the monitor yields the whole monitor |
| Layout.CellMetrics | src/desktop.c:430-431 | cell width is the wider of text and icon plus padding; cell height stacks icon, spacing, text and padding; both are positive |
| Layout.Invalidate | src/desktop.c:61-68 | the cached image is dropped and the timestamp kept |
| Layout.CalcItemSize | src/desktop.c:198-242 | position, name, flags are kept; the Pango stamp is updated; extents are re-measured only when the stamp changed |
| Layout.CalcItemSizeIdempotent | src/desktop.c:220-236 | sizing an already sized item again changes nothing |
| Layout.ResizeAgain | src/desktop.c:502-505 | placing an item at one candidate and then another equals placing it at the second directly |
| Layout.Moved | src/desktop.c:741-779 | position set, item fixed, both rects shifted by the same delta with sizes kept |
| Layout.MovedIsResized | src/desktop.c:749-759 | shifting the rects equals recomputing them at the new position |
| Layout.PinKeepsValid | src/desktop.c:762-766 | fixing an item adds it to the fixed list only if it was not fixed, so the list stays duplicate-free and matches the flags |
| Layout.RemoveFirst | src/desktop.c:1297 | removing an element never adds one |
| Layout.RemoveFirstDistinct | src/desktop.c:1297 | on a duplicate-free list, removal drops exactly that element and shortens the list by one iff it was present |
| Layout.UnpinKeepsValid | src/desktop.c:1293-1298 | unfixing an item removes it from the fixed list, keeping list and flags in step |
| Layout.DeleteKeepsValid | src/desktop.c:906-917 | deleting an item removes it from the fixed list and renumbers the rest, keeping list and flags in step |
| Layout.RenumberAll | src/desktop.c:906-917 | each reference past the deleted item moves down by one |
| Layout.PinAllElements | src/desktop.c:1279-1290 | fixing the selection gives a duplicate-free list of exactly the old fixed items and the selected ones |
| Layout.UnpinAllElements | src/desktop.c:1291-1300 | unfixing the selection gives a duplicate-free list of exactly the old fixed items not selected |
| Layout.Occupied | src/desktop.c:439-453 | a candidate is occupied iff the union rect of some pinned item meets its icon or label rect, or a reserving window meets its icon or label rect |
| Layout.OccupiedAgree | src/desktop.c:439-453 | occupancy depends only on the fixed items |
| Layout.NothingOccupied | src/desktop.c:439-453 | with no fixed items and no reserving windows no position is occupied |
| Layout.FreeStepsIncrease | src/desktop.c:489-516 | free items take strictly increasing generator steps in model order |
| Layout.SelectActionLaws | src/desktop.c:2908-2938 | invert is an involution, select/unselect are idempotent, and an item's flag changes iff inverting or it differs from the target |
| Layout.SnappedOnGrid | src/desktop.c:1328-1337 | a snapped item lies on the grid through the origin, within half a cell of where it was, and re-snapping changes nothing |
| Layout.FixedEntries | src/desktop.c:325-353 | one saved entry per fixed item |
| Layout.EscapeName | src/desktop.c:332-348 | the character loop produces exactly the escaped name |
| Layout.IsPosOccupied | src/desktop.c:439-453 | true iff the item meets a fixed item's rectangle or the tracker reports overlap for its icon or text rect |
| Layout.StartGenerator | src/desktop.c:470-487 | a fresh generator set up from the working area, cell size and rules, reset to candidate 0 |
| Layout.StepGenerator | src/desktop.c:507 | the generator moves to the next candidate |
| Layout.PlaceFree | src/desktop.c:502-511 | on success the item sits at the first unoccupied candidate from the start step on, and every skipped candidate was occupied |
| Layout.LayoutItems | src/desktop.c:487-516 | fixed items keep their position, each free item is placed first-fit at increasing generator steps, list and flags stay in step |
| Layout.Desktop.constructor | src/desktop.c:2558-2675 | a desktop starts with its items, no focus/hover/drop target, and a first layout already queued (src/desktop.c:284, 2377) |
| Layout.FirstIdleLaysOut | src/desktop.c:521-526 | the first idle dispatch on a new desktop runs the layout, exactly once |
| Layout.Desktop.QueueLayout | src/desktop.c:528-532 | a layout is pending afterwards, whether or not one already was |
| Layout.Desktop.Layout | src/desktop.c:455-519 | recomputes the cell metrics and lays out every item as LayoutItems states |
| Layout.Desktop.DispatchIdle | src/desktop.c:521-526 | a pending layout runs exactly once and clears the request, and when it completes the items are laid out first-fit as `LayoutItems` states; without one nothing changes |
| Layout.LayoutRequestsCoalesce | src/desktop.c:521-532 | any number of layout requests before dispatch lead to exactly one layout run |
| Layout.Desktop.MoveItem | src/desktop.c:741-779 | the item is moved and fixed; it joins the fixed list only if it was not fixed |
| Layout.Desktop.GetSelectedItems | src/desktop.c:359-395 | exactly the selected items, each once, focus first if selected, the rest in model order |
| Layout.Desktop.PinOne | src/desktop.c:1284-1288 | the item is fixed and added to the list only if not already fixed |
| Layout.Desktop.PinSelection | src/desktop.c:1279-1290 | every selected item becomes fixed, nothing else changes, the list grows as PinAll |
| Layout.Desktop.UnpinOne | src/desktop.c:1295-1297 | the item is unfixed and its first list entry removed |
| Layout.Desktop.UnpinSelection | src/desktop.c:1291-1300 | every selected item becomes free and leaves the fixed list |
| Layout.Desktop.SaveItemPos | src/desktop.c:317-357 | with a config path, the written text is the serialised fixed items in list order; without one nothing is written |
| Layout.Desktop.FixPos | src/desktop.c:1274-1303 | fixing fixes the selection in place; unfixing frees it and relays out; then the positions are saved |
| Layout.Desktop.SnapOne | src/desktop.c:1331-1336 | a fixed item is snapped, a free one left alone |
| Layout.Desktop.SnapToGrid | src/desktop.c:1311-1341 | exactly the selected fixed items are snapped to the grid from the margin origin (mirrored for RTL), and a layout is queued |
| Layout.Desktop.RowDeleting | src/desktop.c:906-939 | the item leaves the model and the fixed list; focus moves to the next item, else the previous, else none; other references are renumbered or dropped |
| Layout.Desktop.SelectAllWithAction | src/desktop.c:2908-2938 | every item's selection becomes the action applied to it; nothing else changes |
| Layout.Desktop.HitTest | src/desktop.c:1362-1379 | none when icons are hidden; else the first item whose icon or text rect strictly contains the point, or none iff no item does |
| Layout.Desktop.UpdateWorkingArea | src/desktop.c:1086-1118 | the area becomes the clipped work area, and a layout is queued iff it changed |
| AppConfig.FormatColor | src/app-config.c:230-232 | a colour is written as `#` and six characters |
| AppConfig.Hex2RoundTrip | src/app-config.c:230-232 | a `%02x` byte reads back as the same byte |
| AppConfig.ColorRoundTrip | src/app-config.c:230-232 | a saved colour reads back as its 8-bit quantisation (`channel/257*257`) |
| AppConfig.QuantizeExact | src/app-config.c:230-232 | a colour survives saving exactly iff each channel is a multiple of 257 |
| AppConfig.QuantizeStable | src/app-config.c:230-232 | quantising twice is quantising once, and writes the same text |
| AppConfig.DefaultColors | src/app-config.c:75-77 | the default background parses from `#3A6EA5`; white and the default background survive saving exactly |
| AppConfig.LoadState | src/app-config.c:91-165 | after loading, the slot array length agrees with the configured count |
| AppConfig.SlotLinesSlot | src/app-config.c:223-225 | a slot line is written exactly for each non-null slot below the count |
| AppConfig.HeadKeys | src/app-config.c:216-222 | the head carries mode, common flag, and the count only when positive |
| AppConfig.HeadSlots | src/app-config.c:218-226 | the head carries slot i iff it is a non-null slot |
| AppConfig.LooksKeys | src/app-config.c:227-234 | `wallpaper=` only when common (empty for null), three colours, and the font only when non-empty |
| AppConfig.FlagsKeys | src/app-config.c:235-238 | the four trailing integer/boolean keys are written |
| AppConfig.SavedModeKeys | src/app-config.c:216-222 | the saved text's map holds the mode, the common flag, and the count iff positive |
| AppConfig.SavedSlotKeys | src/app-config.c:218-226 | the saved text's map holds exactly the non-null slots |
| AppConfig.SavedLookKeys | src/app-config.c:227-234 | the saved map holds the look keys under the same conditions |
| AppConfig.SavedFlagKeys | src/app-config.c:235-238 | the saved map holds the flag keys |
| AppConfig.ReadBoolDec | src/app-config.c:217 | a boolean written with `%d` reads back as itself |
| AppConfig.SaveLoadFlags | src/app-config.c:216-238 | save-then-load restores mode, common flag, menu and rtl flags; sort type normalises to descending/ascending; sort column is restored iff valid |
| AppConfig.SaveLoadSlots | src/app-config.c:218-226 | a positive count and every slot are restored; otherwise the count is kept and no slot is set |
| AppConfig.SaveLoadLooks | src/app-config.c:227-234 | the wallpaper is restored when common (null becomes empty), colours to their quantisation, and a non-empty font |
| AppConfig.LoadAllLast | src/app-config.c:176-192 | loading several files applies them in order, the last overriding |
| AppConfig.ProfileFont | src/app-config.c:150-199 | after a profile load the font is always set: the last file's font, else "Sans 12" |
| AppConfig.ProfileNoFiles | src/app-config.c:167-200 | with no files only the font default is applied |
| AppConfig.AppendLine | src/app-config.c:215-238 | appending one `key=value` line keeps the buffer equal to the rendering of the lines so far |
| AppConfig.ReadSlots | src/app-config.c:111-123 | slot i is the value of key `wallpaper<i>`, for exactly the configured count |
| AppConfig.Config.constructor | src/app-config.c:70-83 | defaults: white foreground, `#3A6EA5` background, ascending by mtime, common wallpaper |
| AppConfig.Config.LoadFromKeyFile | src/app-config.c:91-165 | the new state is LoadState of the old one |
| AppConfig.Config.LoadWallpaperKeys | src/app-config.c:97-129 | mode and count only if present; slots re-read; the wallpaper is read only when common, else null |
| AppConfig.Config.LoadLookKeys | src/app-config.c:131-152 | colours replaced only when present; the font always replaced |
| AppConfig.Config.LoadFlagKeys | src/app-config.c:154-164 | sort type descending only if present and equal to it; sort column only if present and valid |
| AppConfig.Config.LoadFromProfile | src/app-config.c:167-200 | a null or empty name means `default`; the profile's files are applied in order, then the font default |
| AppConfig.Config.SaveProfile | src/app-config.c:202-246 | a null or empty name means `default`; when the directory exists, the written text is SaveText of the state |
| AppConfig.SaveText | src/app-config.c:215-238 | the saved text starts with the `[desktop]` group header and ends with a line feed |
| AppConfig.SaveHead | src/app-config.c:216-226 | the mode line, then the common-flag line, then the count only when it is positive, followed by at most one line per slot |
| AppConfig.SlotLines | src/app-config.c:223-225 | keeps the lines already written and appends at most one line per slot |
| AppConfig.SaveLooks | src/app-config.c:227-234 | keeps the lines already written and appends three to five: optional wallpaper, three colours, optional font |
| AppConfig.SaveFlags | src/app-config.c:235-238 | keeps the lines already written and appends four, the last the arrangement flag |
| AppConfig.ReadColor | src/app-config.c:131-148 | the colour changes only to one parsed from the key, and a key that parses always sets it |
| AppConfig.ProfileState | src/app-config.c:167-200 | the state after loading the profile's files in order; everything is as loaded, and the font is the loaded one or, when none was loaded, the default |
| AppConfig.Config.SaveHeadText | src/app-config.c:214-226 | writes the group header, then the mode, common-flag and slot lines exactly as SaveHead |
| AppConfig.Config.SaveLooksText | src/app-config.c:227-234 | appends the look lines exactly as SaveLooks |
| AppConfig.Config.SaveFlagsText | src/app-config.c:235-238 | appends the flag lines exactly as SaveFlags |
| Wallpaper.ParamsEqual | src/wallpaper-manager.c:115-142 | mode and colour always compared; COLOR ignores file and size; TILE compares the file only; other modes compare size and file |
| Wallpaper.ParamsEqualEquivalence | src/wallpaper-manager.c:115-142 | the relation is symmetric and transitive |
| Wallpaper.EntryFor | src/wallpaper-manager.c:154-162 | finds an entry for the desktop number, or none iff there is none |
| Wallpaper.EntryForUpdate | src/wallpaper-manager.c:314-316 | updating one desktop's entry leaves every other desktop's lookup unchanged |
| Wallpaper.WallpaperCache.constructor | src/wallpaper-manager.c:75 | the cache starts empty |
| Wallpaper.WallpaperCache.LookupCache | src/wallpaper-manager.c:154-172 | returns the existing entry unchanged, else prepends exactly one zeroed entry; desktop numbers stay distinct |
| Wallpaper.WallpaperCache.UpdateBackground | src/wallpaper-manager.c:272-320 | COLOR touches nothing; else the path step runs, the entry keeps its parameters iff equal, and an image is rendered iff none was kept |
| Wallpaper.Nones | src/wallpaper-manager.c:90-92 | grown slots are all null |
| Wallpaper.PathStep | src/wallpaper-manager.c:77-113 | the slot array length stays in step with the configured count |
| Wallpaper.PathStepCommon | src/wallpaper-manager.c:79-80 | a common wallpaper is returned and nothing changes |
| Wallpaper.PathStepStore | src/wallpaper-manager.c:84-98 | on change the array grows to `cur+1` with null new slots, slot `cur` takes the wallpaper, nothing else changes |
| Wallpaper.StoreThenRefresh | src/wallpaper-manager.c:84-110 | refreshing right after storing returns the stored wallpaper and changes nothing |
| Wallpaper.StoreKeepsOtherDesktops | src/wallpaper-manager.c:84-110 | storing for one desktop does not change what another desktop's refresh returns |
| Wallpaper.RefreshIdempotent | src/wallpaper-manager.c:99-110 | refreshing twice equals refreshing once |
| Wallpaper.GetWallpaperPath | src/wallpaper-manager.c:77-113 | the slot-growth loop and assignments produce exactly PathStep |
| Wallpaper.ChangedFlagAsWritten | src/wallpaper-manager.c:84 | the test as written: any non-zero argument means changed |
| Wallpaper.ChangedFlag | src/wallpaper-manager.c:84 | the reading the callers rely on: an index of 0 or more means changed, −1 a refresh |
| Wallpaper.ChangedFlagAsWrittenMisreads | src/wallpaper-manager.c:84 | as written, desktop 0's change is treated as a refresh and a −1 refresh as a change that overwrites the slot |
| Wallpaper.ChangedFlagIntended | src/wallpaper-manager.c:84-110 | with the flag read as `arg >= 0`, a change stores the wallpaper and −1 returns the desktop's own slot |
| App.ModeIndex | src/pcmanfm.c:81 | the index of a valid mode name, or none iff the name is not one |
| App.ModeIndexMatchesEnum | src/app-config.h:43-50 | the name indices equal the wallpaper-mode enumeration values |
| App.FindMode | src/pcmanfm.c:289-306 | the search loop returns ModeIndex |
| App.CheckRunningFirst | src/pcmanfm.c:228-233 | check-running is cleared, returns true, and nothing else changes |
| App.DesktopOnOff | src/pcmanfm.c:243-262 | show-desktop starts the desktop only if not running and returns true; desktop-off stops it only if running and returns false |
| App.WallpaperBranch | src/pcmanfm.c:263-316 | options cleared; returns false iff a wallpaper or mode was given; unknown mode names change nothing; a valid image without a mode turns COLOR into FIT; a change is signalled iff the image was accepted or the mode changed |
| App.Pcmanfm.constructor | src/pcmanfm.c:48-62 | the flags as parsed, desktop not running, zero references, nothing pending |
| App.Pcmanfm.Ref | src/pcmanfm.c:322-326 | the counter rises by one |
| App.Pcmanfm.Unref | src/pcmanfm.c:331-337 | the counter falls by one; quit is requested when it reaches 0 with the desktop not running |
| App.Pcmanfm.Run | src/pcmanfm.c:224-319 | the new flags, desktop status, mode, wallpaper and return value are RunStep; start/stop adjust the counter; a wallpaper change saves the profile |
| App.RunStep | src/pcmanfm.c:224-319 | the desktop starts only from stopped and stops only from running, and changes no other way; mode and wallpaper change only with a change signal; false is returned only for desktop-off or a wallpaper option |
| App.Pcmanfm.SaveConfig | src/pcmanfm.c:346-359 | immediate saves now; otherwise at most one idle save is pending |
| App.Pcmanfm.OnSaveConfigIdle | src/pcmanfm.c:339-344 | the pending save runs once and the slot is cleared |
| App.CoalescedSaves | src/pcmanfm.c:339-359 | any number of deferred save requests lead to exactly one profile save |
| App.ShowThenOff | src/pcmanfm.c:243-262 | from any state with no reference held and the desktop stopped, starting and then stopping the desktop requests quit and leaves the count at 0 and the desktop stopped |
| Manager.MonInit | src/desktop-manager.c:107 | the monitor index is kept when on_screen is negative or this screen; otherwise −1 for monitor 0 and −2 for the rest |
| Manager.Row | src/desktop-manager.c:105-110 | one entry per monitor of the screen, in order |
| Manager.Fill | src/desktop-manager.c:101-116 | every entry belongs to a screen already visited |
| Manager.FillLength | src/desktop-manager.c:96-100 | the array has one slot per monitor over all screens |
| Manager.FillContains | src/desktop-manager.c:101-116 | every (screen, monitor) pair has its entry |
| Manager.FillMember | src/desktop-manager.c:101-116 | every entry is some monitor of some screen, with mon_init applied |
| Manager.ScreenOfMonotone | src/desktop-manager.c:169-171 | the search's screen counter never decreases along the array |
| Manager.ScreenOfFill | src/desktop-manager.c:169-171 | the counter, advanced at monitors 0 and −1, equals each entry's real screen |
| Manager.FillLookup | src/desktop-manager.c:161-174 | an entry matches a request iff it is that (screen, monitor); such an entry exists iff the monitor exists on a managed screen |
| Manager.DesktopManager.Init | src/desktop-manager.c:95-116 | the nested loops fill the array in screen-then-monitor order |
| Manager.DesktopManager.Get | src/desktop-manager.c:161-174 | with the monitor number cast to `gint`, returns the first matching entry, or none iff no entry matches |
| Manager.GuintToGint | src/desktop-manager.c:166 | the `(gint)` cast: the signed 32-bit value congruent to the `guint`, unchanged below 2^31 |
| Manager.LargestMonitorFindsHidden | src/desktop-manager.c:166 | a request for monitor 2^32−1 matches exactly the desktops with monitor −1 on the counted screen |
| Manager.Shown | src/desktop-manager.c:48-62 | exactly the entries with a non-negative monitor |
| Manager.ShownAfterFill | src/desktop-manager.c:107-110 | a desktop is shown iff its screen is managed |
| Manager.DesktopManager.ShownDesktops | src/desktop-manager.c:127-131 | the loop selects exactly the shown desktops |
| Manager.DesktopManager.OnWallpaperChanged | src/desktop-manager.c:48-54 | exactly the shown desktops get their background updated, in order |

## Left out

- X11 and GDK plumbing is not modelled: property reads, `XSelectInput`, event filter registration, the root pixmap, widget realisation and drawing. Property values, client lists and events are inputs.
- Rendering is not modelled: cairo, Pango and the image scaling in `prepare_cached_background`. Pixbuf sizes and Pango logical extents are inputs, and "an image was rendered" is a flag.
- Floating-point font metrics in `calculate_item_metrics` are not modelled; the text box size is an input (`Layout.CellMetrics` takes it).
- Nearest-item keyboard navigation and the pointer, key and drag-and-drop handlers are not modelled. These are UI event glue.
- Layout.PlaceFree: the retry loop of `layout_items` has no bound in C. The model gives it a `fuel` count and states the first-fit result only when it succeeds within the fuel.
- Layout.LayoutItems: the placement is stated only when the run completes within the fuel (`done`); otherwise only the list bookkeeping is guaranteed.
- `update_working_area`: the GTK ≥ 3.4 branch and the `goto _out` paths, which leave the result uninitialised, are not modelled. Only the clip arithmetic is.
- `load_items` (src/desktop.c:244-285) is modelled for one item, as `ItemPos.LoadPosition`: the group lookup by name and the two integer reads. The loop over the folder model, the icon lookup, the prepend to the fixed list, `calc_item_size` and the layout request are not modelled.
- ItemPos.ParsePositions models GKeyFile's reader only for the layout `save_item_pos` writes. Comments, other line layouts and duplicate groups are not modelled; any other text counts as a failed load. GKeyFile's check on group names is modelled (`ItemPos.ParseGroup`).
- ItemPos.ParseSerialize: the round trip runs through `ItemPos.ParsePositions`, not GKeyFile itself, gives back escaped headers, and holds only when GKeyFile accepts every escaped name as a group name; one refused name fails the whole load (`ItemPos.UnreadableFileFails`, `ItemPos.BracketNameLosesAll`). The program looks items up by the raw basename (src/desktop.c:268), which loses every name holding a backslash, CR or LF (`ItemPos.LineBreakNameLost`, `ItemPos.BackslashNameLost`); only plain, acceptable names come back under their own name (`ItemPos.SaveLoadPlain`). See Findings.
- ItemPos.SaveLoadEscaped and ItemPos.SaveLoadPlain require every saved name to be one GKeyFile accepts as a group name (`ItemPos.ReadableNames`); without it the file does not load at all.
- Layout.Desktop.SaveItemPos writes every pinned item as the program does, names GKeyFile refuses included; the corrected filter `ItemPos.Readable` is stated and proved beside it but not used by it.
- ItemPos.ParseBlockOfBlock: a block whose escaped name GKeyFile refuses fails to read, and so does every text that contains it.
- GKeyFile parsing and escaping are not modelled: a key file is a map from keys to strings. Values containing line breaks are not modelled.
- `gdk_color_parse` is modelled only for `#rrggbb`. The `pixel` field that `params_equal` also compares with `memcmp` is ignored.
- libfm's `fm_key_file_get_int` and `fm_key_file_get_bool` are not part of this model. They are modelled as `atoi` (leading blanks, an optional sign and digits; `long` overflow is not modelled) and as "starts with `1` or `t`".
- The libfm column enumeration is an input: `COL_FILE_MTIME` and `FM_FOLDER_MODEL_COL_IS_VALID` become a column number and a set of valid columns.
- AppConfig.Config.LoadFromKeyFile: reloading with a count ≤ 0 leaves a dangling `wallpapers` pointer in C; the model uses an empty array.
- Wallpaper.GetWallpaperPath: the `(gint)` cast of a desktop number ≥ 2^31 is not modelled; desktop numbers are natural numbers.
- 32-bit wrap-around is modelled only in `Tracker.ToGint` and in the `(gint)` cast of `fm_desktop_get` (`Manager.GuintToGint`); `Decimal.KeyFileInteger` models the `gint` range of a parsed value. Item coordinates, counters and the generator's `long` fields are unbounded integers, so their overflow is not modelled.
- Layout.Desktop.constructor computes the cell size from the font and icon size at once, where `fm_desktop_constructor` leaves `cell_w` and `cell_h` at 0 until the first `layout_items` (src/desktop.c:462) computes them; the model's invariant needs a positive cell size, and the first layout sets the same values.
- Items are referred to by model index rather than by pointer. Row deletion renumbers references explicitly.
- The preferences dialog (src/pref.c), `main`, the signal pipe and single-instance handling are not modelled. Opening the dialog, starting or stopping the desktop, signalling a wallpaper change and writing files are reported as effects or returned text.
- Tracker.WindowTracker.ReadOverlapStatus: the record, the result and hence the notification follow the corrected change test (`Tracker.Changed`), not the test as written (`Tracker.ChangedAsWritten`). The two differ for a reserving status: a tracked window whose status (0,0,100,30) is re-read unchanged reports a change in C and none in the model (see Findings). The model states the as-written result only for non-reserving statuses, where the two agree.
- Tracker.WindowTracker.EventFilter: a reservation change notifies per the corrected change test of `ReadOverlapStatus`. In C, re-reading an unchanged reserving status such as (0,0,100,30) always emits a notification.
- Manager.DesktopManager.OnWallpaperChanged: passes the corrected changed flag (`Wallpaper.ChangedFlag`, `i >= 0`) to `UpdateBackground`, not the C truth test (`Wallpaper.ChangedFlagAsWritten`). For a wallpaper change while `desktops[0]` is shown, C reads i = 0 as a refresh and drops the new wallpaper; the model stores it (see Findings).
- Manager.DesktopManager.OnWallpaperChanged: states which desktops are refreshed and in what order. The resulting cache and configuration follow from `Wallpaper.WallpaperCache.UpdateBackground` for each call and are not restated.
- Layout.Desktop.FixPos: when unfixing, item positions after the relayout are stated only through the fixed flags, not re-stated per item.

## Findings

| source | as written | input that shows it | evidently intended | confidence | as-written member | corrected member |
|---|---|---|---|---|---|---|
| src/cell-placement-generator.h:179 | bottom-to-top overflow test compares `_x` with `top_line` | box (0,0)-(400,300), cell 80x60, rows, btt, cursor (320,0): next cursor is (0,-60), outside the box; in column mode the cursor walks upward for ever | `_y < top_line` | high, not executed | Placement.BottomToTopLeavesBox | Placement.AlwaysInBounds |
| src/window-tracker.c:149-154 | a signed 1-bit `gboolean` field is compared with `TRUE` | re-reading an unchanged 4-value property (0,0,100,30): the stored bit reads −1, not 1, so a change is reported and a notification emitted every time | compare the truth values | medium, not executed | Tracker.SpuriousChangeExample | Tracker.ChangedIffRecordChanges |
| src/wallpaper-manager.c:84 | the "changed" argument is tested for truth, while callers pass a desktop index (src/desktop-manager.c:53) or −1 for a refresh (src/desktop.c:1141) | change on desktop 0 reads as a refresh and drops the new wallpaper; a −1 refresh on desktop 1 overwrites its slot with the current wallpaper | `arg >= 0` means changed | medium, not executed | Wallpaper.ChangedFlagAsWrittenMisreads | Wallpaper.ChangedFlagIntended |
| src/desktop.c:268 | `load_items` looks up the item's raw basename, while `save_item_pos` (src/desktop.c:331-348) writes the escaped name as the group header, and GKeyFile undoes no escapes in group names | an item named `a\b` pinned at (1,2) is saved under `[a\\b]` and is not found on reload, so it loses its position; a name with a line break is never found | look the item up under its escaped name | medium, not executed | ItemPos.BackslashNameLost | ItemPos.SaveLoadEscaped |
| src/desktop.c:331-348 | `save_item_pos` escapes only CR, LF and `\` in the basename it writes as a group header, so `[`, `]` and other control characters are written raw; GKeyFile refuses such a header, `g_key_file_load_from_file` (src/desktop.c:257) fails and no position is read | pinned items `a` at (1,2) and `photo [1].jpg` at (3,4): on reload neither is found, so `a` also loses its position | a name GKeyFile cannot hold should not cost the other items their positions: write only the acceptable names | medium, not executed | ItemPos.BracketNameLosesAll | ItemPos.SaveReadableLoads |
