/**
 * The desktop window's item bookkeeping and layout.
 *
 * Items are the folder model's rows, in model order; the model refers to an
 * item by its position in that order. `fixedItems` is the list of pinned
 * items, most recently pinned first, and every item's `fixedPos` flag says
 * whether it is on that list. Layout puts every free item on the first
 * candidate cell of the placement generator that is not occupied by a pinned
 * item or by a window that reserves its area.
 */
module Layout {
  import opened Common
  import opened DesktopGeometry
  import Placement
  import Tracker
  import ItemPos
  import Decimal

  /** One desktop item: its file's basename, its position, its two rectangles and its label cache. */
  datatype Item = Item(
    name: string,
    x: int, y: int,
    iconRect: Rect, textRect: Rect,
    extents: Rect,
    pangoStamp: int,
    cachedText: CacheSlot, cachedShadow: CacheSlot,
    selected: bool, fixedPos: bool)

  /** What the pixbuf column and pango report for an item: the icon's size, if any, and the label's logical extents. */
  datatype Measure = Measure(icon: Option<Size>, extents: Rect)

  /** The desktop's sizing inputs to calc_item_size: cell width, configured icon size, current pango timestamp. */
  datatype Sizing = Sizing(cellW: int, iconSize: int, stamp: int)

  /** The configuration the desktop reads. */
  datatype DesktopConfig = DesktopConfig(inRows: bool, rtl: bool, btt: bool, showIcons: bool, iconSize: int)

  /**
   * The integer part of calculate_item_metrics: from the label box (border
   * included) and the icon size, the cell size with padding and spacing.
   */
  function CellMetrics(textW: int, textH: int, iconSize: int): (r: (int, int))
    ensures r.0 - 2 * PADDING == Max(textW, iconSize)
    ensures r.1 == iconSize + SPACING + textH + 2 * PADDING
    ensures textW >= 0 && textH >= 0 && iconSize >= 0 ==> r.0 > 0 && r.1 > 0
  {
    (Max(textW, iconSize) + 2 * PADDING, iconSize + SPACING + textH + 2 * PADDING)
  }

  /** cached_layout_image_invalidate */
  function Invalidate(c: CacheSlot): (r: CacheSlot)
    ensures !r.hasSurface && r.timestamp == c.timestamp
  {
    c.(hasSurface := false)
  }

  /**
   * calc_item_size: both rectangles from the item's position; the label is
   * measured again, and its cached renderings dropped, only when the
   * item's pango timestamp is stale.
   */
  function CalcItemSize(it: Item, sz: Sizing, me: Measure): (r: Item)
    ensures r.x == it.x && r.y == it.y && r.name == it.name
    ensures r.selected == it.selected && r.fixedPos == it.fixedPos
    ensures r.pangoStamp == sz.stamp
    ensures r.extents == (if it.pangoStamp == sz.stamp then it.extents else me.extents)
  {
    var m := ItemMetrics(sz.cellW, PADDING, SPACING, sz.iconSize);
    var ic := IconRect(it.x, it.y, m, me.icon);
    var it1 :=
      if it.pangoStamp != sz.stamp then
        it.(pangoStamp := sz.stamp, extents := me.extents,
            cachedText := Invalidate(it.cachedText), cachedShadow := Invalidate(it.cachedShadow))
      else it;
    it1.(iconRect := ic, textRect := TextRect(it.x, ic, m, it1.extents))
  }

  /** Sizing an item at (x, y). */
  function SizedAt(it: Item, sz: Sizing, pos: (int, int), me: Measure): Item
  {
    CalcItemSize(it.(x := pos.0, y := pos.1), sz, me)
  }

  /** Re-sizing an item at another position is sizing the original there: the label is measured once. */
  lemma ResizeAgain(it: Item, sz: Sizing, p: (int, int), q: (int, int), me: Measure)
    ensures SizedAt(SizedAt(it, sz, p, me), sz, q, me) == SizedAt(it, sz, q, me)
  {
  }

  /** A sized item does not change when sized again where it is. */
  lemma CalcItemSizeIdempotent(it: Item, sz: Sizing, me: Measure)
    ensures CalcItemSize(CalcItemSize(it, sz, me), sz, me) == CalcItemSize(it, sz, me)
  {
  }

  /** move_item: the new position, both rectangles shifted by the same delta, and the item pinned. */
  function Moved(it: Item, x: int, y: int): (r: Item)
    ensures r.fixedPos && r.x == x && r.y == y
    ensures r.iconRect.width == it.iconRect.width && r.iconRect.height == it.iconRect.height
    ensures r.textRect.width == it.textRect.width && r.textRect.height == it.textRect.height
    ensures r.iconRect.x - it.iconRect.x == x - it.x && r.iconRect.y - it.iconRect.y == y - it.y
    ensures r.textRect.x - it.textRect.x == x - it.x && r.textRect.y - it.textRect.y == y - it.y
  {
    var dx := x - it.x;
    var dy := y - it.y;
    it.(x := x, y := y, iconRect := Shift(it.iconRect, dx, dy), textRect := Shift(it.textRect, dx, dy),
        fixedPos := true)
  }

  /**
   * Shifting instead of recomputing is sound: moving an item whose
   * rectangles are up to date gives the rectangles computed at the new
   * position.
   */
  lemma MovedIsResized(it: Item, sz: Sizing, me: Measure, x: int, y: int)
    requires it == CalcItemSize(it, sz, me)
    ensures Moved(it, x, y) == SizedAt(it, sz, (x, y), me).(fixedPos := true)
  {
    var m := ItemMetrics(sz.cellW, PADDING, SPACING, sz.iconSize);
    RectsFollowPosition(it.x, it.y, x - it.x, y - it.y, m, me.icon, it.extents);
  }

  /* ------------------------------------------------------------------ */
  /* The pinned list                                                     */

  /** The pinned list names items that exist and are flagged, each once, and every flagged item is on it. */
  predicate FixedListValid(items: seq<Item>, fixed: seq<nat>)
  {
    && (forall j :: 0 <= j < |fixed| ==> fixed[j] < |items| && items[fixed[j]].fixedPos)
    && (forall k :: 0 <= k < |items| && items[k].fixedPos ==> k in fixed)
    && (forall i, j :: 0 <= i < j < |fixed| ==> fixed[i] != fixed[j])
  }

  /** Pinning item k, replaced by the pinned value v: prepend it unless it already was pinned. */
  lemma PinKeepsValid(items: seq<Item>, fixed: seq<nat>, k: nat, v: Item)
    requires FixedListValid(items, fixed) && k < |items| && v.fixedPos
    ensures FixedListValid(items[k := v], if items[k].fixedPos then fixed else [k] + fixed)
  {
    if items[k].fixedPos {
      SameFlagKeepsValid(items, fixed, k, v);
    } else {
      var items' := items[k := v];
      var fixed' := [k] + fixed;
      assert forall p :: 0 <= p < |fixed| ==> fixed[p] != k;
      forall j | 0 <= j < |fixed'| ensures fixed'[j] < |items'| && items'[fixed'[j]].fixedPos {
        if j > 0 {
          assert fixed'[j] == fixed[j - 1];
        }
      }
      forall k' | 0 <= k' < |items'| && items'[k'].fixedPos ensures k' in fixed' {
        if k' != k {
          assert items[k'].fixedPos;
          assert k' in fixed;
        }
      }
      forall i, j | 0 <= i < j < |fixed'| ensures fixed'[i] != fixed'[j] {
        assert fixed'[j] == fixed[j - 1];
        if i == 0 {
          assert fixed[j - 1] in fixed;
        } else {
          assert fixed'[i] == fixed[i - 1];
        }
      }
    }
  }

  /** Replacing an item by one with the same flag keeps the list valid. */
  lemma SameFlagKeepsValid(items: seq<Item>, fixed: seq<nat>, k: nat, v: Item)
    requires FixedListValid(items, fixed) && k < |items| && v.fixedPos == items[k].fixedPos
    ensures FixedListValid(items[k := v], fixed)
  {
    var items' := items[k := v];
    forall k' | 0 <= k' < |items'| && items'[k'].fixedPos ensures k' in fixed {
      assert items[k'].fixedPos;
    }
  }

  /** g_list_remove: drop the first occurrence of x. */
  function RemoveFirst(s: seq<nat>, x: nat): (r: seq<nat>)
    ensures |r| <= |s|
    ensures forall y :: y in r ==> y in s
  {
    if |s| == 0 then [] else if s[0] == x then s[1..] else [s[0]] + RemoveFirst(s[1..], x)
  }

  /** On a list without duplicates, removing x removes it entirely and nothing else. */
  lemma {:induction false} RemoveFirstDistinct(s: seq<nat>, x: nat)
    requires forall i, j :: 0 <= i < j < |s| ==> s[i] != s[j]
    ensures forall y :: y in RemoveFirst(s, x) <==> y in s && y != x
    ensures forall i, j :: 0 <= i < j < |RemoveFirst(s, x)| ==> RemoveFirst(s, x)[i] != RemoveFirst(s, x)[j]
    ensures |RemoveFirst(s, x)| == if x in s then |s| - 1 else |s|
  {
    if |s| > 0 {
      if s[0] == x {
        assert x !in s[1..];
      } else {
        RemoveFirstDistinct(s[1..], x);
        assert forall y :: y in s <==> y == s[0] || y in s[1..];
        var r := RemoveFirst(s[1..], x);
        assert s[0] !in s[1..];
        forall i, j | 0 <= i < j < |[s[0]] + r| ensures ([s[0]] + r)[i] != ([s[0]] + r)[j] {
          if i == 0 {
            assert ([s[0]] + r)[j] == r[j - 1] && r[j - 1] in r;
          }
        }
      }
    }
  }

  /** Unpinning item k: clear its flag and take it off the list. */
  lemma UnpinKeepsValid(items: seq<Item>, fixed: seq<nat>, k: nat, v: Item)
    requires FixedListValid(items, fixed) && k < |items| && !v.fixedPos
    ensures FixedListValid(items[k := v], RemoveFirst(fixed, k))
  {
    RemoveFirstDistinct(fixed, k);
    var items' := items[k := v];
    var fixed' := RemoveFirst(fixed, k);
    forall j | 0 <= j < |fixed'| ensures fixed'[j] < |items'| && items'[fixed'[j]].fixedPos {
      assert fixed'[j] in fixed;
    }
    forall k' | 0 <= k' < |items'| && items'[k'].fixedPos ensures k' in fixed' {
      assert items[k'].fixedPos;
    }
  }

  /** An index after the deleted row k moves up by one. */
  function Renumber(j: nat, k: nat): nat
  {
    if j > k then j - 1 else j
  }

  function RenumberAll(s: seq<nat>, k: nat): (r: seq<nat>)
    ensures |r| == |s| && forall i :: 0 <= i < |s| ==> r[i] == Renumber(s[i], k)
  {
    seq(|s|, i requires 0 <= i < |s| => Renumber(s[i], k))
  }

  /** A reference after deleting row k: gone if it was k, renumbered otherwise. */
  function RenumberRef(r: Option<nat>, k: nat): Option<nat>
  {
    match r
    case None => None
    case Some(j) => if j == k then None else Some(Renumber(j, k))
  }

  /** Deleting row k and its entry in the pinned list keeps the list valid. */
  lemma DeleteKeepsValid(items: seq<Item>, fixed: seq<nat>, k: nat)
    requires FixedListValid(items, fixed) && k < |items|
    ensures FixedListValid(items[..k] + items[k + 1..], RenumberAll(RemoveFirst(fixed, k), k))
  {
    RemoveFirstDistinct(fixed, k);
    DeleteFlagged(items, fixed, k);
    DeleteListed(items, fixed, k);
    DeleteDistinct(fixed, k);
  }

  lemma DeleteFlagged(items: seq<Item>, fixed: seq<nat>, k: nat)
    requires FixedListValid(items, fixed) && k < |items|
    requires forall y :: y in RemoveFirst(fixed, k) <==> y in fixed && y != k
    ensures var items', fixed' := items[..k] + items[k + 1..], RenumberAll(RemoveFirst(fixed, k), k);
      forall j :: 0 <= j < |fixed'| ==> fixed'[j] < |items'| && items'[fixed'[j]].fixedPos
  {
    var items' := items[..k] + items[k + 1..];
    var f := RemoveFirst(fixed, k);
    var fixed' := RenumberAll(f, k);
    forall j | 0 <= j < |fixed'| ensures fixed'[j] < |items'| && items'[fixed'[j]].fixedPos {
      assert f[j] in f;
      ListedIsFlagged(items, fixed, f[j]);
      if f[j] > k {
        assert items'[f[j] - 1] == items[f[j]];
      } else {
        assert items'[f[j]] == items[f[j]];
      }
    }
  }

  lemma ListedIsFlagged(items: seq<Item>, fixed: seq<nat>, x: nat)
    requires FixedListValid(items, fixed) && x in fixed
    ensures x < |items| && items[x].fixedPos
  {
    var p :| 0 <= p < |fixed| && fixed[p] == x;
  }

  lemma DeleteListed(items: seq<Item>, fixed: seq<nat>, k: nat)
    requires FixedListValid(items, fixed) && k < |items|
    requires forall y :: y in RemoveFirst(fixed, k) <==> y in fixed && y != k
    ensures var items', fixed' := items[..k] + items[k + 1..], RenumberAll(RemoveFirst(fixed, k), k);
      forall k' :: 0 <= k' < |items'| && items'[k'].fixedPos ==> k' in fixed'
  {
    var items' := items[..k] + items[k + 1..];
    var f := RemoveFirst(fixed, k);
    var fixed' := RenumberAll(f, k);
    forall k' | 0 <= k' < |items'| && items'[k'].fixedPos ensures k' in fixed' {
      var orig := if k' < k then k' else k' + 1;
      assert items'[k'] == items[orig];
      assert orig in fixed && orig != k;
      assert orig in f;
      var p :| 0 <= p < |f| && f[p] == orig;
      assert fixed'[p] == k';
    }
  }

  lemma DeleteDistinct(fixed: seq<nat>, k: nat)
    requires forall y :: y in RemoveFirst(fixed, k) <==> y in fixed && y != k
    requires forall i, j :: 0 <= i < j < |RemoveFirst(fixed, k)| ==> RemoveFirst(fixed, k)[i] != RemoveFirst(fixed, k)[j]
    ensures var fixed' := RenumberAll(RemoveFirst(fixed, k), k);
      forall i, j :: 0 <= i < j < |fixed'| ==> fixed'[i] != fixed'[j]
  {
    var f := RemoveFirst(fixed, k);
    var fixed' := RenumberAll(f, k);
    forall i, j | 0 <= i < j < |fixed'| ensures fixed'[i] != fixed'[j] {
      assert f[i] != f[j] && f[i] != k && f[j] != k by {
        assert f[i] in f && f[j] in f;
      }
    }
  }

  /** on_fix_pos's pin loop over the selection, as a fold: each item not yet pinned goes to the front. */
  function PinAll(fixed: seq<nat>, sel: seq<nat>): seq<nat>
  {
    if |sel| == 0 then fixed
    else
      var f := PinAll(fixed, sel[..|sel| - 1]);
      var x := sel[|sel| - 1];
      if x in f then f else [x] + f
  }

  lemma PinAllStep(fixed: seq<nat>, sel: seq<nat>, j: nat)
    requires j < |sel|
    ensures PinAll(fixed, sel[..j + 1]) ==
      var f := PinAll(fixed, sel[..j]); if sel[j] in f then f else [sel[j]] + f
  {
    assert sel[..j + 1][..j] == sel[..j];
  }

  /** The unpin loop over the selection: each item taken off the list. */
  function UnpinAll(fixed: seq<nat>, sel: seq<nat>): seq<nat>
  {
    if |sel| == 0 then fixed else RemoveFirst(UnpinAll(fixed, sel[..|sel| - 1]), sel[|sel| - 1])
  }

  /** Pinning a selection pins exactly the old pinned items and the selection, each once. */
  lemma {:induction false} PinAllElements(fixed: seq<nat>, sel: seq<nat>)
    requires forall i, j :: 0 <= i < j < |fixed| ==> fixed[i] != fixed[j]
    ensures forall y :: y in PinAll(fixed, sel) <==> y in fixed || y in sel
    ensures forall i, j :: 0 <= i < j < |PinAll(fixed, sel)| ==> PinAll(fixed, sel)[i] != PinAll(fixed, sel)[j]
  {
    if |sel| > 0 {
      var s := sel[..|sel| - 1];
      PinAllElements(fixed, s);
      assert sel == s + [sel[|sel| - 1]];
      var f := PinAll(fixed, s);
      var x := sel[|sel| - 1];
      if x !in f {
        forall i, j | 0 <= i < j < |[x] + f| ensures ([x] + f)[i] != ([x] + f)[j] {
          if i == 0 {
            assert ([x] + f)[j] == f[j - 1];
          }
        }
      }
    }
  }

  /** Unpinning a selection leaves exactly the old pinned items outside it, each once. */
  lemma {:induction false} UnpinAllElements(fixed: seq<nat>, sel: seq<nat>)
    requires forall i, j :: 0 <= i < j < |fixed| ==> fixed[i] != fixed[j]
    ensures forall y :: y in UnpinAll(fixed, sel) <==> y in fixed && y !in sel
    ensures forall i, j :: 0 <= i < j < |UnpinAll(fixed, sel)| ==> UnpinAll(fixed, sel)[i] != UnpinAll(fixed, sel)[j]
  {
    if |sel| > 0 {
      var s := sel[..|sel| - 1];
      UnpinAllElements(fixed, s);
      assert sel == s + [sel[|sel| - 1]];
      RemoveFirstDistinct(UnpinAll(fixed, s), sel[|sel| - 1]);
    }
  }

  /* ------------------------------------------------------------------ */
  /* Occupancy                                                           */

  /** The item's icon or label meets the bounding box of pinned item f. */
  predicate HitsFixed(f: Item, it: Item)
  {
    var r := ItemRect(f.iconRect, f.textRect);
    Intersects(r, it.iconRect) || Intersects(r, it.textRect)
  }

  /** is_pos_occupied: a pinned item or a reserving window overlaps the item's icon or label. */
  predicate Occupied(items: seq<Item>, fixed: seq<nat>, ws: seq<Tracker.Window>, it: Item)
  {
    || (exists j :: 0 <= j < |fixed| && fixed[j] < |items| && HitsFixed(items[fixed[j]], it))
    || Tracker.Overlaps(ws, it.iconRect) || Tracker.Overlaps(ws, it.textRect)
  }

  /** Occupancy only looks at the pinned items. */
  lemma OccupiedAgree(a: seq<Item>, b: seq<Item>, fixed: seq<nat>, ws: seq<Tracker.Window>)
    requires |a| == |b|
    requires forall j :: 0 <= j < |fixed| && fixed[j] < |a| ==> a[fixed[j]] == b[fixed[j]]
    ensures forall it :: Occupied(a, fixed, ws, it) == Occupied(b, fixed, ws, it)
  {
  }

  /** With no pinned items and no reserving window nothing is occupied. */
  lemma NothingOccupied(items: seq<Item>, ws: seq<Tracker.Window>, it: Item)
    requires forall k :: 0 <= k < |ws| ==> !ws[k].reserving
    ensures !Occupied(items, [], ws, it)
  {
  }

  /**
   * The pinned items as one free item of the layout sees them: those before
   * index k in model order are already re-sized, the others are as before.
   */
  function Refit(olds: seq<Item>, sz: Sizing, ms: seq<Measure>, k: nat): (r: seq<Item>)
    requires |ms| == |olds|
    ensures |r| == |olds|
  {
    seq(|olds|, j requires 0 <= j < |olds| =>
      if j < k && olds[j].fixedPos then CalcItemSize(olds[j], sz, ms[j]) else olds[j])
  }

  /**
   * What layout promises for one item, given the generator steps m0 before
   * and m1 after it: a pinned item keeps its position and takes no step; a
   * free item takes at least one step, lands on the last candidate tried,
   * which is not occupied, and every candidate it skipped was.
   */
  ghost predicate ItemLaidOut(before: Item, after: Item, m0: nat, m1: nat, seen: seq<Item>, fixed: seq<nat>,
                              ws: seq<Tracker.Window>, g: Placement.Geometry, sz: Sizing, me: Measure)
  {
    if before.fixedPos then
      m1 == m0 && after == CalcItemSize(before, sz, me)
    else
      && m0 < m1
      && after == SizedAt(before, sz, Placement.CandidateAt(g, m1 - 1), me)
      && !Occupied(seen, fixed, ws, after)
      && forall s :: m0 <= s < m1 - 1 ==>
           Occupied(seen, fixed, ws, SizedAt(before, sz, Placement.CandidateAt(g, s), me))
  }

  /** The items as free item i sees them agree with Refit on every pinned item. */
  lemma SeenAgree(olds: seq<Item>, cur: seq<Item>, ms: seq<Measure>, sz: Sizing, fixed: seq<nat>,
                  ws: seq<Tracker.Window>, i: nat)
    requires |olds| == |cur| == |ms|
    requires forall j :: 0 <= j < |fixed| ==> fixed[j] < |cur| && cur[fixed[j]].fixedPos
    requires forall k :: i <= k < |cur| ==> cur[k] == olds[k]
    requires forall k :: 0 <= k < |cur| ==> cur[k].fixedPos == olds[k].fixedPos
    requires forall k :: 0 <= k < i && k < |cur| && olds[k].fixedPos ==> cur[k] == CalcItemSize(olds[k], sz, ms[k])
    ensures forall it :: Occupied(cur, fixed, ws, it) == Occupied(Refit(olds, sz, ms, i), fixed, ws, it)
  {
    var r := Refit(olds, sz, ms, i);
    forall j | 0 <= j < |fixed| && fixed[j] < |cur| ensures cur[fixed[j]] == r[fixed[j]] {
    }
    OccupiedAgree(cur, r, fixed, ws);
  }

  /** What the retry loop ensures, seen against the pinned items as layout has left them. */
  lemma FreeLaidOut(its: seq<Item>, seen: seq<Item>, fixed: seq<nat>, ws: seq<Tracker.Window>, i: nat, v: Item,
                    n0: nat, n1: nat, g: Placement.Geometry, sz: Sizing, me: Measure)
    requires i < |its| && !its[i].fixedPos && n0 < n1
    requires forall it :: Occupied(its, fixed, ws, it) == Occupied(seen, fixed, ws, it)
    requires v == SizedAt(its[i], sz, Placement.CandidateAt(g, n1 - 1), me)
    requires !Occupied(its, fixed, ws, v)
    requires AllOccupied(its, fixed, ws, its[i], sz, g, me, n0, n1 - 1)
    ensures ItemLaidOut(its[i], v, n0, n1, seen, fixed, ws, g, sz, me)
  {
  }

  /** Generator steps never go back. */
  lemma {:induction false} MarksMonotone(marks: seq<nat>, i: nat, j: nat)
    requires forall k :: 0 <= k < |marks| - 1 ==> marks[k] <= marks[k + 1]
    requires i <= j < |marks|
    ensures marks[i] <= marks[j]
    decreases j - i
  {
    if i < j {
      MarksMonotone(marks, i + 1, j);
    }
  }

  /** Free items take strictly increasing generator steps in model order. */
  lemma FreeStepsIncrease(olds: seq<Item>, marks: seq<nat>, i: nat, j: nat)
    requires |marks| == |olds| + 1
    requires forall k :: 0 <= k < |olds| ==> marks[k] <= marks[k + 1]
    requires forall k :: 0 <= k < |olds| && !olds[k].fixedPos ==> marks[k] < marks[k + 1]
    requires i < j < |olds| && !olds[i].fixedPos && !olds[j].fixedPos
    ensures marks[i + 1] - 1 < marks[j + 1] - 1
  {
    MarksMonotone(marks, i + 1, j);
  }

  /** How a selection action treats one item. */
  datatype SelectAction = Select | Unselect | Invert

  function NewSelected(a: SelectAction, was: bool): bool
  {
    match a
    case Select => true
    case Unselect => false
    case Invert => !was
  }

  /** Inverting twice restores every item; selecting or unselecting twice is doing it once. */
  lemma SelectActionLaws(a: SelectAction, was: bool)
    ensures NewSelected(Invert, NewSelected(Invert, was)) == was
    ensures a != Invert ==> NewSelected(a, NewSelected(a, was)) == NewSelected(a, was)
    ensures NewSelected(a, was) != was <==> (a == Invert || (a == Select) != was)
  {
  }

  /** The label of an item is hit at (x, y). */
  predicate Hit(it: Item, x: int, y: int)
  {
    PointInRect(it.iconRect, x, y) || PointInRect(it.textRect, x, y)
  }

  /** The entries save_item_pos writes for the given pinned indices. */
  function FixedEntries(items: seq<Item>, fixed: seq<nat>): (r: seq<ItemPos.Entry>)
    requires forall j :: 0 <= j < |fixed| ==> fixed[j] < |items|
    ensures |r| == |fixed|
  {
    seq(|fixed|, j requires 0 <= j < |fixed| =>
      ItemPos.Entry(items[fixed[j]].name, items[fixed[j]].x, items[fixed[j]].y))
  }

  /** The snap origin: the working area's corner inside the margin, the right one for a right-to-left widget. */
  function SnapOrigin(wa: Rect, cellW: int, widgetRtl: bool): (int, int)
  {
    (if widgetRtl then wa.x + wa.width - MARGIN - cellW else wa.x + MARGIN, wa.y + MARGIN)
  }

  /** Snapping one item: to the nearest grid point on both axes, moved as move_item moves. */
  function Snapped(it: Item, origin: (int, int), cellW: int, cellH: int): Item
    requires cellW > 0 && cellH > 0
  {
    Moved(it, SnapCoord(origin.0, it.x, cellW), SnapCoord(origin.1, it.y, cellH))
  }

  /** A snapped item is on the grid and within half a cell of where it was on each axis. */
  lemma SnappedOnGrid(it: Item, origin: (int, int), cellW: int, cellH: int)
    requires cellW > 0 && cellH > 0
    ensures var s := Snapped(it, origin, cellW, cellH);
      && (s.x - origin.0) % cellW == 0 && (s.y - origin.1) % cellH == 0
      && 2 * Abs(s.x - it.x) <= cellW && 2 * Abs(s.y - it.y) <= cellH
      && Snapped(s, origin, cellW, cellH) == s
  {
    SnapIsNearestGridPoint(origin.0, it.x, cellW, 0);
    SnapIsNearestGridPoint(origin.1, it.y, cellH, 0);
    SnapIdempotent(origin.0, it.x, cellW);
    SnapIdempotent(origin.1, it.y, cellH);
    var s := Snapped(it, origin, cellW, cellH);
    assert Shift(s.iconRect, 0, 0) == s.iconRect && Shift(s.textRect, 0, 0) == s.textRect;
  }

  /** An escaped name built one character at a time is the escaped name. */
  method EscapeName(name: string) returns (r: string)
    ensures r == ItemPos.Escape(name)
  {
    r := "";
    var i := 0;
    while i < |name|
      invariant 0 <= i <= |name|
      invariant r == ItemPos.Escape(name[..i])
    {
      ItemPos.EscapeAppend(name[..i], name[i]);
      assert name[..i + 1] == name[..i] + [name[i]];
      var c := name[i];
      if c == '\r' {
        r := r + "\\r";
      } else if c == '\n' {
        r := r + "\\n";
      } else if c == '\\' {
        r := r + "\\\\";
      } else {
        r := r + [c];
      }
      i := i + 1;
    }
    assert name[..|name|] == name;
  }

  /** An item keeps its name, its selection and its pinned flag. */
  predicate SameIdentity(a: Item, b: Item)
  {
    a.name == b.name && a.selected == b.selected && a.fixedPos == b.fixedPos
  }

  /** The whole layout: every item laid out as ItemLaidOut says, the steps starting at 0. */
  ghost predicate LaidOut(olds: seq<Item>, news: seq<Item>, marks: seq<nat>, fixed: seq<nat>,
                          ws: seq<Tracker.Window>, g: Placement.Geometry, sz: Sizing, ms: seq<Measure>)
  {
    && |news| == |olds| == |ms| && |marks| == |olds| + 1 && marks[0] == 0
    && forall k :: 0 <= k < |olds| ==>
         ItemLaidOut(olds[k], news[k], marks[k], marks[k + 1], Refit(olds, sz, ms, k), fixed, ws, g, sz, ms[k])
  }

  /** is_pos_occupied */
  method IsPosOccupied(items: seq<Item>, fixed: seq<nat>, it: Item, tracker: Tracker.WindowTracker) returns (b: bool)
    requires forall j :: 0 <= j < |fixed| ==> fixed[j] < |items|
    ensures b == Occupied(items, fixed, tracker.windows, it)
  {
    var j := 0;
    while j < |fixed|
      invariant 0 <= j <= |fixed|
      invariant forall i :: 0 <= i < j ==> !HitsFixed(items[fixed[i]], it)
    {
      var f := items[fixed[j]];
      var rect := ItemRect(f.iconRect, f.textRect);
      if Intersects(rect, it.iconRect) || Intersects(rect, it.textRect) {
        assert HitsFixed(items[fixed[j]], it);
        return true;
      }
      j := j + 1;
    }
    b := tracker.TestOverlap(it.iconRect);
    if !b {
      b := tracker.TestOverlap(it.textRect);
    }
  }

  /** The generator stands at step n of geometry g. */
  ghost predicate GeneratorAt(cpg: Placement.CellPlacementGenerator, g: Placement.Geometry, n: nat)
    reads cpg
  {
    cpg.Geo() == g && cpg.Cur() == Placement.CursorAt(Placement.AsWritten, g, n)
    && (cpg.x, cpg.y) == Placement.CandidateAt(g, n)
  }

  /** The generator as layout_items sets it up: box, cell size, rules, then reset. */
  method StartGenerator(g: Placement.Geometry) returns (cpg: Placement.CellPlacementGenerator)
    ensures fresh(cpg) && GeneratorAt(cpg, g, 0)
  {
    cpg := new Placement.CellPlacementGenerator();
    cpg.SetBoundingBox(g.left, g.top, g.right, g.bottom);
    cpg.SetCellSize(g.cellW, g.cellH);
    cpg.SetPlacementRules(g.inRows, g.rtl, g.btt);
    cpg.Reset();
  }

  /** One advance takes the generator from step n to step n + 1. */
  method StepGenerator(cpg: Placement.CellPlacementGenerator, ghost g: Placement.Geometry, ghost n: nat)
    requires GeneratorAt(cpg, g, n)
    modifies cpg
    ensures GeneratorAt(cpg, g, n + 1)
  {
    cpg.Advance();
  }

  /** Every candidate from step n0 up to n1 was occupied for the item. */
  ghost predicate AllOccupied(items: seq<Item>, fixed: seq<nat>, ws: seq<Tracker.Window>, it: Item,
                              sz: Sizing, g: Placement.Geometry, me: Measure, n0: nat, n1: nat)
  {
    forall s :: n0 <= s < n1 ==> Occupied(items, fixed, ws, SizedAt(it, sz, Placement.CandidateAt(g, s), me))
  }

  /**
   * The retry loop for one free item: try the generator's candidate, step
   * the generator, and go on while the candidate is occupied. The loop has
   * no bound in the source; `fuel` bounds the number of retries here.
   */
  method PlaceFree(its: seq<Item>, fixed: seq<nat>, i: nat, sz: Sizing, me: Measure,
                   cpg: Placement.CellPlacementGenerator, tracker: Tracker.WindowTracker,
                   fuel: nat, ghost g: Placement.Geometry, ghost n0: nat)
    returns (ok: bool, placed: Item, ghost n1: nat)
    requires FixedListValid(its, fixed) && i < |its| && !its[i].fixedPos
    requires GeneratorAt(cpg, g, n0)
    modifies cpg
    ensures GeneratorAt(cpg, g, n1) && n0 < n1
    ensures SameIdentity(its[i], placed)
    ensures ok ==>
      && placed == SizedAt(its[i], sz, Placement.CandidateAt(g, n1 - 1), me)
      && !Occupied(its, fixed, tracker.windows, placed)
      && AllOccupied(its, fixed, tracker.windows, its[i], sz, g, me, n0, n1 - 1)
  {
    var f := fuel;
    var cur := its[i];
    n1 := n0;
    while true
      invariant SameIdentity(its[i], cur)
      invariant cur == its[i] || cur == SizedAt(its[i], sz, (cur.x, cur.y), me)
      invariant n0 <= n1 && GeneratorAt(cpg, g, n1)
      invariant AllOccupied(its, fixed, tracker.windows, its[i], sz, g, me, n0, n1)
      decreases f
    {
      var cand, occ := TryCandidate(its, fixed, i, cur, sz, me, cpg, tracker, g, n1);
      AllOccupiedStep(its, fixed, tracker.windows, its[i], sz, g, me, n0, n1, occ);
      cur := cand;
      n1 := n1 + 1;
      if !occ {
        return true, cand, n1;
      }
      if f == 0 {
        return false, cand, n1;
      }
      f := f - 1;
    }
  }

  /** One try of the retry loop: size the item at the generator's candidate, test it, step the generator. */
  method TryCandidate(its: seq<Item>, fixed: seq<nat>, i: nat, cur: Item, sz: Sizing, me: Measure,
                      cpg: Placement.CellPlacementGenerator, tracker: Tracker.WindowTracker,
                      ghost g: Placement.Geometry, ghost n: nat)
    returns (cand: Item, occ: bool)
    requires FixedListValid(its, fixed) && i < |its|
    requires cur == its[i] || cur == SizedAt(its[i], sz, (cur.x, cur.y), me)
    requires GeneratorAt(cpg, g, n)
    modifies cpg
    ensures GeneratorAt(cpg, g, n + 1)
    ensures cand == SizedAt(its[i], sz, Placement.CandidateAt(g, n), me)
    ensures occ == Occupied(its, fixed, tracker.windows, cand)
  {
    var pos := (cpg.x, cpg.y);
    cand := CalcItemSize(cur.(x := cpg.x, y := cpg.y), sz, me);
    if cur != its[i] {
      ResizeAgain(its[i], sz, (cur.x, cur.y), pos, me);
    }
    StepGenerator(cpg, g, n);
    occ := IsPosOccupied(its, fixed, cand, tracker);
  }

  lemma AllOccupiedStep(items: seq<Item>, fixed: seq<nat>, ws: seq<Tracker.Window>, it: Item,
                        sz: Sizing, g: Placement.Geometry, me: Measure, n0: nat, n1: nat, occ: bool)
    requires n0 <= n1 && AllOccupied(items, fixed, ws, it, sz, g, me, n0, n1)
    requires occ == Occupied(items, fixed, ws, SizedAt(it, sz, Placement.CandidateAt(g, n1), me))
    ensures occ ==> AllOccupied(items, fixed, ws, it, sz, g, me, n0, n1 + 1)
  {
  }

  /** The layout loop's invariant after the first i items. */
  ghost predicate LayoutInv(olds: seq<Item>, its: seq<Item>, marks: seq<nat>, i: nat, fixed: seq<nat>,
                            ws: seq<Tracker.Window>, g: Placement.Geometry, sz: Sizing, ms: seq<Measure>)
  {
    && i <= |its| == |olds| == |ms| && FixedListValid(its, fixed) && |marks| == i + 1 && marks[0] == 0
    && (forall k :: i <= k < |its| ==> its[k] == olds[k])
    && (forall k :: 0 <= k < |its| ==> SameIdentity(olds[k], its[k]))
    && (forall k :: 0 <= k < i && olds[k].fixedPos ==> its[k] == CalcItemSize(olds[k], sz, ms[k]))
    && (forall k :: 0 <= k < i ==>
          ItemLaidOut(olds[k], its[k], marks[k], marks[k + 1], Refit(olds, sz, ms, k), fixed, ws, g, sz, ms[k]))
  }

  lemma LayoutInvStart(olds: seq<Item>, fixed: seq<nat>, ws: seq<Tracker.Window>, g: Placement.Geometry,
                       sz: Sizing, ms: seq<Measure>)
    requires FixedListValid(olds, fixed) && |ms| == |olds|
    ensures LayoutInv(olds, olds, [0], 0, fixed, ws, g, sz, ms)
  {
  }

  /** A pinned item is re-sized where it is and takes no generator step. */
  lemma LayoutInvFixed(olds: seq<Item>, its: seq<Item>, marks: seq<nat>, i: nat, fixed: seq<nat>,
                       ws: seq<Tracker.Window>, g: Placement.Geometry, sz: Sizing, ms: seq<Measure>)
    requires LayoutInv(olds, its, marks, i, fixed, ws, g, sz, ms) && i < |its| && its[i].fixedPos
    ensures LayoutInv(olds, its[i := CalcItemSize(its[i], sz, ms[i])], marks + [marks[i]], i + 1,
                      fixed, ws, g, sz, ms)
  {
    SameFlagKeepsValid(its, fixed, i, CalcItemSize(its[i], sz, ms[i]));
  }

  /** Before a free item: it is free, the list is valid, and occupancy is as Refit has it. */
  lemma LayoutInvSeen(olds: seq<Item>, its: seq<Item>, marks: seq<nat>, i: nat, fixed: seq<nat>,
                      ws: seq<Tracker.Window>, g: Placement.Geometry, sz: Sizing, ms: seq<Measure>)
    requires LayoutInv(olds, its, marks, i, fixed, ws, g, sz, ms) && i < |its|
    ensures FixedListValid(its, fixed) && its[i] == olds[i]
    ensures forall it :: Occupied(its, fixed, ws, it) == Occupied(Refit(olds, sz, ms, i), fixed, ws, it)
  {
    SeenAgree(olds, its, ms, sz, fixed, ws, i);
  }

  /** A free item placed by the retry loop extends the invariant. */
  lemma LayoutInvFree(olds: seq<Item>, its: seq<Item>, marks: seq<nat>, i: nat, fixed: seq<nat>,
                      ws: seq<Tracker.Window>, g: Placement.Geometry, sz: Sizing, ms: seq<Measure>, v: Item, n1: nat)
    requires LayoutInv(olds, its, marks, i, fixed, ws, g, sz, ms) && i < |its| && !its[i].fixedPos
    requires SameIdentity(its[i], v)
    requires ItemLaidOut(olds[i], v, marks[i], n1, Refit(olds, sz, ms, i), fixed, ws, g, sz, ms[i])
    ensures LayoutInv(olds, its[i := v], marks + [n1], i + 1, fixed, ws, g, sz, ms)
  {
    SameFlagKeepsValid(its, fixed, i, v);
  }

  /** Stopping early still leaves a valid list and every item's identity. */
  lemma LayoutInvStop(olds: seq<Item>, its: seq<Item>, marks: seq<nat>, i: nat, fixed: seq<nat>,
                      ws: seq<Tracker.Window>, g: Placement.Geometry, sz: Sizing, ms: seq<Measure>, v: Item)
    requires LayoutInv(olds, its, marks, i, fixed, ws, g, sz, ms) && i < |its| && SameIdentity(its[i], v)
    ensures FixedListValid(its[i := v], fixed) && |its[i := v]| == |olds|
    ensures forall k :: 0 <= k < |olds| ==> SameIdentity(olds[k], its[i := v][k])
  {
    SameFlagKeepsValid(its, fixed, i, v);
  }

  lemma LayoutInvEnd(olds: seq<Item>, its: seq<Item>, marks: seq<nat>, fixed: seq<nat>,
                     ws: seq<Tracker.Window>, g: Placement.Geometry, sz: Sizing, ms: seq<Measure>)
    requires LayoutInv(olds, its, marks, |olds|, fixed, ws, g, sz, ms)
    ensures FixedListValid(its, fixed) && |its| == |olds|
    ensures forall k :: 0 <= k < |its| ==> SameIdentity(olds[k], its[k])
    ensures LaidOut(olds, its, marks, fixed, ws, g, sz, ms)
  {
  }

  /**
   * layout_items' loop: set the generator up on geometry g, re-size pinned
   * items where they are and place each free item with the retry loop.
   * `done` is false only when the retry bound ran out.
   */
  method LayoutItems(olds: seq<Item>, fixed: seq<nat>, sz: Sizing, g: Placement.Geometry, ms: seq<Measure>,
                     tracker: Tracker.WindowTracker, fuel: nat)
    returns (its: seq<Item>, done: bool, ghost marks: seq<nat>)
    requires FixedListValid(olds, fixed) && |ms| == |olds|
    ensures FixedListValid(its, fixed) && |its| == |olds|
    ensures forall k :: 0 <= k < |its| ==> SameIdentity(olds[k], its[k])
    ensures done ==> LaidOut(olds, its, marks, fixed, tracker.windows, g, sz, ms)
  {
    its := olds;
    marks := [0];
    LayoutInvStart(olds, fixed, tracker.windows, g, sz, ms);
    if |olds| == 0 {
      LayoutInvEnd(olds, its, marks, fixed, tracker.windows, g, sz, ms);
      return olds, true, marks;
    }
    var cpg := StartGenerator(g);
    var i := 0;
    while i < |its|
      invariant LayoutInv(olds, its, marks, i, fixed, tracker.windows, g, sz, ms)
      invariant GeneratorAt(cpg, g, marks[i])
    {
      if its[i].fixedPos {
        LayoutInvFixed(olds, its, marks, i, fixed, tracker.windows, g, sz, ms);
        its := its[i := CalcItemSize(its[i], sz, ms[i])];
        marks := marks + [marks[i]];
      } else {
        LayoutInvSeen(olds, its, marks, i, fixed, tracker.windows, g, sz, ms);
        var ok, v;
        ghost var n1;
        ok, v, n1 := PlaceFree(its, fixed, i, sz, ms[i], cpg, tracker, fuel, g, marks[i]);
        if !ok {
          LayoutInvStop(olds, its, marks, i, fixed, tracker.windows, g, sz, ms, v);
          return its[i := v], false, marks + [n1];
        }
        FreeLaidOut(its, Refit(olds, sz, ms, i), fixed, tracker.windows, i, v, marks[i], n1, g, sz, ms[i]);
        LayoutInvFree(olds, its, marks, i, fixed, tracker.windows, g, sz, ms, v, n1);
        its := its[i := v];
        marks := marks + [n1];
      }
      i := i + 1;
    }
    LayoutInvEnd(olds, its, marks, fixed, tracker.windows, g, sz, ms);
    done := true;
  }

  /** Writing the first j + 1 entries is writing the first j, then block j. */
  lemma SerializeStep(es: seq<ItemPos.Entry>, j: nat)
    requires j < |es|
    ensures ItemPos.Serialize(es[..j + 1]) == ItemPos.Serialize(es[..j]) + ItemPos.Block(es[j])
  {
    assert es[..j + 1] == es[..j] + [es[j]];
    ItemPos.SerializeAppend(es[..j], [es[j]]);
    assert ItemPos.Serialize([es[j]]) == ItemPos.Block(es[j]) + ItemPos.Serialize([]);
  }

  class Desktop {
    var items: seq<Item>
    var fixedItems: seq<nat>
    var focus: Option<nat>
    var dropHilight: Option<nat>
    var hover: Option<nat>
    /** The pending idle layout, and how many layouts the idle handler has run. */
    var idleLayout: bool
    var layoutRuns: nat
    var workingArea: Rect
    var cellW: int
    var cellH: int
    var pangoStamp: int
    var config: DesktopConfig

    predicate RefValid(r: Option<nat>)
      reads this
    {
      r.Some? ==> r.value < |items|
    }

    predicate Valid()
      reads this
    {
      && FixedListValid(items, fixedItems)
      && RefValid(focus) && RefValid(dropHilight) && RefValid(hover)
      && cellW > 0 && cellH > 0 && config.iconSize >= 0
    }

    function Sizer(): Sizing
      reads this
    {
      Sizing(cellW, config.iconSize, pangoStamp)
    }

    /** The generator's box: the working area inside the margins, with the current cell size and rules. */
    function LayoutGeometry(): Placement.Geometry
      reads this
    {
      Placement.Geometry(workingArea.x + MARGIN, workingArea.y + MARGIN,
                         workingArea.x + workingArea.width - MARGIN, workingArea.y + workingArea.height - MARGIN,
                         cellW, cellH, config.inRows, config.rtl, config.btt)
    }

    /** fm_desktop_constructor: items loaded and a first layout queued, as load_items and the font handler leave it. */
    constructor (its: seq<Item>, fixed: seq<nat>, cfg: DesktopConfig, textW: int, textH: int, stamp: int)
      requires FixedListValid(its, fixed) && cfg.iconSize >= 0 && textW >= 0 && textH >= 0
      ensures Valid() && items == its && fixedItems == fixed && config == cfg
      ensures focus.None? && dropHilight.None? && hover.None?
      ensures idleLayout && layoutRuns == 0 && workingArea == EmptyRect && pangoStamp == stamp
      ensures (cellW, cellH) == CellMetrics(textW, textH, cfg.iconSize)
    {
      items := its;
      fixedItems := fixed;
      focus, dropHilight, hover := None, None, None;
      idleLayout := true;
      layoutRuns := 0;
      workingArea := EmptyRect;
      config := cfg;
      pangoStamp := stamp;
      cellW, cellH := Max(textW, cfg.iconSize) + 2 * PADDING, cfg.iconSize + SPACING + textH + 2 * PADDING;
    }

    /** queue_layout_items: at most one pending layout. */
    method QueueLayout()
      modifies this`idleLayout
      ensures idleLayout
    {
      if !idleLayout {
        idleLayout := true;
      }
    }

    /**
     * layout_items on the desktop: compute the cell size, then lay the items
     * out in the working area inside the margins.
     */
    method Layout(textW: int, textH: int, ms: seq<Measure>, tracker: Tracker.WindowTracker, fuel: nat)
      returns (done: bool, ghost marks: seq<nat>)
      requires Valid() && |ms| == |items| && textW >= 0 && textH >= 0
      modifies this`items, this`cellW, this`cellH
      ensures Valid() && |items| == |old(items)|
      ensures (cellW, cellH) == CellMetrics(textW, textH, config.iconSize)
      ensures forall k :: 0 <= k < |items| ==> SameIdentity(old(items)[k], items[k])
      ensures done ==> LaidOut(old(items), items, marks, fixedItems, tracker.windows, LayoutGeometry(), Sizer(), ms)
    {
      cellW, cellH := Max(textW, config.iconSize) + 2 * PADDING, config.iconSize + SPACING + textH + 2 * PADDING;
      var sz := Sizer();
      var g := LayoutGeometry();
      var its;
      its, done, marks := LayoutItems(items, fixedItems, sz, g, ms, tracker, fuel);
      items := its;
      assert Sizer() == sz && LayoutGeometry() == g;
    }

    /**
     * on_idle_layout: the pending layout runs once and the handle is cleared;
     * done and marks are what that layout run reports.
     */
    method DispatchIdle(textW: int, textH: int, ms: seq<Measure>, tracker: Tracker.WindowTracker, fuel: nat)
      returns (ran: bool, done: bool, ghost marks: seq<nat>)
      requires Valid() && |ms| == |items| && textW >= 0 && textH >= 0
      modifies this`idleLayout, this`layoutRuns, this`items, this`cellW, this`cellH
      ensures Valid() && !idleLayout && ran == old(idleLayout) && |items| == |old(items)|
      ensures layoutRuns == old(layoutRuns) + (if ran then 1 else 0)
      ensures !ran ==> items == old(items) && cellW == old(cellW) && cellH == old(cellH) && !done
      ensures ran ==> (cellW, cellH) == CellMetrics(textW, textH, config.iconSize)
      ensures ran ==> forall k :: 0 <= k < |items| ==> SameIdentity(old(items)[k], items[k])
      ensures ran && done ==> LaidOut(old(items), items, marks, fixedItems, tracker.windows, LayoutGeometry(), Sizer(), ms)
    {
      ran, done, marks := idleLayout, false, [];
      if idleLayout {
        idleLayout := false;
        layoutRuns := layoutRuns + 1;
        done, marks := Layout(textW, textH, ms, tracker, fuel);
      }
    }

    /** move_item: the item goes to (x, y) with its rectangles shifted, and is pinned if it was not. */
    method MoveItem(k: nat, x: int, y: int)
      requires Valid() && k < |items|
      modifies this`items, this`fixedItems
      ensures Valid()
      ensures items == old(items)[k := Moved(old(items)[k], x, y)]
      ensures fixedItems == if old(items)[k].fixedPos then old(fixedItems) else [k] + old(fixedItems)
    {
      var its, fixed := items, fixedItems;
      var moved := Moved(its[k], x, y);
      PinKeepsValid(its, fixed, k, moved);
      var fixed' := if its[k].fixedPos then fixed else [k] + fixed;
      items, fixedItems := its[k := moved], fixed';
      assert |items| == |its|;
    }

    /** The focused item exists and is selected. */
    predicate FocusSelected()
      reads this
    {
      focus.Some? && focus.value < |items| && items[focus.value].selected
    }

    /**
     * get_selected_items: every selected item once, the focused one first,
     * the others in model order (the source prepends and then reverses).
     */
    method GetSelectedItems() returns (sel: seq<nat>)
      requires Valid()
      ensures forall k :: k in sel <==> 0 <= k < |items| && items[k].selected
      ensures forall i :: 0 <= i < |sel| ==> sel[i] < |items| && items[sel[i]].selected
      ensures forall i, j :: 0 <= i < j < |sel| ==> sel[i] != sel[j]
      ensures FocusSelected() ==> |sel| > 0 && sel[0] == focus.value
      ensures forall i, j :: (if FocusSelected() then 1 else 0) <= i < j < |sel| ==> sel[i] < sel[j]
    {
      var others: seq<nat> := [];
      var focused := false;
      var k := 0;
      while k < |items|
        invariant 0 <= k <= |items|
        invariant forall x :: x in others <==> 0 <= x < k && items[x].selected && Some(x) != focus
        invariant forall i, j :: 0 <= i < j < |others| ==> others[i] < others[j]
        invariant forall i :: 0 <= i < |others| ==> others[i] < k
        invariant focused <==> focus.Some? && focus.value < k && items[focus.value].selected
      {
        if items[k].selected {
          if Some(k) != focus {
            others := others + [k];
          } else {
            focused := true;
          }
        }
        k := k + 1;
      }
      if focused {
        sel := [focus.value] + others;
        assert forall i :: 1 <= i < |sel| ==> sel[i] == others[i - 1];
      } else {
        sel := others;
      }
    }

    /** Pin one item: flag it and put it at the front of the list unless it is already pinned. */
    method PinOne(k: nat)
      requires Valid() && k < |items|
      modifies this`items, this`fixedItems
      ensures Valid()
      ensures items == old(items)[k := old(items)[k].(fixedPos := true)]
      ensures fixedItems == if k in old(fixedItems) then old(fixedItems) else [k] + old(fixedItems)
    {
      assert items[k].fixedPos <==> k in fixedItems;
      if !items[k].fixedPos {
        PinKeepsValid(items, fixedItems, k, items[k].(fixedPos := true));
        items := items[k := items[k].(fixedPos := true)];
        fixedItems := [k] + fixedItems;
      } else {
        assert items[k].(fixedPos := true) == items[k];
        assert items[k := items[k]] == items;
      }
    }

    /** The pin half of on_fix_pos: every selected item not yet pinned goes to the front of the list. */
    method PinSelection(sel: seq<nat>)
      requires Valid() && forall j :: 0 <= j < |sel| ==> sel[j] < |items|
      modifies this`items, this`fixedItems
      ensures Valid() && |items| == |old(items)|
      ensures forall k :: 0 <= k < |items| ==>
                items[k] == old(items)[k].(fixedPos := old(items)[k].fixedPos || k in sel)
      ensures fixedItems == PinAll(old(fixedItems), sel)
    {
      var j := 0;
      while j < |sel|
        invariant 0 <= j <= |sel| && Valid() && |items| == |old(items)|
        invariant forall k :: 0 <= k < |items| ==>
                    items[k] == old(items)[k].(fixedPos := old(items)[k].fixedPos || k in sel[..j])
        invariant fixedItems == PinAll(old(fixedItems), sel[..j])
      {
        assert sel[..j + 1] == sel[..j] + [sel[j]];
        PinAllStep(old(fixedItems), sel, j);
        PinOne(sel[j]);
        j := j + 1;
      }
      assert sel[..|sel|] == sel;
    }

    /** Unpin one item: clear its flag and take it off the list. */
    method UnpinOne(k: nat)
      requires Valid() && k < |items|
      modifies this`items, this`fixedItems
      ensures Valid()
      ensures items == old(items)[k := old(items)[k].(fixedPos := false)]
      ensures fixedItems == RemoveFirst(old(fixedItems), k)
    {
      UnpinKeepsValid(items, fixedItems, k, items[k].(fixedPos := false));
      items := items[k := items[k].(fixedPos := false)];
      fixedItems := RemoveFirst(fixedItems, k);
    }

    /** The unpin half of on_fix_pos: every selected item loses its flag and leaves the list. */
    method UnpinSelection(sel: seq<nat>)
      requires Valid() && forall j :: 0 <= j < |sel| ==> sel[j] < |items|
      modifies this`items, this`fixedItems
      ensures Valid() && |items| == |old(items)|
      ensures forall k :: 0 <= k < |items| ==>
                items[k] == old(items)[k].(fixedPos := old(items)[k].fixedPos && k !in sel)
      ensures fixedItems == UnpinAll(old(fixedItems), sel)
    {
      var j := 0;
      while j < |sel|
        invariant 0 <= j <= |sel| && Valid() && |items| == |old(items)|
        invariant forall k :: 0 <= k < |items| ==>
                    items[k] == old(items)[k].(fixedPos := old(items)[k].fixedPos && k !in sel[..j])
        invariant fixedItems == UnpinAll(old(fixedItems), sel[..j])
      {
        assert sel[..j + 1][..j] == sel[..j] && sel[..j + 1] == sel[..j] + [sel[j]];
        UnpinOne(sel[j]);
        j := j + 1;
      }
      assert sel[..|sel|] == sel;
    }

    /**
     * save_item_pos: one block per pinned item, in list order; None when
     * there is no configuration file path.
     */
    method SaveItemPos(hasPath: bool) returns (text: Option<string>)
      requires Valid()
      ensures text == if hasPath then Some(ItemPos.Serialize(FixedEntries(items, fixedItems))) else None
    {
      if !hasPath {
        return None;
      }
      ghost var entries := FixedEntries(items, fixedItems);
      var buf := "";
      var j := 0;
      while j < |fixedItems|
        invariant 0 <= j <= |fixedItems|
        invariant buf == ItemPos.Serialize(entries[..j])
      {
        var it := items[fixedItems[j]];
        var esc := EscapeName(it.name);
        var block := "[" + esc + "]\n" + "x=" + Decimal.IntToDec(it.x) + "\n" + "y=" + Decimal.IntToDec(it.y) + "\n\n";
        assert block == ItemPos.Block(entries[j]);
        SerializeStep(entries, j);
        buf := buf + block;
        j := j + 1;
      }
      assert entries[..|fixedItems|] == entries;
      text := Some(buf);
    }

    /**
     * on_fix_pos: pin the selection, or unpin it and lay out again at once;
     * then save the positions.
     */
    method FixPos(active: bool, textW: int, textH: int, ms: seq<Measure>, tracker: Tracker.WindowTracker,
                  fuel: nat, hasPath: bool) returns (saved: Option<string>)
      requires Valid() && |ms| == |items| && textW >= 0 && textH >= 0
      modifies this`items, this`fixedItems, this`cellW, this`cellH
      ensures Valid() && |items| == |old(items)|
      ensures forall k :: 0 <= k < |items| ==>
                items[k].fixedPos == (if active then old(items)[k].fixedPos || old(items)[k].selected
                                      else old(items)[k].fixedPos && !old(items)[k].selected)
      ensures active ==> forall k :: 0 <= k < |items| ==> items[k].x == old(items)[k].x && items[k].y == old(items)[k].y
      ensures saved == if hasPath then Some(ItemPos.Serialize(FixedEntries(items, fixedItems))) else None
    {
      var sel := GetSelectedItems();
      if active {
        PinSelection(sel);
      } else {
        UnpinSelection(sel);
        var done;
        ghost var marks;
        done, marks := Layout(textW, textH, ms, tracker, fuel);
      }
      saved := SaveItemPos(hasPath);
    }

    /** Snap one item if it is pinned, moving it as move_item does. */
    method SnapOne(k: nat, origin: (int, int))
      requires Valid() && k < |items|
      modifies this`items
      ensures Valid()
      ensures items == old(items)[k := if old(items)[k].fixedPos then Snapped(old(items)[k], origin, cellW, cellH)
                                       else old(items)[k]]
    {
      if items[k].fixedPos {
        var it := items[k];
        var nx := origin.0 + RoundDiv(it.x - origin.0, cellW) * cellW;
        var ny := origin.1 + RoundDiv(it.y - origin.1, cellH) * cellH;
        SameFlagKeepsValid(items, fixedItems, k, Moved(it, nx, ny));
        items := items[k := Moved(it, nx, ny)];
      } else {
        assert items[k := items[k]] == items;
      }
    }

    /**
     * on_snap_to_grid: each selected pinned item moves to the nearest grid
     * point counted from the snap origin; then a layout is queued.
     */
    method SnapToGrid(widgetRtl: bool)
      requires Valid()
      modifies this`items, this`idleLayout
      ensures Valid() && idleLayout && |items| == |old(items)|
      ensures forall k :: 0 <= k < |items| ==>
                items[k] == if old(items)[k].selected && old(items)[k].fixedPos
                            then Snapped(old(items)[k], SnapOrigin(workingArea, cellW, widgetRtl), cellW, cellH)
                            else old(items)[k]
    {
      var sel := GetSelectedItems();
      var origin := SnapOrigin(workingArea, cellW, widgetRtl);
      var j := 0;
      while j < |sel|
        invariant 0 <= j <= |sel| && Valid() && |items| == |old(items)|
        invariant forall k :: 0 <= k < |items| ==>
                    items[k] == if k in sel[..j] && old(items)[k].fixedPos
                                then Snapped(old(items)[k], origin, cellW, cellH)
                                else old(items)[k]
      {
        var k := sel[j];
        assert k !in sel[..j];
        assert sel[..j + 1] == sel[..j] + [k];
        SnapOne(k, origin);
        j := j + 1;
      }
      QueueLayout();
    }

    /**
     * on_row_deleting: the item leaves the pinned list and the model; focus
     * passes to the next row, else the previous one, else nowhere; a drop
     * highlight or hover on it is cleared. References to later rows move up
     * by one.
     */
    method RowDeleting(k: nat)
      requires Valid() && k < |items|
      modifies this`items, this`fixedItems, this`focus, this`dropHilight, this`hover
      ensures Valid()
      ensures items == old(items[..k] + items[k + 1..])
      ensures fixedItems == RenumberAll(RemoveFirst(old(fixedItems), k), k)
      ensures focus == if old(focus) == Some(k) then
                         (if k + 1 < |old(items)| then Some(k) else if k > 0 then Some(k - 1) else None)
                       else RenumberRef(old(focus), k)
      ensures dropHilight == RenumberRef(old(dropHilight), k) && hover == RenumberRef(old(hover), k)
      ensures old(focus).Some? && old(focus) != Some(k) ==> items[focus.value] == old(items)[old(focus).value]
    {
      DeleteKeepsValid(items, fixedItems, k);
      fixedItems := RenumberAll(RemoveFirst(fixedItems, k), k);
      if focus == Some(k) {
        if k + 1 < |items| {
          focus := Some(k);
        } else if k > 0 {
          focus := Some(k - 1);
        } else {
          focus := None;
        }
      } else {
        focus := RenumberRef(focus, k);
      }
      dropHilight := RenumberRef(dropHilight, k);
      hover := RenumberRef(hover, k);
      items := items[..k] + items[k + 1..];
    }

    /** _select_all_with_action: every item's selection set, cleared or inverted. */
    method SelectAllWithAction(a: SelectAction)
      requires Valid()
      modifies this`items
      ensures Valid() && |items| == |old(items)|
      ensures forall k :: 0 <= k < |items| ==>
                items[k] == old(items)[k].(selected := NewSelected(a, old(items)[k].selected))
    {
      var k := 0;
      while k < |items|
        invariant 0 <= k <= |items| == |old(items)| && Valid()
        invariant forall j :: 0 <= j < |items| ==>
                    items[j] == if j < k then old(items)[j].(selected := NewSelected(a, old(items)[j].selected))
                                else old(items)[j]
      {
        var sel := NewSelected(a, items[k].selected);
        if items[k].selected != sel {
          SameFlagKeepsValid(items, fixedItems, k, items[k].(selected := sel));
          items := items[k := items[k].(selected := sel)];
        }
        k := k + 1;
      }
    }

    /** hit_test: the first item in model order whose icon or label strictly contains the point. */
    method HitTest(x: int, y: int) returns (r: Option<nat>)
      requires Valid()
      ensures !config.showIcons ==> r == None
      ensures config.showIcons && r.Some? ==>
                r.value < |items| && Hit(items[r.value], x, y) && forall k :: 0 <= k < r.value ==> !Hit(items[k], x, y)
      ensures config.showIcons && r.None? ==> forall k :: 0 <= k < |items| ==> !Hit(items[k], x, y)
    {
      if !config.showIcons {
        return None;
      }
      var k := 0;
      while k < |items|
        invariant 0 <= k <= |items|
        invariant forall j :: 0 <= j < k ==> !Hit(items[j], x, y)
      {
        if PointInRect(items[k].iconRect, x, y) || PointInRect(items[k].textRect, x, y) {
          return Some(k);
        }
        k := k + 1;
      }
      return None;
    }

    /** update_working_area: store the clipped area and queue a layout only when it changed. */
    method UpdateWorkingArea(mon: Rect, wa: Rect)
      modifies this`workingArea, this`idleLayout
      ensures workingArea == ClipWorkArea(mon, wa)
      ensures idleLayout == (old(idleLayout) || old(workingArea) != ClipWorkArea(mon, wa))
    {
      var result := ClipWorkArea(mon, wa);
      if workingArea != result {
        workingArea := result;
        QueueLayout();
      }
    }
  }

  /**
   * A new desktop already has a layout queued (load_items and the font
   * handler both queue one), so its first idle dispatch lays out every item.
   */
  method FirstIdleLaysOut(its: seq<Item>, fixed: seq<nat>, cfg: DesktopConfig, textW: int, textH: int,
                          ms: seq<Measure>, tracker: Tracker.WindowTracker, fuel: nat)
    returns (ran: bool, runs: nat)
    requires FixedListValid(its, fixed) && cfg.iconSize >= 0 && textW >= 0 && textH >= 0 && |ms| == |its|
    ensures ran && runs == 1
  {
    var d := new Desktop(its, fixed, cfg, textW, textH, 0);
    var done; ghost var marks;
    ran, done, marks := d.DispatchIdle(textW, textH, ms, tracker, fuel);
    runs := d.layoutRuns;
  }

  /**
   * Any number of layout requests before the idle handler runs lead to one
   * layout: on a new desktop, which has one queued already, queue k + 1
   * more times, then dispatch twice.
   */
  method LayoutRequestsCoalesce(k: nat, tracker: Tracker.WindowTracker) returns (runs: nat)
    ensures runs == 1
  {
    var d := new Desktop([], [], DesktopConfig(true, false, false, true, 48), 104, 40, 0);
    var j := 0;
    while j <= k
      invariant d.Valid() && d.items == [] && d.layoutRuns == 0 && d.idleLayout
    {
      d.QueueLayout();
      j := j + 1;
    }
    var ran, done, marks := d.DispatchIdle(104, 40, [], tracker, 0);
    ran, done, marks := d.DispatchIdle(104, 40, [], tracker, 0);
    runs := d.layoutRuns;
  }
}
