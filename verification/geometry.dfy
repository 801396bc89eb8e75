/**
 * The desktop's pure geometry: where an item's icon and label go inside its
 * cell, the rubber-band rectangle, the strict point-in-rectangle hit test,
 * snapping to the grid with rounding half away from zero, clipping the
 * window manager's working area to a monitor, and the per-item text cache
 * timestamp check.
 */
module DesktopGeometry {
  import opened Common

  /** The fixed metrics of calculate_item_metrics. */
  const SPACING := 2
  const PADDING := 6
  const MARGIN := 2

  /** A pixbuf's size. */
  datatype Size = Size(width: int, height: int)

  /**
   * The metrics calc_item_size reads: cell width, vertical padding, the
   * spacing under the icon and the configured icon size.
   */
  datatype ItemMetrics = ItemMetrics(cellW: int, ypad: int, spacing: int, iconSize: int)

  /* ------------------------------------------------------------------ */
  /* calc_item_size                                                      */

  /**
   * The icon rectangle of an item at (x, y): a pixbuf is centred in the cell
   * horizontally and in the icon box vertically (C division); without one,
   * an icon-size square sits at the padding offset. Either way the height
   * includes the spacing below the icon.
   */
  function IconRect(x: int, y: int, m: ItemMetrics, icon: Option<Size>): Rect
  {
    match icon
    case Some(s) =>
      Rect(x + CDiv(m.cellW - s.width, 2), y + m.ypad + CDiv(m.iconSize - s.height, 2),
           s.width, s.height + m.spacing)
    case None =>
      Rect(x + m.ypad, y + m.ypad, m.iconSize, m.iconSize + m.spacing)
  }

  /**
   * The label rectangle: the pango logical extents plus a 4-pixel border,
   * centred in the cell and placed under the icon rectangle, offset by the
   * extents' own y.
   */
  function TextRect(x: int, iconRect: Rect, m: ItemMetrics, extents: Rect): Rect
  {
    Rect(x + CDiv(m.cellW - extents.width - 4, 2), iconRect.y + iconRect.height + extents.y,
         extents.width + 4, extents.height + 4)
  }

  /** get_item_rect: the bounding box of icon and label. */
  function ItemRect(iconRect: Rect, textRect: Rect): Rect
  {
    Union(iconRect, textRect)
  }

  /** A box of width w that fits a cell of width cw is centred: the two side gaps differ by at most one. */
  lemma CentredInCell(x: int, cw: int, w: int)
    requires 0 <= w <= cw
    ensures var left := CDiv(cw - w, 2);
      var right := (x + cw) - (x + left + w);
      0 <= left && 0 <= right - left <= 1
  {
  }

  /** The icon and label are centred in the cell whenever they fit it. */
  lemma ItemCentred(x: int, y: int, m: ItemMetrics, icon: Option<Size>, extents: Rect)
    requires icon.Some? ==> 0 <= icon.value.width <= m.cellW
    requires 0 <= extents.width + 4 <= m.cellW
    ensures icon.Some? ==>
      var r := IconRect(x, y, m, icon);
      x <= r.x && 0 <= (x + m.cellW - r.Right()) - (r.x - x) <= 1
    ensures var t := TextRect(x, IconRect(x, y, m, icon), m, extents);
      x <= t.x && 0 <= (x + m.cellW - t.Right()) - (t.x - x) <= 1
  {
    if icon.Some? {
      CentredInCell(x, m.cellW, icon.value.width);
    }
    CentredInCell(x, m.cellW, extents.width + 4);
  }

  /** The label starts below the icon rectangle (spacing included) when the extents' y is not negative. */
  lemma TextBelowIcon(x: int, y: int, m: ItemMetrics, icon: Option<Size>, extents: Rect)
    requires extents.y >= 0
    ensures var r := IconRect(x, y, m, icon);
      r.Bottom() <= TextRect(x, r, m, extents).y
  {
  }

  /**
   * Moving an item by (dx, dy) moves both rectangles by (dx, dy): shifting
   * the stored rectangles, as move_item does, is the same as recomputing them
   * at the new position.
   */
  lemma RectsFollowPosition(x: int, y: int, dx: int, dy: int, m: ItemMetrics, icon: Option<Size>, extents: Rect)
    ensures IconRect(x + dx, y + dy, m, icon) == Shift(IconRect(x, y, m, icon), dx, dy)
    ensures TextRect(x + dx, IconRect(x + dx, y + dy, m, icon), m, extents)
         == Shift(TextRect(x, IconRect(x, y, m, icon), m, extents), dx, dy)
  {
  }

  /* ------------------------------------------------------------------ */
  /* The per-item text cache                                             */

  /** A cached rendering of the label: the layout timestamp it was made for, and whether it exists. */
  datatype CacheSlot = CacheSlot(timestamp: int, hasSurface: bool)

  /**
   * cached_layout_image_check_timestamp: a stale slot is dropped; the result
   * says whether a usable rendering remains. The stored timestamp is left
   * for the painter to update.
   */
  function CheckTimestamp(c: CacheSlot, t: int): (r: (CacheSlot, bool))
    ensures r.1 <==> c.hasSurface && c.timestamp == t
    ensures r.0.timestamp == c.timestamp && r.0.hasSurface == r.1
  {
    if c.timestamp != t then (c.(hasSurface := false), false) else (c, c.hasSurface)
  }

  /** Checking twice is checking once. */
  lemma CheckTimestampIdempotent(c: CacheSlot, t: int)
    ensures CheckTimestamp(CheckTimestamp(c, t).0, t) == CheckTimestamp(c, t)
  {
  }

  /* ------------------------------------------------------------------ */
  /* Rubber band and hit testing                                         */

  /** calc_rubber_banding_rect: the rectangle spanned by the drag start and the pointer. */
  function RubberBand(sx: int, sy: int, x: int, y: int): (r: Rect)
    ensures r.width >= 0 && r.height >= 0
    ensures r.x == Min(sx, x) && r.Right() == Max(sx, x)
    ensures r.y == Min(sy, y) && r.Bottom() == Max(sy, y)
  {
    var (x1, x2) := if sx < x then (sx, x) else (x, sx);
    var (y1, y2) := if sy < y then (sy, y) else (y, sy);
    Rect(x1, y1, x2 - x1, y2 - y1)
  }

  /** The band does not depend on which corner the drag started from. */
  lemma RubberBandSymmetric(sx: int, sy: int, x: int, y: int)
    ensures RubberBand(sx, sy, x, y) == RubberBand(x, y, sx, sy)
    ensures RubberBand(sx, sy, x, y) == RubberBand(x, sy, sx, y)
  {
  }

  /** is_point_in_rect: strictly inside on all four sides. */
  predicate PointInRect(r: Rect, x: int, y: int)
  {
    r.x < x && x < r.x + r.width && y > r.y && y < r.y + r.height
  }

  /**
   * A point strictly inside r is one whose unit pixel square meets r; no
   * point of the border, and no point of a rectangle one pixel thin or less,
   * is inside.
   */
  lemma PointInRectMeaning(r: Rect, x: int, y: int)
    ensures PointInRect(r, x, y) ==> Intersects(r, Rect(x, y, 1, 1))
    ensures PointInRect(r, x, y) ==> x != r.x && x != r.Right() && y != r.y && y != r.Bottom()
    ensures r.width <= 1 || r.height <= 1 ==> !PointInRect(r, x, y)
  {
  }

  /* ------------------------------------------------------------------ */
  /* Snap to grid                                                        */

  /** _round on a real: half away from zero. */
  function RoundHalfAway(v: real): int
  {
    if v > 0.0 then (v + 0.5).Floor else -((-v + 0.5).Floor)
  }

  /** _round((double) a / c) computed in integers, for a positive cell size c. */
  function RoundDiv(a: int, c: int): (q: int)
    requires c > 0
  {
    if a > 0 then (2 * a + c) / (2 * c)
    else if a == 0 then 0
    else -((-2 * a + c) / (2 * c))
  }

  lemma FloorOfQuotient(n: int, d: int)
    requires n >= 0 && d > 0
    ensures (n as real / d as real).Floor == n / d
  {
    var q := n / d;
    var r := n % d;
    assert n == q * d + r && 0 <= r < d;
    assert n as real / d as real == q as real + r as real / d as real;
    assert 0.0 <= r as real / d as real < 1.0;
  }

  /** a / c + 1/2 == (2a + c) / (2c) over the reals. */
  lemma HalfShift(a: int, c: int)
    requires c > 0
    ensures a as real / c as real + 0.5 == (2 * a + c) as real / (2 * c) as real
  {
    var v := a as real / c as real;
    var w := (2 * a + c) as real / (2 * c) as real;
    assert v * c as real == a as real;
    assert w * (2 * c) as real == (2 * a + c) as real;
    assert (v + 0.5) * (2 * c) as real == (2 * a + c) as real;
    var k := (2 * c) as real;
    var x := w - (v + 0.5);
    assert x * k == 0.0;
    assert x == x * k / k;
  }

  /** The integer version agrees with rounding the exact quotient. */
  lemma RoundDivIsRound(a: int, c: int)
    requires c > 0
    ensures RoundDiv(a, c) == RoundHalfAway(a as real / c as real)
  {
    var v := a as real / c as real;
    if a > 0 {
      assert v > 0.0;
      HalfShift(a, c);
      FloorOfQuotient(2 * a + c, 2 * c);
    } else if a < 0 {
      HalfShift(-a, c);
      assert -v == (-a) as real / c as real;
      FloorOfQuotient(-2 * a + c, 2 * c);
    }
  }

  /**
   * RoundDiv picks the nearest multiple: q * c is within c / 2 of a, on a's
   * side of zero, and an exact tie goes away from zero.
   */
  lemma RoundDivNearest(a: int, c: int)
    requires c > 0
    ensures var q := RoundDiv(a, c);
      && 2 * Abs(a - q * c) <= c
      && (a >= 0 ==> q >= 0) && (a <= 0 ==> q <= 0)
      && (2 * Abs(a - q * c) == c ==> Abs(q * c) > Abs(a))
  {
    if a > 0 {
      RoundUpHalf(a, c);
    } else if a < 0 {
      RoundUpHalf(-a, c);
      assert RoundDiv(a, c) == -RoundDiv(-a, c);
      assert a - RoundDiv(a, c) * c == -(-a - RoundDiv(-a, c) * c);
    }
  }

  /** The positive case: (2n + c) div 2c is the nearest quotient, ties rounded up. */
  lemma RoundUpHalf(n: int, c: int)
    requires n > 0 && c > 0
    ensures var q := (2 * n + c) / (2 * c);
      && q >= 0 && -c <= 2 * n - 2 * q * c < c
  {
    var m := 2 * n + c;
    var q := m / (2 * c);
    var r := m % (2 * c);
    assert m == q * (2 * c) + r && 0 <= r < 2 * c;
    assert 2 * n - 2 * q * c == r - c;
  }

  /** on_snap_to_grid for one coordinate: the grid point nearest v, counted from origin. */
  function SnapCoord(origin: int, v: int, cell: int): int
    requires cell > 0
  {
    origin + RoundDiv(v - origin, cell) * cell
  }

  /** A non-zero multiple of c is at least c away from zero. */
  lemma MultipleFar(j: int, c: int)
    requires j != 0 && c > 0
    ensures Abs(j * c) >= c
  {
    if j > 0 {
      MulLeq(1, j, c);
    } else {
      MulLeq(1, -j, c);
      assert (-j) * c == -(j * c);
    }
  }

  /**
   * The snapped coordinate is on the grid, at most half a cell from the old
   * one, and no grid point is nearer.
   */
  lemma SnapIsNearestGridPoint(origin: int, v: int, cell: int, k: int)
    requires cell > 0
    ensures (SnapCoord(origin, v, cell) - origin) % cell == 0
    ensures 2 * Abs(SnapCoord(origin, v, cell) - v) <= cell
    ensures Abs(SnapCoord(origin, v, cell) - v) <= Abs(origin + k * cell - v)
  {
    var a := v - origin;
    var q := RoundDiv(a, cell);
    RoundDivNearest(a, cell);
    var qc := q * cell;
    var d := qc - a;
    assert SnapCoord(origin, v, cell) - v == d;
    DivModUnique(qc, cell, q, 0);
    if k != q {
      var m := (k - q) * cell;
      SplitMultiple(k, q, cell);
      MultipleFar(k - q, cell);
      assert origin + k * cell - v == m + d;
      FartherThanHalf(d, m, cell);
    }
  }

  /** (k - q) * c == k * c - q * c */
  lemma SplitMultiple(k: int, q: int, c: int)
    ensures k * c == (k - q) * c + q * c
  {
  }

  /** A point at least a full cell from the nearest offset is not nearer. */
  lemma FartherThanHalf(d: int, m: int, c: int)
    requires 2 * Abs(d) <= c && Abs(m) >= c
    ensures Abs(d) <= Abs(m + d)
  {
  }

  /** Snapping a coordinate that is already on the grid leaves it where it is. */
  lemma SnapIdempotent(origin: int, v: int, cell: int)
    requires cell > 0
    ensures SnapCoord(origin, SnapCoord(origin, v, cell), cell) == SnapCoord(origin, v, cell)
  {
    var s := SnapCoord(origin, v, cell);
    var q := RoundDiv(v - origin, cell);
    assert s - origin == q * cell;
    RoundDivOfMultiple(q, cell);
  }

  lemma RoundDivOfMultiple(q: int, c: int)
    requires c > 0
    ensures RoundDiv(q * c, c) == q
  {
    if q > 0 {
      assert 2 * (q * c) + c == q * (2 * c) + c;
      DivModUnique(2 * (q * c) + c, 2 * c, q, c);
    } else if q < 0 {
      assert -2 * (q * c) + c == (-q) * (2 * c) + c;
      DivModUnique(-2 * (q * c) + c, 2 * c, -q, c);
    }
  }

  /**
   * The worked example: with the snap origin at (0, 0) (a working area at
   * (-2, -2), as the origin includes the 2-pixel margin) and 80x60 cells,
   * (83, 58) snaps to (80, 60); with the working area itself at (0, 0) the
   * origin is (2, 2) and the same point snaps to (82, 62).
   */
  lemma SnapExample()
    ensures SnapCoord(-2 + MARGIN, 83, 80) == 80 && SnapCoord(-2 + MARGIN, 58, 60) == 60
    ensures SnapCoord(0 + MARGIN, 83, 80) == 82 && SnapCoord(0 + MARGIN, 58, 60) == 62
    ensures SnapCoord(0, 40, 80) == 80 && SnapCoord(0, -40, 80) == -80
  {
  }

  /* ------------------------------------------------------------------ */
  /* Working area                                                        */

  /** inner lies inside outer. */
  predicate Contains(outer: Rect, inner: Rect)
  {
    outer.x <= inner.x && inner.Right() <= outer.Right() && outer.y <= inner.y && inner.Bottom() <= outer.Bottom()
  }

  /** The intersection of the monitor and the window manager's working area, in screen coordinates. */
  function Overlap(mon: Rect, wa: Rect): Rect
  {
    var left := Max(mon.x, wa.x);
    var top := Max(mon.y, wa.y);
    Rect(left, top, Min(mon.Right(), wa.Right()) - left, Min(mon.Bottom(), wa.Bottom()) - top)
  }

  /**
   * update_working_area's clip: the part of the working area on this
   * monitor, relative to the monitor, or the whole monitor when that part is
   * empty.
   */
  function ClipWorkArea(mon: Rect, wa: Rect): Rect
  {
    var r := Overlap(mon, wa);
    var r' := if r.width < 1 || r.height < 1 then mon else r;
    Rect(r'.x - mon.x, r'.y - mon.y, r'.width, r'.height)
  }

  /**
   * With a non-empty overlap the clipped area starts inside the monitor and
   * fits in it, and back in screen coordinates it lies in both the monitor
   * and the working area; with an empty overlap it is the whole monitor.
   */
  lemma ClipWorkAreaBounds(mon: Rect, wa: Rect)
    ensures var o := Overlap(mon, wa);
      var r := ClipWorkArea(mon, wa);
      if o.width >= 1 && o.height >= 1 then
        && r.x >= 0 && r.y >= 0 && r.width >= 1 && r.height >= 1
        && r.Right() <= mon.width && r.Bottom() <= mon.height
        && Contains(mon, Shift(r, mon.x, mon.y)) && Contains(wa, Shift(r, mon.x, mon.y))
      else r == Rect(0, 0, mon.width, mon.height)
  {
  }

  /** A working area that covers the monitor leaves the whole monitor. */
  lemma ClipWorkAreaCovering(mon: Rect, wa: Rect)
    requires mon.width >= 1 && mon.height >= 1 && Contains(wa, mon)
    ensures ClipWorkArea(mon, wa) == Rect(0, 0, mon.width, mon.height)
  {
  }
}
