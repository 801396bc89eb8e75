/**
 * The cell placement generator: a cursor that walks a grid of cells inside a
 * bounding box, one cell per `Advance`, and wraps into a "tier" counter that
 * shifts later sweeps diagonally.
 *
 * The generator itself is the class CellPlacementGenerator, field for field
 * the C struct. What its methods do to the cursor is stated by the functions
 * StartX, StartY, StepX, StepY, Next and Candidate; the lemmas below them say
 * what a sequence of advances produces.
 *
 * The bottom-to-top overflow test of the source compares the HORIZONTAL
 * cursor with the top line. The model keeps that test (variant AsWritten,
 * which the class uses) and, beside it, the test on the vertical cursor
 * (variant Intended); the lemmas show where the two part ways.
 */
module Placement {
  import opened Common

  /** What the three setters store: bounding box, cell size and flow rules. */
  datatype Geometry = Geometry(left: int, top: int, right: int, bottom: int,
                               cellW: int, cellH: int,
                               inRows: bool, rtl: bool, btt: bool)

  /** The internal cursor (_x, _y) and the tier counter. */
  datatype Cursor = Cursor(cx: int, cy: int, tier: int)

  /** The result of stepping one axis: the new coordinate and whether it left the box. */
  datatype Step = Step(pos: int, overflow: bool)

  /** Which bottom-to-top overflow test is used. */
  datatype Variant = AsWritten | Intended

  /** `1 - 2 * flag` for a flag in {0, 1}. */
  function Sign(flag: bool): int { if flag then -1 else 1 }

  /** reset_x: the starting column. */
  function StartX(g: Geometry): int { if g.rtl then g.right - g.cellW else g.left }

  /** reset_y: the starting row. */
  function StartY(g: Geometry): int { if g.btt then g.bottom - g.cellH else g.top }

  /** advance_x: one cell left or right, and the overflow test for that direction. */
  function StepX(g: Geometry, cx: int): Step
  {
    if g.rtl then Step(cx - g.cellW, cx - g.cellW < g.left)
    else Step(cx + g.cellW, cx + g.cellW > g.right - g.cellW)
  }

  /**
   * advance_y: one cell up or down. Bottom-to-top, the code as written tests
   * the horizontal cursor `cx` against the top line; the intended test is on
   * the new vertical position.
   */
  function StepY(v: Variant, g: Geometry, cx: int, cy: int): Step
  {
    if g.btt then
      Step(cy - g.cellH, (if v == AsWritten then cx else cy - g.cellH) < g.top)
    else Step(cy + g.cellH, cy + g.cellH > g.bottom - g.cellH)
  }

  /**
   * advance: step axis 1; on overflow reset it and step axis 2; on a second
   * overflow reset axis 2 too and raise the tier. Axis 1 is x in row mode and
   * y in column mode.
   */
  function Next(v: Variant, g: Geometry, c: Cursor): (r: Cursor)
    ensures r.tier == c.tier || r == Cursor(StartX(g), StartY(g), c.tier + 1)
    ensures g.inRows ==> r.cy == c.cy || r.cx == StartX(g)
    ensures !g.inRows ==> r.cx == c.cx || r.cy == StartY(g)
  {
    if g.inRows then
      var s1 := StepX(g, c.cx);
      if !s1.overflow then Cursor(s1.pos, c.cy, c.tier)
      else
        var s2 := StepY(v, g, StartX(g), c.cy);
        if !s2.overflow then Cursor(StartX(g), s2.pos, c.tier)
        else Cursor(StartX(g), StartY(g), c.tier + 1)
    else
      var s1 := StepY(v, g, c.cx, c.cy);
      if !s1.overflow then Cursor(c.cx, s1.pos, c.tier)
      else
        var s2 := StepX(g, c.cx);
        if !s2.overflow then Cursor(s2.pos, StartY(g), c.tier)
        else Cursor(StartX(g), StartY(g), c.tier + 1)
  }

  /** The cursor after `reset` and n calls of `advance`. */
  function CursorAt(v: Variant, g: Geometry, n: nat): Cursor
  {
    if n == 0 then Cursor(StartX(g), StartY(g), 0) else Next(v, g, CursorAt(v, g, n - 1))
  }

  /** The divisors of the tier offset: 16 and 24, swapped in row mode. */
  function XDivisor(g: Geometry): int { if g.inRows then 24 else 16 }
  function YDivisor(g: Geometry): int { if g.inRows then 16 else 24 }

  /** The per-tier shift along x and along y (the source's `1.0 + cell / div`). */
  function TierStepX(g: Geometry): int { 1 + CDiv(g.cellW, XDivisor(g)) }
  function TierStepY(g: Geometry): int { 1 + CDiv(g.cellH, YDivisor(g)) }

  /**
   * update_xy: the exposed candidate. The double arithmetic of the source
   * only ever holds integer values, so it is exact here.
   */
  function Candidate(g: Geometry, c: Cursor): (int, int)
  {
    if c.tier != 0 then
      (c.cx + TierStepX(g) * c.tier * Sign(g.rtl), c.cy + TierStepY(g) * c.tier * Sign(g.btt))
    else (c.cx, c.cy)
  }

  /** The candidate after `reset` and n advances, for the generator as written. */
  function CandidateAt(g: Geometry, n: nat): (int, int)
  {
    Candidate(g, CursorAt(AsWritten, g, n))
  }

  class CellPlacementGenerator {
    /* bounding box */
    var leftLine: int
    var topLine: int
    var rightLine: int
    var bottomLine: int
    /* cell geometry */
    var cellW: int
    var cellH: int
    /* settings */
    var arrangeInRows: bool
    var arrangeRtl: bool
    var arrangeBtt: bool
    /* generated position */
    var x: int
    var y: int
    /* internals: tier, _x and _y */
    var tier: int
    var cx: int
    var cy: int

    function Geo(): Geometry
      reads this
    {
      Geometry(leftLine, topLine, rightLine, bottomLine, cellW, cellH,
               arrangeInRows, arrangeRtl, arrangeBtt)
    }

    function Cur(): Cursor
      reads this
    {
      Cursor(cx, cy, tier)
    }

    /** A zeroed generator; the caller configures it with the setters. */
    constructor ()
      ensures Geo() == Geometry(0, 0, 0, 0, 0, 0, false, false, false)
      ensures Cur() == Cursor(0, 0, 0) && x == 0 && y == 0
    {
      leftLine, topLine, rightLine, bottomLine := 0, 0, 0, 0;
      cellW, cellH := 0, 0;
      arrangeInRows, arrangeRtl, arrangeBtt := false, false, false;
      x, y := 0, 0;
      tier, cx, cy := 0, 0, 0;
    }

    method SetBoundingBox(left: int, top: int, right: int, bottom: int)
      modifies this`leftLine, this`topLine, this`rightLine, this`bottomLine
      ensures Geo() == old(Geo()).(left := left, top := top, right := right, bottom := bottom)
    {
      leftLine, topLine, rightLine, bottomLine := left, top, right, bottom;
    }

    method SetCellSize(w: int, h: int)
      modifies this`cellW, this`cellH
      ensures Geo() == old(Geo()).(cellW := w, cellH := h)
    {
      cellW, cellH := w, h;
    }

    method SetPlacementRules(inRows: bool, rtl: bool, btt: bool)
      modifies this`arrangeInRows, this`arrangeRtl, this`arrangeBtt
      ensures Geo() == old(Geo()).(inRows := inRows, rtl := rtl, btt := btt)
    {
      arrangeInRows, arrangeRtl, arrangeBtt := inRows, rtl, btt;
    }

    method ResetX()
      modifies this`cx
      ensures cx == StartX(Geo())
    {
      if arrangeRtl {
        cx := rightLine - cellW;
      } else {
        cx := leftLine;
      }
    }

    method ResetY()
      modifies this`cy
      ensures cy == StartY(Geo())
    {
      if arrangeBtt {
        cy := bottomLine - cellH;
      } else {
        cy := topLine;
      }
    }

    method ResetAxis1()
      modifies this`cx, this`cy
      ensures arrangeInRows ==> cx == StartX(Geo()) && cy == old(cy)
      ensures !arrangeInRows ==> cy == StartY(Geo()) && cx == old(cx)
    {
      if arrangeInRows {
        ResetX();
      } else {
        ResetY();
      }
    }

    method ResetAxis2()
      modifies this`cx, this`cy
      ensures arrangeInRows ==> cy == StartY(Geo()) && cx == old(cx)
      ensures !arrangeInRows ==> cx == StartX(Geo()) && cy == old(cy)
    {
      if arrangeInRows {
        ResetY();
      } else {
        ResetX();
      }
    }

    method UpdateXY()
      modifies this`x, this`y
      ensures (x, y) == Candidate(Geo(), Cur())
    {
      x := cx;
      y := cy;
      if tier != 0 {
        var xDiv, yDiv := 16, 24;
        if arrangeInRows {
          xDiv, yDiv := yDiv, xDiv;
        }
        x := x + (1 + CDiv(cellW, xDiv)) * tier * (if arrangeRtl then -1 else 1);
        y := y + (1 + CDiv(cellH, yDiv)) * tier * (if arrangeBtt then -1 else 1);
      }
    }

    method Reset()
      modifies this`cx, this`cy, this`tier, this`x, this`y
      ensures Cur() == CursorAt(AsWritten, Geo(), 0)
      ensures (x, y) == CandidateAt(Geo(), 0)
    {
      ResetX();
      ResetY();
      tier := 0;
      UpdateXY();
    }

    method AdvanceX() returns (overflow: bool)
      modifies this`cx
      ensures Step(cx, overflow) == StepX(Geo(), old(cx))
    {
      if arrangeRtl {
        cx := cx - cellW;
        if cx < leftLine {
          return true;
        }
      } else {
        cx := cx + cellW;
        if cx > rightLine - cellW {
          return true;
        }
      }
      return false;
    }

    /** As written: the bottom-to-top branch tests `_x`, not `_y`. */
    method AdvanceY() returns (overflow: bool)
      modifies this`cy
      ensures Step(cy, overflow) == StepY(AsWritten, Geo(), cx, old(cy))
    {
      if arrangeBtt {
        cy := cy - cellH;
        if cx < topLine {
          return true;
        }
      } else {
        cy := cy + cellH;
        if cy > bottomLine - cellH {
          return true;
        }
      }
      return false;
    }

    method AdvanceAxis1() returns (overflow: bool)
      modifies this`cx, this`cy
      ensures arrangeInRows ==> Step(cx, overflow) == StepX(Geo(), old(cx)) && cy == old(cy)
      ensures !arrangeInRows ==> Step(cy, overflow) == StepY(AsWritten, Geo(), cx, old(cy)) && cx == old(cx)
    {
      if arrangeInRows {
        overflow := AdvanceX();
      } else {
        overflow := AdvanceY();
      }
    }

    method AdvanceAxis2() returns (overflow: bool)
      modifies this`cx, this`cy
      ensures arrangeInRows ==> Step(cy, overflow) == StepY(AsWritten, Geo(), cx, old(cy)) && cx == old(cx)
      ensures !arrangeInRows ==> Step(cx, overflow) == StepX(Geo(), old(cx)) && cy == old(cy)
    {
      if arrangeInRows {
        overflow := AdvanceY();
      } else {
        overflow := AdvanceX();
      }
    }

    method Advance()
      modifies this`cx, this`cy, this`tier, this`x, this`y
      ensures Cur() == Next(AsWritten, Geo(), old(Cur()))
      ensures (x, y) == Candidate(Geo(), Cur())
    {
      var o1 := AdvanceAxis1();
      if o1 {
        ResetAxis1();
        var o2 := AdvanceAxis2();
        if o2 {
          ResetAxis2();
          tier := tier + 1;
        }
      }
      UpdateXY();
    }
  }

  /* ------------------------------------------------------------------ */
  /* What a sequence of advances produces                                */

  /**
   * Each advance does exactly one of three things: step axis 1 and keep
   * axis 2 and the tier; reset axis 1, step axis 2 and keep the tier; or
   * reset both axes and raise the tier by one.
   */
  lemma NextIsOneOfThree(v: Variant, g: Geometry, c: Cursor)
    ensures var n := Next(v, g, c);
      if g.inRows then
        || (n == Cursor(StepX(g, c.cx).pos, c.cy, c.tier) && !StepX(g, c.cx).overflow)
        || (n == Cursor(StartX(g), StepY(v, g, StartX(g), c.cy).pos, c.tier)
            && StepX(g, c.cx).overflow && !StepY(v, g, StartX(g), c.cy).overflow)
        || (n == Cursor(StartX(g), StartY(g), c.tier + 1)
            && StepX(g, c.cx).overflow && StepY(v, g, StartX(g), c.cy).overflow)
      else
        || (n == Cursor(c.cx, StepY(v, g, c.cx, c.cy).pos, c.tier) && !StepY(v, g, c.cx, c.cy).overflow)
        || (n == Cursor(StepX(g, c.cx).pos, StartY(g), c.tier)
            && StepY(v, g, c.cx, c.cy).overflow && !StepX(g, c.cx).overflow)
        || (n == Cursor(StartX(g), StartY(g), c.tier + 1)
            && StepY(v, g, c.cx, c.cy).overflow && StepX(g, c.cx).overflow)
  {
  }

  /** The tier never decreases and grows by at most one per advance. */
  lemma {:induction false} TierGrowth(v: Variant, g: Geometry, m: nat, n: nat)
    requires m <= n
    ensures CursorAt(v, g, m).tier <= CursorAt(v, g, n).tier <= CursorAt(v, g, m).tier + (n - m)
  {
    if m < n {
      TierGrowth(v, g, m, n - 1);
      NextIsOneOfThree(v, g, CursorAt(v, g, n - 1));
    }
  }

  /** With tier 0 the candidate is the cursor; otherwise it is shifted diagonally. */
  lemma CandidateOffset(g: Geometry, c: Cursor)
    ensures c.tier == 0 ==> Candidate(g, c) == (c.cx, c.cy)
    ensures Candidate(g, c).0 - c.cx == TierStepX(g) * c.tier * Sign(g.rtl)
    ensures Candidate(g, c).1 - c.cy == TierStepY(g) * c.tier * Sign(g.btt)
    ensures g.inRows ==> TierStepX(g) == 1 + CDiv(g.cellW, 24) && TierStepY(g) == 1 + CDiv(g.cellH, 16)
    ensures !g.inRows ==> TierStepX(g) == 1 + CDiv(g.cellW, 16) && TierStepY(g) == 1 + CDiv(g.cellH, 24)
  {
  }

  /** A box that holds at least one cell of non-negative size. */
  predicate Fits(g: Geometry)
  {
    0 <= g.cellW && 0 <= g.cellH && g.left <= g.right - g.cellW && g.top <= g.bottom - g.cellH
  }

  /** The cursor is on a cell that lies inside the box. */
  predicate InBounds(g: Geometry, c: Cursor)
  {
    g.left <= c.cx <= g.right - g.cellW && g.top <= c.cy <= g.bottom - g.cellH
  }

  /** One advance keeps the cursor inside the box, except bottom-to-top as written. */
  lemma NextInBounds(v: Variant, g: Geometry, c: Cursor)
    requires Fits(g) && InBounds(g, c)
    requires v == Intended || !g.btt
    ensures InBounds(g, Next(v, g, c))
  {
  }

  /**
   * From `reset`, any number of advances keeps the cursor inside the box:
   * for every flow direction with the intended test, and for the code as
   * written whenever the flow is top-to-bottom.
   */
  lemma {:induction false} AlwaysInBounds(v: Variant, g: Geometry, n: nat)
    requires Fits(g)
    requires v == Intended || !g.btt
    ensures InBounds(g, CursorAt(v, g, n))
  {
    if n > 0 {
      AlwaysInBounds(v, g, n - 1);
      NextInBounds(v, g, CursorAt(v, g, n - 1));
    }
  }

  /** The two variants differ only bottom-to-top. */
  lemma VariantsAgreeTopToBottom(g: Geometry, n: nat)
    requires !g.btt
    ensures CursorAt(AsWritten, g, n) == CursorAt(Intended, g, n)
  {
  }

  /**
   * The defect of the code as written: bottom-to-top in row mode, from a
   * cursor on the top row, the next row is placed above the box.
   */
  lemma BottomToTopLeavesBox()
    ensures var g := Geometry(0, 0, 400, 300, 80, 60, true, false, true);
      && Fits(g) && InBounds(g, Cursor(320, 0, 0))
      && Next(AsWritten, g, Cursor(320, 0, 0)) == Cursor(0, -60, 0)
      && !InBounds(g, Next(AsWritten, g, Cursor(320, 0, 0)))
      && InBounds(g, Next(Intended, g, Cursor(320, 0, 0)))
  {
  }

  /**
   * More generally, bottom-to-top as written never wraps when the starting
   * column is not left of the top line (a box whose left edge is at or right
   * of its top edge, as with a working area at the screen origin): the tier
   * stays 0 forever, and in column mode the cursor climbs one cell per
   * advance without ever leaving its column.
   */
  lemma {:induction false} BottomToTopNeverWraps(g: Geometry, n: nat)
    requires g.btt && StartX(g) >= g.top
    ensures CursorAt(AsWritten, g, n).tier == 0
    ensures !g.inRows ==> CursorAt(AsWritten, g, n) == Cursor(StartX(g), StartY(g) - n * g.cellH, 0)
  {
    if n > 0 {
      BottomToTopNeverWraps(g, n - 1);
      var c := CursorAt(AsWritten, g, n - 1);
      if !g.inRows {
        assert StartY(g) - n * g.cellH == StartY(g) - (n - 1) * g.cellH - g.cellH;
      }
    }
  }

  /* ------------------------------------------------------------------ */
  /* Mirror symmetry of the flow flags                                   */

  /** Mirror a horizontal coordinate of a cell about the box's vertical midline. */
  function MirrorCX(g: Geometry, cx: int): int { g.left + g.right - g.cellW - cx }
  function MirrorCY(g: Geometry, cy: int): int { g.top + g.bottom - g.cellH - cy }

  function MirrorX(g: Geometry, c: Cursor): Cursor { Cursor(MirrorCX(g, c.cx), c.cy, c.tier) }
  function MirrorY(g: Geometry, c: Cursor): Cursor { Cursor(c.cx, MirrorCY(g, c.cy), c.tier) }

  /** One advance commutes with the horizontal mirror. */
  lemma NextMirrorX(v: Variant, g: Geometry, c: Cursor)
    requires v == Intended || !g.btt
    ensures Next(v, g.(rtl := !g.rtl), MirrorX(g, c)) == MirrorX(g, Next(v, g, c))
  {
    var g' := g.(rtl := !g.rtl);
    assert StartX(g') == MirrorCX(g, StartX(g));
    assert StepX(g', MirrorCX(g, c.cx)) == Step(MirrorCX(g, StepX(g, c.cx).pos), StepX(g, c.cx).overflow);
  }

  /** One advance commutes with the vertical mirror, for the intended test. */
  lemma NextMirrorY(g: Geometry, c: Cursor)
    ensures Next(Intended, g.(btt := !g.btt), MirrorY(g, c)) == MirrorY(g, Next(Intended, g, c))
  {
    var g' := g.(btt := !g.btt);
    assert StartY(g') == MirrorCY(g, StartY(g));
  }

  /** The candidate's tier shift flips sign with the flag it depends on. */
  lemma CandidateMirror(g: Geometry, c: Cursor)
    ensures Candidate(g.(rtl := !g.rtl), MirrorX(g, c)) == (MirrorCX(g, Candidate(g, c).0), Candidate(g, c).1)
    ensures Candidate(g.(btt := !g.btt), MirrorY(g, c)) == (Candidate(g, c).0, MirrorCY(g, Candidate(g, c).1))
  {
    var t := c.tier;
    assert TierStepX(g) * t * -1 == -(TierStepX(g) * t * 1);
    assert TierStepY(g) * t * -1 == -(TierStepY(g) * t * 1);
  }

  /**
   * Flipping right-to-left mirrors every cursor and every candidate about the
   * vertical midline of the box, and leaves the rows and the tier alone.
   */
  lemma {:induction false} MirrorHorizontal(v: Variant, g: Geometry, n: nat)
    requires v == Intended || !g.btt
    ensures CursorAt(v, g.(rtl := !g.rtl), n) == MirrorX(g, CursorAt(v, g, n))
    ensures Candidate(g.(rtl := !g.rtl), CursorAt(v, g.(rtl := !g.rtl), n))
         == (MirrorCX(g, Candidate(g, CursorAt(v, g, n)).0), Candidate(g, CursorAt(v, g, n)).1)
  {
    if n > 0 {
      MirrorHorizontal(v, g, n - 1);
      NextMirrorX(v, g, CursorAt(v, g, n - 1));
    }
    CandidateMirror(g, CursorAt(v, g, n));
  }

  /** With the intended test, flipping bottom-to-top mirrors about the horizontal midline. */
  lemma {:induction false} MirrorVertical(g: Geometry, n: nat)
    ensures CursorAt(Intended, g.(btt := !g.btt), n) == MirrorY(g, CursorAt(Intended, g, n))
    ensures Candidate(g.(btt := !g.btt), CursorAt(Intended, g.(btt := !g.btt), n))
         == (Candidate(g, CursorAt(Intended, g, n)).0, MirrorCY(g, Candidate(g, CursorAt(Intended, g, n)).1))
  {
    if n > 0 {
      MirrorVertical(g, n - 1);
      NextMirrorY(g, CursorAt(Intended, g, n - 1));
    }
    CandidateMirror(g, CursorAt(Intended, g, n));
  }

  /* ------------------------------------------------------------------ */
  /* The first sweep is the grid in row-major order                      */

  /** Number of whole cells across and down the box (for positive cell sizes). */
  function Columns(g: Geometry): nat
    requires g.cellW > 0 && g.left <= g.right - g.cellW
  {
    (g.right - g.cellW - g.left) / g.cellW + 1
  }

  function Rows(g: Geometry): nat
    requires g.cellH > 0 && g.top <= g.bottom - g.cellH
  {
    (g.bottom - g.cellH - g.top) / g.cellH + 1
  }

  /** (n+1) div/mod k from n div/mod k. */
  lemma DivModSucc(n: nat, k: nat)
    requires k > 0
    ensures n % k < k - 1 ==> (n + 1) % k == n % k + 1 && (n + 1) / k == n / k
    ensures n % k == k - 1 ==> (n + 1) % k == 0 && (n + 1) / k == n / k + 1
  {
    var q, r := n / k, n % k;
    assert n == q * k + r && 0 <= r < k;
    if r < k - 1 {
      DivModUnique(n + 1, k, q, r + 1);
    } else {
      assert n + 1 == (q + 1) * k + 0;
      DivModUnique(n + 1, k, q + 1, 0);
    }
  }

  /** Stepping a cell of size w from column i of `count` columns overflows exactly past the last. */
  lemma ColumnStep(start: int, limit: int, w: int, i: nat)
    requires w > 0 && start <= limit
    requires i < (limit - start) / w + 1
    ensures start + (i + 1) * w > limit <==> i + 1 == (limit - start) / w + 1
  {
    var d := limit - start;
    var q := d / w;
    assert d == q * w + d % w;
    if i + 1 <= q {
      MulLeq(i + 1, q, w);
    } else {
      assert (i + 1) * w == q * w + w;
    }
  }

  /** The cursor on column i of row j, tier 0. */
  function SweepCell(g: Geometry, i: nat, j: nat): Cursor
  {
    Cursor(g.left + i * g.cellW, g.top + j * g.cellH, 0)
  }

  /**
   * One advance on the first sweep: from column i of row j, the next cell of
   * the row, else the first cell of the next row, else back to the top-left
   * with tier 1.
   */
  lemma SweepStep(g: Geometry, i: nat, j: nat)
    requires g.inRows && !g.rtl && !g.btt
    requires g.cellW > 0 && g.cellH > 0 && Fits(g)
    requires i < Columns(g) && j < Rows(g)
    ensures Next(AsWritten, g, SweepCell(g, i, j)) ==
      if i + 1 < Columns(g) then SweepCell(g, i + 1, j)
      else if j + 1 < Rows(g) then SweepCell(g, 0, j + 1)
      else Cursor(g.left, g.top, 1)
  {
    ColumnStep(g.left, g.right - g.cellW, g.cellW, i);
    ColumnStep(g.top, g.bottom - g.cellH, g.cellH, j);
    assert g.left + i * g.cellW + g.cellW == g.left + (i + 1) * g.cellW;
    assert g.top + j * g.cellH + g.cellH == g.top + (j + 1) * g.cellH;
  }

  /** Row j of a grid with `cols` columns and `rows` rows is a real row while n precedes cols * rows. */
  lemma RowIndexBound(n: nat, cols: nat, rows: nat)
    requires cols > 0 && n < cols * rows
    ensures n / cols < rows
    ensures n + 1 < cols * rows <== n / cols + 1 < rows
    ensures n + 1 == cols * rows <== n % cols + 1 == cols && n / cols + 1 == rows
  {
    var j, i := n / cols, n % cols;
    assert n == j * cols + i;
    if j >= rows {
      MulLeq(rows, j, cols);
    }
    if j + 1 < rows {
      MulLeq(j + 2, rows, cols);
      assert (j + 2) * cols == j * cols + 2 * cols;
    }
    if i + 1 == cols && j + 1 == rows {
      assert n + 1 == (j + 1) * cols;
    }
  }

  /** Where the first sweep is after n advances, as stated by FirstSweepRowMajor. */
  predicate SweepAt(g: Geometry, n: nat)
    requires g.cellW > 0 && g.cellH > 0 && Fits(g)
  {
    && (n < Columns(g) * Rows(g) ==>
         CursorAt(AsWritten, g, n) == SweepCell(g, n % Columns(g), n / Columns(g)))
    && (n == Columns(g) * Rows(g) ==> CursorAt(AsWritten, g, n) == Cursor(g.left, g.top, 1))
  }

  lemma SweepBase(g: Geometry)
    requires g.inRows && !g.rtl && !g.btt
    requires g.cellW > 0 && g.cellH > 0 && Fits(g)
    ensures SweepAt(g, 0)
  {
    var cols, rows := Columns(g), Rows(g);
    assert 0 < cols * rows by { MulLeq(1, rows, cols); }
    DivModUnique(0, cols, 0, 0);
  }

  lemma SweepInduct(g: Geometry, k: nat)
    requires g.inRows && !g.rtl && !g.btt
    requires g.cellW > 0 && g.cellH > 0 && Fits(g)
    requires k < Columns(g) * Rows(g) && SweepAt(g, k)
    ensures SweepAt(g, k + 1)
  {
    var cols, rows := Columns(g), Rows(g);
    var n := k + 1;
    var i, j := k % cols, k / cols;
    assert j < rows by { RowIndexBound(k, cols, rows); }
    assert CursorAt(AsWritten, g, n) == Next(AsWritten, g, SweepCell(g, i, j));
    SweepStep(g, i, j);
    if i + 1 < cols {
      assert n % cols == i + 1 && n / cols == j by { DivModSucc(k, cols); }
      assert n < cols * rows by { RowIndexBound(k, cols, rows); }
    } else if j + 1 < rows {
      assert n % cols == 0 && n / cols == j + 1 by { DivModSucc(k, cols); }
      assert n < cols * rows by { RowIndexBound(k, cols, rows); }
    } else {
      assert n == cols * rows by { RowIndexBound(k, cols, rows); }
    }
  }

  /**
   * Left-to-right, top-to-bottom in row mode with positive cells that fit:
   * the n-th cursor of the first sweep is column n mod C of row n div C, and
   * after all C * R cells the cursor is back at the top-left with tier 1.
   */
  lemma {:induction false} FirstSweepRowMajor(g: Geometry, n: nat)
    requires g.inRows && !g.rtl && !g.btt
    requires g.cellW > 0 && g.cellH > 0 && Fits(g)
    requires n <= Columns(g) * Rows(g)
    ensures n < Columns(g) * Rows(g) ==>
      CursorAt(AsWritten, g, n) == SweepCell(g, n % Columns(g), n / Columns(g))
    ensures n == Columns(g) * Rows(g) ==> CursorAt(AsWritten, g, n) == Cursor(g.left, g.top, 1)
  {
    if n == 0 {
      SweepBase(g);
    } else {
      FirstSweepRowMajor(g, n - 1);
      SweepInduct(g, n - 1);
    }
  }

  /** The worked examples: a 400x300 box with 80x60 cells, rows, left-to-right and right-to-left. */
  lemma WorkedExamples()
    ensures var g := Geometry(0, 0, 400, 300, 80, 60, true, false, false);
      && CandidateAt(g, 0) == (0, 0) && CandidateAt(g, 1) == (80, 0)
      && CandidateAt(g, 2) == (160, 0) && CandidateAt(g, 3) == (240, 0)
      && CandidateAt(g, 4) == (320, 0) && CandidateAt(g, 5) == (0, 60)
    ensures var g := Geometry(0, 0, 400, 300, 80, 60, true, true, false);
      CandidateAt(g, 0) == (320, 0) && CandidateAt(g, 1) == (240, 0)
  {
    var g := Geometry(0, 0, 400, 300, 80, 60, true, false, false);
    assert CursorAt(AsWritten, g, 4) == Cursor(320, 0, 0);
  }
}
