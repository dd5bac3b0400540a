/**
  The `sampleLines_inline` calibration module: a two-phase line sweep.

  A horizontal line rises one unit per update until it passes the screen
  height; from then on a vertical line moves right one unit per update until
  the next step would pass the screen width, after which updates do nothing.
  The line positions live on the calibrator (`a.horizontal`, `a.vertical`);
  only the phase flag `horz` belongs to the module. Positions move in whole
  units from -5, so they are integers; the screen dimensions come from the
  host as floats and are `real`s here.
 */
module SampleLines {

  const LineThickness: int := 5

  /** The swept coordinate of each line: the horizontal line's y, the vertical line's x. */
  datatype Lines = Lines(horizontalY: int, verticalX: int)

  datatype Sweep = Sweep(lines: Lines, horz: bool)

  /** A freshly constructed module: `horz` starts true; the lines are wherever they were. */
  function NewModule(lines: Lines): Sweep {
    Sweep(lines, true)
  }

  /** `start`: both lines just off-screen at -lineThickness; the phase is not reset. */
  function Start(s: Sweep): Sweep {
    Sweep(Lines(-LineThickness, -LineThickness), s.horz)
  }

  /** `update`, given the screen dimensions the canvas reports this frame. */
  function Update(s: Sweep, screenW: real, screenH: real): Sweep {
    if s.horz then
      var y := s.lines.horizontalY + 1;
      Sweep(s.lines.(horizontalY := y), !(y as real > screenH))
    else
      var x := s.lines.verticalX + 1;
      if x as real > screenW then s
      else s.(lines := s.lines.(verticalX := x))
  }

  /** `n` updates with unchanged screen dimensions. */
  function UpdateN(s: Sweep, screenW: real, screenH: real, n: nat): Sweep
    decreases n
  {
    if n == 0 then s else UpdateN(Update(s, screenW, screenH), screenW, screenH, n - 1)
  }

  /** The vertical line cannot advance without passing the screen width. */
  predicate Stuck(s: Sweep, screenW: real) {
    !s.horz && (s.lines.verticalX + 1) as real > screenW
  }

  function MaxReal(a: real, b: real): real {
    if a >= b then a else b
  }

  // ---------------------------------------------------------------------------
  // Single updates

  /** `start` puts both lines at -lineThickness and keeps the phase flag. */
  lemma StartPlacesLinesOffScreen(s: Sweep)
    ensures Start(s).lines.horizontalY == -5 && Start(s).lines.verticalX == -5
    ensures Start(s).horz == s.horz
  {
  }

  /**
    In the horizontal phase an update raises the horizontal line by exactly
    one and leaves the vertical line alone; the phase flips to vertical
    exactly when the new y exceeds the screen height.
   */
  lemma HorizontalUpdate(s: Sweep, screenW: real, screenH: real)
    requires s.horz
    ensures var r := Update(s, screenW, screenH);
      && r.lines.horizontalY == s.lines.horizontalY + 1
      && r.lines.verticalX == s.lines.verticalX
      && (r.horz <==> (s.lines.horizontalY + 1) as real <= screenH)
  {
  }

  /**
    In the vertical phase an update advances the vertical line by one when
    the new x stays within the screen width and is a no-op otherwise; the
    horizontal line and the phase never change.
   */
  lemma VerticalUpdate(s: Sweep, screenW: real, screenH: real)
    requires !s.horz
    ensures var r := Update(s, screenW, screenH);
      && !r.horz
      && r.lines.horizontalY == s.lines.horizontalY
      && (r.lines.verticalX == s.lines.verticalX + 1 <==> (s.lines.verticalX + 1) as real <= screenW)
      && (r.lines.verticalX != s.lines.verticalX + 1 ==> r == s)
  {
  }

  // ---------------------------------------------------------------------------
  // Many updates

  /** Once the sweep is vertical it never becomes horizontal again, and the horizontal line stays put. */
  lemma {:induction false} NeverBackToHorizontal(s: Sweep, screenW: real, screenH: real, n: nat)
    requires !s.horz
    ensures !UpdateN(s, screenW, screenH, n).horz
    ensures UpdateN(s, screenW, screenH, n).lines.horizontalY == s.lines.horizontalY
    decreases n
  {
    if n > 0 {
      NeverBackToHorizontal(Update(s, screenW, screenH), screenW, screenH, n - 1);
    }
  }

  /** Neither line ever moves backwards. */
  lemma {:induction false} LinesNeverMoveBack(s: Sweep, screenW: real, screenH: real, n: nat)
    ensures UpdateN(s, screenW, screenH, n).lines.horizontalY >= s.lines.horizontalY
    ensures UpdateN(s, screenW, screenH, n).lines.verticalX >= s.lines.verticalX
    decreases n
  {
    if n > 0 {
      LinesNeverMoveBack(Update(s, screenW, screenH), screenW, screenH, n - 1);
    }
  }

  /** A stuck sweep is a fixed point: every further update leaves the whole state unchanged. */
  lemma {:induction false} StuckIsFixedPoint(s: Sweep, screenW: real, screenH: real, n: nat)
    requires Stuck(s, screenW)
    ensures UpdateN(s, screenW, screenH, n) == s
    decreases n
  {
    if n > 0 {
      assert Update(s, screenW, screenH) == s;
      StuckIsFixedPoint(s, screenW, screenH, n - 1);
    }
  }

  /**
    The stored x of the vertical line never exceeds `max(screenW, x0)`,
    where x0 is its position when the updates begin.
   */
  lemma {:induction false} VerticalLineBounded(s: Sweep, screenW: real, screenH: real, n: nat)
    ensures UpdateN(s, screenW, screenH, n).lines.verticalX as real
            <= MaxReal(screenW, s.lines.verticalX as real)
    decreases n
  {
    if n > 0 {
      VerticalLineBounded(Update(s, screenW, screenH), screenW, screenH, n - 1);
    }
  }

  /** After `start`, the vertical line never passes `max(screenW, -lineThickness)`. */
  lemma SweepFromStartBounded(s: Sweep, screenW: real, screenH: real, n: nat)
    ensures UpdateN(Start(s), screenW, screenH, n).lines.verticalX as real
            <= MaxReal(screenW, -LineThickness as real)
  {
    VerticalLineBounded(Start(s), screenW, screenH, n);
  }

  /**
    The horizontal phase: while the line stays within the screen height, `n`
    updates raise it by exactly `n` and change nothing else.
   */
  lemma {:induction false} HorizontalPhase(s: Sweep, screenW: real, screenH: real, n: nat)
    requires s.horz
    requires (s.lines.horizontalY + n) as real <= screenH
    ensures UpdateN(s, screenW, screenH, n)
            == s.(lines := s.lines.(horizontalY := s.lines.horizontalY + n))
    decreases n
  {
    if n > 0 {
      var t := Update(s, screenW, screenH);
      assert t == s.(lines := s.lines.(horizontalY := s.lines.horizontalY + 1));
      HorizontalPhase(t, screenW, screenH, n - 1);
    }
  }

  /**
    The vertical phase: while the line stays within the screen width, `n`
    updates move it right by exactly `n` and change nothing else.
   */
  lemma {:induction false} VerticalPhase(s: Sweep, screenW: real, screenH: real, n: nat)
    requires !s.horz
    requires (s.lines.verticalX + n) as real <= screenW
    ensures UpdateN(s, screenW, screenH, n)
            == s.(lines := s.lines.(verticalX := s.lines.verticalX + n))
    decreases n
  {
    if n > 0 {
      var t := Update(s, screenW, screenH);
      assert t == s.(lines := s.lines.(verticalX := s.lines.verticalX + 1));
      VerticalPhase(t, screenW, screenH, n - 1);
    }
  }

  /**
    A freshly constructed module, once started, first raises the horizontal
    line from -lineThickness one unit per update while the vertical line
    waits at -lineThickness, for as long as the line stays within the
    screen height.
   */
  lemma FreshSweepRisesFirst(lines: Lines, screenW: real, screenH: real, n: nat)
    requires (n - LineThickness) as real <= screenH
    ensures UpdateN(Start(NewModule(lines)), screenW, screenH, n)
            == Sweep(Lines(n - LineThickness, -LineThickness), true)
  {
    HorizontalPhase(Start(NewModule(lines)), screenW, screenH, n);
  }

  lemma {:induction false} UpdateNAdd(s: Sweep, screenW: real, screenH: real, m: nat, n: nat)
    ensures UpdateN(s, screenW, screenH, m + n)
            == UpdateN(UpdateN(s, screenW, screenH, m), screenW, screenH, n)
    decreases m
  {
    if m > 0 {
      UpdateNAdd(Update(s, screenW, screenH), screenW, screenH, m - 1, n);
    }
  }

  /** Number of updates for a line at `p` until the next step would pass `limit`. */
  function StepsWithin(p: int, limit: real): nat {
    if (p as real) < limit then (limit.Floor - p) as nat else 0
  }

  lemma StepsWithinBounds(p: int, limit: real)
    ensures (p + StepsWithin(p, limit)) as real <= limit || StepsWithin(p, limit) == 0
    ensures (p + StepsWithin(p, limit) + 1) as real > limit
  {
  }

  /**
    From any state the sweep gets stuck after finitely many updates: the
    horizontal line first passes the screen height, then the vertical line
    advances until its next step would pass the screen width.
   */
  lemma SweepEventuallyStuck(s: Sweep, screenW: real, screenH: real)
    ensures exists n: nat :: Stuck(UpdateN(s, screenW, screenH, n), screenW)
  {
    var v := s;
    var m: nat := 0;
    if s.horz {
      var k := StepsWithin(s.lines.horizontalY, screenH);
      StepsWithinBounds(s.lines.horizontalY, screenH);
      if k > 0 {
        HorizontalPhase(s, screenW, screenH, k);
      }
      var h := UpdateN(s, screenW, screenH, k);
      assert h.horz && h.lines.horizontalY == s.lines.horizontalY + k;
      v := Update(h, screenW, screenH);
      assert !v.horz;
      UpdateNAdd(s, screenW, screenH, k, 1);
      m := k + 1;
    }
    assert v == UpdateN(s, screenW, screenH, m);
    var j := StepsWithin(v.lines.verticalX, screenW);
    StepsWithinBounds(v.lines.verticalX, screenW);
    if j > 0 {
      VerticalPhase(v, screenW, screenH, j);
    }
    UpdateNAdd(s, screenW, screenH, m, j);
    assert Stuck(UpdateN(s, screenW, screenH, m + j), screenW);
  }
}
