/**
  The binary-search ("halving") display-bounds finder of `vertexCalibrator`.

  The search keeps a rectangle `current` (a `Vector4` read as x, y offset and
  z width, w height), the rectangle `lastSuccessful` it was cut from, and two
  flags: `widthHeight` (which side the last successful step cut) and
  `firstSecond` (which half is being shown). Each step either cuts the
  rectangle in half (the sensors saw the lit area) or flips to the other half
  (they did not); `fill` then either restarts the search, once a side has
  shrunk below `successPoint`, or paints the truncated rectangle white on a
  black `textureRes` x `textureRes` texture.

  The `Vector4` components are `real`s: with the default `textureRes` of 1024
  every value the search produces is a dyadic rational, which single
  precision holds exactly. The `(int)` casts of `fill` truncate toward zero
  and are written out as `Truncate`.
 */
module VertexCalibrator {
  import opened Optional

  /** The component's public tunables. */
  datatype Config = Config(textureRes: int, successPoint: int)

  /** The inspector defaults: a 1024 x 1024 texture, stop below 4 pixels. */
  const DefaultConfig: Config := Config(1024, 4)

  /** A `Vector4` used as a rectangle: offset (x, y), width z, height w. */
  datatype Rect = Rect(x: real, y: real, z: real, w: real)

  /** The truncated rectangle handed to the integer `fill` overload. */
  datatype IntRect = IntRect(x: int, y: int, w: int, h: int)

  datatype HalvingState = HalvingState(
    current: Rect,
    lastSuccessful: Rect,
    widthHeight: bool,
    firstSecond: bool)

  /** The fields' C# defaults: `Start` never calls `startNewHalvingTest`. */
  const Initial: HalvingState :=
    HalvingState(Rect(0.0, 0.0, 0.0, 0.0), Rect(0.0, 0.0, 0.0, 0.0), false, false)

  /** What a step did to the display texture. */
  datatype Effect =
    | NotReached         // the candidate left the texture and was reverted; `fill` was not called
    | Restarted          // `fill` found the target and restarted the search; no pixel written
    | Painted(rect: IntRect) // `fill` painted this rectangle white, everything else black

  datatype StepResult = StepResult(state: HalvingState, effect: Effect)

  /**
    Which bounds test guards a failed width-wise step: the one in the code,
    which tests `y` and `y + z`, or the evidently intended `x` and `x + z`.
   */
  datatype BoundsGuard = AsWritten | Intended

  datatype Axis = Width | Height

  datatype Color = White | Black

  /** The C# `(int)` cast of a float: truncation toward zero. */
  function Truncate(v: real): (t: int)
    ensures 0.0 <= v ==> 0 <= t && t as real <= v < t as real + 1.0
    ensures v < 0.0 ==> t <= 0 && t as real - 1.0 < v <= t as real
  {
    if v >= 0.0 then v.Floor else -((-v).Floor)
  }

  function TruncateRect(v: Rect): IntRect {
    IntRect(Truncate(v.x), Truncate(v.y), Truncate(v.z), Truncate(v.w))
  }

  function ToRect(r: IntRect): Rect {
    Rect(r.x as real, r.y as real, r.w as real, r.h as real)
  }

  function FullRect(cfg: Config): Rect {
    Rect(0.0, 0.0, cfg.textureRes as real, cfg.textureRes as real)
  }

  /** The side a step cuts: `widthHeight` true means width-wise. */
  function AxisOf(widthHeight: bool): Axis {
    if widthHeight then Width else Height
  }

  /**
    Reference definition of the two halves of `r` along `a`: the first half
    keeps `r`'s offset, the second starts at its midpoint.
   */
  function Half(r: Rect, a: Axis, second: bool): (h: Rect)
    ensures a == Width ==> h.y == r.y && h.w == r.w && h.z + h.z == r.z
    ensures a == Width ==> (if second then h.x + h.z == r.x + r.z else h.x == r.x)
    ensures a == Height ==> h.x == r.x && h.z == r.z && h.w + h.w == r.w
    ensures a == Height ==> (if second then h.y + h.w == r.y + r.w else h.y == r.y)
  {
    match a
    case Width =>
      var half := r.z / 2.0;
      Rect(if second then r.x + half else r.x, r.y, half, r.w)
    case Height =>
      var half := r.w / 2.0;
      Rect(r.x, if second then r.y + half else r.y, r.z, half)
  }

  /** Whether `(px, py)` lies inside the painted rectangle (the test of the paint loop). */
  predicate InRect(r: IntRect, px: int, py: int) {
    px >= r.x && px < r.x + r.w && py >= r.y && py < r.y + r.h
  }

  /** A rectangle that lies inside the `textureRes` square, with non-negative sides. */
  predicate WithinTexture(cfg: Config, r: Rect) {
    var res := cfg.textureRes as real;
    && 0.0 <= r.x && 0.0 <= r.z && r.x + r.z <= res
    && 0.0 <= r.y && 0.0 <= r.w && r.y + r.w <= res
  }

  predicate IntRectWithinTexture(cfg: Config, r: IntRect) {
    && 0 <= r.x && 0 <= r.w && r.x + r.w <= cfg.textureRes
    && 0 <= r.y && 0 <= r.h && r.y + r.h <= cfg.textureRes
  }

  predicate StateWithinTexture(cfg: Config, s: HalvingState) {
    WithinTexture(cfg, s.current) && WithinTexture(cfg, s.lastSuccessful)
  }

  /** `startNewHalvingTest`: both rectangles become the whole texture; the flags are kept. */
  function StartNewHalvingTest(cfg: Config, s: HalvingState): HalvingState {
    s.(current := FullRect(cfg), lastSuccessful := FullRect(cfg))
  }

  /**
    `fill(Vector4)` followed by `fill(int, int, int, int)`: truncate, then
    either restart (a side below `successPoint`) or store the truncated
    rectangle as `current` and paint it.
   */
  function Fill(cfg: Config, s: HalvingState): StepResult {
    var v := TruncateRect(s.current);
    if v.w < cfg.successPoint || v.h < cfg.successPoint then
      StepResult(StartNewHalvingTest(cfg, s), Restarted)
    else
      StepResult(s.(current := ToRect(v)), Painted(v))
  }

  /** The successful branch of `takeHalvingTestStep`, up to the call of `fill`. */
  function Halve(s: HalvingState): HalvingState {
    var last := s.current;
    var widthHeight := !s.widthHeight;
    var c :=
      if widthHeight then
        var c1 := last.(z := last.z / 2.0);
        if s.firstSecond then c1.(x := c1.x + last.z / 2.0) else c1
      else
        var c1 := last.(w := last.w / 2.0);
        if s.firstSecond then c1.(y := c1.y + last.w / 2.0) else c1;
    HalvingState(c, last, widthHeight, s.firstSecond)
  }

  /** The failed branch of `takeHalvingTestStep`, up to its bounds test. */
  function FlipHalf(s: HalvingState): HalvingState {
    var firstSecond := !s.firstSecond;
    var c := s.current;
    var last := s.lastSuccessful;
    var moved :=
      if s.widthHeight then
        c.(x := if firstSecond then c.x + last.z / 2.0 else c.x - last.z / 2.0)
      else
        c.(y := if firstSecond then c.y + last.w / 2.0 else c.y - last.w / 2.0);
    s.(current := moved, firstSecond := firstSecond)
  }

  /** The bounds test of a failed step, which reverts the step when it holds. */
  predicate OutOfBounds(cfg: Config, s: HalvingState, guard: BoundsGuard) {
    var c := s.current;
    var res := cfg.textureRes as real;
    if s.widthHeight then
      match guard
      case AsWritten => c.y < 0.0 || c.y + c.z > res
      case Intended => c.x < 0.0 || c.x + c.z > res
    else
      c.y < 0.0 || c.y + c.w > res
  }

  /** `takeHalvingTestStep(ok)` with the width-wise bounds test chosen by `guard`. */
  function StepWith(cfg: Config, s: HalvingState, ok: bool, guard: BoundsGuard): StepResult {
    if ok then
      Fill(cfg, Halve(s))
    else
      var t := FlipHalf(s);
      if OutOfBounds(cfg, t, guard) then
        StepResult(t.(firstSecond := !t.firstSecond, current := t.lastSuccessful), NotReached)
      else
        Fill(cfg, t)
  }

  /** `takeHalvingTestStep` as the code is written. */
  function TakeHalvingTestStep(cfg: Config, s: HalvingState, ok: bool): StepResult {
    StepWith(cfg, s, ok, AsWritten)
  }

  /** `takeHalvingTestStep` with the width-wise bounds test on `x`, as evidently intended. */
  function TakeHalvingTestStepIntended(cfg: Config, s: HalvingState, ok: bool): StepResult {
    StepWith(cfg, s, ok, Intended)
  }

  /** The state after one step per element of `oks`, each the sensors' verdict on the last frame. */
  function Run(cfg: Config, s: HalvingState, oks: seq<bool>, guard: BoundsGuard): HalvingState
    decreases |oks|
  {
    if |oks| == 0 then s else Run(cfg, StepWith(cfg, s, oks[0], guard).state, oks[1..], guard)
  }

  // ---------------------------------------------------------------------------
  // Properties of one step

  /** A restart makes both rectangles the whole texture and keeps the flags. */
  lemma RestartCoversTexture(cfg: Config, s: HalvingState)
    requires cfg.textureRes >= 0
    ensures var t := StartNewHalvingTest(cfg, s);
      && t.current == t.lastSuccessful == FullRect(cfg)
      && WithinTexture(cfg, t.current)
      && t.widthHeight == s.widthHeight && t.firstSecond == s.firstSecond
  {
  }

  /**
    A successful step remembers the pre-step rectangle as `lastSuccessful`,
    toggles `widthHeight`, and keeps exactly one half of the pre-step
    rectangle, cut across the new `widthHeight`: the second half when
    `firstSecond` is set, the first otherwise. Then `fill` runs.
   */
  lemma SuccessfulStepKeepsOneHalf(cfg: Config, s: HalvingState, guard: BoundsGuard)
    ensures var t := Halve(s);
      && t.lastSuccessful == s.current
      && t.widthHeight == !s.widthHeight
      && t.firstSecond == s.firstSecond
      && t.current == Half(s.current, AxisOf(t.widthHeight), s.firstSecond)
    ensures StepWith(cfg, s, true, guard) == Fill(cfg, Halve(s))
  {
  }

  /**
    A failed step toggles `firstSecond` and moves the rectangle by half of
    `lastSuccessful`'s side across the current axis, forward when the new
    `firstSecond` is set and backward otherwise; nothing else changes.
   */
  lemma FailedStepMovesByHalf(s: HalvingState)
    ensures var t := FlipHalf(s);
      && t.firstSecond == !s.firstSecond
      && t.lastSuccessful == s.lastSuccessful
      && t.widthHeight == s.widthHeight
      && (s.widthHeight ==>
            t.current == s.current.(x := s.current.x + (if t.firstSecond then 1.0 else -1.0) * s.lastSuccessful.z / 2.0))
      && (!s.widthHeight ==>
            t.current == s.current.(y := s.current.y + (if t.firstSecond then 1.0 else -1.0) * s.lastSuccessful.w / 2.0))
  {
  }

  /**
    When the rectangle is one half of `lastSuccessful` (as every successful
    step leaves it), a failed step moves it onto the other half.
   */
  lemma FailedStepShowsOtherHalf(s: HalvingState)
    requires s.current == Half(s.lastSuccessful, AxisOf(s.widthHeight), s.firstSecond)
    ensures FlipHalf(s).current == Half(s.lastSuccessful, AxisOf(s.widthHeight), !s.firstSecond)
  {
  }

  /**
    After a successful step that paints whole-pixel halves, a failed step
    moves the rectangle onto the other half of the rectangle the success cut.
   */
  lemma FailureAfterSuccessTriesOtherHalf(cfg: Config, s: HalvingState, guard: BoundsGuard)
    requires Fill(cfg, Halve(s)).effect.Painted?
    requires ToRect(TruncateRect(Halve(s).current)) == Halve(s).current
    ensures var t := StepWith(cfg, s, true, guard).state;
      && t.lastSuccessful == s.current
      && FlipHalf(t).current == Half(s.current, AxisOf(!s.widthHeight), !s.firstSecond)
  {
    SuccessfulStepKeepsOneHalf(cfg, s, guard);
    var t := StepWith(cfg, s, true, guard).state;
    assert t == Halve(s);
    FailedStepShowsOtherHalf(t);
  }

  /**
    A failed step whose candidate fails the bounds test restores
    `lastSuccessful`, leaves `firstSecond` as it was, and never reaches `fill`.
   */
  lemma OutOfBoundsStepReverts(cfg: Config, s: HalvingState, guard: BoundsGuard)
    requires OutOfBounds(cfg, FlipHalf(s), guard)
    ensures var r := StepWith(cfg, s, false, guard);
      && r.effect == NotReached
      && r.state == s.(current := s.lastSuccessful)
  {
  }

  /**
    `fill` restarts, and writes no pixel, exactly when a truncated side is
    below `successPoint`; otherwise it stores the truncated rectangle as
    `current`, leaves everything else alone, and paints that rectangle.
   */
  lemma FillOutcome(cfg: Config, s: HalvingState)
    ensures var r := Fill(cfg, s);
      var v := TruncateRect(s.current);
      && (r.effect == Restarted <==> v.w < cfg.successPoint || v.h < cfg.successPoint)
      && (r.effect == Restarted ==> r.state == StartNewHalvingTest(cfg, s))
      && (r.effect != Restarted ==> r.effect == Painted(v) && r.state == s.(current := ToRect(v)))
  {
  }

  /** `lastSuccessful` changes only on a successful step or a restart. */
  lemma LastSuccessfulChangesOnlyOnSuccessOrRestart(
    cfg: Config, s: HalvingState, ok: bool, guard: BoundsGuard)
    ensures var r := StepWith(cfg, s, ok, guard);
      r.state.lastSuccessful != s.lastSuccessful ==> ok || r.effect == Restarted
    ensures var r := StepWith(cfg, s, ok, guard);
      !ok && r.effect != Restarted ==> r.state.lastSuccessful == s.lastSuccessful
  {
  }

  /** `widthHeight` changes only on a successful step, and always does then. */
  lemma WidthHeightTogglesOnlyOnSuccess(cfg: Config, s: HalvingState, ok: bool, guard: BoundsGuard)
    ensures StepWith(cfg, s, ok, guard).state.widthHeight == (s.widthHeight != ok)
  {
  }

  // ---------------------------------------------------------------------------
  // The width-wise bounds test

  /** Truncating a rectangle inside the texture keeps it inside. */
  lemma TruncateWithinTexture(cfg: Config, r: Rect)
    requires WithinTexture(cfg, r)
    ensures IntRectWithinTexture(cfg, TruncateRect(r))
    ensures WithinTexture(cfg, ToRect(TruncateRect(r)))
  {
  }

  /**
    With the bounds test on `x`, a step from a state whose rectangles lie in
    the texture leaves them in the texture and paints only inside it.
   */
  lemma IntendedStepStaysWithinTexture(cfg: Config, s: HalvingState, ok: bool)
    requires cfg.textureRes >= 0
    requires StateWithinTexture(cfg, s)
    ensures var r := TakeHalvingTestStepIntended(cfg, s, ok);
      && StateWithinTexture(cfg, r.state)
      && (r.effect.Painted? ==> IntRectWithinTexture(cfg, r.effect.rect))
  {
  }

  /** With the bounds test on `x`, every state the search reaches lies in the texture. */
  lemma {:induction false} IntendedRunStaysWithinTexture(
    cfg: Config, s: HalvingState, oks: seq<bool>)
    requires cfg.textureRes >= 0
    requires StateWithinTexture(cfg, s)
    ensures StateWithinTexture(cfg, Run(cfg, s, oks, Intended))
    decreases |oks|
  {
    if |oks| > 0 {
      IntendedStepStaysWithinTexture(cfg, s, oks[0]);
      IntendedRunStaysWithinTexture(cfg, StepWith(cfg, s, oks[0], Intended).state, oks[1..]);
    }
  }

  // ---------------------------------------------------------------------------
  // Precision

  /** `v` is a whole number. */
  predicate IsWhole(v: real) {
    v == v.Floor as real
  }

  /** `v` is a whole number or a whole number and a half. */
  predicate IsHalfWhole(v: real) {
    IsWhole(v + v)
  }

  predicate WholeRect(r: Rect) {
    IsWhole(r.x) && IsWhole(r.y) && IsWhole(r.z) && IsWhole(r.w)
  }

  predicate HalfWholeRect(r: Rect) {
    IsHalfWhole(r.x) && IsHalfWhole(r.y) && IsHalfWhole(r.z) && IsHalfWhole(r.w)
  }

  /** Both stored rectangles hold whole numbers. */
  predicate WholeState(s: HalvingState) {
    WholeRect(s.current) && WholeRect(s.lastSuccessful)
  }

  lemma IntIsWhole(n: int)
    ensures IsWhole(n as real)
  {
  }

  lemma WholeSum(a: real, b: real)
    requires IsWhole(a) && IsWhole(b)
    ensures IsWhole(a + b) && IsWhole(a - b)
  {
    var m, n := a.Floor, b.Floor;
    IntIsWhole(m + n);
    IntIsWhole(m - n);
    assert a + b == (m + n) as real;
    assert a - b == (m - n) as real;
  }

  /** Halving a whole number, or adding half of one to another, gives a half-whole number. */
  lemma HalfOfWhole(a: real, b: real)
    requires IsWhole(a) && IsWhole(b)
    ensures IsHalfWhole(b / 2.0)
    ensures IsHalfWhole(a + b / 2.0) && IsHalfWhole(a - b / 2.0)
  {
    WholeSum(a, a);
    WholeSum(a + a, b);
    assert b / 2.0 + b / 2.0 == b;
    assert (a + b / 2.0) + (a + b / 2.0) == (a + a) + b;
    assert (a - b / 2.0) + (a - b / 2.0) == (a + a) - b;
  }

  lemma WholeIsHalfWhole(a: real)
    requires IsWhole(a)
    ensures IsHalfWhole(a)
  {
    WholeSum(a, a);
  }

  lemma WholeRectIsHalfWhole(r: Rect)
    requires WholeRect(r)
    ensures HalfWholeRect(r)
  {
    WholeIsHalfWhole(r.x);
    WholeIsHalfWhole(r.y);
    WholeIsHalfWhole(r.z);
    WholeIsHalfWhole(r.w);
  }

  /** The successful branch computes its rectangle from halves of whole numbers. */
  lemma HalveMakesHalves(s: HalvingState)
    requires WholeState(s)
    ensures HalfWholeRect(Halve(s).current)
  {
    var c := s.current;
    WholeRectIsHalfWhole(c);
    HalfOfWhole(c.x, c.z);
    HalfOfWhole(c.y, c.w);
  }

  /** The failed branch moves a whole coordinate by half a whole side. */
  lemma FlipHalfMakesHalves(s: HalvingState)
    requires WholeState(s)
    ensures HalfWholeRect(FlipHalf(s).current)
  {
    WholeRectIsHalfWhole(s.current);
    HalfOfWhole(s.current.x, s.lastSuccessful.z);
    HalfOfWhole(s.current.y, s.lastSuccessful.w);
  }

  /** `fill` stores either the casts of the rectangle or the whole texture. */
  lemma FillKeepsWholeNumbers(cfg: Config, s: HalvingState)
    requires WholeRect(s.lastSuccessful)
    ensures WholeState(Fill(cfg, s).state)
  {
    var v := TruncateRect(s.current);
    IntIsWhole(v.x);
    IntIsWhole(v.y);
    IntIsWhole(v.w);
    IntIsWhole(v.h);
    IntIsWhole(cfg.textureRes);
    IntIsWhole(0);
  }

  /**
    A step keeps both stored rectangles whole (a paint stores the casts, a
    restart the whole texture, a revert a stored rectangle), and the
    rectangle it computes before the cast is made of halves.
   */
  lemma StepKeepsWholeNumbers(cfg: Config, s: HalvingState, ok: bool, guard: BoundsGuard)
    requires WholeState(s)
    ensures HalfWholeRect(Halve(s).current) && HalfWholeRect(FlipHalf(s).current)
    ensures WholeState(StepWith(cfg, s, ok, guard).state)
  {
    HalveMakesHalves(s);
    FlipHalfMakesHalves(s);
    if ok {
      FillKeepsWholeNumbers(cfg, Halve(s));
    } else if !OutOfBounds(cfg, FlipHalf(s), guard) {
      FillKeepsWholeNumbers(cfg, FlipHalf(s));
    }
  }

  /** Every state a search reaches from whole rectangles, such as the initial fields, holds whole numbers. */
  lemma {:induction false} RunKeepsWholeNumbers(
    cfg: Config, s: HalvingState, oks: seq<bool>, guard: BoundsGuard)
    requires WholeState(s)
    ensures WholeState(Run(cfg, s, oks, guard))
    decreases |oks|
  {
    if |oks| > 0 {
      StepKeepsWholeNumbers(cfg, s, oks[0], guard);
      RunKeepsWholeNumbers(cfg, StepWith(cfg, s, oks[0], guard).state, oks[1..], guard);
    }
  }

  /** From the initial field values, the intended search never paints outside the texture. */
  lemma IntendedSearchPaintsWithinTexture(cfg: Config, oks: seq<bool>, ok: bool)
    requires cfg.textureRes >= 0
    ensures var r := TakeHalvingTestStepIntended(cfg, Run(cfg, Initial, oks, Intended), ok);
      r.effect.Painted? ==> IntRectWithinTexture(cfg, r.effect.rect)
  {
    IntendedRunStaysWithinTexture(cfg, Initial, oks);
    IntendedStepStaysWithinTexture(cfg, Run(cfg, Initial, oks, Intended), ok);
  }

  /**
    As written, after a restart that followed a width-wise cut, a failed step
    shifts the whole-texture rectangle by half its width and the test on `y`
    lets it through: `fill` paints a rectangle that leaves the texture. The
    intended test on `x` reverts the same step.
   */
  lemma AsWrittenWidthGuardLetsRectLeave(cfg: Config, s: HalvingState)
    requires cfg.textureRes >= 2 && cfg.textureRes >= cfg.successPoint
    requires s.current == s.lastSuccessful == FullRect(cfg) && s.widthHeight
    ensures var r := TakeHalvingTestStep(cfg, s, false);
      r.effect.Painted? && !IntRectWithinTexture(cfg, r.effect.rect)
    ensures TakeHalvingTestStepIntended(cfg, s, false).effect == NotReached
  {
  }

  /**
    The two-frame run that shows it: from the initial field values a
    successful step restarts the search with `widthHeight` set, and the next
    failed step paints (512, 0, 1024, 1024), half of it off the texture.
   */
  lemma AsWrittenPaintsOffTextureFromInitial()
    ensures var s := TakeHalvingTestStep(DefaultConfig, Initial, true).state;
      && TakeHalvingTestStep(DefaultConfig, s, false).effect == Painted(IntRect(512, 0, 1024, 1024))
      && !IntRectWithinTexture(DefaultConfig, IntRect(512, 0, 1024, 1024))
  {
  }

  // ---------------------------------------------------------------------------
  // The texture

  /**
    The paint loop of `fill`: a fresh `textureRes` x `textureRes` texture
    whose pixel (x, y) is white exactly when it lies inside `r`.
   */
  method PaintTexture(cfg: Config, r: IntRect) returns (tex: array2<Color>)
    requires cfg.textureRes >= 0
    ensures tex.Length0 == cfg.textureRes && tex.Length1 == cfg.textureRes
    ensures forall px, py :: 0 <= px < cfg.textureRes && 0 <= py < cfg.textureRes ==>
      (tex[px, py] == White <==> InRect(r, px, py))
  {
    var res := cfg.textureRes;
    tex := new Color[res, res];
    var x := 0;
    while x < res
      invariant 0 <= x <= res
      invariant forall px, py :: 0 <= px < x && 0 <= py < res ==>
        (tex[px, py] == White <==> InRect(r, px, py))
    {
      var y := 0;
      while y < res
        invariant 0 <= y <= res
        invariant forall px, py :: 0 <= px < x && 0 <= py < res ==>
          (tex[px, py] == White <==> InRect(r, px, py))
        invariant forall py :: 0 <= py < y ==> (tex[x, py] == White <==> InRect(r, x, py))
      {
        if x >= r.x && x < r.x + r.w && y >= r.y && y < r.y + r.h {
          tex[x, y] := White;
        } else {
          tex[x, y] := Black;
        }
        y := y + 1;
      }
      x := x + 1;
    }
  }

  /**
    One step together with its effect on the display: a texture is produced
    exactly when `fill` paints, and it shows the rectangle the step stored
    as `current`.
   */
  method TakeHalvingTestStepAndPaint(cfg: Config, s: HalvingState, ok: bool)
    returns (r: StepResult, tex: Option<array2<Color>>)
    requires cfg.textureRes >= 0
    ensures r == TakeHalvingTestStep(cfg, s, ok)
    ensures tex.Some? <==> r.effect.Painted?
    ensures tex.Some? ==>
      && tex.value.Length0 == cfg.textureRes && tex.value.Length1 == cfg.textureRes
      && forall px, py :: 0 <= px < cfg.textureRes && 0 <= py < cfg.textureRes ==>
           (tex.value[px, py] == White <==> InRect(r.effect.rect, px, py))
    ensures r.effect.Painted? ==> r.state.current == ToRect(r.effect.rect)
  {
    r := TakeHalvingTestStep(cfg, s, ok);
    if r.effect.Painted? {
      var painted := PaintTexture(cfg, r.effect.rect);
      tex := Some(painted);
    } else {
      tex := None;
    }
  }
}
