/** Chart coordinates and zooming, over exact reals: rounding to f32 is not part of this model. */
module Chart {
  import opened Common

  const ZOOM_SENSITIVITY := 30.0
  const MAX_U64 := 0xFFFF_FFFF_FFFF_FFFF

  datatype Basis = Time(interval: int) | Tick

  datatype Autoscale = Off | CenterLatest | FitToVisible

  /** What a chart kind allows. */
  datatype Limits = Limits(minWidth: real, defaultWidth: real, maxWidth: real, minScaling: real, maxScaling: real) {
    predicate Valid() {
      0.0 < minWidth <= maxWidth && 0.0 < minScaling <= maxScaling
    }
  }

  // ---- Arithmetic -------------------------------------------------------------------

  /** To the nearest integer, halves away from zero. */
  function Round(x: real): int {
    if x >= 0.0 then (x + 0.5).Floor else -((0.5 - x).Floor)
  }

  /** The saturating cast of a non-negative real. */
  function ToU64(x: real): u64 {
    if x <= 0.0 then 0 else if x.Floor > MAX_U64 then MAX_U64 else x.Floor
  }

  function Clamp(x: real, lo: real, hi: real): real {
    if x < lo then lo else if x > hi then hi else x
  }

  /** A cell size after one zoom step. */
  function Zoomed(size: real, delta: real, factor: real, lo: real, hi: real): (r: real)
    requires lo <= hi && factor != 0.0
    ensures lo <= r <= hi
  {
    Clamp(size * (1.0 + delta / factor), lo, hi)
  }

  /** A zoom step in makes the cell larger, one out smaller, each until the limit, and in between by exactly the share
      of the step in the factor. */
  lemma ZoomedMeaning(size: real, delta: real, factor: real, lo: real, hi: real)
    requires 0.0 < lo <= size <= hi && factor > 0.0
    ensures var r := Zoomed(size, delta, factor, lo, hi);
            && (delta > 0.0 ==> if size < hi then r > size else r == hi)
            && (delta < 0.0 ==> if size > lo then r < size else r == lo)
            && (delta == 0.0 ==> r == size)
            && (lo < r < hi ==> (r - size) * factor == size * delta)
  {
    var share := delta / factor;
    assert share * factor == delta;
    assert size * (1.0 + share) == size + size * share;
    ShareSign(delta, factor);
    SignTimes(size, share);
    assert size * share * factor == size * delta by {
      assert size * share * factor == size * (share * factor);
    }
  }

  lemma ShareSign(delta: real, factor: real)
    requires factor > 0.0
    ensures (delta > 0.0 <==> delta / factor > 0.0) && (delta < 0.0 <==> delta / factor < 0.0)
  {}

  lemma SignTimes(a: real, b: real)
    requires a > 0.0
    ensures (b > 0.0 <==> a * b > 0.0) && (b < 0.0 <==> a * b < 0.0)
  {}

  lemma TimesThenOver(x: real, y: real)
    requires y != 0.0
    ensures x * y / y == x
    ensures x / y * y == x
  {}

  lemma RoundInteger(n: int)
    ensures Round(n as real) == n
  {}

  /** Scaling out and back in, through two factors. */
  lemma OutAndBack(a: real, b: real, c: real)
    requires b != 0.0 && c != 0.0
    ensures a / b * c / c * b == a
  {
    TimesThenOver(a / b, c);
    TimesThenOver(a, b);
  }

  // ---- Coordinates ------------------------------------------------------------------

  function IntervalToX(basis: Basis, latest: u64, cellWidth: real, value: u64): real
    requires basis.Time? ==> basis.interval > 0
  {
    match basis
    case Time(interval) => (value - latest) as real / interval as real * cellWidth
    case Tick => -(value as real * cellWidth)
  }

  function Before(latest: u64, gap: real): u64 {
    var diff := ToU64(gap);
    if diff > latest then 0 else latest - diff
  }

  function Beyond(latest: u64, gap: real): u64 {
    var diff := ToU64(gap);
    if latest + diff > MAX_U64 then MAX_U64 else latest + diff
  }

  function TickAt(position: real): u64 {
    ToU64(Round(position) as real)
  }

  function XToInterval(basis: Basis, latest: u64, cellWidth: real, x: real): u64
    requires cellWidth > 0.0
  {
    match basis
    case Time(interval) =>
      if x <= 0.0 then Before(latest, -x / cellWidth * interval as real)
      else Beyond(latest, x / cellWidth * interval as real)
    case Tick => TickAt(-(x / cellWidth))
  }

  function PriceToY(base: int, tick: int, cellHeight: real, price: int): real
    requires tick > 0
  {
    (base - price) as real / tick as real * cellHeight
  }

  function YToPrice(base: int, tick: int, cellHeight: real, y: real): int
    requires cellHeight > 0.0
  {
    base - Round(y / cellHeight * tick as real)
  }

  /** The price axis loses nothing on grid prices, at any cell height. */
  lemma PriceRoundTrip(base: int, tick: int, cellHeight: real, price: int)
    requires tick > 0 && cellHeight > 0.0
    ensures YToPrice(base, tick, cellHeight, PriceToY(base, tick, cellHeight, price)) == price
  {
    var y := PriceToY(base, tick, cellHeight, price);
    OutAndBack((base - price) as real, tick as real, cellHeight);
    assert y / cellHeight * tick as real == (base - price) as real;
    RoundInteger(base - price);
  }

  lemma WholeGaps(latest: u64, value: u64)
    ensures value <= latest ==> Before(latest, (latest - value) as real) == value
    ensures value > latest ==> Beyond(latest, (value - latest) as real) == value
    ensures TickAt(value as real) == value
  {}

  lemma NegateOver(x: real, y: real)
    requires y != 0.0
    ensures -x / y == -(x / y)
  {
    TimesThenOver(-(x / y), y);
    TimesThenOver(x, y);
  }

  lemma NegateTimes(x: real, y: real)
    ensures -x * y == -(x * y)
  {}

  lemma SignOf(a: real, b: real, c: real)
    requires b > 0.0 && c > 0.0
    ensures a / b * c <= 0.0 <==> a <= 0.0
  {
    TimesThenOver(a, b);
  }

  lemma IntervalsBack(d: real, interval: real, cellWidth: real, x: real)
    requires interval > 0.0 && cellWidth > 0.0 && x == d / interval * cellWidth
    ensures x / cellWidth * interval == d
    ensures -x / cellWidth * interval == -d
    ensures x <= 0.0 <==> d <= 0.0
  {
    OutAndBack(d, interval, cellWidth);
    SignOf(d, interval, cellWidth);
    NegateOver(x, cellWidth);
    NegateTimes(x / cellWidth, interval);
  }

  lemma TimeAtX(interval: int, latest: u64, cellWidth: real, x: real, value: u64)
    requires cellWidth > 0.0
    requires x <= 0.0 <==> value <= latest
    requires x / cellWidth * interval as real == (value - latest) as real
    requires -x / cellWidth * interval as real == (latest - value) as real
    ensures XToInterval(Time(interval), latest, cellWidth, x) == value
  {
    WholeGaps(latest, value);
  }

  lemma TimeRoundTrip(interval: int, latest: u64, cellWidth: real, value: u64)
    requires cellWidth > 0.0 && interval > 0
    ensures XToInterval(Time(interval), latest, cellWidth, IntervalToX(Time(interval), latest, cellWidth, value)) ==
            value
  {
    var d := (value - latest) as real;
    var x := IntervalToX(Time(interval), latest, cellWidth, value);
    IntervalsBack(d, interval as real, cellWidth, x);
    TimeAtX(interval, latest, cellWidth, x, value);
  }

  lemma TickRoundTrip(latest: u64, cellWidth: real, value: u64)
    requires cellWidth > 0.0
    ensures XToInterval(Tick, latest, cellWidth, IntervalToX(Tick, latest, cellWidth, value)) == value
  {
    var x := IntervalToX(Tick, latest, cellWidth, value);
    assert x == -(value as real * cellWidth);
    TimesThenOver(value as real, cellWidth);
    NegateOver(value as real * cellWidth, cellWidth);
    assert -(x / cellWidth) == value as real;
    WholeGaps(latest, value);
  }

  /** The time axis loses nothing on any timestamp, before or after the latest, nor the tick axis on any count. */
  lemma IntervalRoundTrip(basis: Basis, latest: u64, cellWidth: real, value: u64)
    requires cellWidth > 0.0 && (basis.Time? ==> basis.interval > 0)
    ensures XToInterval(basis, latest, cellWidth, IntervalToX(basis, latest, cellWidth, value)) == value
  {
    match basis {
      case Time(interval) => TimeRoundTrip(interval, latest, cellWidth, value);
      case Tick => TickRoundTrip(latest, cellWidth, value);
    }
  }

  // ---- Which way the axes run -------------------------------------------------------

  lemma SameFactor(a: real, b: real, t: real)
    requires t != 0.0 && a * t == b * t
    ensures a == b
  {
    TimesThenOver(a, t);
    TimesThenOver(b, t);
  }

  lemma OneTickHigher(d: real, t: real, h: real)
    requires t != 0.0
    ensures (d - t) / t * h == d / t * h - h
  {
    var q, less := d / t, d - t;
    TimesThenOver(d, t);
    var r := less / t;
    TimesThenOver(less, t);
    assert (q - 1.0) * t == q * t - t == less == r * t;
    SameFactor(q - 1.0, r, t);
    assert (q - 1.0) * h == q * h - h;
  }

  /** The base price is at the origin, and a price one tick higher is one cell higher up, that is, smaller in y. */
  lemma PriceAxis(base: int, tick: int, cellHeight: real, price: int)
    requires tick > 0
    ensures PriceToY(base, tick, cellHeight, base) == 0.0
    ensures PriceToY(base, tick, cellHeight, price + tick) == PriceToY(base, tick, cellHeight, price) - cellHeight
  {
    OneTickHigher((base - price) as real, tick as real, cellHeight);
    assert (base - (price + tick)) as real == (base - price) as real - tick as real;
  }

  /** The latest timestamp is at the origin and one interval later is one cell to the right; on a tick basis the count
      zero is at the origin and one tick more is one cell to the left. */
  lemma IntervalAxis(basis: Basis, latest: u64, cellWidth: real, value: u64)
    requires basis.Time? ==> basis.interval > 0
    ensures basis.Time? ==>
              && IntervalToX(basis, latest, cellWidth, latest) == 0.0
              && (value + basis.interval <= MAX_U64 ==>
                    IntervalToX(basis, latest, cellWidth, value + basis.interval) ==
                    IntervalToX(basis, latest, cellWidth, value) + cellWidth)
    ensures basis.Tick? ==>
              && IntervalToX(basis, latest, cellWidth, 0) == 0.0
              && (value < MAX_U64 ==>
                    IntervalToX(basis, latest, cellWidth, value + 1) ==
                    IntervalToX(basis, latest, cellWidth, value) - cellWidth)
  {
    if basis.Time? && value + basis.interval <= MAX_U64 {
      OneTickHigher((value + basis.interval - latest) as real, basis.interval as real, cellWidth);
      assert (value - latest) as real == (value + basis.interval - latest) as real - basis.interval as real;
    }
  }

  /** A y coordinate gives the nearest price: its distance from the exact one is at most half a unit. */
  lemma NearestPrice(base: int, tick: int, cellHeight: real, y: real)
    requires cellHeight > 0.0
    ensures var exact := base as real - y / cellHeight * tick as real;
            -0.5 <= YToPrice(base, tick, cellHeight, y) as real - exact <= 0.5
  {}

  /** An x coordinate left of the latest time gives the time that many whole milliseconds before it, right of it after
      it, and the edge of the number range beyond that; on a tick basis the nearest count, none below zero. */
  lemma WholeInterval(basis: Basis, latest: u64, cellWidth: real, x: real)
    requires cellWidth > 0.0 && (basis.Time? ==> basis.interval > 0)
    ensures var v := XToInterval(basis, latest, cellWidth, x);
            match basis
            case Time(interval) =>
              && (x <= 0.0 ==> var gap := -x / cellWidth * interval as real;
                               if gap.Floor <= latest then v == latest - gap.Floor else v == 0)
              && (x > 0.0 ==> var gap := x / cellWidth * interval as real;
                              if latest + gap.Floor <= MAX_U64 then v == latest + gap.Floor else v == MAX_U64)
            case Tick =>
              var exact := -(x / cellWidth);
              && (exact <= 0.0 ==> v == 0)
              && (0.0 < exact <= MAX_U64 as real ==> -0.5 <= v as real - exact <= 0.5)
  {
    if basis.Time? {
      if x <= 0.0 {
        GapIsPositive(-x, cellWidth, basis.interval as real);
      } else {
        GapIsPositive(x, cellWidth, basis.interval as real);
      }
    }
  }

  lemma GapIsPositive(x: real, cellWidth: real, interval: real)
    requires x >= 0.0 && cellWidth > 0.0 && interval > 0.0
    ensures x / cellWidth * interval >= 0.0
  {
    TimesThenOver(x, cellWidth);
  }

  /** Where a chart point goes when the cell width changes. */
  function Rescaled(basis: Basis, latest: u64, cellWidth: real, newWidth: real, x: real): real
    requires cellWidth > 0.0 && (basis.Time? ==> basis.interval > 0)
  {
    match basis
    case Time(_) => IntervalToX(basis, latest, newWidth, XToInterval(basis, latest, cellWidth, x))
    case Tick => x / cellWidth * newWidth
  }

  lemma SameRatio(latest: u64, cellWidth: real, newWidth: real, x: real, newX: real)
    requires cellWidth > 0.0 && newWidth > 0.0 && newX / newWidth == x / cellWidth
    ensures XToInterval(Tick, latest, newWidth, newX) == XToInterval(Tick, latest, cellWidth, x)
  {}

  lemma RescaledKeepsInterval(basis: Basis, latest: u64, cellWidth: real, newWidth: real, x: real)
    requires cellWidth > 0.0 && newWidth > 0.0 && (basis.Time? ==> basis.interval > 0)
    ensures XToInterval(basis, latest, newWidth, Rescaled(basis, latest, cellWidth, newWidth, x))
         == XToInterval(basis, latest, cellWidth, x)
  {
    match basis {
      case Time(_) => IntervalRoundTrip(basis, latest, newWidth, XToInterval(basis, latest, cellWidth, x));
      case Tick =>
        var newX := Rescaled(basis, latest, cellWidth, newWidth, x);
        TimesThenOver(x / cellWidth, newWidth);
        SameRatio(latest, cellWidth, newWidth, x, newX);
    }
  }

  // ---- Wheel scaling ----------------------------------------------------------------

  /** The guard on the denominator. */
  predicate Guarded(scaling: real, newScaling: real) {
    var denominator := scaling * newScaling;
    (if denominator < 0.0 then -denominator else denominator) > 0.0001
  }

  /** The new pan along one axis when the wheel changes the scaling. */
  function Repan(scaling: real, newScaling: real, translation: real, cursor: real): real {
    translation - if Guarded(scaling, newScaling) then cursor * (newScaling - scaling) / (scaling * newScaling) else 0.0
  }

  lemma DifferenceOfQuotients(c: real, s: real, u: real)
    requires s != 0.0 && u != 0.0
    ensures s * u != 0.0
    ensures c * (u - s) / (s * u) == c / s - c / u
  {
    var q, r := c / s, c / u;
    TimesThenOver(c, s);
    TimesThenOver(c, u);
    assert (q - r) * (s * u) == c * (u - s) by {
      assert q * (s * u) == q * s * u;
      assert r * (s * u) == r * u * s;
    }
    TimesThenOver(q - r, s * u);
  }

  /** The chart point under the cursor stays exactly when the denominator guard is passed, unless the cursor is
      at the centre or the scaling did not change. */
  lemma WheelKeepsPointIff(scaling: real, newScaling: real, translation: real, cursor: real)
    requires scaling > 0.0 && newScaling > 0.0
    ensures cursor / newScaling - Repan(scaling, newScaling, translation, cursor) == cursor / scaling - translation
       <==> Guarded(scaling, newScaling) || cursor == 0.0 || newScaling == scaling
  {
    DifferenceOfQuotients(cursor, scaling, newScaling);
    assert scaling * newScaling > 0.0;
    if cursor / scaling == cursor / newScaling {
      TimesThenOver(cursor, scaling);
      TimesThenOver(cursor, newScaling);
      var q := cursor / scaling;
      assert q * (scaling - newScaling) == 0.0;
    }
  }

  method Repanned(scaling: real, newScaling: real, translation: real, cursor: real) returns (pan: real)
    requires scaling > 0.0 && newScaling > 0.0
    ensures if Guarded(scaling, newScaling) then cursor / newScaling - pan == cursor / scaling - translation
            else pan == translation
  {
    WheelKeepsPointIff(scaling, newScaling, translation, cursor);
    pan := Repan(scaling, newScaling, translation, cursor);
  }

  lemma TimesOrder(a: real, b: real, s: real)
    requires s > 0.0
    ensures a <= b <==> a * s <= b * s
  {}

  // ---- The view ---------------------------------------------------------------------

  class ViewState {
    var translationX: real
    var translationY: real
    var scaling: real
    var cellWidth: real
    var cellHeight: real
    var autoscale: Autoscale
    const basis: Basis
    const basePriceUnits: int
    const latestX: u64
    const tickSizeUnits: int
    const minStepUnits: int
    const boundsWidth: real

    constructor (basis: Basis, basePriceUnits: int, latestX: u64, tickSizeUnits: int, minStepUnits: int,
                 boundsWidth: real, cellWidth: real, cellHeight: real)
      requires basis.Time? ==> basis.interval > 0
      requires cellWidth > 0.0 && cellHeight > 0.0
      ensures Valid() && scaling == 1.0 && translationX == translationY == 0.0
    {
      this.basis, this.basePriceUnits, this.latestX := basis, basePriceUnits, latestX;
      this.tickSizeUnits, this.minStepUnits, this.boundsWidth := tickSizeUnits, minStepUnits, boundsWidth;
      this.cellWidth, this.cellHeight := cellWidth, cellHeight;
      translationX, translationY, scaling, autoscale := 0.0, 0.0, 1.0, Off;
    }

    predicate Valid()
      reads `scaling, `cellWidth, `cellHeight
    {
      scaling > 0.0 && cellWidth > 0.0 && cellHeight > 0.0 && (basis.Time? ==> basis.interval > 0)
    }

    function EffectiveTick(): (t: int)
      ensures t > 0 && (tickSizeUnits > 0 ==> t == tickSizeUnits)
      ensures tickSizeUnits <= 0 ==> t >= minStepUnits && (t == minStepUnits || t == 1)
    {
      if tickSizeUnits > 0 then tickSizeUnits else if minStepUnits > 1 then minStepUnits else 1
    }

    /** The chart point shown at a distance from the centre of the canvas. */
    function ChartX(cursorX: real): real
      requires scaling != 0.0
      reads `scaling, `translationX
    {
      cursorX / scaling - translationX
    }

    function ChartY(cursorY: real): real
      requires scaling != 0.0
      reads `scaling, `translationY
    {
      cursorY / scaling - translationY
    }

    function PriceAt(cursorY: real): int
      requires Valid()
      reads `scaling, `cellWidth, `cellHeight, `translationY
    {
      YToPrice(basePriceUnits, EffectiveTick(), cellHeight, ChartY(cursorY))
    }

    function IntervalAt(cursorX: real): u64
      requires Valid()
      reads `scaling, `cellWidth, `cellHeight, `translationX
    {
      XToInterval(basis, latestX, cellWidth, ChartX(cursorX))
    }

    function XOf(value: u64): real
      requires Valid()
      reads `scaling, `cellWidth, `cellHeight, `translationX
    {
      IntervalToX(basis, latestX, cellWidth, value)
    }

    predicate Visible(x: real)
      requires Valid()
      reads `scaling, `cellWidth, `cellHeight, `translationX
    {
      var width := boundsWidth / scaling;
      var left := -translationX - width / 2.0;
      left <= x <= left + width
    }

    /** The right edge of the visible region, or the latest interval when it can be seen. */
    function Anchor(): u64
      requires Valid()
      reads `scaling, `cellWidth, `cellHeight, `translationX
    {
      if Visible(XOf(latestX)) then latestX
      else
        var width := boundsWidth / scaling;
        XToInterval(basis, latestX, cellWidth, -translationX - width / 2.0 + width)
    }

    /** A chart point is visible exactly when its place on screen, counted from the centre, lies within the bounds. */
    lemma VisibleIff(x: real)
      requires Valid()
      ensures Visible(x) <==> -boundsWidth / 2.0 <= (x + translationX) * scaling <= boundsWidth / 2.0
    {
      var width := boundsWidth / scaling;
      assert width * scaling == boundsWidth;
      TimesOrder(x + translationX, width / 2.0, scaling);
      TimesOrder(-(width / 2.0), x + translationX, scaling);
      assert width / 2.0 * scaling == boundsWidth / 2.0;
      assert -(width / 2.0) * scaling == -boundsWidth / 2.0;
    }

    /** The anchor is the latest interval while that is visible, else what is at the right edge of the screen. */
    lemma AnchorIs()
      requires Valid()
      ensures Visible(XOf(latestX)) ==> Anchor() == latestX
      ensures !Visible(XOf(latestX)) ==> Anchor() == IntervalAt(boundsWidth / 2.0)
    {
      var width := boundsWidth / scaling;
      assert boundsWidth / 2.0 / scaling == width / 2.0;
      assert -translationX - width / 2.0 + width == boundsWidth / 2.0 / scaling - translationX;
    }

    predicate YScales(delta: real, minHeight: real, maxHeight: real)
      reads this
    {
      (delta < 0.0 && cellHeight > minHeight) || (delta > 0.0 && cellHeight < maxHeight)
    }

    /** A Y-scale step keeps the price under the cursor. */
    method YScaling(delta: real, cursorY: real, isWheel: bool, minHeight: real, maxHeight: real)
      requires Valid() && 0.0 < minHeight <= maxHeight
      modifies `cellHeight, `translationY, `autoscale
      ensures Valid()
      ensures PriceAt(cursorY) == old(PriceAt(cursorY))
      ensures old(YScales(delta, minHeight, maxHeight)) ==>
                var factor := if isWheel then 30.0 else 90.0;
                cellHeight == Zoomed(old(cellHeight), delta, factor, minHeight, maxHeight)
                && cursorY / scaling - translationY ==
                    PriceToY(basePriceUnits, EffectiveTick(), cellHeight, old(PriceAt(cursorY)))
      ensures !old(YScales(delta, minHeight, maxHeight)) ==>
              cellHeight == old(cellHeight) && translationY == old(translationY)
      ensures autoscale == if old(autoscale).FitToVisible? || (isWheel && old(YScales(delta, minHeight, maxHeight)))
              then Off else old(autoscale)
    {
      if autoscale.FitToVisible? {
        autoscale := Off;
      }
      if (delta < 0.0 && cellHeight > minHeight) || (delta > 0.0 && cellHeight < maxHeight) {
        var zoomFactor := if isWheel then ZOOM_SENSITIVITY else ZOOM_SENSITIVITY * 3.0;
        var newHeight := Zoomed(cellHeight, delta, zoomFactor, minHeight, maxHeight);
        ScaleAround(newHeight, cursorY);
        if isWheel {
          autoscale := Off;
        }
      }
    }

    method ScaleAround(newHeight: real, cursorY: real)
      requires Valid() && newHeight > 0.0
      modifies `cellHeight, `translationY
      ensures Valid() && cellHeight == newHeight
      ensures PriceAt(cursorY) == old(PriceAt(cursorY))
      ensures cursorY / scaling - translationY ==
              PriceToY(basePriceUnits, EffectiveTick(), cellHeight, old(PriceAt(cursorY)))
    {
      var cursorChartY := cursorY / scaling - translationY;
      var cursorPrice := YToPrice(basePriceUnits, EffectiveTick(), cellHeight, cursorChartY);
      cellHeight := newHeight;
      var newCursorY := PriceToY(basePriceUnits, EffectiveTick(), cellHeight, cursorPrice);
      translationY := translationY - (newCursorY - cursorChartY);
      assert cursorY / scaling - translationY == newCursorY;
      PriceRoundTrip(basePriceUnits, EffectiveTick(), cellHeight, cursorPrice);
    }

    predicate XScales(delta: real, minWidth: real, maxWidth: real)
      reads this
    {
      (delta < 0.0 && cellWidth > minWidth) || (delta > 0.0 && cellWidth < maxWidth)
    }

    method ZoomFitted(newWidth: real)
      requires Valid() && newWidth > 0.0
      modifies `cellWidth, `translationX
      ensures Valid() && cellWidth == newWidth
      ensures XOf(old(Anchor())) + translationX == old(XOf(Anchor()) + translationX)
    {
      var anchor := Anchor();
      var oldX := XOf(anchor);
      cellWidth := newWidth;
      translationX := translationX - (XOf(anchor) - oldX);
    }

    method ZoomAtCursor(newWidth: real, cursorX: real, isWheel: bool)
      requires Valid() && newWidth > 0.0
      modifies `cellWidth, `translationX, `autoscale
      ensures Valid() && cellWidth == newWidth
      ensures isWheel || !old(Visible(XOf(latestX))) ==>
                IntervalAt(cursorX) == old(IntervalAt(cursorX)) && autoscale == Off
                && ChartX(cursorX) == Rescaled(basis, latestX, old(cellWidth), cellWidth, old(ChartX(cursorX)))
      ensures !(isWheel || !old(Visible(XOf(latestX)))) ==>
              translationX == old(translationX) && autoscale == old(autoscale)
    {
      var latest := XOf(latestX);
      var atCursor := isWheel || !Visible(latest);
      var chartX := if atCursor then cursorX / scaling - translationX else latest / scaling - translationX;
      RescaledKeepsInterval(basis, latestX, cellWidth, newWidth, chartX);
      ghost var expected := Rescaled(basis, latestX, cellWidth, newWidth, chartX);
      var newX;
      if basis.Time? {
        var time := XToInterval(basis, latestX, cellWidth, chartX);
        cellWidth := newWidth;
        newX := XOf(time);
      } else {
        var index := chartX / cellWidth;
        cellWidth := newWidth;
        newX := index * cellWidth;
      }
      assert newX == expected;
      if atCursor {
        translationX := translationX - (newX - chartX);
        autoscale := Off;
        assert ChartX(cursorX) == newX;
      }
    }

    /** An X-scale step keeps the interval under the cursor; zooming a fitted view keeps its anchor in place on
        screen; otherwise the pan stays and the latest interval, drawn at the origin, with it. */
    method XScaling(delta: real, cursorX: real, isWheel: bool, minWidth: real, maxWidth: real)
      requires Valid() && 0.0 < minWidth <= maxWidth
      modifies `cellWidth, `translationX, `autoscale
      ensures Valid()
      ensures !old(XScales(delta, minWidth, maxWidth)) ==>
                cellWidth == old(cellWidth) && translationX == old(translationX) && autoscale == old(autoscale)
      ensures old(XScales(delta, minWidth, maxWidth)) ==>
                cellWidth == Zoomed(old(cellWidth), delta, old(XZoomFactor(isWheel)), minWidth, maxWidth)
      ensures old(XScales(delta, minWidth, maxWidth)) ==>
                if !isWheel && old(autoscale).FitToVisible? then
                  XOf(old(Anchor())) + translationX == old(XOf(Anchor()) + translationX) && autoscale == old(autoscale)
                else if isWheel || !old(Visible(XOf(latestX))) then
                  IntervalAt(cursorX) == old(IntervalAt(cursorX)) && autoscale == Off
                  && ChartX(cursorX) == Rescaled(basis, latestX, old(cellWidth), cellWidth, old(ChartX(cursorX)))
                else translationX == old(translationX) && autoscale == old(autoscale)
    {
      if !((delta < 0.0 && cellWidth > minWidth) || (delta > 0.0 && cellWidth < maxWidth)) {
        return;
      }
      var newWidth := Zoomed(cellWidth, delta, XZoomFactor(isWheel), minWidth, maxWidth);
      if !isWheel && autoscale.FitToVisible? {
        ZoomFitted(newWidth);
      } else {
        ZoomAtCursor(newWidth, cursorX, isWheel);
      }
    }

    function XZoomFactor(isWheel: bool): (f: real)
      reads this
      ensures f == if isWheel then 30.0 else if autoscale.FitToVisible? then 20.0 else 90.0
    {
      if !isWheel && autoscale.FitToVisible? then ZOOM_SENSITIVITY / 1.5
      else if isWheel then ZOOM_SENSITIVITY
      else ZOOM_SENSITIVITY * 3.0
    }

    /** At an end of the scaling range the wheel goes on with the cell width. */
    predicate AdjustsCellWidth(y: real, limits: Limits)
      reads this
    {
      if y < 0.0 then
        (scaling == limits.maxScaling && cellWidth > limits.defaultWidth) ||
            (scaling == limits.minScaling && cellWidth > limits.minWidth)
      else
        (scaling == limits.minScaling && cellWidth < limits.defaultWidth) ||
            (scaling == limits.maxScaling && cellWidth < limits.maxWidth)
    }

    /** At the upper end of the scaling range the wheel widens cells up to the maximum and narrows them back to the
        default, at the lower end it narrows them down to the minimum and widens them back to the default, and in
        between it leaves them alone. */
    lemma AdjustsIff(y: real, limits: Limits)
      requires limits.Valid() && limits.minScaling < limits.maxScaling
      ensures scaling == limits.maxScaling ==>
                (AdjustsCellWidth(y, limits) <==>
                 if y >= 0.0 then cellWidth < limits.maxWidth else cellWidth > limits.defaultWidth)
      ensures scaling == limits.minScaling ==>
                (AdjustsCellWidth(y, limits) <==>
                 if y < 0.0 then cellWidth > limits.minWidth else cellWidth < limits.defaultWidth)
      ensures limits.minScaling < scaling < limits.maxScaling ==> !AdjustsCellWidth(y, limits)
    {}

    predicate WheelScales(y: real, limits: Limits)
      reads this
    {
      !autoscale.FitToVisible? && !AdjustsCellWidth(y, limits)
      && ((y < 0.0 && scaling > limits.minScaling) || (y > 0.0 && scaling < limits.maxScaling))
    }

    method ScaleAtCursor(newScaling: real, cursorX: real, cursorY: real)
      requires Valid() && newScaling > 0.0
      modifies `scaling, `translationX, `translationY, `autoscale
      ensures Valid() && scaling == newScaling && autoscale == Off
      ensures if Guarded(old(scaling), newScaling)
              then ChartX(cursorX) == old(ChartX(cursorX)) && ChartY(cursorY) == old(ChartY(cursorY))
              else translationX == old(translationX) && translationY == old(translationY)
    {
      var x := Repanned(scaling, newScaling, translationX, cursorX);
      var y := Repanned(scaling, newScaling, translationY, cursorY);
      translationX, translationY := x, y;
      scaling := newScaling;
      autoscale := Off;
      assert ChartX(cursorX) == cursorX / newScaling - x;
      assert ChartY(cursorY) == cursorY / newScaling - y;
    }

    /** One notch of the wheel. In the scaling range the chart point under the cursor stays, both ways, if the
        denominator guard is passed and the pan stays if not; beyond it the interval under the cursor stays. */
    method WheelScrolled(y: real, cursorX: real, cursorY: real, limits: Limits)
      requires Valid() && limits.Valid()
      modifies `scaling, `cellWidth, `translationX, `translationY, `autoscale
      ensures Valid()
      ensures old(WheelScales(y, limits)) ==>
                && scaling == Zoomed(old(scaling), y, ZOOM_SENSITIVITY, limits.minScaling, limits.maxScaling)
                && cellWidth == old(cellWidth) && autoscale == Off
                && (if Guarded(old(scaling), scaling)
                    then ChartX(cursorX) == old(ChartX(cursorX)) && ChartY(cursorY) == old(ChartY(cursorY))
                    else translationX == old(translationX) && translationY == old(translationY))
      ensures !old(WheelScales(y, limits)) ==> scaling == old(scaling) && translationY == old(translationY)
      ensures !old(WheelScales(y, limits)) ==>
                var half, factor := y / 2.0, if old(autoscale).FitToVisible? then 20.0 else 30.0;
                if (old(autoscale).FitToVisible? || old(AdjustsCellWidth(y, limits)))
                   && old(XScales(half, limits.minWidth, limits.maxWidth))
                then cellWidth == Zoomed(old(cellWidth), half, factor, limits.minWidth, limits.maxWidth)
                else cellWidth == old(cellWidth) && translationX == old(translationX)
      ensures !old(WheelScales(y, limits)) && !old(autoscale).FitToVisible? ==>
              IntervalAt(cursorX) == old(IntervalAt(cursorX))
    {
      if autoscale.FitToVisible? {
        XScaling(y / 2.0, cursorX, false, limits.minWidth, limits.maxWidth);
      } else if AdjustsCellWidth(y, limits) {
        XScaling(y / 2.0, cursorX, true, limits.minWidth, limits.maxWidth);
      } else if (y < 0.0 && scaling > limits.minScaling) || (y > 0.0 && scaling < limits.maxScaling) {
        var newScaling := Zoomed(scaling, y, ZOOM_SENSITIVITY, limits.minScaling, limits.maxScaling);
        ScaleAtCursor(newScaling, cursorX, cursorY);
      }
    }
  }
}
