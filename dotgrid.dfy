/**
 * The dot grid component (components/DotGrid.tsx): its layout arithmetic,
 * the mapping from flat dot indices to grid cells, and the buffer of
 * per-dot (opacity, scale) values that the animation effect rebuilds, idles
 * and smooths in place on every frame.
 *
 * The mounted dot elements are a sequence of flags (an element or null), the
 * pattern is a function parameter, and each frame is one call of Frame.
 */
module DotGrid {
  import Patterns

  /** The stored values of one dot. */
  datatype DotValue = DotValue(opacity: real, scale: real)

  const IdleOpacity: real := 0.25
  const IdleScale: real := 0.7
  const Idle: DotValue := DotValue(IdleOpacity, IdleScale)
  const Smoothing: real := 0.12
  const AnimationSpeed: real := 0.6

  // ---------------------------------------------------------------------------
  // Layout, components/DotGrid.tsx:35 and 96-100

  /** Width and height in pixels of a grid of size x size dots. */
  function GridSide(size: nat, dotSize: nat, gap: nat): int
  {
    size * dotSize + (size - 1) * gap
  }

  /** Left edge of column j in the CSS grid `repeat(size, dotSize px)` with `gap px` between tracks. */
  function DotOffset(j: nat, dotSize: nat, gap: nat): nat
  {
    j * (dotSize + gap)
  }

  /** Every dot fits inside the square, and the last one ends exactly at its edge. */
  lemma DotsFillGrid(size: nat, dotSize: nat, gap: nat, j: nat)
    requires j < size
    ensures DotOffset(j, dotSize, gap) + dotSize <= GridSide(size, dotSize, gap)
    ensures j == size - 1 ==> DotOffset(j, dotSize, gap) + dotSize == GridSide(size, dotSize, gap)
  {
    Patterns.MulLe(j, size - 1, dotSize + gap);
    assert (size - 1) * (dotSize + gap) + dotSize == size * dotSize + (size - 1) * gap;
  }

  // ---------------------------------------------------------------------------
  // Dot indices and coordinates, components/DotGrid.tsx:38-45

  function DotIndices(size: nat): (r: seq<nat>)
    ensures |r| == size * size && forall i | 0 <= i < |r| :: r[i] == i
  {
    seq(size * size, i => i)
  }

  /** The cell of flat index k in row-major order: (floor(k / size), k % size). */
  function CellOf(k: nat, size: nat): (nat, nat)
    requires size > 0
  {
    (k / size, k % size)
  }

  /** Row-major coordinates: the cell of every dot index, in order. */
  function Coordinates(size: nat): (r: seq<(nat, nat)>)
    ensures |r| == size * size
  {
    var indices := DotIndices(size);
    if size == 0 then [] else seq(|indices|, i requires 0 <= i < |indices| => CellOf(indices[i], size))
  }

  /** Each dot's cell lies in the grid and encodes back to the dot's own index. */
  lemma CoordinatesInGrid(size: nat, i: nat)
    requires i < size * size
    ensures Coordinates(size)[i].0 < size && Coordinates(size)[i].1 < size
    ensures Coordinates(size)[i].0 * size + Coordinates(size)[i].1 == i
  {
    Patterns.RowBound(i, size);
  }

  /** Every cell of the grid is the coordinate of exactly the dot row * size + col. */
  lemma CoordinatesOfCell(size: nat, row: nat, col: nat)
    requires row < size && col < size
    ensures row * size + col < size * size
    ensures Coordinates(size)[row * size + col] == (row, col)
  {
    Patterns.MulLe(row, size - 1, size);
    Patterns.DivModOf(row, col, size);
  }

  // ---------------------------------------------------------------------------
  // Pattern time, components/DotGrid.tsx:74

  /** The pattern clock: milliseconds since the page opened, converted to seconds and slowed to 0.6. */
  function PatternTime(ms: real): real
  {
    (ms / 1000.0) * AnimationSpeed
  }

  lemma PatternTimeLinear(a: real, b: real)
    ensures PatternTime(a + b) == PatternTime(a) + PatternTime(b)
    ensures PatternTime(1000.0) == 0.6 && PatternTime(0.0) == 0.0
    ensures a <= b ==> PatternTime(a) <= PatternTime(b)
  {
  }

  // ---------------------------------------------------------------------------
  // Exponential smoothing, components/DotGrid.tsx:80-81

  /** Move 12% of the way from the current value towards the target. */
  function Smooth(current: real, target: real): real
  {
    current + (target - current) * Smoothing
  }

  /** The step lands between the old value and the target and shrinks the gap to 88% of itself. */
  lemma SmoothStep(current: real, target: real)
    ensures target - Smooth(current, target) == 0.88 * (target - current)
    ensures current <= target ==> current <= Smooth(current, target) <= target
    ensures target <= current ==> target <= Smooth(current, target) <= current
    ensures Smooth(current, target) == target <==> current == target
  {
  }

  function Pow(b: real, n: nat): real
  {
    if n == 0 then 1.0 else b * Pow(b, n - 1)
  }

  /** n frames towards a fixed target. */
  function SmoothTimes(current: real, target: real, n: nat): real
  {
    if n == 0 then current else Smooth(SmoothTimes(current, target, n - 1), target)
  }

  lemma {:induction false} PowBounds(n: nat)
    ensures 0.0 < Pow(0.88, n) <= 1.0
  {
    if n > 0 {
      PowBounds(n - 1);
    }
  }

  /** After n frames towards a fixed target the remaining gap is 0.88^n of the first one. */
  lemma {:induction false} SmoothTimesGap(current: real, target: real, n: nat)
    ensures target - SmoothTimes(current, target, n) == Pow(0.88, n) * (target - current)
  {
    if n > 0 {
      SmoothTimesGap(current, target, n - 1);
      var before := SmoothTimes(current, target, n - 1);
      SmoothStep(before, target);
      assert target - SmoothTimes(current, target, n) == 0.88 * (Pow(0.88, n - 1) * (target - current));
    }
  }

  /** Repeated smoothing never overshoots: the value stays between the start and the target. */
  lemma SmoothTimesBetween(current: real, target: real, n: nat)
    ensures current <= target ==> current <= SmoothTimes(current, target, n) <= target
    ensures target <= current ==> target <= SmoothTimes(current, target, n) <= current
  {
    SmoothTimesGap(current, target, n);
    PowBounds(n);
    var p := Pow(0.88, n);
    if current <= target {
      assert 0.0 <= p * (target - current) <= target - current;
    } else {
      assert target - current <= p * (target - current) <= 0.0;
    }
  }

  function SmoothDot(v: DotValue, target: Patterns.PatternResult): DotValue
  {
    DotValue(Smooth(v.opacity, target.opacity), Smooth(v.scale, target.scale))
  }

  // ---------------------------------------------------------------------------
  // The value buffer as a sequence, components/DotGrid.tsx:49-84

  /** Dot i has a mounted element (`dots[i]` is neither null nor missing). */
  predicate IsMounted(mounted: seq<bool>, i: nat)
  {
    i < |mounted| && mounted[i]
  }

  /** The buffer after the effect's length check: rebuilt at idle exactly when its length is wrong. */
  function Synced(values: seq<DotValue>, count: nat): seq<DotValue>
  {
    if |values| != count then seq(count, _ => Idle) else values
  }

  /** setIdle: idle every entry whose dot is mounted. */
  function Idled(values: seq<DotValue>, mounted: seq<bool>): seq<DotValue>
  {
    seq(|values|, i requires 0 <= i < |values| => if IsMounted(mounted, i) then Idle else values[i])
  }

  /** What the pattern asks of every dot at pattern time t. */
  function Targets(size: nat, pattern: (nat, nat, nat, real) -> Patterns.PatternResult, t: real)
    : seq<Patterns.PatternResult>
  {
    var coords := Coordinates(size);
    seq(|coords|, i requires 0 <= i < |coords| => pattern(coords[i].0, coords[i].1, size, t))
  }

  /** One frame: every mounted entry takes one smoothing step towards its target. */
  function Stepped(values: seq<DotValue>, mounted: seq<bool>, targets: seq<Patterns.PatternResult>)
    : seq<DotValue>
    requires |targets| == |values|
  {
    seq(|values|, i requires 0 <= i < |values| =>
      if IsMounted(mounted, i) then SmoothDot(values[i], targets[i]) else values[i])
  }

  /** The rebuilt buffer has one idle entry per dot; a buffer of the right length is kept as it is. */
  lemma SyncedShape(values: seq<DotValue>, count: nat)
    ensures |Synced(values, count)| == count
    ensures |values| != count ==> forall i | 0 <= i < count :: Synced(values, count)[i] == Idle
    ensures |values| == count ==> Synced(values, count) == values
  {
  }

  /** Idling sets exactly the mounted entries to (0.25, 0.7), and doing it again changes nothing. */
  lemma IdledEffect(values: seq<DotValue>, mounted: seq<bool>, i: nat)
    requires i < |values|
    ensures |Idled(values, mounted)| == |values|
    ensures Idled(values, mounted)[i] == if IsMounted(mounted, i) then Idle else values[i]
    ensures Idled(Idled(values, mounted), mounted) == Idled(values, mounted)
  {
  }

  /**
   * A frame leaves entries without a dot alone; a mounted entry's opacity and scale
   * each land between the old value and the target, 88% of the old gap away from it.
   */
  lemma SteppedEffect(values: seq<DotValue>, mounted: seq<bool>, targets: seq<Patterns.PatternResult>, i: nat)
    requires |targets| == |values| && i < |values|
    ensures |Stepped(values, mounted, targets)| == |values|
    ensures !IsMounted(mounted, i) ==> Stepped(values, mounted, targets)[i] == values[i]
    ensures IsMounted(mounted, i) ==>
              targets[i].opacity - Stepped(values, mounted, targets)[i].opacity
                == 0.88 * (targets[i].opacity - values[i].opacity)
              && targets[i].scale - Stepped(values, mounted, targets)[i].scale
                   == 0.88 * (targets[i].scale - values[i].scale)
    ensures IsMounted(mounted, i) && values[i].opacity <= targets[i].opacity ==>
              values[i].opacity <= Stepped(values, mounted, targets)[i].opacity <= targets[i].opacity
    ensures IsMounted(mounted, i) && targets[i].opacity <= values[i].opacity ==>
              targets[i].opacity <= Stepped(values, mounted, targets)[i].opacity <= values[i].opacity
  {
    SmoothStep(values[i].opacity, targets[i].opacity);
    SmoothStep(values[i].scale, targets[i].scale);
  }

  // ---------------------------------------------------------------------------
  // The buffer itself (valuesRef.current), components/DotGrid.tsx:34, 47-90

  class ValueBuffer {
    var values: array<DotValue>
    /** Whether the effect's frame loop is scheduled (`frameId` of line 72 is live). */
    ghost var running: bool

    /** `useRef([])`. */
    constructor ()
      ensures fresh(values) && values.Length == 0 && !running
    {
      values := new DotValue[0];
      running := false;
    }

    /** Lines 49-54: rebuild the buffer at idle when its length differs from the number of dots. */
    method Sync(count: nat)
      modifies this
      ensures values[..] == Synced(old(values[..]), count)
      ensures old(values.Length) != count ==> fresh(values)
      ensures old(values.Length) == count ==> values == old(values)
    {
      if values.Length != count {
        values := new DotValue[count](_ => Idle);
      }
    }

    /** Lines 56-65: idle the entry of every mounted dot; entries with a null dot are untouched. */
    method SetIdle(mounted: seq<bool>)
      requires forall i | values.Length <= i < |mounted| :: !mounted[i]
      modifies values
      ensures values[..] == Idled(old(values[..]), mounted)
    {
      var i := 0;
      while i < |mounted|
        invariant 0 <= i <= |mounted|
        invariant forall j | 0 <= j < values.Length ::
                    values[j] == if j < i && IsMounted(mounted, j) then Idle else old(values[j])
      {
        if mounted[i] {
          values[i] := Idle;
        }
        i := i + 1;
      }
      assert forall j | 0 <= j < values.Length :: values[..][j] == Idled(old(values[..]), mounted)[j];
    }

    /** Lines 73-85: one animation frame at `time` milliseconds, while the frame loop runs. */
    method Frame(time: real, size: nat, pattern: (nat, nat, nat, real) -> Patterns.PatternResult,
                 mounted: seq<bool>)
      requires running && values.Length == size * size
      modifies values
      ensures values[..] == Stepped(old(values[..]), mounted, Targets(size, pattern, PatternTime(time)))
    {
      var t := PatternTime(time);
      var coords := Coordinates(size);
      var i := 0;
      while i < |coords|
        invariant 0 <= i <= |coords|
        invariant forall j | 0 <= j < values.Length ::
                    values[j] == if j < i && IsMounted(mounted, j)
                                 then SmoothDot(old(values[j]), pattern(coords[j].0, coords[j].1, size, t))
                                 else old(values[j])
      {
        if i < |mounted| && mounted[i] {
          var result := pattern(coords[i].0, coords[i].1, size, t);
          values[i] := SmoothDot(values[i], result);
        }
        i := i + 1;
      }
      ghost var targets := Targets(size, pattern, t);
      assert forall j | 0 <= j < values.Length ::
               values[..][j] == Stepped(old(values[..]), mounted, targets)[j];
    }

    /**
     * Lines 47-70 and 88-89: the effect. The previous run's frame loop is cancelled and the buffer
     * is synchronised with the size*size dots; under reduced motion or without hover only the
     * idle path runs and no frame loop starts, so Frame cannot be called until the next run.
     */
    method RunEffect(size: nat, mounted: seq<bool>, reducedMotion: bool, hovered: bool)
      returns (animating: bool)
      requires forall i | size * size <= i < |mounted| :: !mounted[i]
      modifies this, values
      ensures animating == (!reducedMotion && hovered) && running == animating
      ensures values.Length == size * size
      ensures old(values.Length) == size * size ==> values == old(values)
      ensures old(values.Length) != size * size ==> fresh(values)
      ensures animating ==> values[..] == Synced(old(values[..]), size * size)
      ensures !animating ==> values[..] == Idled(Synced(old(values[..]), size * size), mounted)
    {
      Sync(size * size);
      if reducedMotion || !hovered {
        SetIdle(mounted);
        running := false;
        return false;
      }
      running := true;
      return true;
    }
  }
  /**
   * Lines 47-88: the effect runs, and when it started the frame loop, the first frame follows
   * at `time` milliseconds on the same buffer.
   */
  method EffectThenFrame(buffer: ValueBuffer, size: nat, pattern: (nat, nat, nat, real) -> Patterns.PatternResult,
                         mounted: seq<bool>, reducedMotion: bool, hovered: bool, time: real)
    returns (animating: bool)
    requires forall i | size * size <= i < |mounted| :: !mounted[i]
    modifies buffer, buffer.values
    ensures animating == (!reducedMotion && hovered) && buffer.running == animating
    ensures buffer.values.Length == size * size
    ensures animating ==>
              buffer.values[..] == Stepped(Synced(old(buffer.values[..]), size * size), mounted, Targets(size, pattern, PatternTime(time)))
    ensures !animating ==> buffer.values[..] == Idled(Synced(old(buffer.values[..]), size * size), mounted)
  {
    animating := buffer.RunEffect(size, mounted, reducedMotion, hovered);
    if animating {
      buffer.Frame(time, size, pattern, mounted);
    }
  }
}
