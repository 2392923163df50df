/**
 * The pattern registry of the dot grid (lib/patterns.ts): the integer grid
 * geometry helpers (snake indexing, checkerboard parity, kaleidoscope
 * folding, the 3x3 spiral table) and the patterns whose intensity is a clamp
 * or affine map over exact reals (snake, scan, diamond, fibonacci).
 *
 * Grid cells are (row, col) with 0 <= row, col < size; the core's grids are
 * 3x3, 5x5 and 9x9. JavaScript numbers are modelled as exact reals.
 */
module Patterns {

  /** What a pattern returns for one dot. */
  datatype PatternResult = PatternResult(opacity: real, scale: real)

  datatype Option<T> = None | Some(value: T)

  function Max(a: real, b: real): real { if a >= b then a else b }

  function Abs(x: real): real { if x < 0.0 then -x else x }

  function IntAbs(x: int): nat { if x < 0 then -x else x }

  /** JavaScript's `x % 1` on a number: the remainder keeps the sign of x. */
  function JsFrac(x: real): (r: real)
    ensures x >= 0.0 ==> 0.0 <= r < 1.0
    ensures x < 0.0 ==> -1.0 < r <= 0.0
    ensures 0.0 <= x < 1.0 ==> r == x
    ensures (x - r).Floor as real == x - r
  {
    var truncated := if x >= 0.0 then x.Floor else -((-x).Floor);
    x - truncated as real
  }

  /** Two cells are orthogonal neighbours. */
  predicate Adjacent(a: (int, int), b: (int, int))
  {
    IntAbs(a.0 - b.0) + IntAbs(a.1 - b.1) == 1
  }

  predicate InGrid(cell: (int, int), size: nat)
  {
    0 <= cell.0 < size && 0 <= cell.1 < size
  }

  /** Multiplying by a natural number keeps the order. */
  lemma {:induction false} MulLe(a: nat, b: nat, n: nat)
    requires a <= b
    ensures a * n <= b * n
  {
    if a < b {
      MulLe(a, b - 1, n);
      assert b * n == (b - 1) * n + n;
    }
  }

  /** Euclidean division recovers the quotient and remainder it was built from. */
  lemma DivModOf(q: nat, r: nat, n: nat)
    requires r < n
    ensures (q * n + r) / n == q && (q * n + r) % n == r
  {
    var x := q * n + r;
    var d, m := x / n, x % n;
    assert x == d * n + m;
    if d < q {
      MulLe(d + 1, q, n);
    } else if q < d {
      MulLe(q + 1, d, n);
    }
  }

  /** A flat index below size*size has a row below size. */
  lemma RowBound(k: nat, size: nat)
    requires k < size * size
    ensures size > 0 && k / size < size && k == (k / size) * size + k % size
  {
    if k / size >= size {
      MulLe(size, k / size, size);
    }
  }

  // ---------------------------------------------------------------------------
  // Snake (boustrophedon) indexing, lib/patterns.ts:27-32

  /** Even rows run left to right, odd rows right to left. */
  function SnakeIndex(row: nat, col: nat, size: nat): int
  {
    if row % 2 == 0 then row * size + col else row * size + (size - 1 - col)
  }

  /** The cell that sits at position k of the snake path: the inverse of SnakeIndex. */
  function SnakeCell(k: nat, size: nat): (nat, nat)
    requires k < size * size
  {
    RowBound(k, size);
    var row := k / size;
    var offset := k % size;
    (row, if row % 2 == 0 then offset else size - 1 - offset)
  }

  lemma SnakeIndexInRange(row: nat, col: nat, size: nat)
    requires row < size && col < size
    ensures 0 <= SnakeIndex(row, col, size) < size * size
  {
    MulLe(row, size - 1, size);
    assert (size - 1) * size + size == size * size;
  }

  /** Decoding the snake index of a cell gives back the cell. */
  lemma SnakeIndexRoundTrip(row: nat, col: nat, size: nat)
    requires row < size && col < size
    ensures SnakeIndex(row, col, size) < size * size
    ensures SnakeCell(SnakeIndex(row, col, size), size) == (row, col)
  {
    SnakeIndexInRange(row, col, size);
    var offset := if row % 2 == 0 then col else size - 1 - col;
    DivModOf(row, offset, size);
  }

  /** Every position of the path is the snake index of exactly the cell SnakeCell names. */
  lemma SnakeCellRoundTrip(k: nat, size: nat)
    requires k < size * size
    ensures InGrid(SnakeCell(k, size), size)
    ensures SnakeIndex(SnakeCell(k, size).0, SnakeCell(k, size).1, size) == k
  {
    RowBound(k, size);
  }

  /** SnakeIndex is a bijection from the size x size cells onto 0 .. size*size-1. */
  lemma SnakeIndexBijective(size: nat)
    ensures forall r1: nat, c1: nat, r2: nat, c2: nat
              | r1 < size && c1 < size && r2 < size && c2 < size
                && SnakeIndex(r1, c1, size) == SnakeIndex(r2, c2, size)
              :: r1 == r2 && c1 == c2
    ensures forall k: nat | k < size * size
              :: InGrid(SnakeCell(k, size), size)
                 && SnakeIndex(SnakeCell(k, size).0, SnakeCell(k, size).1, size) == k
  {
    forall r1: nat, c1: nat, r2: nat, c2: nat
      | r1 < size && c1 < size && r2 < size && c2 < size
        && SnakeIndex(r1, c1, size) == SnakeIndex(r2, c2, size)
      ensures r1 == r2 && c1 == c2
    {
      SnakeIndexRoundTrip(r1, c1, size);
      SnakeIndexRoundTrip(r2, c2, size);
    }
    forall k: nat | k < size * size
      ensures InGrid(SnakeCell(k, size), size)
      ensures SnakeIndex(SnakeCell(k, size).0, SnakeCell(k, size).1, size) == k
    {
      SnakeCellRoundTrip(k, size);
    }
  }

  /** Position k = row * size + offset of the path lies in that row, at that offset from its start. */
  lemma SnakeCellAt(k: nat, row: nat, offset: nat, size: nat)
    requires offset < size && k == row * size + offset && k < size * size
    ensures SnakeCell(k, size) == (row, if row % 2 == 0 then offset else size - 1 - offset)
  {
    DivModOf(row, offset, size);
  }

  /** The position after the last one of a row starts the next row. */
  lemma NextRowStart(k: nat, row: nat, size: nat)
    requires size > 0 && k == row * size + (size - 1)
    ensures k + 1 == (row + 1) * size + 0
  {
  }

  /** A step inside a row moves one column along it. */
  lemma SnakeStepWithinRow(k: nat, row: nat, offset: nat, size: nat)
    requires offset + 1 < size && k == row * size + offset && k + 1 < size * size
    ensures Adjacent(SnakeCell(k, size), SnakeCell(k + 1, size))
  {
    SnakeCellAt(k, row, offset, size);
    SnakeCellAt(k + 1, row, offset + 1, size);
  }

  /** A step off the end of a row moves one row down, in the same column. */
  lemma SnakeStepToNextRow(k: nat, row: nat, size: nat)
    requires size > 0 && k == row * size + (size - 1) && k + 1 < size * size
    ensures Adjacent(SnakeCell(k, size), SnakeCell(k + 1, size))
  {
    SnakeCellAt(k, row, size - 1, size);
    NextRowStart(k, row, size);
    SnakeCellAt(k + 1, row + 1, 0, size);
  }

  /** Consecutive positions of the snake path are orthogonal neighbours. */
  lemma SnakeStepsAreAdjacent(k: nat, size: nat)
    requires k + 1 < size * size
    ensures Adjacent(SnakeCell(k, size), SnakeCell(k + 1, size))
  {
    RowBound(k, size);
    var row, offset := k / size, k % size;
    if offset + 1 < size {
      SnakeStepWithinRow(k, row, offset, size);
    } else {
      SnakeStepToNextRow(k, row, size);
    }
  }

  /** Snake pattern, lib/patterns.ts:84-95: a highlight moving along the snake path. */
  function Snake(row: nat, col: nat, size: nat, time: real): PatternResult
    requires size > 0
  {
    var index := SnakeIndex(row, col, size);
    var totalCells := (size * size) as real;
    var progress := JsFrac(time * 0.8) * totalCells;
    var distance := Abs(index as real - progress);
    var tailLength := totalCells * 0.3;
    var intensity := Falloff(distance / tailLength);
    PatternResult(0.15 + intensity * 0.85, 0.5 + intensity * 0.5)
  }

  lemma SnakeBounds(row: nat, col: nat, size: nat, time: real)
    requires size > 0
    ensures 0.15 <= Snake(row, col, size, time).opacity <= 1.0
    ensures 0.5 <= Snake(row, col, size, time).scale <= 1.0
    ensures Snake(row, col, size, time).opacity == 1.0
            <==> SnakeIndex(row, col, size) as real == JsFrac(time * 0.8) * (size * size) as real
  {
    MulLe(1, size, size);
    var totalCells := (size * size) as real;
    TrailFalloff(SnakeIndex(row, col, size) as real, JsFrac(time * 0.8) * totalCells, totalCells * 0.3);
  }

  /** A glow that falls off linearly over a positive tail length is full exactly at its head. */
  lemma TrailFalloff(position: real, head: real, tail: real)
    requires tail > 0.0
    ensures 0.0 <= Falloff(Abs(position - head) / tail) <= 1.0
    ensures Falloff(Abs(position - head) / tail) == 1.0 <==> position == head
  {
    var x := Abs(position - head) / tail;
    assert x >= 0.0;
    assert x == 0.0 <==> position == head;
    FalloffBounds(x);
  }

  // ---------------------------------------------------------------------------
  // The clamped triangular falloff max(0, 1 - x), lib/patterns.ts:90, 225, 307

  function Falloff(x: real): real
  {
    Max(0.0, 1.0 - x)
  }

  lemma FalloffBounds(x: real)
    requires x >= 0.0
    ensures 0.0 <= Falloff(x) <= 1.0
    ensures Falloff(x) > 0.0 <==> x < 1.0
    ensures Falloff(x) == 1.0 <==> x == 0.0
    ensures Falloff(x) * 0.85 + 0.15 <= 1.0 && Falloff(x) * 0.9 + 0.1 <= 1.0
  {
  }

  /** The falloff weakens as the distance grows. */
  lemma FalloffAntitone(x: real, y: real)
    requires x <= y
    ensures Falloff(y) <= Falloff(x)
  {
  }

  // ---------------------------------------------------------------------------
  // Scan, lib/patterns.ts:221-230: a horizontal line sweeping down the grid.

  function Scan(row: nat, col: nat, size: nat, time: real): PatternResult
    requires size > 1
  {
    var normalizedRow := row as real / (size - 1) as real;
    var scanPos := JsFrac(time * 0.8);
    var distance := Abs(normalizedRow - scanPos);
    var intensity := Falloff(distance * 5.0);
    PatternResult(0.1 + intensity * 0.9, 0.4 + intensity * 0.6)
  }

  /** Scan's opacity lies in [0.1, 1] and its scale in [0.4, 1]; every column of a row agrees. */
  lemma ScanBounds(row: nat, col: nat, size: nat, time: real, otherCol: nat)
    requires size > 1
    ensures 0.1 <= Scan(row, col, size, time).opacity <= 1.0
    ensures 0.4 <= Scan(row, col, size, time).scale <= 1.0
    ensures Scan(row, col, size, time) == Scan(row, otherCol, size, time)
    ensures Scan(row, col, size, time).opacity == 1.0
            <==> row as real / (size - 1) as real == JsFrac(time * 0.8)
  {
    var normalizedRow := row as real / (size - 1) as real;
    var distance := Abs(normalizedRow - JsFrac(time * 0.8));
    FalloffBounds(distance * 5.0);
  }

  // ---------------------------------------------------------------------------
  // Diamond, lib/patterns.ts:300-312: a diamond ring expanding from the centre.

  function Diamond(row: nat, col: nat, size: nat, time: real): PatternResult
    requires size > 1
  {
    var center := (size - 1) as real / 2.0;
    var manhattanDist := Abs(row as real - center) + Abs(col as real - center);
    var maxManhattan := (size - 1) as real;
    var normalizedDist := manhattanDist / maxManhattan;
    var wavePos := JsFrac(time * 1.2);
    var distance := Abs(normalizedDist - wavePos);
    var intensity := Falloff(distance * 5.0);
    PatternResult(0.15 + intensity * 0.85, 0.45 + intensity * 0.55)
  }

  lemma DiamondBounds(row: nat, col: nat, size: nat, time: real)
    requires size > 1
    ensures 0.15 <= Diamond(row, col, size, time).opacity <= 1.0
    ensures 0.45 <= Diamond(row, col, size, time).scale <= 1.0
  {
    var center := (size - 1) as real / 2.0;
    var normalizedDist := (Abs(row as real - center) + Abs(col as real - center)) / (size - 1) as real;
    FalloffBounds(Abs(normalizedDist - JsFrac(time * 1.2)) * 5.0);
  }

  /** The diamond is symmetric under both mirrors and under transposition of the grid. */
  lemma DiamondSymmetric(row: nat, col: nat, size: nat, time: real)
    requires size > 1 && row < size && col < size
    ensures Diamond(size - 1 - row, col, size, time) == Diamond(row, col, size, time)
    ensures Diamond(row, size - 1 - col, size, time) == Diamond(row, col, size, time)
    ensures Diamond(col, row, size, time) == Diamond(row, col, size, time)
  {
    var center := (size - 1) as real / 2.0;
    assert Abs((size - 1 - row) as real - center) == Abs(row as real - center);
    assert Abs((size - 1 - col) as real - center) == Abs(col as real - center);
  }

  // ---------------------------------------------------------------------------
  // Checkerboard parity, lib/patterns.ts:110-118

  /** The phase of a cell in half turns: 0 (phase 0) on even cells, 1 (phase pi) on odd cells. */
  function CheckerPhase(row: nat, col: nat): (halfTurns: nat)
    ensures halfTurns == 0 || halfTurns == 1
  {
    if (row + col) % 2 == 0 then 0 else 1
  }

  /**
   * Checkerboard's intensity (sin(2.5 t + phase) + 1) / 2, given s = sin(2.5 t);
   * a phase of pi negates the sine.
   */
  function Checkerboard(row: nat, col: nat, size: nat, s: real): PatternResult
  {
    var shifted := if CheckerPhase(row, col) == 0 then s else -s;
    var intensity := (shifted + 1.0) / 2.0;
    PatternResult(0.15 + intensity * 0.85, 0.4 + intensity * 0.6)
  }

  /** Orthogonal neighbours are in opposite phase, so their intensities add up to one. */
  lemma CheckerNeighboursOpposite(row: nat, col: nat, row': nat, col': nat, size: nat, s: real)
    requires Adjacent((row, col), (row', col'))
    ensures CheckerPhase(row, col) + CheckerPhase(row', col') == 1
    ensures -1.0 <= s <= 1.0 ==> 0.15 <= Checkerboard(row, col, size, s).opacity <= 1.0
    ensures Checkerboard(row, col, size, s).opacity + Checkerboard(row', col', size, s).opacity == 1.15
  {
    assert row' + col' == row + col + 1 || row + col == row' + col' + 1;
  }

  // ---------------------------------------------------------------------------
  // Kaleidoscope folding, lib/patterns.ts:389-395

  /** Mirror a coordinate into the half at or before the centre (size - 1) / 2. */
  function Mirror(x: nat, size: nat): int
  {
    if 2 * x <= size - 1 then x else size - 1 - x
  }

  /** The seed that decides a kaleidoscope cell's phase and frequency. */
  function KaleidoscopeSeed(row: nat, col: nat, size: nat): int
  {
    Mirror(row, size) * 10 + Mirror(col, size)
  }

  /** The folded coordinate is a coordinate of the grid no further than the centre. */
  lemma MirrorBounds(x: nat, size: nat)
    requires x < size
    ensures 0 <= Mirror(x, size) && 2 * Mirror(x, size) <= size - 1
    ensures Mirror(size - 1 - x, size) == Mirror(x, size)
  {
  }

  /** The four mirror images of a cell get the same seed, hence the same output. */
  lemma KaleidoscopeSymmetric(row: nat, col: nat, size: nat)
    requires row < size && col < size
    ensures KaleidoscopeSeed(size - 1 - row, col, size) == KaleidoscopeSeed(row, col, size)
    ensures KaleidoscopeSeed(row, size - 1 - col, size) == KaleidoscopeSeed(row, col, size)
    ensures KaleidoscopeSeed(size - 1 - row, size - 1 - col, size) == KaleidoscopeSeed(row, col, size)
  {
    MirrorBounds(row, size);
    MirrorBounds(col, size);
  }

  /** On grids up to 20 wide, cells share a seed only when they fold onto the same cell. */
  lemma KaleidoscopeSeedSeparates(row: nat, col: nat, row': nat, col': nat, size: nat)
    requires size <= 20 && row < size && col < size && row' < size && col' < size
    requires KaleidoscopeSeed(row, col, size) == KaleidoscopeSeed(row', col', size)
    ensures Mirror(row, size) == Mirror(row', size) && Mirror(col, size) == Mirror(col', size)
  {
    MirrorBounds(row, size);
    MirrorBounds(col, size);
    MirrorBounds(row', size);
    MirrorBounds(col', size);
  }

  // ---------------------------------------------------------------------------
  // Fibonacci spiral, lib/patterns.ts:315-341

  /** Centre, right, up, left, left, down, down, right, right. */
  const SpiralOrder: seq<(int, int)> :=
    [(1, 1), (1, 2), (0, 2), (0, 1), (0, 0), (1, 0), (2, 0), (2, 1), (2, 2)]

  /** Array.prototype.findIndex for the first entry equal to (row, col), or -1. */
  function FindIndex(s: seq<(int, int)>, row: int, col: int): (r: int)
    ensures -1 <= r < |s|
    ensures r == -1 <==> (row, col) !in s
    ensures r >= 0 ==> s[r] == (row, col) && forall j | 0 <= j < r :: s[j] != (row, col)
  {
    if s == [] then -1
    else if s[0].0 == row && s[0].1 == col then 0
    else
      var k := FindIndex(s[1..], row, col);
      if k == -1 then -1 else k + 1
  }

  /** The spiral lists each of the nine 3x3 cells once, starting at the centre, one step at a time. */
  lemma SpiralIsHamiltonianPath()
    ensures |SpiralOrder| == 9 && SpiralOrder[0] == (1, 1)
    ensures forall i | 0 <= i < 9 :: InGrid(SpiralOrder[i], 3)
    ensures forall i, j | 0 <= i < j < 9 :: SpiralOrder[i] != SpiralOrder[j]
    ensures forall r, c | 0 <= r < 3 && 0 <= c < 3 :: (r, c) in SpiralOrder
    ensures forall i | 0 <= i < 8 :: Adjacent(SpiralOrder[i], SpiralOrder[i + 1])
  {
    var s := SpiralOrder;
    assert s[0] == (1, 1) && s[1] == (1, 2) && s[2] == (0, 2) && s[3] == (0, 1) && s[4] == (0, 0);
    assert s[5] == (1, 0) && s[6] == (2, 0) && s[7] == (2, 1) && s[8] == (2, 2);
  }

  /** The lookup finds every 3x3 cell at its spiral position and nothing else. */
  lemma SpiralLookup(row: int, col: int)
    ensures InGrid((row, col), 3) ==>
              0 <= FindIndex(SpiralOrder, row, col) < 9
              && SpiralOrder[FindIndex(SpiralOrder, row, col)] == (row, col)
    ensures !InGrid((row, col), 3) ==> FindIndex(SpiralOrder, row, col) == -1
  {
    SpiralIsHamiltonianPath();
  }

  /** The trailing glow: full at the head, fading over three cells behind it, dark ahead. */
  function FibonacciIntensity(index: int, progress: real): real
  {
    var distance := index as real - progress;
    var tailLength := 3.0;
    if distance >= -tailLength && distance <= 0.0 then 1.0 - Abs(distance) / tailLength else 0.0
  }

  lemma FibonacciIntensityBounds(index: int, progress: real)
    ensures 0.0 <= FibonacciIntensity(index, progress) <= 1.0
    ensures FibonacciIntensity(index, progress) > 0.0 <==> -3.0 < index as real - progress <= 0.0
    ensures FibonacciIntensity(index, progress) == 1.0 <==> index as real == progress
  {
  }

  function Fibonacci(row: nat, col: nat, size: nat, time: real): PatternResult
  {
    var index := FindIndex(SpiralOrder, row, col);
    var totalCells := size * size;
    var progress := JsFrac(time * 0.6) * (totalCells + 3) as real;
    var intensity := FibonacciIntensity(index, progress);
    PatternResult(0.1 + intensity * 0.9, 0.4 + intensity * 0.6)
  }

  /** Each cell lights only while the head is fewer than three cells past it. */
  lemma FibonacciBounds(row: nat, col: nat, size: nat, time: real)
    ensures 0.1 <= Fibonacci(row, col, size, time).opacity <= 1.0
    ensures 0.4 <= Fibonacci(row, col, size, time).scale <= 1.0
    ensures Fibonacci(row, col, size, time).opacity > 0.1
            <==> -3.0 < FindIndex(SpiralOrder, row, col) as real
                        - JsFrac(time * 0.6) * (size * size + 3) as real <= 0.0
  {
    var progress := JsFrac(time * 0.6) * (size * size + 3) as real;
    FibonacciIntensityBounds(FindIndex(SpiralOrder, row, col), progress);
  }

  // ---------------------------------------------------------------------------
  // The registry, lib/patterns.ts:440-465

  datatype PatternName =
    | Pulse | Wave | WaveDiagonal | Ripple | SnakePath | Cascade | Checker | Rain
    | Heartbeat | Orbit | Cross | Corners | ScanLine | Dna | Stagger | Pinwheel
    | Radar | DiamondRing | FibonacciSpiral | WaveInterference | GravityWells
    | Kaleidoscope | PerlinFlow | Quantum

  /** The registry's key for each pattern. */
  function Key(p: PatternName): string
  {
    match p
    case Pulse => "pulse"
    case Wave => "wave"
    case WaveDiagonal => "waveDiagonal"
    case Ripple => "ripple"
    case SnakePath => "snake"
    case Cascade => "cascade"
    case Checker => "checkerboard"
    case Rain => "rain"
    case Heartbeat => "heartbeat"
    case Orbit => "orbit"
    case Cross => "cross"
    case Corners => "corners"
    case ScanLine => "scan"
    case Dna => "dna"
    case Stagger => "stagger"
    case Pinwheel => "pinwheel"
    case Radar => "radar"
    case DiamondRing => "diamond"
    case FibonacciSpiral => "fibonacci"
    case WaveInterference => "waveInterference"
    case GravityWells => "gravityWells"
    case Kaleidoscope => "kaleidoscope"
    case PerlinFlow => "perlinFlow"
    case Quantum => "quantum"
  }

  /** The registry's entries in declaration order. */
  const Registry: seq<PatternName> :=
    [ Pulse, Wave, WaveDiagonal, Ripple, SnakePath, Cascade, Checker, Rain,
      Heartbeat, Orbit, Cross, Corners, ScanLine, Dna, Stagger, Pinwheel,
      Radar, DiamondRing, FibonacciSpiral, WaveInterference, GravityWells,
      Kaleidoscope, PerlinFlow, Quantum ]

  /** `patterns[name]`: the pattern registered under a key, if any. */
  function Lookup(entries: seq<PatternName>, name: string): (r: Option<PatternName>)
    ensures r.Some? ==> r.value in entries && Key(r.value) == name
    ensures r.None? <==> forall i | 0 <= i < |entries| :: Key(entries[i]) != name
  {
    if entries == [] then None
    else if Key(entries[0]) == name then Some(entries[0])
    else Lookup(entries[1..], name)
  }

  /** Every pattern is registered under a key of its own. */
  lemma RegistryComplete(p: PatternName, q: PatternName)
    ensures |Registry| == 24 && p in Registry
    ensures Key(p) == Key(q) ==> p == q
  {
    if Key(p) == Key(q) {
      match p
      case Pulse => case Wave => case WaveDiagonal => case Ripple =>
      case SnakePath => case Cascade => case Checker => case Rain =>
      case Heartbeat => case Orbit => case Cross => case Corners =>
      case ScanLine => case Dna => case Stagger => case Pinwheel =>
      case Radar => case DiamondRing => case FibonacciSpiral => case WaveInterference =>
      case GravityWells => case Kaleidoscope => case PerlinFlow => case Quantum =>
    }
  }

  /** Looking up a pattern's key gives back that pattern. */
  lemma LookupKey(p: PatternName)
    ensures Lookup(Registry, Key(p)) == Some(p)
  {
    RegistryComplete(p, p);
    var r := Lookup(Registry, Key(p));
    RegistryComplete(r.value, p);
  }
}
