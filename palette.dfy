/**
 * The scroll-driven gradient palette (components/scrolling-palette/ScrollingPalette.tsx):
 * the index of the gradient on show, updated from the scroll position only
 * when the rounded value names a gradient, and the breakpoint lists and
 * spacer height that tie scrolling to the gradient table.
 *
 * The scroll library's interpolation is not modelled; each value it reports
 * is an input of OnChange.
 */
module ScrollingPalette {

  /** The ids of the gradient table in lib/gradients.ts, in order. */
  const GradientIds: seq<string> :=
    ["linear", "radial", "conic", "shapeblur", "mesh", "noise", "aurora", "prismatic", "reflected", "spotlight"]

  /** Ten gradients, each with an id of its own (the list keys). */
  lemma GradientTable()
    ensures |GradientIds| == 10
    ensures forall i, j | 0 <= i < j < |GradientIds| :: GradientIds[i] != GradientIds[j]
  {
  }

  /** JavaScript's Math.round: the nearest integer, halves rounded up. */
  function Round(x: real): (r: int)
    ensures r as real - 0.5 <= x < r as real + 0.5
  {
    (x + 0.5).Floor
  }

  /** The guard of lines 25-28: a rounded index is taken only when it names one of n gradients. */
  function Accept(active: int, newIndex: int, n: nat): (r: int)
    ensures 0 <= newIndex < n ==> r == newIndex
    ensures !(0 <= newIndex < n) ==> r == active
  {
    if newIndex >= 0 && newIndex < n then newIndex else active
  }

  /** The active index after the scroll library reported each of `latest` in turn. */
  function AfterChanges(active: int, latest: seq<real>, n: nat): int
    decreases latest
  {
    if latest == [] then active else AfterChanges(Accept(active, Round(latest[0]), n), latest[1..], n)
  }

  /** A change is the old fold followed by one more guarded step. */
  lemma {:induction false} AfterChangesSnoc(active: int, latest: seq<real>, x: real, n: nat)
    ensures AfterChanges(active, latest + [x], n) == Accept(AfterChanges(active, latest, n), Round(x), n)
    decreases latest
  {
    if latest != [] {
      assert (latest + [x])[1..] == latest[1..] + [x];
      AfterChangesSnoc(Accept(active, Round(latest[0]), n), latest[1..], x, n);
    }
  }

  /** However the page is scrolled, the active index keeps naming a gradient. */
  lemma {:induction false} ChangesKeepIndexValid(active: int, latest: seq<real>, n: nat)
    requires 0 <= active < n
    ensures 0 <= AfterChanges(active, latest, n) < n
    decreases latest
  {
    if latest != [] {
      ChangesKeepIndexValid(Accept(active, Round(latest[0]), n), latest[1..], n);
    }
  }

  /** A value inside the interpolation's range [0, n - 1] always rounds to an accepted index. */
  lemma InRangeValueAccepted(x: real, n: nat)
    requires 0.0 <= x <= (n - 1) as real && n >= 1
    ensures 0 <= Round(x) < n
  {
  }

  // ---------------------------------------------------------------------------
  // Breakpoints and spacer, lines 20-21 and 52

  /** The scroll offsets i / (n - 1) at which gradient i is centred. */
  function InputBreakpoints(n: nat): seq<real>
    requires n >= 2
  {
    seq(n, i => i as real / (n - 1) as real)
  }

  /** The index reported at each breakpoint. */
  function OutputBreakpoints(n: nat): seq<real>
  {
    seq(n, i => i as real)
  }

  lemma QuotientLess(a: real, b: real, d: real)
    requires a < b && d > 0.0
    ensures a / d < b / d
  {
    assert b / d - a / d == (b - a) / d;
  }

  lemma QuotientTimes(a: real, d: real)
    requires d > 0.0
    ensures (a / d) * d == a
  {
  }

  lemma QuotientSelf(d: real)
    requires d > 0.0
    ensures d / d == 1.0
  {
  }

  /** The offsets rise strictly from 0 to 1 and are paired with 0 .. n-1. */
  lemma BreakpointsRise(n: nat)
    requires n >= 2
    ensures |InputBreakpoints(n)| == |OutputBreakpoints(n)| == n
    ensures InputBreakpoints(n)[0] == 0.0 && InputBreakpoints(n)[n - 1] == 1.0
    ensures forall i, j | 0 <= i < j < n :: InputBreakpoints(n)[i] < InputBreakpoints(n)[j]
    ensures forall i | 0 <= i < n :: OutputBreakpoints(n)[i] == i as real
    ensures forall i | 0 <= i < n :: InputBreakpoints(n)[i] * (n - 1) as real == OutputBreakpoints(n)[i]
  {
    var d := (n - 1) as real;
    assert InputBreakpoints(n)[n - 1] == 1.0 by {
      QuotientSelf(d);
    }
    forall i, j | 0 <= i < j < n
      ensures InputBreakpoints(n)[i] < InputBreakpoints(n)[j]
    {
      QuotientLess(i as real, j as real, d);
    }
    forall i | 0 <= i < n
      ensures InputBreakpoints(n)[i] * d == OutputBreakpoints(n)[i]
    {
      QuotientTimes(i as real, d);
    }
  }

  /** Height in vh of the spacer that makes the container scroll. */
  function SpacerHeightVh(n: nat): int
  {
    (n - 1) * 30
  }

  /** The container scrolls 30vh per step between neighbouring breakpoints. */
  lemma SpacerPerStep(n: nat)
    requires n >= 2
    ensures SpacerHeightVh(n) == 30 * (|InputBreakpoints(n)| - 1)
    ensures SpacerHeightVh(|GradientIds|) == 270
  {
  }

  class Palette {
    var activeIndex: int

    ghost predicate Valid()
      reads this
    {
      0 <= activeIndex < |GradientIds|
    }

    /** `useState(0)`, line 11. */
    constructor ()
      ensures Valid() && activeIndex == 0
    {
      activeIndex := 0;
    }

    /** The change handler, lines 24-29. */
    method OnChange(latest: real)
      requires Valid()
      modifies this
      ensures Valid()
      ensures activeIndex == Accept(old(activeIndex), Round(latest), |GradientIds|)
    {
      var newIndex := Round(latest);
      if newIndex >= 0 && newIndex < |GradientIds| {
        activeIndex := newIndex;
      }
    }

    /** `gradients[activeIndex]`, line 31: always defined. */
    function CurrentGradient(): (id: string)
      reads this
      requires Valid()
      ensures id in GradientIds
    {
      GradientIds[activeIndex]
    }
  }
}
