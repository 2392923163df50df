/**
 * The grid card (components/GridCard.tsx): it picks the dot size and gap of
 * its dot grid from the grid size and animates the grid while hovered, or
 * always when every card plays.
 */
module GridCard {
  import DotGrid

  /** Line 22. */
  function DotSize(size: nat): nat
  {
    if size == 9 then 5 else if size == 5 then 7 else 8
  }

  /** Line 23. */
  function Gap(size: nat): nat
  {
    if size == 9 then 3 else if size == 5 then 3 else 4
  }

  /** The three grid sizes get sides of 32, 47 and 69 pixels: larger grids, smaller dots. */
  lemma GridSides()
    ensures DotGrid.GridSide(3, DotSize(3), Gap(3)) == 32
    ensures DotGrid.GridSide(5, DotSize(5), Gap(5)) == 47
    ensures DotGrid.GridSide(9, DotSize(9), Gap(9)) == 69
    ensures DotSize(9) < DotSize(5) < DotSize(3) && Gap(9) == Gap(5) < Gap(3)
  {
  }

  class Card {
    var isHovered: bool

    /** `useState(false)`, line 20. */
    constructor ()
      ensures !isHovered
    {
      isHovered := false;
    }

    /** onMouseEnter, line 28. */
    method MouseEnter()
      modifies this
      ensures isHovered
    {
      isHovered := true;
    }

    /** onMouseLeave, line 29. */
    method MouseLeave()
      modifies this
      ensures !isHovered
    {
      isHovered := false;
    }

    /** The flag handed to the dot grid, line 38: hovered, or every card playing. */
    method DotGridHovered(playAll: bool) returns (hovered: bool)
      ensures hovered <==> playAll || isHovered
      ensures playAll ==> hovered
    {
      hovered := playAll || isHovered;
    }

    /**
     * Lines 32-39: the card renders its dot grid with that flag, and the grid's effect runs.
     * The grid animates exactly when motion is allowed and the card is hovered or every card plays.
     */
    method RenderGrid(grid: DotGrid.ValueBuffer, size: nat, mounted: seq<bool>, reducedMotion: bool,
                      playAll: bool)
      returns (animating: bool)
      requires forall i | size * size <= i < |mounted| :: !mounted[i]
      modifies grid, grid.values
      ensures animating <==> !reducedMotion && (playAll || isHovered)
      ensures grid.running == animating && grid.values.Length == size * size
      ensures old(grid.values.Length) == size * size ==> grid.values == old(grid.values)
      ensures old(grid.values.Length) != size * size ==> fresh(grid.values)
      ensures animating ==> grid.values[..] == DotGrid.Synced(old(grid.values[..]), size * size)
      ensures !animating ==>
                grid.values[..] == DotGrid.Idled(DotGrid.Synced(old(grid.values[..]), size * size), mounted)
    {
      var hovered := DotGridHovered(playAll);
      animating := grid.RunEffect(size, mounted, reducedMotion, hovered);
    }
  }
}

/**
 * The themed copy of the grid card (components/grid/GridCard.tsx). Its state
 * and handlers (lines 20, 28-29, 38) are the same as GridCard's, so it uses
 * GridCard.Card; only its sizing is restated here, from its own lines.
 */
module ThemedGridCard {
  import GridCard
  import DotGrid

  /** Lines 22-23: (dotSize, gap). */
  function Sizing(size: nat): (nat, nat)
  {
    (if size == 9 then 5 else if size == 5 then 7 else 8, if size == 9 then 3 else if size == 5 then 3 else 4)
  }

  /** Both cards lay out every grid size identically, so their grids have the same sides. */
  lemma SameSizingAsGridCard(size: nat)
    ensures Sizing(size) == (GridCard.DotSize(size), GridCard.Gap(size))
    ensures DotGrid.GridSide(size, Sizing(size).0, Sizing(size).1)
            == DotGrid.GridSide(size, GridCard.DotSize(size), GridCard.Gap(size))
    ensures Sizing(9) == (5, 3) && Sizing(5) == (7, 3) && Sizing(3) == (8, 4)
  {
  }
}
