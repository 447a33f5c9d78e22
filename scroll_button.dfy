/** `BaseScrollButton`: the arrow button of a scroll bar, whose sizes follow
    from its direction and its button width. */
module ScrollButtons {
  import opened JavaInt

  /** The compass directions of `SwingConstants`. */
  const NORTH := 1
  const EAST := 3
  const SOUTH := 5
  const WEST := 7

  /** A `java.awt.Dimension`. */
  datatype Dimension = Dimension(width: Int32, height: Int32)

  function Transpose(d: Dimension): Dimension {
    Dimension(d.height, d.width)
  }

  /** A button with its direction and width; `setDirection`, which changes
      the direction of a made button, is not part of this model. */
  datatype ScrollButton = ScrollButton(direction: int, buttonWidth: Int32) {

    /** `getPreferredSize`: one pixel longer than wide along the arrow's
        axis; nothing for a direction that is not a compass point. The
        extra pixel is `int` addition. */
    function PreferredSize(): (r: Dimension)
      ensures direction == NORTH || direction == SOUTH ==> r == Dimension(buttonWidth, Wrap32(buttonWidth + 1))
      ensures direction == EAST || direction == WEST ==> r == Dimension(Wrap32(buttonWidth + 1), buttonWidth)
      ensures direction !in {NORTH, EAST, SOUTH, WEST} ==> r == Dimension(0, 0)
    {
      if direction == NORTH || direction == SOUTH then Dimension(buttonWidth, Wrap32(buttonWidth + 1))
      else if direction == EAST || direction == WEST then Dimension(Wrap32(buttonWidth + 1), buttonWidth)
      else Dimension(0, 0)
    }

    /** `getMinimumSize`: the preferred size. */
    function MinimumSize(): (r: Dimension)
      ensures r == PreferredSize()
    {
      PreferredSize()
    }

    /** `getMaximumSize`: unbounded both ways. */
    function MaximumSize(): (r: Dimension)
      ensures r.width == INT_MAX && r.height == INT_MAX
    {
      Dimension(INT_MAX, INT_MAX)
    }
  }

  /** Vertical and horizontal buttons of one width are the same shape, turned. */
  lemma PreferredSizeTurns(w: Int32, vertical: int, horizontal: int)
    requires vertical == NORTH || vertical == SOUTH
    requires horizontal == EAST || horizontal == WEST
    ensures ScrollButton(vertical, w).PreferredSize() == Transpose(ScrollButton(horizontal, w).PreferredSize())
  {
  }

  /** Below `Integer.MAX_VALUE` the long side is exactly one longer; at the
      maximum width the `int` addition wraps to `Integer.MIN_VALUE`. */
  lemma PreferredSizeLongSide(b: ScrollButton)
    requires b.direction == NORTH || b.direction == SOUTH
    ensures b.buttonWidth < INT_MAX ==> b.PreferredSize().height == b.buttonWidth + 1
    ensures b.buttonWidth == INT_MAX ==> b.PreferredSize().height == -0x8000_0000
  {
  }

  /** For a compass-point button whose width w satisfies
      0 <= w < `Integer.MAX_VALUE`, no side of the minimum size is negative:
      the short side is w and the long side is w + 1. */
  lemma MinimumSizeShape(b: ScrollButton)
    requires b.direction in {NORTH, EAST, SOUTH, WEST}
    requires 0 <= b.buttonWidth < INT_MAX
    ensures 0 <= b.MinimumSize().width && 0 <= b.MinimumSize().height
    ensures {b.MinimumSize().width, b.MinimumSize().height} == {b.buttonWidth, b.buttonWidth + 1}
  {
  }
}
