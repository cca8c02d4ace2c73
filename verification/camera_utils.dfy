/**
 * Pixel visibility tests of the camera utilities: whether a pixel lies inside
 * an image of the given size, optionally keeping a border of `margin` pixels
 * free on every side.
 *
 * The templated overloads are generic in the keypoint's scalar type; they are
 * modelled over `real`, which contains both the floating-point and the integer
 * instantiations. The `int` overload is modelled over `int`. A keypoint is a
 * 2-vector `[x, y]`.
 */
module CameraUtils {

  /** The templated `isVisible`: `px` lies in `[0, width) x [0, height)`. */
  function IsVisible(width: real, height: real, px: seq<real>): (r: bool)
    requires |px| == 2
    ensures r ==> px[0] != width && px[1] != height
    ensures r ==> 0.0 < width && 0.0 < height
  {
    px[0] >= 0.0
    && px[1] >= 0.0
    && px[0] < width
    && px[1] < height
  }

  /** The templated `isVisibleWithMargin`: `px` lies in `[margin, width - margin) x [margin, height - margin)`. */
  function IsVisibleWithMargin(width: real, height: real, px: seq<real>, margin: real): (r: bool)
    requires |px| == 2
    ensures margin == 0.0 ==> (r <==> IsVisible(width, height, px))
    ensures r && 0.0 <= margin ==> IsVisible(width, height, px)
    ensures 2.0 * margin >= width || 2.0 * margin >= height ==> !r
  {
    px[0] >= margin
    && px[1] >= margin
    && px[0] < width - margin
    && px[1] < height - margin
  }

  /** The `int` overload of `isVisibleWithMargin`, taking the pixel as two coordinates. */
  function IsVisibleWithMarginInt(width: int, height: int, x: int, y: int, margin: int): (r: bool)
    ensures r <==> IsVisibleWithMargin(width as real, height as real, [x as real, y as real], margin as real)
    ensures 2 * margin >= width || 2 * margin >= height ==> !r
  {
    x >= margin
    && y >= margin
    && x < width - margin
    && y < height - margin
  }

  /** A pixel that stays visible under a wider margin stays visible under a narrower one. */
  lemma MarginMonotone(width: real, height: real, px: seq<real>, narrow: real, wide: real)
    requires |px| == 2
    requires narrow <= wide
    requires IsVisibleWithMargin(width, height, px, wide)
    ensures IsVisibleWithMargin(width, height, px, narrow)
  {
  }

  /** A margin shrinks the image by `margin` on each side: visibility with margin is plain
      visibility of the shifted pixel in the shrunken image. */
  lemma MarginIsShrunkenImage(width: real, height: real, px: seq<real>, margin: real)
    requires |px| == 2
    ensures IsVisibleWithMargin(width, height, px, margin)
        <==> IsVisible(width - 2.0 * margin, height - 2.0 * margin, [px[0] - margin, px[1] - margin])
  {
  }

  /** The columns of row `y` below `bound` that the `int` overload accepts. */
  function VisibleColumnsBelow(width: int, height: int, y: int, margin: int, bound: int): set<int> {
    set x | margin <= x < bound && IsVisibleWithMarginInt(width, height, x, y, margin)
  }

  /** The columns of row `y` that the `int` overload accepts. */
  function VisibleColumns(width: int, height: int, y: int, margin: int): set<int> {
    VisibleColumnsBelow(width, height, y, margin, width - margin)
  }

  /** On a row inside the margin, exactly `width - 2 * margin` columns are visible; on any other
      row, and whenever `2 * margin >= width`, none is. No column outside the counted set is
      accepted. */
  lemma VisibleRowWidth(width: int, height: int, y: int, margin: int)
    ensures forall x :: IsVisibleWithMarginInt(width, height, x, y, margin) <==> x in VisibleColumns(width, height, y, margin)
    ensures margin <= y < height - margin && 2 * margin < width ==>
              |VisibleColumns(width, height, y, margin)| == width - 2 * margin
    ensures !(margin <= y < height - margin && 2 * margin < width) ==>
              VisibleColumns(width, height, y, margin) == {}
  {
    if margin <= y < height - margin && 2 * margin < width {
      CountVisibleColumns(width, height, y, margin, width - margin);
    }
  }

  /** Counting the visible columns of a visible row one bound at a time. */
  lemma {:induction false} CountVisibleColumns(width: int, height: int, y: int, margin: int, bound: int)
    requires margin <= y < height - margin
    requires margin <= bound <= width - margin
    ensures |VisibleColumnsBelow(width, height, y, margin, bound)| == bound - margin
    decreases bound - margin
  {
    if bound == margin {
      assert VisibleColumnsBelow(width, height, y, margin, bound) == {};
    } else {
      CountVisibleColumns(width, height, y, margin, bound - 1);
      assert IsVisibleWithMarginInt(width, height, bound - 1, y, margin);
      assert VisibleColumnsBelow(width, height, y, margin, bound)
          == VisibleColumnsBelow(width, height, y, margin, bound - 1) + {bound - 1};
    }
  }
}
