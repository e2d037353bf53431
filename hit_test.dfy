/**
 * The integer rectangle test that decides whether a pointer-up lands on the
 * clear icon (ClearableEditText.onTouchEvent). All coordinates are Java ints
 * already truncated from the event's float coordinates.
 */
module HitTest {

  /** The view geometry the test reads: getWidth(), getHeight(),
      getTotalPaddingRight() and getPaddingRight(). */
  datatype Layout = Layout(width: int, height: int, totalPaddingRight: int, paddingRight: int)

  /** Java's `n / 2` on an int: the quotient is rounded toward zero, so the
      remainder takes the sign of `n` (Dafny's own `/` would round down). */
  function TruncHalf(n: int): (h: int)
    ensures n >= 0 ==> 0 <= n - 2 * h <= 1
    ensures n < 0 ==> -1 <= n - 2 * h <= 0
  {
    if n >= 0 then n / 2 else -((-n) / 2)
  }

  /** Left and right edges of the icon column. */
  function LeftBound(layout: Layout): int { layout.width - layout.totalPaddingRight }
  function RightBound(layout: Layout): int { layout.width - layout.paddingRight }

  /** Top edge of the icon band: the icon is centred in the view's height. */
  function IconTop(layout: Layout, iconHeight: int): int {
    TruncHalf(layout.height - iconHeight)
  }

  /** The point is strictly inside the icon rectangle; edges are misses. */
  predicate InIconRect(x: int, y: int, layout: Layout, iconHeight: int)
    ensures InIconRect(x, y, layout, iconHeight) ==>
              iconHeight >= 2 && layout.totalPaddingRight - layout.paddingRight >= 2
    ensures InIconRect(x, y, layout, iconHeight) ==>
              x != LeftBound(layout) && x != RightBound(layout) &&
              y != IconTop(layout, iconHeight) && y != IconTop(layout, iconHeight) + iconHeight
  {
    var top := IconTop(layout, iconHeight);
    LeftBound(layout) < x < RightBound(layout) && top < y < top + iconHeight
  }

  /** The band is centred: the gap below it and the gap above it differ by
      at most one pixel, the extra pixel going to the side truncation favours. */
  lemma BandCentered(layout: Layout, iconHeight: int)
    ensures var top := IconTop(layout, iconHeight);
            var below := layout.height - (top + iconHeight);
            (layout.height >= iconHeight ==> 0 <= below - top <= 1) &&
            (layout.height < iconHeight ==> -1 <= below - top <= 0)
  {
  }

  /** Room for one pixel in each direction is enough for a hit: the pixel
      next to the top-left corner is one. With InIconRect's own contract,
      a hit exists exactly when there is that room. */
  lemma RoomAdmitsHit(layout: Layout, iconHeight: int)
    requires iconHeight >= 2 && layout.totalPaddingRight - layout.paddingRight >= 2
    ensures InIconRect(LeftBound(layout) + 1, IconTop(layout, iconHeight) + 1, layout, iconHeight)
  {
  }

  /** When the view is shorter than the icon by an odd amount, Java's
      truncation puts the band one pixel lower than rounding down would:
      with height 27 and icon height 30 the top edge is -1, not -2, so the
      row y = -1 is not a hit. */
  lemma TruncationMatters()
    ensures IconTop(Layout(100, 27, 40, 10), 30) == -1
    ensures (27 - 30) / 2 == -2
    ensures !InIconRect(70, -1, Layout(100, 27, 40, 10), 30)
    ensures InIconRect(70, 0, Layout(100, 27, 40, 10), 30)
  {
  }
}
