/**
 * The dashboard's layout category of the browser window. The window width is
 * a parameter (`window.innerWidth`, whole CSS pixels).
 */
module Window {
  /** The categories, in order of width. */
  datatype MediaSize = Mobile | Tablet | Desktop | DesktopLarge

  /** The numeric value each category carries in the enum. */
  function Value(m: MediaSize): int
  {
    match m
    case Mobile => 481
    case Tablet => 769
    case Desktop => 1249
    case DesktopLarge => 1441
  }

  /** The position of a category in the order of widths. */
  function Rank(m: MediaSize): (r: nat)
    ensures r < 4
  {
    match m
    case Mobile => 0
    case Tablet => 1
    case Desktop => 2
    case DesktopLarge => 3
  }

  /** `getMediaCategory`. */
  function MediaCategory(width: int): (m: MediaSize)
    ensures m == Mobile <==> width <= 481
    ensures m == Tablet <==> 482 <= width <= 769
    ensures m == Desktop <==> 770 <= width <= 1248
    ensures m == DesktopLarge <==> width >= 1249
  {
    if width <= Value(Mobile) then Mobile
    else if width <= Value(Tablet) then Tablet
    else if width < Value(Desktop) then Desktop
    else DesktopLarge
  }

  /** A wider window never gets a narrower category. */
  lemma MediaCategoryMonotone(w1: int, w2: int)
    requires w1 <= w2
    ensures Rank(MediaCategory(w1)) <= Rank(MediaCategory(w2))
  {
  }

  /**
   * The limits: the Mobile and Tablet values are the largest widths of their
   * category, while the Desktop value is already DesktopLarge, and the
   * DesktopLarge value plays no part.
   */
  lemma MediaCategoryLimits()
    ensures MediaCategory(Value(Mobile)) == Mobile && MediaCategory(Value(Mobile) + 1) == Tablet
    ensures MediaCategory(Value(Tablet)) == Tablet && MediaCategory(Value(Tablet) + 1) == Desktop
    ensures MediaCategory(Value(Desktop) - 1) == Desktop && MediaCategory(Value(Desktop)) == DesktopLarge
    ensures MediaCategory(Value(DesktopLarge)) == DesktopLarge && MediaCategory(Value(DesktopLarge) + 1) == DesktopLarge
  {
  }
}
