/**
 * Windows of passing settings on one signed tap axis.
 * Negative positions delay the data pin, positive positions delay the strobe.
 */
module TapWindow {

  /** first and last are the outermost passing positions of lo..hi. */
  ghost predicate Hull(pass: int -> bool, lo: int, hi: int, first: int, last: int) {
    && lo <= first <= last <= hi
    && pass(first) && pass(last)
    && forall x | lo <= x <= hi && pass(x) :: first <= x <= last
  }

  ghost predicate NonePass(pass: int -> bool, lo: int, hi: int) {
    forall x | lo <= x <= hi :: !pass(x)
  }

  ghost predicate AllPass(pass: int -> bool, lo: int, hi: int) {
    forall x | lo <= x <= hi :: pass(x)
  }

  /** The passing positions of lo..hi form one interval, possibly empty. */
  ghost predicate OneWindow(pass: int -> bool, lo: int, hi: int) {
    forall x, y, z | lo <= x < y < z <= hi && pass(x) && pass(z) :: pass(y)
  }

  /** The passing positions of lo..hi are exactly first..last. */
  ghost predicate Window(pass: int -> bool, lo: int, hi: int, first: int, last: int) {
    && lo <= first <= last <= hi
    && forall x | lo <= x <= hi :: pass(x) <==> first <= x <= last
  }

  /** A window is longest when no run of passing positions in lo..hi is longer, and leftmost among those. */
  ghost predicate LeftmostLongest(pass: int -> bool, lo: int, hi: int, first: int, last: int) {
    && lo <= first <= last <= hi
    && AllPass(pass, first, last)
    && forall s, t | lo <= s <= t <= hi && AllPass(pass, s, t) ::
      t - s <= last - first && (t - s == last - first ==> first <= s)
  }
}
