/**
 * The interval algebra of the interval tree: closed intervals on a timeline.
 * The source's time.Time values become integers; "Before" is <, "After" is >
 * and "Equal" is ==.
 */
module Intervals {

  /** A span [low, high]. Nothing in the type forces low <= high. */
  datatype Interval = Interval(low: int, high: int)

  /** The outcome of the checked constructor. */
  datatype Built = Ok(interval: Interval) | EndBeforeStart

  /** An interval whose end is not before its start, as the constructor builds them. */
  predicate WellFormed(i: Interval) {
    i.low <= i.high
  }

  /** The checked constructor: an error exactly when the end lies before the start. */
  function NewInterval(start: int, end: int): (r: Built)
    ensures r.EndBeforeStart? <==> end < start
    ensures r.Ok? ==> r.interval.low == start && r.interval.high == end && WellFormed(r.interval)
  {
    if end < start then EndBeforeStart else Ok(Interval(start, end))
  }

  /** Strict lexicographic order on (low, high): the key order of the tree. */
  function Less(i: Interval, x: Interval): (r: bool)
    ensures i == x ==> !r
    ensures i.low < x.low ==> r
    ensures x.low < i.low ==> !r
    ensures i.low == x.low ==> (r <==> i.high < x.high)
  {
    i.low < x.low || (i.low == x.low && i.high < x.high)
  }

  /** Point containment with both endpoints included. */
  function Intersects(i: Interval, t: int): (r: bool)
    ensures r <==> Overlaps(i, Interval(t, t))
  {
    (i.low == t || i.low < t) && (i.high == t || i.high > t)
  }

  /**
   * Closed-interval overlap. For well-formed intervals it holds exactly when
   * some instant lies in both.
   */
  function Overlaps(i: Interval, x: Interval): (r: bool)
    ensures WellFormed(i) && WellFormed(x) ==>
      (r <==> exists t :: InBoth(i, x, t))
  {
    var r := (i.low == x.high || i.low < x.high) && (x.low == i.high || x.low < i.high);
    assert r && WellFormed(i) && WellFormed(x) ==> InBoth(i, x, if i.low < x.low then x.low else i.low);
    r
  }

  /** t lies in both intervals (the reference meaning of overlap). */
  predicate InBoth(i: Interval, x: Interval, t: int) {
    i.low <= t <= i.high && x.low <= t <= x.high
  }

  /** "t1 is after or equal to t2", which on a total timeline is "t1 is not before t2". */
  function GreaterOrEqual(t1: int, t2: int): (r: bool)
    ensures r <==> !(t1 < t2)
  {
    t1 > t2 || t1 == t2
  }

  /** For distinct intervals exactly one is less than the other. */
  lemma LessTrichotomy(x: Interval, y: Interval)
    ensures x != y ==> (Less(x, y) != Less(y, x))
    ensures x == y ==> !Less(x, y) && !Less(y, x)
  {
  }

  lemma LessTransitive(x: Interval, y: Interval, z: Interval)
    requires Less(x, y) && Less(y, z)
    ensures Less(x, z)
  {
  }

  /** Overlap does not depend on the order of its arguments. */
  lemma OverlapsSymmetric(i: Interval, x: Interval)
    ensures Overlaps(i, x) == Overlaps(x, i)
  {
  }

  /** Well-formed intervals that share only an endpoint still overlap. */
  lemma TouchingOverlap(a: int, b: int, c: int)
    requires a <= b <= c
    ensures Overlaps(Interval(a, b), Interval(b, c))
    ensures Overlaps(Interval(b, c), Interval(a, b))
  {
  }
}
