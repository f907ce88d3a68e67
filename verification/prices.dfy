/**
 Prices and the partial three-way comparison `f64_ord_panic`.

 A price is a 64-bit float in the source. Prices only flow through comparisons,
 so a real number plus one "not a number" marker is enough. IEEE rounding and
 infinities are not modelled, and +0.0 and -0.0 are one price: the
 comparator calls them Equal, but the source can still print either sign.
 */
module Prices {
  import opened Wrappers

  /** A price: an ordinary number, or the incomparable NaN value. */
  datatype Price = Num(r: real) | NaN

  /** The result of a three-way comparison. */
  datatype Ordering = Less | Equal | Greater

  /** The ordering seen from the other operand. */
  function Flip(o: Ordering): Ordering
  {
    match o
    case Less => Greater
    case Equal => Equal
    case Greater => Less
  }

  /** IEEE `a > b`: false whenever either operand is NaN. */
  predicate Gt(a: Price, b: Price)
  {
    a.Num? && b.Num? && a.r > b.r
  }

  /** IEEE `a < b`: false whenever either operand is NaN. */
  predicate Lt(a: Price, b: Price)
  {
    a.Num? && b.Num? && a.r < b.r
  }

  /** IEEE `a == b`: false whenever either operand is NaN, NaN included. */
  predicate FloatEq(a: Price, b: Price)
  {
    a.Num? && b.Num? && a.r == b.r
  }

  /** The order the reductions promise: both prices are numbers and `a <= b`. */
  predicate Le(a: Price, b: Price)
  {
    a.Num? && b.Num? && a.r <= b.r
  }

  /**
   The comparator `f64_ord_panic`: tries `>`, then `<`, then `==`, and panics
   when none holds. The panic is modelled as `None`.
   */
  function Compare(a: Price, b: Price): (r: Option<Ordering>)
    ensures r.None? <==> (a.NaN? || b.NaN?)
    ensures r == Some(Greater) <==> (a.Num? && b.Num? && a.r > b.r)
    ensures r == Some(Less) <==> (a.Num? && b.Num? && a.r < b.r)
    ensures r == Some(Equal) <==> a == b && a.Num?
  {
    if Gt(a, b) then Some(Greater)
    else if Lt(a, b) then Some(Less)
    else if FloatEq(a, b) then Some(Equal)
    else None
  }

  /** Comparing in the other order gives the flipped answer, or fails alike. */
  lemma CompareFlip(a: Price, b: Price)
    ensures Compare(b, a) == (if Compare(a, b).None? then None else Some(Flip(Compare(a, b).value)))
  {
  }

  /** On numbers the comparator is total and transitive: a total order. */
  lemma CompareTransitive(a: Price, b: Price, c: Price)
    requires Compare(a, b).Some? && Compare(a, b).value != Greater
    requires Compare(b, c).Some? && Compare(b, c).value != Greater
    ensures Compare(a, c).Some? && Compare(a, c).value != Greater
  {
  }
}
