/**
 The iterator reductions the summary is built from, as left folds over one
 iteration order:

 - `max_by_key` / `min_by_key` on the date: the standard library keeps the
   accumulator for a maximum only when it compares Greater than the next
   element, and for a minimum switches to the next element only when the
   accumulator compares Greater;
 - `max_by` / `min_by` with the partial comparator `Compare`, whose failure
   (the panic) aborts the whole reduction.

 An empty iterator yields nothing; a one-element iterator yields its element
 without calling the comparator.
 */
module Reductions {
  import opened Wrappers
  import opened Prices

  /** Why a reduction yields no value: nothing to reduce, or a NaN met the comparator. */
  datatype SummaryError = NoData | Incomparable

  /** Every price in `xs` is a number. */
  predicate AllNum(xs: seq<Price>)
  {
    forall i :: 0 <= i < |xs| ==> xs[i].Num?
  }

  /** The fold of `max_by_key` on the date, from accumulator `acc`. */
  function MaxByKeyFrom<T>(acc: (int, T), rest: seq<(int, T)>): (r: (int, T))
    ensures r == acc || r in rest
    ensures acc.0 <= r.0
    ensures forall i :: 0 <= i < |rest| ==> rest[i].0 <= r.0
    decreases |rest|
  {
    if rest == [] then acc
    else if acc.0 > rest[0].0 then MaxByKeyFrom(acc, rest[1..])
    else MaxByKeyFrom(rest[0], rest[1..])
  }

  /** `max_by_key` on the date: the element with the greatest date, if any. */
  function MaxByKey<T>(xs: seq<(int, T)>): (r: Option<(int, T)>)
    ensures r.None? <==> xs == []
    ensures r.Some? ==> r.value in xs && forall i :: 0 <= i < |xs| ==> xs[i].0 <= r.value.0
  {
    if xs == [] then None else Some(MaxByKeyFrom(xs[0], xs[1..]))
  }

  /** The fold of `min_by_key` on the date, from accumulator `acc`. */
  function MinByKeyFrom<T>(acc: (int, T), rest: seq<(int, T)>): (r: (int, T))
    ensures r == acc || r in rest
    ensures r.0 <= acc.0
    ensures forall i :: 0 <= i < |rest| ==> r.0 <= rest[i].0
    decreases |rest|
  {
    if rest == [] then acc
    else if acc.0 > rest[0].0 then MinByKeyFrom(rest[0], rest[1..])
    else MinByKeyFrom(acc, rest[1..])
  }

  /** `min_by_key` on the date: the element with the least date, if any. */
  function MinByKey<T>(xs: seq<(int, T)>): (r: Option<(int, T)>)
    ensures r.None? <==> xs == []
    ensures r.Some? ==> r.value in xs && forall i :: 0 <= i < |xs| ==> r.value.0 <= xs[i].0
  {
    if xs == [] then None else Some(MinByKeyFrom(xs[0], xs[1..]))
  }

  /**
   The fold of `max_by(f64_ord_panic)` from accumulator `acc`: it succeeds
   exactly when every comparison it makes is defined, and then yields an
   element that is at least `acc` and every element of `rest`.
   */
  function MaxByFrom(acc: Price, rest: seq<Price>): (r: Result<Price, SummaryError>)
    ensures r.Success? <==> rest == [] || (acc.Num? && AllNum(rest))
    ensures r.Failure? ==> r.error == Incomparable
    ensures r.Success? ==> r.value == acc || r.value in rest
    ensures r.Success? && rest == [] ==> r.value == acc
    ensures r.Success? && rest != [] ==> Le(acc, r.value) && forall i :: 0 <= i < |rest| ==> Le(rest[i], r.value)
    decreases |rest|
  {
    if rest == [] then Success(acc)
    else
      match Compare(acc, rest[0])
      case None => Failure(Incomparable)
      case Some(Greater) => MaxByFrom(acc, rest[1..])
      case Some(_) => MaxByFrom(rest[0], rest[1..])
  }

  /**
   `max_by(f64_ord_panic)`: fails with `NoData` on no input, with
   `Incomparable` when two or more prices include a NaN; otherwise yields one
   of the prices that no other price exceeds.
   */
  function MaxBy(xs: seq<Price>): (r: Result<Price, SummaryError>)
    ensures r == Failure(NoData) <==> xs == []
    ensures r == Failure(Incomparable) <==> |xs| >= 2 && !AllNum(xs)
    ensures r.Success? ==> r.value in xs
    ensures |xs| == 1 ==> r == Success(xs[0])
    ensures r.Success? && |xs| >= 2 ==> forall i :: 0 <= i < |xs| ==> Le(xs[i], r.value)
  {
    if xs == [] then Failure(NoData) else MaxByFrom(xs[0], xs[1..])
  }

  /** The fold of `min_by(f64_ord_panic)` from accumulator `acc`. */
  function MinByFrom(acc: Price, rest: seq<Price>): (r: Result<Price, SummaryError>)
    ensures r.Success? <==> rest == [] || (acc.Num? && AllNum(rest))
    ensures r.Failure? ==> r.error == Incomparable
    ensures r.Success? ==> r.value == acc || r.value in rest
    ensures r.Success? && rest == [] ==> r.value == acc
    ensures r.Success? && rest != [] ==> Le(r.value, acc) && forall i :: 0 <= i < |rest| ==> Le(r.value, rest[i])
    decreases |rest|
  {
    if rest == [] then Success(acc)
    else
      match Compare(acc, rest[0])
      case None => Failure(Incomparable)
      case Some(Greater) => MinByFrom(rest[0], rest[1..])
      case Some(_) => MinByFrom(acc, rest[1..])
  }

  /**
   `min_by(f64_ord_panic)`: fails with `NoData` on no input, with
   `Incomparable` when two or more prices include a NaN; otherwise yields one
   of the prices that no other price undercuts.
   */
  function MinBy(xs: seq<Price>): (r: Result<Price, SummaryError>)
    ensures r == Failure(NoData) <==> xs == []
    ensures r == Failure(Incomparable) <==> |xs| >= 2 && !AllNum(xs)
    ensures r.Success? ==> r.value in xs
    ensures |xs| == 1 ==> r == Success(xs[0])
    ensures r.Success? && |xs| >= 2 ==> forall i :: 0 <= i < |xs| ==> Le(r.value, xs[i])
  {
    if xs == [] then Failure(NoData) else MinByFrom(xs[0], xs[1..])
  }
}
