/** The compile-time boolean folds `All` and `Some` of Predicates.h.
    A variadic pack of `bool` arguments is modelled as a sequence. */
module Predicates {

  /** `All()` is true; `All(b, rest...)` is `b && All(rest...)`. With that
      base case `All` is the conjunction of its arguments: it holds iff
      every argument holds. */
  function All(bs: seq<bool>): (r: bool)
    ensures r <==> forall i :: 0 <= i < |bs| ==> bs[i]
  {
    if |bs| == 0 then true
    else
      assert forall i :: 1 <= i < |bs| ==> bs[i] == bs[1..][i - 1];
      bs[0] && All(bs[1..])
  }

  /** `Some()` is true; `Some(b, rest...)` is `b || Some(rest...)`.
      Because the base case is `true`, as the source writes it, and not
      `false`, `Some` holds of every argument list, including one whose
      arguments are all false: it is not a disjunction. */
  function Some(bs: seq<bool>): (r: bool)
    ensures r
  {
    if |bs| == 0 then true else bs[0] || Some(bs[1..])
  }
}
