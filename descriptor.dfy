/** `Matrix_slice<N>` (Matrix.h): the descriptor that maps an N-tuple of
    subscripts to a flat position, and its subscript operator (Matrix.cpp). */
module Descriptor {

  /** `size_t` is 64 bits wide; arithmetic on it wraps modulo 2^64. */
  const SizeModulus: nat := 0x1_0000_0000_0000_0000

  /** `size_t(-1)`. */
  const SizeMax: nat := SizeModulus - 1

  /** Conversion of a subscript to `size_t`, as `size_t(dims)` does: a
      negative value wraps to a large one. */
  function ToSize(x: int): (r: nat)
    ensures r < SizeModulus
    ensures 0 <= x < SizeModulus ==> r == x
    ensures x < 0 && 0 <= x + SizeModulus ==> r == x + SizeModulus
  {
    x % SizeModulus
  }

  function ToSizes(xs: seq<int>): (r: seq<nat>)
    ensures |r| == |xs|
    ensures forall k :: 0 <= k < |xs| ==> r[k] == ToSize(xs[k])
  {
    seq(|xs|, k requires 0 <= k < |xs| => ToSize(xs[k]))
  }

  /** The fields of `Matrix_slice<N>`; `extents` and `strides` are
      `array<size_t,N>`, so a descriptor of rank N has N of each. */
  datatype MatrixSlice = MatrixSlice(size: nat, start: nat, extents: seq<nat>, strides: seq<nat>)

  predicate HasRank(d: MatrixSlice, n: nat)
  {
    |d.extents| == n && |d.strides| == n
  }

  /** The exact inner product, `Σ xs[k] * ys[k]`, without wrap-around. */
  function Dot(xs: seq<nat>, ys: seq<nat>): nat
    requires |xs| == |ys|
  {
    if |xs| == 0 then 0 else xs[0] * ys[0] + Dot(xs[1..], ys[1..])
  }

  /** `std::inner_product(first1, last1, first2, acc)` over `size_t`: the
      accumulator is updated from left to right, and every product and every
      sum wraps modulo 2^64. */
  function InnerProduct(xs: seq<nat>, ys: seq<nat>, acc: nat): (r: nat)
    requires |xs| == |ys|
    ensures |xs| == 0 ==> r == acc
    ensures |xs| > 0 ==> r < SizeModulus
  {
    if |xs| == 0 then acc
    else InnerProduct(xs[1..], ys[1..], (acc + (xs[0] * ys[0]) % SizeModulus) % SizeModulus)
  }

  /** `Matrix_slice::operator()(dims...)`: the inner product of the
      subscripts (converted to `size_t`) with the strides, starting from 0.
      `start` takes no part in it. The result is the exact sum of products
      reduced modulo 2^64. */
  function Offset(d: MatrixSlice, dims: seq<int>): (r: nat)
    requires |dims| == |d.strides|
    ensures r < SizeModulus
    ensures r == Dot(ToSizes(dims), d.strides) % SizeModulus
  {
    InnerProductWraps(ToSizes(dims), d.strides, 0);
    InnerProduct(ToSizes(dims), d.strides, 0)
  }

  lemma ModPlus(a: nat, b: nat)
    ensures (a % SizeModulus + b) % SizeModulus == (a + b) % SizeModulus
  {
    var q := a / SizeModulus;
    assert a == q * SizeModulus + a % SizeModulus;
    ModAddMultiple(q, a % SizeModulus + b);
  }

  lemma ModAddMultiple(q: nat, x: nat)
    ensures (q * SizeModulus + x) % SizeModulus == x % SizeModulus
  {
    var r := x % SizeModulus;
    var p := x / SizeModulus;
    assert x == p * SizeModulus + r;
    assert q * SizeModulus + x == (q + p) * SizeModulus + r;
  }

  /** Wrapping at every step of the accumulation gives the same result as
      wrapping the exact sum once. */
  lemma {:induction false} InnerProductWraps(xs: seq<nat>, ys: seq<nat>, acc: nat)
    requires |xs| == |ys|
    requires acc < SizeModulus
    ensures InnerProduct(xs, ys, acc) == (acc + Dot(xs, ys)) % SizeModulus
  {
    if |xs| > 0 {
      var p := xs[0] * ys[0];
      var rest := Dot(xs[1..], ys[1..]);
      var next := (acc + p % SizeModulus) % SizeModulus;
      InnerProductWraps(xs[1..], ys[1..], next);
      calc {
        InnerProduct(xs, ys, acc);
        (next + rest) % SizeModulus;
        { ModPlus(acc + p % SizeModulus, rest); }
        (p % SizeModulus + (acc + rest)) % SizeModulus;
        { ModPlus(p, acc + rest); }
        (acc + Dot(xs, ys)) % SizeModulus;
      }
    }
  }

  /** When the exact sum fits in `size_t`, the offset is that exact sum. */
  lemma OffsetExact(d: MatrixSlice, dims: seq<int>)
    requires |dims| == |d.strides|
    requires Dot(ToSizes(dims), d.strides) < SizeModulus
    ensures Offset(d, dims) == Dot(ToSizes(dims), d.strides)
  {
  }

  lemma {:induction false} DotOfZeros(xs: seq<nat>, ys: seq<nat>)
    requires |xs| == |ys|
    requires forall k :: 0 <= k < |xs| ==> xs[k] == 0
    ensures Dot(xs, ys) == 0
  {
    if |xs| > 0 {
      DotOfZeros(xs[1..], ys[1..]);
    }
  }

  /** The all-zero subscript resolves to flat position 0 whatever the
      descriptor's `start`: the offset does not include `start`. */
  lemma OffsetOfOrigin(d: MatrixSlice, dims: seq<int>)
    requires |dims| == |d.strides|
    requires forall k :: 0 <= k < |dims| ==> dims[k] == 0
    ensures Offset(d, dims) == 0
  {
    DotOfZeros(ToSizes(dims), d.strides);
  }
}
