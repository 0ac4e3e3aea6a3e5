/** The owning `Matrix<T,N>` of Matrix.h and Matrix.cpp, its rank-0
    specialisation, `Matrix_ref` and the free `operator+` functions, with
    `int` for the element type `T`. */
module Matrices {
  import opened Descriptor
  import opened MatrixImpl
  import Layout

  /** `Matrix_ref<T,N>`: the descriptor and the pointer it was constructed
      with (`Matrix_ref(s, p) : desc{s}, ptr{p}`); the pointer is an address
      into storage the reference does not own. */
  datatype MatrixRef = MatrixRef(desc: MatrixSlice, ptr: nat)

  /** `Matrix<T,N>` for N >= 1: a descriptor and the vector of elements. */
  class Matrix {
    /** The rank N, a template parameter of the source. */
    const order: nat
    var desc: MatrixSlice
    var elems: seq<int>

    ghost predicate Valid()
      reads this
    {
      order >= 1 && HasRank(desc, order)
    }

    /** `extent(n)`: the number of elements along axis `n`. */
    function Extent(n: nat): (r: nat)
      reads this
      requires Valid() && n < order
      ensures r == desc.extents[n]
    {
      desc.extents[n]
    }

    /** `size()`: the number of stored elements, `elems.size()`. */
    function Size(): (r: nat)
      reads this
      ensures r == |elems|
    {
      |elems|
    }

    /** `Matrix(exts...)`: `desc{exts...}` copies the extents into the
        descriptor, and `elems(desc.size)` allocates `desc.size`
        value-initialised elements. The `Matrix_slice(Dims...)` constructor
        that fills the rest of the descriptor has no body in the source, so
        the `size`, `start` and `strides` it produces are parameters here. */
    constructor FromExtents(exts: seq<nat>, size: nat, start: nat, strides: seq<nat>)
      requires |exts| >= 1 && |strides| == |exts|
      ensures Valid() && order == |exts|
      ensures desc == MatrixSlice(size, start, exts, strides)
      ensures forall k :: 0 <= k < order ==> Extent(k) == exts[k]
      ensures Size() == desc.size
      ensures forall k :: 0 <= k < Size() ==> elems[k] == 0
    {
      order := |exts|;
      desc := MatrixSlice(size, start, exts, strides);
      elems := seq(size, _ => 0);
    }

    /** `Matrix(Matrix_initializer<T,N> init)`: derives the extents from the
        literal, flattens the literal into `elems`, and asserts that the
        number of elements equals `desc.size`. `desc` is default-constructed,
        which leaves its `size`, `start` and `strides` uninitialised; `d0` is
        that indeterminate descriptor. Both assertions (the one inside
        `add_extents` and the element count) are preconditions. */
    constructor FromLiteral(n: nat, init: Nested, d0: MatrixSlice)
      requires n >= 1 && IsInitializer(init, n) && CanDescend(init, n - 1)
      requires HasRank(d0, n)
      requires FirstPathNonJagged(init, n)
      requires |Flatten(init)| == d0.size
      ensures Valid() && order == n
      ensures desc == d0.(extents := FirstPathExtents(init, n))
      ensures elems == Flatten(init)
      ensures Size() == desc.size
    {
      order := n;
      var ok, ext := DeriveExtents(n, init);
      assert ext == FirstPathExtents(init, n);
      desc := d0.(extents := ext);
      var flat := InsertFlat(init, []);
      elems := flat;
    }

    /** The defaulted copy constructor, `Matrix(Matrix const&)`. */
    constructor Copy(m: Matrix)
      requires m.Valid()
      ensures Valid() && order == m.order
      ensures desc == m.desc && elems == m.elems
    {
      order := m.order;
      desc := m.desc;
      elems := m.elems;
    }

    /** `Matrix(const Matrix_ref<U,N>& x) : desc{x.desc}, elems{x.begin(), x.end()}`.
        `Matrix_ref`'s iterators are not part of the source, so `items` is
        the sequence they yield. */
    constructor FromRef(n: nat, x: MatrixRef, items: seq<int>)
      requires n >= 1 && HasRank(x.desc, n)
      ensures Valid() && order == n
      ensures desc == x.desc && elems == items
    {
      order := n;
      desc := x.desc;
      elems := items;
    }

    /** `operator=(const Matrix_ref<U,N>& x)`: `desc = x.desc` and
        `elems.assign(x.begin(), x.end())`. */
    method AssignRef(x: MatrixRef, items: seq<int>)
      requires Valid() && HasRank(x.desc, order)
      modifies this
      ensures Valid()
      ensures desc == x.desc && elems == items
    {
      desc := x.desc;
      elems := items;
    }

    /** `operator()(args...)` with integer subscripts, read through the
        returned reference: asserts `check_bounds(desc, args...)` and returns
        the element at `data() + desc(args...)`. The static assertion of
        `Matrix_slice::operator()` demands exactly N subscripts; the pointer
        must stay inside `elems`. */
    method Get(dims: seq<int>) returns (x: int)
      requires Valid()
      requires |dims| == order
      requires CheckBounds(desc, dims)
      requires Offset(desc, dims) < |elems|
      ensures x == elems[Offset(desc, dims)]
    {
      x := elems[Offset(desc, dims)];
    }

    /** Writing `v` through the reference `operator()(args...)` returns:
        that one element changes, and nothing else. */
    method Set(dims: seq<int>, v: int)
      requires Valid()
      requires |dims| == order
      requires CheckBounds(desc, dims)
      requires Offset(desc, dims) < |elems|
      modifies this
      ensures Valid() && desc == old(desc)
      ensures elems == old(elems)[Offset(desc, dims) := v]
    {
      elems := elems[Offset(desc, dims) := v];
    }

    /** `row(i)` of a rank-1 matrix: element `i`. */
    method Row(i: nat) returns (x: int)
      requires Valid() && order == 1
      requires i < |elems|
      ensures x == elems[i]
    {
      x := elems[i];
    }

    /** `col(i)` of a rank-1 matrix: element `i`, as for `row`. */
    method Col(i: nat) returns (x: int)
      requires Valid() && order == 1
      requires i < |elems|
      ensures x == elems[i]
    {
      x := elems[i];
    }

    /** `operator[](i)`, which is `row(i)`. */
    method Index(i: nat) returns (x: int)
      requires Valid() && order == 1
      requires i < |elems|
      ensures x == elems[i]
    {
      x := Row(i);
    }

    /** `apply(f)`: `for (auto& x : elems) f(x)`. `f(x)` leaves `f(x)` in
        `x`; `visited` lists the values `f` is called with, in call order:
        each element once, in storage order. */
    method Apply(f: int -> int) returns (ghost visited: seq<int>)
      requires Valid()
      modifies this
      ensures Valid() && desc == old(desc)
      ensures |elems| == |old(elems)|
      ensures forall k :: 0 <= k < |elems| ==> elems[k] == f(old(elems)[k])
      ensures visited == old(elems)
    {
      visited := [];
      var k := 0;
      while k < |elems|
        invariant 0 <= k <= |elems| == |old(elems)|
        invariant desc == old(desc)
        invariant forall i :: 0 <= i < k ==> elems[i] == f(old(elems)[i])
        invariant forall i :: k <= i < |elems| ==> elems[i] == old(elems)[i]
        invariant visited == old(elems)[..k]
      {
        visited := visited + [elems[k]];
        elems := elems[k := f(elems[k])];
        k := k + 1;
      }
    }

    /** `apply(m, f)`: asserts that `m` has the same extents, then calls
        `f(*i, *j)` for the elements of `this` and `m` in lockstep, in
        storage order; `f(a, b)` leaves `f(a, b)` in `a`. `m`'s iterator
        must not run past its end. `m` may be this matrix itself. */
    method ApplyWith(m: Matrix, f: (int, int) -> int) returns (ghost visited: seq<(int, int)>)
      requires Valid() && m.Valid()
      requires m.desc.extents == desc.extents
      requires |elems| <= |m.elems|
      modifies this
      ensures Valid() && desc == old(desc)
      ensures |elems| == |old(elems)|
      ensures forall k :: 0 <= k < |elems| ==> elems[k] == f(old(elems)[k], old(m.elems)[k])
      ensures |visited| == |elems|
      ensures forall k :: 0 <= k < |visited| ==> visited[k] == (old(elems)[k], old(m.elems)[k])
    {
      visited := [];
      var k := 0;
      while k < |elems|
        invariant 0 <= k <= |elems| == |old(elems)|
        invariant desc == old(desc)
        invariant |m.elems| == |old(m.elems)|
        invariant forall i :: 0 <= i < k ==> elems[i] == f(old(elems)[i], old(m.elems)[i])
        invariant forall i :: k <= i < |elems| ==> elems[i] == old(elems)[i]
        invariant forall i :: k <= i < |m.elems| ==> m.elems[i] == old(m.elems)[i]
        invariant |visited| == k
        invariant forall i :: 0 <= i < k ==> visited[i] == (old(elems)[i], old(m.elems)[i])
      {
        var a, b := elems[k], m.elems[k];
        visited := visited + [(a, b)];
        elems := elems[k := f(a, b)];
        k := k + 1;
      }
    }

    /** `operator+=(const T& val)`: `apply([&](T& a) { a += val; })`. */
    method AddScalar(val: int)
      requires Valid()
      modifies this
      ensures Valid() && desc == old(desc)
      ensures |elems| == |old(elems)|
      ensures forall k :: 0 <= k < |elems| ==> elems[k] == old(elems)[k] + val
    {
      ghost var visited := Apply(a => a + val);
    }

    /** `operator+=(const T& val)` when `val` refers to element `j` of this
        matrix, as in `m += m.data()[j]`. The lambda captures `val` by
        reference, so every step rereads element `j`: the elements before
        and at `j` get its old value added, which doubles element `j`, and
        the elements after `j` get the doubled value. */
    method AddOwnElement(j: nat)
      requires Valid() && j < |elems|
      modifies this
      ensures Valid() && desc == old(desc)
      ensures |elems| == |old(elems)|
      ensures forall k :: 0 <= k <= j ==> elems[k] == old(elems)[k] + old(elems)[j]
      ensures forall k :: j < k < |elems| ==> elems[k] == old(elems)[k] + 2 * old(elems)[j]
    {
      var k := 0;
      while k < |elems|
        invariant 0 <= k <= |elems| == |old(elems)|
        invariant desc == old(desc)
        invariant forall i :: 0 <= i < k && i <= j ==> elems[i] == old(elems)[i] + old(elems)[j]
        invariant forall i :: j < i < k ==> elems[i] == old(elems)[i] + 2 * old(elems)[j]
        invariant forall i :: k <= i < |elems| ==> elems[i] == old(elems)[i]
      {
        elems := elems[k := elems[k] + elems[j]];
        k := k + 1;
      }
    }

    /** `operator+=(const M& m)`: asserts the same extents, then
        `apply(m, [](T& a, Value_type<M>& b) { a += b; })`. */
    method AddMatrix(m: Matrix)
      requires Valid() && m.Valid() && m.order == order
      requires m.desc.extents == desc.extents
      requires |elems| <= |m.elems|
      modifies this
      ensures Valid() && desc == old(desc)
      ensures |elems| == |old(elems)|
      ensures forall k :: 0 <= k < |elems| ==> elems[k] == old(elems)[k] + old(m.elems)[k]
    {
      ghost var visited := ApplyWith(m, (a, b) => a + b);
    }
  }

  /** `operator+(const Matrix<T,N>& m, const T& val)`: a copy of `m` with
      `val` added to every element; `m` is left alone. */
  method Plus(m: Matrix, val: int) returns (res: Matrix)
    requires m.Valid()
    ensures fresh(res) && res.Valid() && res.order == m.order
    ensures res.desc == m.desc && |res.elems| == |m.elems|
    ensures forall k :: 0 <= k < |m.elems| ==> res.elems[k] == m.elems[k] + val
    ensures m.elems == old(m.elems) && m.desc == old(m.desc)
  {
    res := new Matrix.Copy(m);
    res.AddScalar(val);
  }

  /** `operator+(const Matrix<T,N>& a, const Matrix<T,N>& b)`: the
      elementwise sum, built in a copy of `a`; neither argument changes. */
  method PlusMatrix(a: Matrix, b: Matrix) returns (res: Matrix)
    requires a.Valid() && b.Valid() && a.order == b.order
    requires a.desc.extents == b.desc.extents
    requires |a.elems| <= |b.elems|
    ensures fresh(res) && res.Valid() && res.order == a.order
    ensures res.desc == a.desc && |res.elems| == |a.elems|
    ensures forall k :: 0 <= k < |a.elems| ==> res.elems[k] == a.elems[k] + b.elems[k]
    ensures a.elems == old(a.elems) && a.desc == old(a.desc)
    ensures b.elems == old(b.elems) && b.desc == old(b.desc)
  {
    res := new Matrix.Copy(a);
    res.AddMatrix(b);
  }

  /** `operator+(const Matrix_ref<T,N>& x, const T& n)`: materialises `x`
      (whose iteration yields `items`) and adds `n` to every element. */
  method PlusRef(rank: nat, x: MatrixRef, items: seq<int>, n: int) returns (res: Matrix)
    requires rank >= 1 && HasRank(x.desc, rank)
    ensures fresh(res) && res.Valid() && res.order == rank
    ensures res.desc == x.desc && |res.elems| == |items|
    ensures forall k :: 0 <= k < |items| ==> res.elems[k] == items[k] + n
  {
    res := new Matrix.FromRef(rank, x, items);
    res.AddScalar(n);
  }

  /** `Matrix<T,0>`: a single scalar, no descriptor and no subscripting. */
  class Scalar {
    var elem: int

    /** `Matrix(const T& x) : elem(x)`. */
    constructor (x: int)
      ensures elem == x
    {
      elem := x;
    }

    /** `operator=(const T& value)`: stores `value`. */
    method Assign(value: int)
      modifies this
      ensures elem == value
    {
      elem := value;
    }

    /** `operator()()`: the stored value. */
    method Call() returns (x: int)
      ensures x == elem
    {
      x := elem;
    }

    /** The implicit conversion `operator T&()`: the stored value. */
    method Convert() returns (x: int)
      ensures x == elem
    {
      x := elem;
    }
  }

  /** A client of the contracts above: `{{1,2},{3,4}}` read back through a
      row-major descriptor, then `m + 10`, `m += m` and `m += m.data()[0]`. */
  method LiteralClient()
  {
    var init := Node([Leaf([1, 2]), Leaf([3, 4])]);
    Layout.LiteralShape2x2();
    Layout.RegularAccepted(init, [2, 2]);
    var m := new Matrix.FromLiteral(2, init, MatrixSlice(4, 0, [0, 0], [2, 1]));
    assert m.desc == MatrixSlice(4, 0, [2, 2], [2, 1]);
    Layout.RowMajorRank2(m.desc, 1, 0);
    assert CheckBounds(m.desc, [1, 0]);
    var x := m.Get([1, 0]);
    assert x == 3;
    var p := Plus(m, 10);
    assert p.elems == [11, 12, 13, 14];
    m.AddMatrix(m);
    assert m.elems == [2, 4, 6, 8];
    m.AddOwnElement(0);
    assert m.elems == [4, 8, 10, 12];
  }
}
