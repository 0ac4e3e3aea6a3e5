/** How the flattened literal and the descriptor arithmetic fit together
    when the strides are row-major (the last axis contiguous), the layout
    that the `Matrix_slice` constructors of Stroustrup's chapter 29 design
    compute (those constructors have no bodies in Matrix.h, so row-major
    strides appear here as a hypothesis); and what the first-path
    jaggedness check does and does not guarantee about a literal. */
module Layout {
  import opened Descriptor
  import opened MatrixImpl

  /** The product of the extents: the number of elements of that shape. */
  function Product(ext: seq<nat>): nat
  {
    if |ext| == 0 then 1 else ext[0] * Product(ext[1..])
  }

  /** A literal of shape `ext` in which every list at depth `d`, not only
      those on the first-child path, has `ext[d]` elements. */
  predicate Regular(list: Nested, ext: seq<nat>)
    decreases list
  {
    match list
    case Leaf(xs) => |ext| == 1 && |xs| == ext[0]
    case Node(cs) =>
      |ext| > 1 && |cs| == ext[0] && forall c :: c in cs ==> Regular(c, ext[1..])
  }

  /** Row-major strides: the last is 1 and each other is the next one times
      the next extent. */
  predicate RowMajorStrides(ext: seq<nat>, str: seq<nat>)
  {
    |ext| == |str| && |ext| >= 1 && str[|str| - 1] == 1 &&
    forall k :: 0 <= k < |ext| - 1 ==> str[k] == str[k + 1] * ext[k + 1]
  }

  /** A descriptor with row-major strides whose `size` is the product of its
      extents (and, being a `size_t`, below 2^64). */
  predicate RowMajor(d: MatrixSlice)
  {
    RowMajorStrides(d.extents, d.strides) && d.size == Product(d.extents) && d.size < SizeModulus
  }

  /** Every subscript is below the extent of its axis. */
  predicate InBounds(idx: seq<nat>, ext: seq<nat>)
  {
    |idx| == |ext| && forall k :: 0 <= k < |idx| ==> idx[k] < ext[k]
  }

  /** The scalar a literal holds at subscript `idx` (0 where there is none). */
  function ElementAt(list: Nested, idx: seq<nat>): int
    decreases list
  {
    if |idx| == 0 then 0
    else match list
      case Leaf(xs) => if idx[0] < |xs| then xs[idx[0]] else 0
      case Node(cs) => if idx[0] < |cs| then ElementAt(cs[idx[0]], idx[1..]) else 0
  }

  // ---------------------------------------------------------------------
  // Shape of a literal
  // ---------------------------------------------------------------------

  lemma {:induction false} FlattenAllLength(cs: seq<Nested>, p: nat)
    requires forall c :: c in cs ==> |Flatten(c)| == p
    ensures |FlattenAll(cs)| == |cs| * p
  {
    if |cs| > 0 {
      var init := cs[..|cs| - 1];
      assert forall c :: c in init ==> c in cs;
      FlattenAllLength(init, p);
      assert cs[|cs| - 1] in cs;
      MulSucc(|cs| - 1, p);
    }
  }

  lemma MulSucc(n: nat, p: nat)
    ensures (n + 1) * p == n * p + p
  {
  }

  /** A regular literal of shape `ext` flattens to exactly the product of
      its extents elements. */
  lemma {:induction false} RegularFlattenLength(list: Nested, ext: seq<nat>)
    requires Regular(list, ext)
    ensures |Flatten(list)| == Product(ext)
    decreases list
  {
    match list
    case Leaf(xs) =>
    case Node(cs) =>
      forall c | c in cs ensures |Flatten(c)| == Product(ext[1..]) {
        RegularFlattenLength(c, ext[1..]);
      }
      FlattenAllLength(cs, Product(ext[1..]));
  }

  /** A regular literal with no empty list above its scalars passes the
      jaggedness check, and the extents derived from it are its shape. */
  lemma {:induction false} RegularAccepted(list: Nested, ext: seq<nat>)
    requires Regular(list, ext)
    requires forall d :: 0 <= d < |ext| - 1 ==> ext[d] > 0
    ensures |ext| >= 1 && IsInitializer(list, |ext|) && CanDescend(list, |ext| - 1)
    ensures FirstPathNonJagged(list, |ext|)
    ensures FirstPathExtents(list, |ext|) == ext
    decreases list
  {
    match list
    case Leaf(xs) =>
      assert FirstPathExtents(list, 1) == [Length(Descend(list, 0))];
    case Node(cs) =>
      var n := |ext|;
      var tail := ext[1..];
      assert forall d :: 0 <= d < |tail| - 1 ==> tail[d] == ext[d + 1];
      forall c | c in cs
        ensures IsInitializer(c, n - 1) && CanDescend(c, n - 2) && Length(c) == ext[1]
        ensures FirstPathNonJagged(c, n - 1) && FirstPathExtents(c, n - 1) == tail
      {
        RegularAccepted(c, tail);
        match c
        case Leaf(_) =>
        case Node(_) =>
      }
      assert ext[0] > 0;
      assert cs[0] in cs;
      ChildPath(list, n);
      assert NonJagged(list) by {
        forall j | 0 <= j < |cs| ensures Length(cs[j]) == Length(cs[0]) {
          assert cs[j] in cs;
        }
      }
      assert [Length(list)] + tail == ext;
  }

  /** `{{1,2},{3}}` is rejected: its rows differ in size. */
  lemma JaggedLiteralRejected()
    ensures IsInitializer(Node([Leaf([1, 2]), Leaf([3])]), 2)
    ensures CanDescend(Node([Leaf([1, 2]), Leaf([3])]), 1)
    ensures !FirstPathNonJagged(Node([Leaf([1, 2]), Leaf([3])]), 2)
  {
    var x := Node([Leaf([1, 2]), Leaf([3])]);
    assert Length(x.children[1]) != Length(x.children[0]);
    assert !NonJagged(Descend(x, 0));
  }

  /** `{{1,2},{3,4}}` has extents (2,2) and flattens to 1, 2, 3, 4. */
  lemma LiteralShape2x2()
    ensures Regular(Node([Leaf([1, 2]), Leaf([3, 4])]), [2, 2])
    ensures FirstPathNonJagged(Node([Leaf([1, 2]), Leaf([3, 4])]), 2)
    ensures FirstPathExtents(Node([Leaf([1, 2]), Leaf([3, 4])]), 2) == [2, 2]
    ensures Flatten(Node([Leaf([1, 2]), Leaf([3, 4])])) == [1, 2, 3, 4]
  {
    var cs := [Leaf([1, 2]), Leaf([3, 4])];
    assert cs[..1] == [Leaf([1, 2])];
    assert cs[..1][..0] == [];
    assert Regular(Node(cs), [2, 2]) by {
      assert [2, 2][1..] == [2];
    }
    RegularAccepted(Node(cs), [2, 2]);
  }

  /** The check follows the first-child path only: in
      `{{{1,2},{3,4}},{{5},{6}}}` it accepts the literal and records extents
      (2,2,2), yet the second element holds rows of one scalar, so the
      literal flattens to 6 elements instead of 2*2*2 = 8. */
  lemma FirstPathCheckIsPartial()
    ensures IsInitializer(Node([Node([Leaf([1, 2]), Leaf([3, 4])]), Node([Leaf([5]), Leaf([6])])]), 3)
    ensures CanDescend(Node([Node([Leaf([1, 2]), Leaf([3, 4])]), Node([Leaf([5]), Leaf([6])])]), 2)
    ensures FirstPathNonJagged(Node([Node([Leaf([1, 2]), Leaf([3, 4])]), Node([Leaf([5]), Leaf([6])])]), 3)
    ensures FirstPathExtents(Node([Node([Leaf([1, 2]), Leaf([3, 4])]), Node([Leaf([5]), Leaf([6])])]), 3) == [2, 2, 2]
    ensures |Flatten(Node([Node([Leaf([1, 2]), Leaf([3, 4])]), Node([Leaf([5]), Leaf([6])])]))| == 6
    ensures Product([2, 2, 2]) == 8
  {
    var a := Node([Leaf([1, 2]), Leaf([3, 4])]);
    var b := Node([Leaf([5]), Leaf([6])]);
    var x := Node([a, b]);
    assert Descend(x, 1) == a;
    assert Descend(x, 2) == Leaf([1, 2]);
    assert NonJagged(Descend(x, 0));
    assert NonJagged(Descend(x, 1));
    assert FirstPathExtents(x, 3) == [Length(Descend(x, 0)), Length(Descend(x, 1)), Length(Descend(x, 2))];
    assert |Flatten(a)| == 4 by {
      assert a.children[..1] == [Leaf([1, 2])];
      FlattenAllLength(a.children, 2);
    }
    assert |Flatten(b)| == 2 by {
      FlattenAllLength(b.children, 1);
    }
    assert [a, b][..1] == [a];
    assert [a, b][..1][..0] == [];
    assert [2, 2, 2][1..] == [2, 2];
    assert [2, 2][1..] == [2];
  }

  // ---------------------------------------------------------------------
  // Row-major addressing
  // ---------------------------------------------------------------------

  lemma {:induction false} RowMajorFirst(ext: seq<nat>, str: seq<nat>)
    requires RowMajorStrides(ext, str)
    ensures str[0] == Product(ext[1..])
    ensures |ext| > 1 ==> RowMajorStrides(ext[1..], str[1..])
  {
    if |ext| > 1 {
      RowMajorTail(ext, str);
      RowMajorFirst(ext[1..], str[1..]);
      assert ext[1..][1..] == ext[2..];
      assert str[0] == str[1] * ext[1];
      assert Product(ext[1..]) == ext[1] * Product(ext[2..]);
    }
  }

  lemma RowMajorTail(ext: seq<nat>, str: seq<nat>)
    requires RowMajorStrides(ext, str) && |ext| > 1
    ensures RowMajorStrides(ext[1..], str[1..])
  {
    var e, s := ext[1..], str[1..];
    forall k | 0 <= k < |e| - 1 ensures s[k] == s[k + 1] * e[k + 1] {
      assert s[k] == str[k + 1] && s[k + 1] == str[k + 2] && e[k + 1] == ext[k + 2];
    }
  }

  lemma MulBelow(i: nat, j: nat, p: nat, n: nat)
    requires i < n && j < p
    ensures i * p + j < n * p
  {
    assert i * p + j < (i + 1) * p;
    assert (i + 1) * p <= n * p;
  }

  /** With row-major strides, a subscript within the extents lands below the
      product of the extents. */
  lemma {:induction false} RowMajorDotBelow(ext: seq<nat>, str: seq<nat>, idx: seq<nat>)
    requires RowMajorStrides(ext, str)
    requires InBounds(idx, ext)
    ensures Dot(idx, str) < Product(ext)
  {
    RowMajorFirst(ext, str);
    if |ext| == 1 {
      assert Dot(idx, str) == idx[0];
    } else {
      assert InBounds(idx[1..], ext[1..]);
      RowMajorDotBelow(ext[1..], str[1..], idx[1..]);
      MulBelow(idx[0], Dot(idx[1..], str[1..]), Product(ext[1..]), ext[0]);
    }
  }

  lemma {:induction false} FlattenAllAt(cs: seq<Nested>, p: nat, i: nat, j: nat)
    requires forall c :: c in cs ==> |Flatten(c)| == p
    requires i < |cs| && j < p
    ensures i * p + j < |FlattenAll(cs)|
    ensures FlattenAll(cs)[i * p + j] == Flatten(cs[i])[j]
  {
    var n := |cs|;
    var init := cs[..n - 1];
    assert forall c :: c in init ==> c in cs;
    FlattenAllLength(init, p);
    assert cs[n - 1] in cs;
    if i < n - 1 {
      FlattenAllAt(init, p, i, j);
      MulBelow(i, j, p, n - 1);
    }
    FlattenAllLength(cs, p);
  }

  /** The flattener lays a regular literal out in row-major order: the
      scalar at subscript `idx` sits at flat position `Σ idx[k]*str[k]`. */
  lemma {:induction false} FlattenAtRowMajor(list: Nested, ext: seq<nat>, str: seq<nat>, idx: seq<nat>)
    requires Regular(list, ext)
    requires RowMajorStrides(ext, str)
    requires InBounds(idx, ext)
    ensures Dot(idx, str) < |Flatten(list)|
    ensures Flatten(list)[Dot(idx, str)] == ElementAt(list, idx)
    decreases list
  {
    RowMajorFirst(ext, str);
    match list
    case Leaf(xs) =>
      assert Dot(idx, str) == idx[0];
    case Node(cs) =>
      var c := cs[idx[0]];
      assert c in cs;
      assert InBounds(idx[1..], ext[1..]);
      FlattenAtRowMajor(c, ext[1..], str[1..], idx[1..]);
      forall c' | c' in cs ensures |Flatten(c')| == Product(ext[1..]) {
        RegularFlattenLength(c', ext[1..]);
      }
      FlattenAllAt(cs, Product(ext[1..]), idx[0], Dot(idx[1..], str[1..]));
  }

  /** For a row-major descriptor, a subscript that passes `check_bounds`
      resolves, without wrap-around, to a position below `size`. */
  lemma RowMajorOffsetInRange(d: MatrixSlice, dims: seq<int>)
    requires RowMajor(d)
    requires |dims| == |d.extents|
    requires CheckBounds(d, dims)
    ensures InBounds(ToSizes(dims), d.extents)
    ensures Offset(d, dims) == Dot(ToSizes(dims), d.strides) < d.size
  {
    RowMajorDotBelow(d.extents, d.strides, ToSizes(dims));
    OffsetExact(d, dims);
  }

  /** Reading a regular literal back through a row-major descriptor of its
      shape: a subscript that passes `check_bounds` finds, at its offset in
      the flattened elements, the scalar the literal holds there. */
  lemma LiteralSubscript(init: Nested, d: MatrixSlice, dims: seq<int>)
    requires Regular(init, d.extents) && RowMajor(d)
    requires |dims| == |d.extents| && CheckBounds(d, dims)
    ensures Offset(d, dims) < |Flatten(init)|
    ensures Flatten(init)[Offset(d, dims)] == ElementAt(init, ToSizes(dims))
  {
    RowMajorOffsetInRange(d, dims);
    FlattenAtRowMajor(init, d.extents, d.strides, ToSizes(dims));
  }

  /** In a row-major rank-2 descriptor of shape (R, C), subscript (i, j)
      resolves to `i*C + j`. */
  lemma RowMajorRank2(d: MatrixSlice, i: nat, j: nat)
    requires RowMajor(d) && |d.extents| == 2
    requires i < d.extents[0] && j < d.extents[1]
    ensures Offset(d, [i, j]) == i * d.extents[1] + j
  {
    ProductPair(d.extents);
    MulAtLeast(d.extents[0], d.extents[1]);
    MulAtLeast(d.extents[1], d.extents[0]);
    var idx := ToSizes([i, j]);
    assert idx == [i, j];
    assert InBounds(idx, d.extents);
    RowMajorDotBelow(d.extents, d.strides, idx);
    OffsetExact(d, [i, j]);
    RowMajorStride2(d.extents, d.strides);
    DotPair(i, j, d.strides);
  }

  lemma RowMajorStride2(ext: seq<nat>, str: seq<nat>)
    requires RowMajorStrides(ext, str) && |ext| == 2
    ensures str == [ext[1], 1]
  {
  }

  lemma DotPair(i: nat, j: nat, str: seq<nat>)
    requires |str| == 2
    ensures Dot([i, j], str) == i * str[0] + j * str[1]
  {
    assert [i, j][1..] == [j];
    assert Dot([i, j], str) == i * str[0] + Dot([j], str[1..]);
    assert Dot([j], str[1..]) == j * str[1] + Dot([], str[2..]);
  }

  lemma ProductPair(ext: seq<nat>)
    requires |ext| == 2
    ensures Product(ext) == ext[0] * ext[1]
  {
    assert Product(ext[1..]) == ext[1] * Product(ext[1..][1..]);
    assert ext[1..][1..] == [];
  }

  lemma MulAtLeast(a: nat, b: nat)
    requires b > 0
    ensures a <= a * b
  {
  }
}
