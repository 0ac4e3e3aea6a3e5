/** `namespace Matrix_impl` (Matrix_impl.h): the one-axis range `slice`, the
    nested initializer lists and the routines that read their shape and
    flatten them, the bounds check and the subscript-dispatch predicates. */
module MatrixImpl {
  import opened Predicates
  import opened Descriptor

  // ---------------------------------------------------------------------
  // slice
  // ---------------------------------------------------------------------

  /** `struct slice`: first index, number of indices, distance between them. */
  datatype Slice = Slice(start: nat, length: nat, stride: nat)

  /** `slice()`: every field but `stride` is `size_t(-1)`. */
  function DefaultSlice(): (r: Slice)
    ensures r.start == SizeMax && r.length == SizeMax && r.stride == 1
  {
    Slice(SizeMax, SizeMax, 1)
  }

  /** `explicit slice(size_t s)`. */
  function SliceFrom(s: nat): (r: Slice)
    ensures r.start == s && r.length == SizeMax && r.stride == 1
  {
    Slice(s, SizeMax, 1)
  }

  /** `slice(size_t s, size_t l, size_t n = 1)`. */
  function SliceRange(s: nat, l: nat, n: nat := 1): (r: Slice)
    ensures r.start == s && r.length == l && r.stride == n
  {
    Slice(s, l, n)
  }

  /** `slice::operator()(size_t i)`: `start + i*stride` in `size_t`. */
  function SliceAt(s: Slice, i: nat): (r: nat)
    ensures r < SizeModulus
    ensures s.start + i * s.stride < SizeModulus ==> r == s.start + i * s.stride
  {
    (s.start + (i * s.stride) % SizeModulus) % SizeModulus
  }

  /** The length of a slice takes no part in `operator()`. */
  lemma SliceAtIgnoresLength(s: Slice, l: nat, i: nat)
    ensures SliceAt(s.(length := l), i) == SliceAt(s, i)
  {
  }

  /** The default slice has length `size_t(-1)` and stride 1; its `start`
      is `size_t(-1)`, so `operator()` wraps around: 0 maps to `size_t(-1)`
      and every other `i` maps to `i - 1`. */
  lemma DefaultSliceAt(i: nat)
    requires i < SizeModulus
    ensures DefaultSlice().length == SizeMax && DefaultSlice().stride == 1
    ensures SliceAt(DefaultSlice(), i) == if i == 0 then SizeMax else i - 1
  {
    if i > 0 {
      assert SizeMax + i == SizeModulus + (i - 1);
      ModAddMultiple(1, i - 1);
    }
  }

  /** `slice(s)` has length `size_t(-1)` and stride 1, so it maps `i` to
      `s + i` as long as that fits in `size_t`. */
  lemma SliceFromAt(s: nat, i: nat)
    requires s + i < SizeModulus
    ensures SliceFrom(s).length == SizeMax && SliceFrom(s).stride == 1
    ensures SliceAt(SliceFrom(s), i) == s + i
  {
  }

  /** The three-argument constructor defaults the stride to 1. */
  lemma SliceRangeDefaultStride(s: nat, l: nat, i: nat)
    requires s + i < SizeModulus
    ensures SliceRange(s, l) == Slice(s, l, 1)
    ensures SliceAt(SliceRange(s, l), i) == s + i
  {
  }

  // ---------------------------------------------------------------------
  // Nested initializer lists
  // ---------------------------------------------------------------------

  /** An `initializer_list` literal: a list of scalars, or a list of lists. */
  datatype Nested = Leaf(items: seq<int>) | Node(children: seq<Nested>)

  /** `list.size()`. */
  function Length(list: Nested): nat
  {
    match list
    case Leaf(xs) => |xs|
    case Node(cs) => |cs|
  }

  /** `Matrix_init<T,N>::type`: N nested levels of lists with scalars at
      level 1. `Matrix_init<T,0>` is left undefined, so rank 0 has none,
      and a list of scalars is exactly a rank-1 initializer. */
  predicate IsInitializer(list: Nested, n: nat): (r: bool)
    ensures r ==> n >= 1
    ensures r ==> (list.Leaf? <==> n == 1)
  {
    match list
    case Leaf(_) => n == 1
    case Node(cs) => n > 1 && forall c :: c in cs ==> IsInitializer(c, n - 1)
  }

  /** The list reached by descending `d` times into first children (the
      descent stops early at a list without a first element of list type). */
  function Descend(list: Nested, d: nat): Nested
  {
    if d == 0 || list.Leaf? || |list.children| == 0 then list
    else Descend(list.children[0], d - 1)
  }

  /** Descending `d` times into first children meets no empty list of lists. */
  predicate CanDescend(list: Nested, d: nat)
  {
    d == 0 || (list.Node? && |list.children| > 0 && CanDescend(list.children[0], d - 1))
  }

  // ---------------------------------------------------------------------
  // check_non_jagged, add_extents, derive_extents
  // ---------------------------------------------------------------------

  /** A list of lists every element of which has the size of the first one. */
  predicate NonJagged(list: Nested)
  {
    list.Node? &&
    forall j :: 0 <= j < |list.children| ==> Length(list.children[j]) == Length(list.children[0])
  }

  /** The check `add_extents` performs: the list at every depth above the
      scalars, on the first-child path, is non-jagged. The siblings of the
      lists on that path are not looked into. */
  predicate FirstPathNonJagged(list: Nested, n: nat)
  {
    forall d :: 0 <= d < n - 1 ==> NonJagged(Descend(list, d))
  }

  /** The extents `derive_extents` records: entry `d` is the size of the
      list reached by descending `d` times into first children. */
  function FirstPathExtents(list: Nested, n: nat): (ext: seq<nat>)
    ensures |ext| == n
  {
    seq(n, d requires 0 <= d < n => Length(Descend(list, d)))
  }

  /** `check_non_jagged(list)`: compares the size of every element with the
      size of the first, returning false at the first difference. The
      source starts from `begin() + 1`, which is past the end of an empty
      list, so the list must not be empty. */
  method CheckNonJagged(list: Nested) returns (ok: bool)
    requires list.Node? && |list.children| > 0
    ensures ok <==> NonJagged(list)
  {
    var cs := list.children;
    var j := 1;
    while j != |cs|
      invariant 1 <= j <= |cs|
      invariant forall k :: 0 <= k < j ==> Length(cs[k]) == Length(cs[0])
    {
      if Length(cs[0]) != Length(cs[j]) {
        return false;
      }
      j := j + 1;
    }
    return true;
  }

  /** `add_extents<N>(first, list)`: for N > 1 asserts that `list` is
      non-jagged, writes its size at `first`, advances `first` and recurses
      into the first element; for N == 1 writes the size and advances.
      `ok` is false when an assertion fails: the program stops there, and
      the cells from the failing one on are then unspecified. */
  method AddExtents(n: nat, a: array<nat>, first: nat, list: Nested) returns (next: nat, ok: bool)
    requires n >= 1 && IsInitializer(list, n)
    requires CanDescend(list, n - 1)
    requires first + n <= a.Length
    modifies a
    ensures ok <==> FirstPathNonJagged(list, n)
    ensures ok ==> next == first + n && a[first..first + n] == FirstPathExtents(list, n)
    ensures forall k :: 0 <= k < first ==> a[k] == old(a[k])
    ensures forall k :: first + n <= k < a.Length ==> a[k] == old(a[k])
    decreases n
  {
    if n == 1 {
      a[first] := Length(list);
      next, ok := first + 1, true;
      assert a[first..first + n] == [Length(Descend(list, 0))];
      return;
    }
    var checked := CheckNonJagged(list);
    if !checked {
      assert !NonJagged(Descend(list, 0));
      return first, false;
    }
    a[first] := Length(list);
    var child := list.children[0];
    assert child in list.children;
    next, ok := AddExtents(n - 1, a, first + 1, child);
    ChildPath(list, n);
    if ok {
      assert a[first..first + n] == [Length(list)] + a[first + 1..first + n];
    }
  }

  /** The path facts of a list of lists follow from those of its first element. */
  lemma ChildPath(list: Nested, n: nat)
    requires n > 1 && list.Node? && |list.children| > 0
    ensures FirstPathNonJagged(list, n) <==>
      NonJagged(list) && FirstPathNonJagged(list.children[0], n - 1)
    ensures FirstPathExtents(list, n) == [Length(list)] + FirstPathExtents(list.children[0], n - 1)
  {
    var child := list.children[0];
    assert forall d :: 0 <= d ==> Descend(list, d + 1) == Descend(child, d);
    if FirstPathNonJagged(list, n) {
      assert NonJagged(Descend(list, 0));
      forall d | 0 <= d < n - 2 ensures NonJagged(Descend(child, d)) {
        assert NonJagged(Descend(list, d + 1));
      }
    }
    if NonJagged(list) && FirstPathNonJagged(child, n - 1) {
      forall d | 0 <= d < n - 1 ensures NonJagged(Descend(list, d)) {
        if d > 0 {
          assert Descend(list, d) == Descend(child, d - 1);
        }
      }
    }
  }

  /** `derive_extents<N>(list)`: returns the N extents `add_extents` records;
      entry `d` is the size of the list reached by descending `d` times into
      first children. `ok` is false when the non-jaggedness assertion fails. */
  method DeriveExtents(n: nat, list: Nested) returns (ok: bool, extents: seq<nat>)
    requires n >= 1 && IsInitializer(list, n)
    requires CanDescend(list, n - 1)
    ensures ok <==> FirstPathNonJagged(list, n)
    ensures ok ==> |extents| == n
    ensures ok ==> forall d :: 0 <= d < n ==> extents[d] == Length(Descend(list, d))
  {
    var a := new nat[n];
    var next;
    next, ok := AddExtents(n, a, 0, list);
    extents := a[..];
    if ok {
      assert a[..] == a[0..n];
    }
  }

  // ---------------------------------------------------------------------
  // insert_flat and add_list
  // ---------------------------------------------------------------------

  /** The scalars of a nested list, depth first and left to right. */
  function Flatten(list: Nested): seq<int>
    decreases list, 1
  {
    match list
    case Leaf(xs) => xs
    case Node(cs) => FlattenAll(cs)
  }

  /** The scalars of a sequence of nested lists, one after the other. */
  function FlattenAll(cs: seq<Nested>): seq<int>
    decreases cs, 0
  {
    if |cs| == 0 then [] else FlattenAll(cs[..|cs| - 1]) + Flatten(cs[|cs| - 1])
  }

  /** `add_list(first, last, vec)` over scalars: `vec.insert(vec.end(), first, last)`. */
  method AddScalars(xs: seq<int>, vec: seq<int>) returns (r: seq<int>)
    ensures |r| == |vec| + |xs|
    ensures r[..|vec|] == vec
    ensures forall k :: 0 <= k < |xs| ==> r[|vec| + k] == xs[k]
  {
    r := vec + xs;
  }

  /** `add_list(first, last, vec)` over lists: adds the scalars of each list
      in the range, in order. */
  method AddLists(cs: seq<Nested>, vec: seq<int>) returns (r: seq<int>)
    ensures r == vec + FlattenAll(cs)
    decreases cs
  {
    r := vec;
    for i := 0 to |cs|
      invariant r == vec + FlattenAll(cs[..i])
    {
      assert cs[..i + 1][..i] == cs[..i];
      match cs[i]
      case Leaf(xs) =>
        r := AddScalars(xs, r);
      case Node(ds) =>
        r := AddLists(ds, r);
    }
    assert cs[..|cs|] == cs;
  }

  /** `insert_flat(list, vec)`: appends the scalars of `list` to `vec` in
      depth-first, left-to-right order; `vec`'s old contents stay in front. */
  method InsertFlat(list: Nested, vec: seq<int>) returns (r: seq<int>)
    ensures r == vec + Flatten(list)
  {
    match list
    case Leaf(xs) =>
      r := AddScalars(xs, vec);
    case Node(cs) =>
      r := AddLists(cs, vec);
  }

  // ---------------------------------------------------------------------
  // Subscript dispatch and check_bounds
  // ---------------------------------------------------------------------

  /** The kind of one subscript argument: convertible to `size_t`, a
      `slice`, or anything else. */
  datatype ArgKind = IntArg | SliceArg | OtherArg

  /** `Requesting_element<Args...>()`: `All(Convertible<Args, size_t>()...)`. */
  function RequestingElement(args: seq<ArgKind>): (r: bool)
    ensures r <==> forall i :: 0 <= i < |args| ==> args[i] == IntArg
  {
    var convertible := seq(|args|, i requires 0 <= i < |args| => args[i] == IntArg);
    assert forall i :: 0 <= i < |args| ==> (convertible[i] <==> args[i] == IntArg);
    All(convertible)
  }

  /** `Requesting_slice<Args...>()`: every argument is an integer or a
      `slice`, and `Some(Same<Args, slice>()...)`, which always holds. */
  function RequestingSlice(args: seq<ArgKind>): (r: bool)
    ensures r <==> forall i :: 0 <= i < |args| ==> args[i] != OtherArg
  {
    var allowed := seq(|args|, i requires 0 <= i < |args| => args[i] == IntArg || args[i] == SliceArg);
    var isSlice := seq(|args|, i requires 0 <= i < |args| => args[i] == SliceArg);
    assert forall i :: 0 <= i < |args| ==> (allowed[i] <==> args[i] != OtherArg);
    All(allowed) && Some(isSlice)
  }

  /** Since `Some` is always true, an all-integer argument list satisfies
      both dispatch predicates, not only `Requesting_element`. */
  lemma IntegersRequestBoth(args: seq<ArgKind>)
    requires forall i :: 0 <= i < |args| ==> args[i] == IntArg
    ensures RequestingElement(args) && RequestingSlice(args)
  {
  }

  /** `std::equal(first1, last1, first2, std::less<size_t>{})`: walks the
      two ranges in step and holds iff every element of the first is below
      its partner in the second. */
  function AllLess(xs: seq<nat>, ys: seq<nat>): (r: bool)
    requires |xs| == |ys|
    ensures r <==> forall k :: 0 <= k < |xs| ==> xs[k] < ys[k]
  {
    if |xs| == 0 then true
    else
      assert forall k :: 1 <= k < |xs| ==> xs[k] == xs[1..][k - 1] && ys[k] == ys[1..][k - 1];
      xs[0] < ys[0] && AllLess(xs[1..], ys[1..])
  }

  /** `size_t indexes[N] {size_t(dims)...}`: the subscripts converted to
      `size_t`, and the remaining entries zero. */
  function Indexes(dims: seq<int>, n: nat): (r: seq<nat>)
    requires |dims| <= n
    ensures |r| == n
    ensures forall k :: 0 <= k < n ==> r[k] == if k < |dims| then ToSize(dims[k]) else 0
  {
    ToSizes(dims) + seq(n - |dims|, _ => 0)
  }

  /** `check_bounds(slice, dims...)`: each subscript, converted to `size_t`,
      is below the extent of its axis; axes without a subscript count as
      index 0, so they need a positive extent. More than N subscripts do
      not compile. */
  function CheckBounds(d: MatrixSlice, dims: seq<int>): (r: bool)
    requires |dims| <= |d.extents|
    ensures r <==> forall k :: 0 <= k < |d.extents| ==>
      (if k < |dims| then ToSize(dims[k]) else 0) < d.extents[k]
  {
    var indexes := Indexes(dims, |d.extents|);
    AllLess(indexes, d.extents)
  }

  /** A negative subscript wraps to a huge `size_t` and fails the check, as
      long as the extent is below 2^63. */
  lemma NegativeSubscriptOutOfBounds(d: MatrixSlice, dims: seq<int>, k: nat)
    requires |dims| <= |d.extents| && k < |dims|
    requires dims[k] < 0 && 0 <= dims[k] + SizeModulus / 2
    requires d.extents[k] <= SizeModulus / 2
    ensures !CheckBounds(d, dims)
  {
  }

  /** Against an extent of 2^63 or more the wrap-around can let a negative
      subscript through: -2 becomes `size_t(-1) - 1`, below an extent of
      `size_t(-1)`. */
  lemma NegativeSubscriptCanPass()
    ensures CheckBounds(MatrixSlice(0, 0, [SizeMax], [1]), [-2])
  {
    assert ToSize(-2) == SizeMax - 1;
  }
}
