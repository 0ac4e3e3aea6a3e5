# Dense N-dimensional Matrix — a Dafny model

This project models the core of a generic dense N-dimensional `Matrix`
library that follows the design in chapter 29 of Stroustrup's *The C++
Programming Language*. The model covers:

- the descriptor `Matrix_slice<N>` (size, start, extents, strides) and how it
  turns a subscript tuple into a flat position;
- the one-axis range type `slice`;
- the nested initializer lists of a literal, how their extents are derived
  and checked for jaggedness, and how they are flattened into the element
  vector;
- the bounds check and the two compile-time dispatch predicates that pick
  element access or range access;
- the owning `Matrix<T,N>` with its constructors, subscripting, `apply`, `+=`
  and the free `operator+`;
- the rank-0 scalar wrapper and `Matrix_ref`.

The element type `T` is `int`.

Modules follow the source files:

| module | file | contents |
|---|---|---|
| `Predicates` | `predicates.dfy` | `All` and `Some` of Predicates.h |
| `Descriptor` | `descriptor.dfy` | `Matrix_slice` and its subscript operator, `size_t` wrap-around |
| `MatrixImpl` | `matrix_impl.dfy` | namespace `Matrix_impl` of Matrix_impl.h |
| `Layout` | `layout.dfy` | lemmas tying the flattener to row-major descriptor arithmetic |
| `Matrices` | `matrix.dfy` | class `Matrix`, class `Scalar` (`Matrix<T,0>`), `Matrix_ref`, the free `operator+` |

`Matrix` is a class with the source's two fields, `desc` and `elems`, plus
its rank `order`, a template parameter in the source. Methods that change
the matrix carry `modifies this` clauses. Their `ensures` clauses state the
whole new contents in terms of the old contents. The shape routines of
Matrix_impl.h are methods, as the source writes them:

- `check_non_jagged` is an early-return loop;
- `add_extents` writes through an iterator into an array and advances it;
- `add_list` appends to a vector in a loop.

Each method is proved against a specification function: `NonJagged`,
`FirstPathNonJagged`, `FirstPathExtents` and `Flatten`.

Choices that shape the model:

- **`size_t`.** `size_t` values are `nat`. The 64-bit wrap-around is written
  out where the source computes with `size_t`: in `slice::operator()`, in
  the conversion `size_t(dims)` of a subscript (a negative subscript becomes
  a huge one), and at every step of `std::inner_product`. The lemma
  `InnerProductWraps` shows that the step-by-step wrap equals the exact sum
  reduced once modulo 2^64.
- **Assertions.** The library's run-time assertions become preconditions of
  the `Matrix` operations: non-jaggedness, the element count of a literal,
  equal extents and `check_bounds`. So do the conditions without which the
  source has undefined behaviour:
  - a non-empty list wherever the code reads `begin() + 1` or `*begin()`;
  - a flat position inside `elems` for subscripting;
  - `i < elems.size()` for the rank-1 `row(i)`, `col(i)` and `m[i]`, which
    index `elems[i]`;
  - in `apply(m, f)`, `m += x` and `a + b`, at least as many elements in `m`
    (or `b`) as in this matrix, because the loop at Matrix.cpp:149 advances
    `m`'s iterator in lockstep and stops only at this matrix's end.
- **Failure path of the jaggedness check.** The jaggedness check is itself
  modelled with its failure path. `AddExtents` and `DeriveExtents` return
  `ok == false` exactly when the assertion would fire.
- **Missing bodies.** Parts the source leaves undefined become parameters or take their evident reading, as listed here.
  - The `Matrix_slice(Dims...)` constructor has no body. So the `size`,
    `start` and `strides` that `Matrix(exts...)` gets from it are arguments
    of `FromExtents`.
  - The literal constructor starts from a default-constructed descriptor
    whose `size`, `start` and `strides` are uninitialised. That
    indeterminate descriptor is the argument `d0` of `FromLiteral`.
  - `Matrix_ref` has no iterators in the source. So the conversion from a
    `Matrix_ref` takes, as an argument, the sequence its iterators would
    yield.
  - `Matrix` declares no `begin()`/`end()` members either: Matrix.h:48-49
    only names the `iterator` types. The loop at Matrix.cpp:149 calls them,
    and `ApplyWith` and `AddMatrix` read them as iterators over `elems` in
    storage order.
  - `same_extents` is not defined in the files. It is read as equality of
    the extent sequences.
  - `Matrix_type` is commented out (Predicates.h:44). It is read as "`m` is
    a `Matrix`", so the second argument of `ApplyWith` and `AddMatrix` has
    type `Matrix`.
  - `Value_type` is not defined. With `int` elements it is `int`.

Behaviour kept as the code has it, where it differs from the design the
library describes:

- `Matrix_slice::operator()` starts its inner product at 0 and never adds
  `start` (`OffsetOfOrigin`).
- `add_extents` checks jaggedness only along the first-child path. So
  `{{{1,2},{3,4}},{{5},{6}}}` is accepted with extents (2,2,2) while it
  flattens to 6 elements, not 8 (`FirstPathCheckIsPartial`). A fully
  regular literal is accepted and flattens to the product of its extents
  (`RegularAccepted`, `RegularFlattenLength`).
- `Some()` returns `true` for no arguments. So `Some` holds of every
  argument list (`Some`), and `Requesting_slice` holds of an
  all-integer subscript list as well as `Requesting_element` does
  (`IntegersRequestBoth`). Integer subscripts therefore enable both
  non-const `operator()` templates, `operator()(Args...)` (Matrix.h:90-92)
  and `operator()(const Args&...)` (Matrix.h:98-100). Their conversions rank
  equal and partial ordering cannot order `Args` against `const Args&`, so
  `m(i, j)` is ambiguous as written, and so is the const pair
  (Matrix.h:94-96, 102-104). `Get` and `Set` model the body of the element
  overload (Matrix.cpp:52-59), the routing the library intends.
- `Matrix.cpp:36` calls `derive_extents(init, desc.extents)` with two
  arguments, while the template takes one and returns the array. The model
  stores the derived extents in `desc.extents`.
- `Matrix.cpp:92` and `Matrix.cpp:110` return `&elems[i]` where a
  reference is declared. The model returns element `i`.
- `Matrix_impl.h:124` passes the `std::array` `slice.extents` itself as the
  third argument of `std::equal`, where an iterator is expected. `CheckBounds`
  reads it as `slice.extents.begin()`.
- The shape code calls functions that its point of definition cannot see,
  and whose arguments (raw pointers and `std` types) give argument-dependent
  lookup nothing to find:
  - `check_non_jagged` at Matrix_impl.h:56, declared at :77;
  - the `N == 1` `add_extents` needed at :58, declared at :61;
  - `add_list` at :90, declared at :93;
  - the scalar `add_list` needed at :97, declared at :100.

  The model reads each as a call to the `Matrix_impl` function of that
  name.

Row-major descriptors appear only in the `Layout` lemmas. There the last
stride is 1, each other stride is the next one times the next extent, and
`size` is the product of the extents. Under those hypotheses:

- a subscript that passes `check_bounds` resolves to a position below
  `size` (`RowMajorOffsetInRange`);
- subscript `(i, j)` of an R×C descriptor resolves to `i*C + j`
  (`RowMajorRank2`);
- the flattener puts the scalar at subscript `idx` of a regular literal at
  flat position `Σ idx[k]*strides[k]` (`FlattenAtRowMajor`,
  `LiteralSubscript`).

`Matrices.LiteralClient` shows the contracts used together. It builds
`{{1,2},{3,4}}` over a row-major descriptor and reads back `m(1,0) == 3`.
It then computes `m + 10` and `m += m` and states the resulting elements.
It models no source function, so it has no row in the table.

## Model

| member | source | states |
|---|---|---|
| `Predicates.All` | Predicates.h:21-27 | `All` is `true` on no arguments and `b && All(rest...)` otherwise, and so holds iff every argument holds |
| `Predicates.Some` | Predicates.h:29-35 | `Some` is `true` on no arguments and the disjunction of `b` with `Some(rest...)` otherwise; with that base case it holds of every argument list, all-false ones included |
| `Descriptor.ToSize` | Matrix.cpp:125 | `size_t(dims)` keeps a subscript in [0, 2^64) unchanged and maps a negative one `x` to `x + 2^64` |
| `Descriptor.Offset` | Matrix.cpp:120-127 | the subscript operator needs exactly N subscripts; its result is below 2^64 and equals the exact `Σ size_t(dims[k])*strides[k]` reduced modulo 2^64; `start` is not an input |
| `Descriptor.InnerProduct` | Matrix.cpp:126 | `std::inner_product` over `size_t` returns the initial value on empty ranges and otherwise a value below 2^64, each product and sum being wrapped; its partner is `InnerProductWraps` |
| `Descriptor.InnerProductWraps` | Matrix.cpp:126 | `std::inner_product` over `size_t`, wrapping after every product and sum, equals the exact inner product plus the initial value, reduced modulo 2^64 |
| `Descriptor.OffsetExact` | Matrix.cpp:126 | when the exact inner product fits in `size_t`, the offset is that exact sum |
| `Descriptor.OffsetOfOrigin` | Matrix.cpp:126 | the all-zero subscript resolves to flat position 0 whatever the descriptor's `start` |
| `MatrixImpl.DefaultSlice` | Matrix_impl.h:28 | `slice()` has start `size_t(-1)`, length `size_t(-1)` and stride 1; its partner is `DefaultSliceAt` |
| `MatrixImpl.SliceFrom` | Matrix_impl.h:29 | `slice(s)` has start `s`, length `size_t(-1)` and stride 1; its partner is `SliceFromAt` |
| `MatrixImpl.SliceRange` | Matrix_impl.h:30 | `slice(s, l, n)` has start `s`, length `l` and stride `n`, with `n` 1 when omitted; its partner is `SliceRangeDefaultStride` |
| `MatrixImpl.SliceAt` | Matrix_impl.h:31 | `slice(i)` is below 2^64 and equals `start + i*stride` whenever that fits in `size_t` |
| `MatrixImpl.SliceAtIgnoresLength` | Matrix_impl.h:31 | `slice(i)` does not depend on `length` |
| `MatrixImpl.DefaultSliceAt` | Matrix_impl.h:28 | `slice()` has length `size_t(-1)` and stride 1; with start `size_t(-1)` it maps 0 to `size_t(-1)` and every other `i` to `i - 1` |
| `MatrixImpl.SliceFromAt` | Matrix_impl.h:29 | `slice(s)` has length `size_t(-1)` and stride 1 and maps `i` to `s + i` |
| `MatrixImpl.SliceRangeDefaultStride` | Matrix_impl.h:30 | `slice(s, l)` has stride 1 and maps `i` to `s + i` |
| `MatrixImpl.IsInitializer` | Matrix_impl.h:38-51 | `Matrix_init<T,N>::type`: N levels of nested lists with scalars at level 1; a rank-N initializer has N >= 1 (rank 0 has none), and it is a list of scalars exactly when N == 1 |
| `MatrixImpl.CheckNonJagged` | Matrix_impl.h:77-85 | on a non-empty list of lists, returns true iff every element has the size of the first; a one-element list is accepted |
| `MatrixImpl.AddExtents` | Matrix_impl.h:53-65 | succeeds iff the list at every depth above the scalars on the first-child path is non-jagged; then it writes at `first..first+N` the size of the list reached by d first-child descents at entry d, advances `first` by N, and leaves the other cells alone |
| `MatrixImpl.ChildPath` | Matrix_impl.h:54-59 | for N > 1 the check of a list is the non-jaggedness of the list itself plus the check of its first element only, and its extents are its size followed by its first element's extents |
| `MatrixImpl.DeriveExtents` | Matrix_impl.h:67-74 | returns exactly N extents, entry d being the size of the list reached by d first-child descents, and fails iff some list on that path is jagged |
| `MatrixImpl.AddScalars` | Matrix_impl.h:100-104 | `vec.insert(vec.end(), first, last)` keeps the old contents as a prefix and appends the scalars in order |
| `MatrixImpl.AddLists` | Matrix_impl.h:93-98 | appends the scalars of each list of the range, depth first and left to right, after the untouched old contents |
| `MatrixImpl.InsertFlat` | Matrix_impl.h:87-91 | the new vector is the old one followed by the literal's scalars in depth-first, left-to-right order |
| `MatrixImpl.RequestingElement` | Matrix_impl.h:106-110 | holds iff every argument is convertible to `size_t` |
| `MatrixImpl.RequestingSlice` | Matrix_impl.h:112-117 | holds iff every argument is an integer or a `slice`; the "some slice" conjunct adds nothing |
| `MatrixImpl.IntegersRequestBoth` | Matrix_impl.h:106-117 | an all-integer argument list satisfies both `Requesting_element` and `Requesting_slice` |
| `MatrixImpl.AllLess` | Matrix_impl.h:124 | `std::equal` with `std::less` holds iff every element of the first range is below its partner in the second |
| `MatrixImpl.Indexes` | Matrix_impl.h:123 | `size_t indexes[N] {size_t(dims)...}` has N entries: the subscripts converted to `size_t`, then zeros for the missing ones |
| `MatrixImpl.CheckBounds` | Matrix_impl.h:120-125 | true iff, for every axis k, the k-th subscript converted to `size_t` (0 if absent) is below `extents[k]` |
| `MatrixImpl.NegativeSubscriptCanPass` | Matrix_impl.h:123-124 | against an extent of `size_t(-1)`, the subscript -2 wraps to `size_t(-1) - 1` and passes the bounds check |
| `MatrixImpl.NegativeSubscriptOutOfBounds` | Matrix_impl.h:123-124 | a negative subscript in [-2^63, 0) wraps to a `size_t` of at least 2^63 and so fails the bounds check on an axis whose extent is at most 2^63 |
| `Layout.RegularFlattenLength` | Matrix_impl.h:87-104 | a literal regular at every depth flattens to exactly the product of its extents |
| `Layout.RegularAccepted` | Matrix_impl.h:53-85 | a regular literal without empty lists above its scalars passes the jaggedness check, and the derived extents are its shape |
| `Layout.JaggedLiteralRejected` | Matrix_impl.h:56 | `{{1,2},{3}}` fails the jaggedness assertion |
| `Layout.LiteralShape2x2` | Matrix.cpp:33-40 | `{{1,2},{3,4}}` is accepted with extents (2,2) and flattens to 1, 2, 3, 4 |
| `Layout.FirstPathCheckIsPartial` | Matrix_impl.h:54-59 | `{{{1,2},{3,4}},{{5},{6}}}` passes the check with extents (2,2,2) yet flattens to 6 scalars, not 8 |
| `Layout.RowMajorDotBelow` | Matrix.cpp:120-127 | with row-major strides, every in-bounds subscript lands below the product of the extents |
| `Layout.FlattenAtRowMajor` | Matrix_impl.h:87-104 | the flattener stores the scalar at subscript `idx` of a regular literal at position `Σ idx[k]*strides[k]` of row-major strides |
| `Layout.RowMajorOffsetInRange` | Matrix.cpp:52-59 | for a row-major descriptor, a subscript that passes `check_bounds` resolves without wrap-around to a position below `size` |
| `Layout.LiteralSubscript` | Matrix.cpp:33-40 | subscripting a regular literal's flattened elements through a row-major descriptor of its shape returns the scalar the literal holds at that subscript |
| `Layout.RowMajorRank2` | Matrix.cpp:120-127 | in a row-major descriptor of shape (R, C), subscript (i, j) resolves to `i*C + j` |
| `Matrices.Matrix.Extent` | Matrix.h:80 | `extent(n)` of a rank-N matrix, n < N, is `desc.extents[n]` |
| `Matrices.Matrix.Size` | Matrix.h:81 | `size()` is the number of stored elements, not `desc.size` |
| `Matrices.Matrix.FromExtents` | Matrix.cpp:25-30 | the extents are copied, `size()` equals `desc.size`, every element is value-initialised (0) |
| `Matrices.Matrix.FromLiteral` | Matrix.cpp:33-40 | requires the jaggedness check to pass and the element count to equal `desc.size`; the extents are the first-path sizes and the elements are the literal's scalars in depth-first order |
| `Matrices.Matrix.Copy` | Matrix.h:54 | the copy has the same rank, descriptor and elements |
| `Matrices.Matrix.FromRef` | Matrix.cpp:61-67 | the new matrix has the reference's descriptor and the elements its iteration yields, in order |
| `Matrices.Matrix.AssignRef` | Matrix.cpp:69-78 | the descriptor and the elements are replaced by the reference's |
| `Matrices.Matrix.Get` | Matrix.cpp:52-59 | with N subscripts that pass `check_bounds`, returns the element at flat position `desc(args...)` |
| `Matrices.Matrix.Set` | Matrix.cpp:52-59 | writing through the subscript reference changes exactly the element at `desc(args...)` and leaves the descriptor alone |
| `Matrices.Matrix.Row` | Matrix.cpp:89-93 | requires `i < elems.size()`; `row(i)` of a rank-1 matrix is element `i` |
| `Matrices.Matrix.Col` | Matrix.cpp:107-111 | requires `i < elems.size()`; `col(i)` of a rank-1 matrix is element `i` |
| `Matrices.Matrix.Index` | Matrix.h:106 | requires `i < elems.size()`; `m[i]` is `row(i)`, element `i` |
| `Matrices.Matrix.Apply` | Matrix.cpp:135-141 | every element becomes `f` of its old value; `f` sees each old element once, in storage order; the descriptor and the length do not change |
| `Matrices.Matrix.ApplyWith` | Matrix.cpp:143-153 | requires equal extents and at least as many elements in `m` as in this matrix; element k becomes `f(old this[k], old m[k])`, the pairs visited in lockstep linear order, also when `m` is this matrix (with `f` a pure function of the two values) |
| `Matrices.Matrix.AddScalar` | Matrix.cpp:155-159 | for a `val` that is not an element of this matrix, every element equals its old value plus `val`; length and descriptor unchanged |
| `Matrices.Matrix.AddOwnElement` | Matrix.cpp:155-159 | `m += m.data()[j]`: the lambda rereads element `j` at each step, so elements up to `j` get its old value added (element `j` doubles), and later elements get the doubled value |
| `Matrices.Matrix.AddMatrix` | Matrix.cpp:161-169 | requires equal extents and rank and at least as many elements in `m` as in this matrix; element k equals old element k plus `m`'s element k, also when `m` is this matrix |
| `Matrices.Plus` | Matrix.h:218-224 | a new matrix with `m`'s descriptor and every element of `m` plus `val`; `m` is not modified |
| `Matrices.PlusMatrix` | Matrix.h:226-232 | requires equal extents and rank and at least as many elements in `b` as in `a`; a new matrix with `a`'s descriptor whose element k is `a[k] + b[k]`; neither argument is modified |
| `Matrices.PlusRef` | Matrix.h:234-240 | materialises the reference with its descriptor and adds `n` to each of its elements |
| `Matrices.Scalar.constructor` | Matrix.h:173 | the rank-0 matrix stores the value it is given |
| `Matrices.Scalar.Assign` | Matrix.h:174 | assignment stores the value |
| `Matrices.Scalar.Call` | Matrix.h:176-177 | `operator()()` returns the stored value |
| `Matrices.Scalar.Convert` | Matrix.h:178-179 | the implicit conversion returns the stored value |

## Left out

- main.cpp: a demonstration program. It prints a banner, which is I/O. It also builds `Matrix<double,0> m0 {1}` at main.cpp:20, which `Matrices.Scalar.constructor` covers with an `int` element.
- The commented-out `operator<<` (Matrix.h:243-253): stream formatting, not live code.
- Range subscripting `operator()(slices...)` (Matrix.cpp:42-50) and `do_slice` (Matrix_impl.h:129-136): `do_slice` has no base case and its per-axis contribution is fixed at 0, so there is no result to specify.
- `row(n)` and `column(n)` for N > 1 (Matrix.cpp:80-87, 98-105): `slice_dim` and `cols()` are not part of this model (not defined in the files), and `column` is written with non-ASCII operators.
- The `Matrix_slice` constructors of Matrix.h:150-154: declared without bodies. The `size`, `start` and `strides` that `Matrix(exts...)` would get from them are parameters of `FromExtents`.
- `Matrix_slice() = default` (Matrix.h:148) is defined and leaves every field uninitialised. That indeterminate descriptor is the parameter `d0` of `FromLiteral`.
- `static slice all` (Matrix_impl.h:32): declared, never defined.
- `operator=(Matrix_initializer)`, `operator=(const T&)` and `operator-=` (Matrix.h:71, 123, 133-134): declared without bodies.
- The `const` overloads of subscripting, `row` and `col` (Matrix.h:94-96, 102-104, 109, 111): declared without bodies. `operator[] const` (Matrix.h:107) calls `row(i) const`, which is one of them.
- `data()` and `descriptor()` (Matrix.h:82-85): the raw pointer is an index into `elems` and the descriptor is the field `desc`.
- Type-level machinery: `Enable_if`, `Convertible`, `Same`, `static_assert`, the deleted `initializer_list<U>` overloads and the deleted rank-0 `row`/`col`. Only their effect remains, as the rank `order`, argument kinds and preconditions.
- The defaulted move operations, and `Matrix_ref` aliasing and lifetime through a raw pointer: C++ ownership concerns. `elems` is a value sequence, and a `Matrix_ref`'s pointer is an opaque address.
- Floating-point element types (`double` in main.cpp): the element type is `int`, and `+` on it does not overflow.
- Matrices.Matrix.ApplyWith: `m` is a `Matrix`. A `Matrix_ref` argument is not modelled, because `Matrix_ref` has no iterators. `Matrix`'s own `begin()`/`end()` are undeclared too, and are read as iterators over `elems`. `f` is a pure function of the two old values that gives the new first value. When `m` is this matrix, the source passes `f` two references to the same element. So an `f` that writes its first argument and then reads its second sees the new value, which the model does not capture. For `a += b`, the one caller (`AddMatrix`), the model is exact.
- Matrices.Matrix.FromRef: the elements come from an argument standing for the reference's iteration, because `Matrix_ref::begin`/`end` are not defined.
- Matrices.Matrix.Apply: `f` is a pure function giving the element's new value; side effects of `f` on captured state are not modelled.
- Matrices.Matrix.AddScalar: `val` is a value here, while the source's `const T&` may refer to an element of this matrix. Then later elements get that element's updated value. `AddOwnElement` models that aliased case for `val` being element `j` of this matrix. `Plus` and `PlusRef` are unaffected, since they add into a fresh copy. A `val` aliasing an element of some other matrix does not change during the loop, so `AddScalar` covers it.
- Matrices.Matrix.Get: returns the value read through the reference. Writing through it is `Set`, and the row and column accessors only read.
- Descriptor fields and slice fields are `nat`. Values of 2^64 or more in them are not excluded, because nothing in the core reaches them.
