/**
  The cost-accounting matrix value of matrix.cpp.

  A `Matrix` holds no entries: only its shape (`nrow` x `ncol`) and the number
  of scalar additions and multiplications that were charged to produce it.
  Values are immutable; `Add` and `Mul` build a new value and never touch
  their operands. A dimension mismatch, which the source reports by throwing
  `std::logic_error`, is the `Err` case of `Result`.

  Integers are mathematical: overflow of the source's signed `int`, which is
  undefined behaviour in C++, is not modelled.
 */
module Matrices {

  /** The only failure of the combinators; it carries both operands' shapes. */
  datatype Error = DimensionMismatch(lhsRows: int, lhsCols: int, rhsRows: int, rhsCols: int)

  datatype Result<+T> = Ok(value: T) | Err(error: Error)

  /** Shape plus the operation counters accumulated while producing it. */
  datatype Matrix = Matrix(nrow: int, ncol: int, addOps: int, multOps: int)

  /** A fresh operand: the given shape, nothing charged yet. */
  function New(nrow: int, ncol: int): (m: Matrix)
    ensures m.nrow == nrow && m.ncol == ncol
    ensures m.addOps == 0 && m.multOps == 0
  {
    Matrix(nrow, ncol, 0, 0)
  }

  /** Total scalar operations charged so far (`get_flops`). */
  function Flops(m: Matrix): int
  {
    m.addOps + m.multOps
  }

  /** A fresh operand has been charged no flops. */
  lemma NewHasNoFlops(nrow: int, ncol: int)
    ensures Flops(New(nrow, ncol)) == 0
  {
  }

  predicate SameShape(a: Matrix, b: Matrix)
  {
    a.nrow == b.nrow && a.ncol == b.ncol
  }

  /** Elementwise sum: one addition per cell on top of both operands' costs. */
  function Add(a: Matrix, b: Matrix): (r: Result<Matrix>)
    ensures r.Err? <==> a.nrow != b.nrow || a.ncol != b.ncol
    ensures r.Err? ==> r.error == DimensionMismatch(a.nrow, a.ncol, b.nrow, b.ncol)
    ensures r.Ok? ==> SameShape(r.value, a) && SameShape(r.value, b)
    ensures r.Ok? ==> r.value.addOps - a.addOps - b.addOps == a.nrow * a.ncol
    ensures r.Ok? ==> r.value.multOps == a.multOps + b.multOps
  {
    if a.nrow != b.nrow || a.ncol != b.ncol then
      Err(DimensionMismatch(a.nrow, a.ncol, b.nrow, b.ncol))
    else
      Ok(Matrix(a.nrow, a.ncol,
                a.addOps + b.addOps + a.nrow * a.ncol,
                a.multOps + b.multOps))
  }

  /**
    Product `a * b` with the charges exactly as matrix.cpp writes them:
    `a.nrow * a.ncol * (b.ncol - 1)` additions and `a.nrow * a.ncol * b.ncol`
    multiplications (module InnerProduct discusses the addition charge).
   */
  function Mul(a: Matrix, b: Matrix): (r: Result<Matrix>)
    ensures r.Err? <==> a.ncol != b.nrow
    ensures r.Err? ==> r.error == DimensionMismatch(a.nrow, a.ncol, b.nrow, b.ncol)
    ensures r.Ok? ==> r.value.nrow == a.nrow && r.value.ncol == b.ncol
    ensures r.Ok? ==> r.value.addOps - a.addOps - b.addOps == a.nrow * a.ncol * (b.ncol - 1)
    ensures r.Ok? ==> r.value.multOps - a.multOps - b.multOps == a.nrow * b.nrow * b.ncol
  {
    if a.ncol != b.nrow then
      Err(DimensionMismatch(a.nrow, a.ncol, b.nrow, b.ncol))
    else
      Ok(Matrix(a.nrow, b.ncol,
                a.addOps + b.addOps + a.nrow * a.ncol * (b.ncol - 1),
                a.multOps + b.multOps + a.nrow * a.ncol * b.ncol))
  }

  /** `+` adds exactly one flop per cell to the operands' combined flops. */
  lemma FlopsOfAdd(a: Matrix, b: Matrix)
    requires SameShape(a, b)
    ensures Add(a, b).Ok?
    ensures Flops(Add(a, b).value) == Flops(a) + Flops(b) + a.nrow * a.ncol
  {
  }

  /**
    `*` adds `nrow * ncol * (2 * other.ncol - 1)` flops to the operands'
    combined flops: the two counters' charges taken together.
   */
  lemma FlopsOfMul(a: Matrix, b: Matrix)
    requires a.ncol == b.nrow
    ensures Mul(a, b).Ok?
    ensures Flops(Mul(a, b).value) == Flops(a) + Flops(b) + a.nrow * a.ncol * (2 * b.ncol - 1)
  {
  }

  /** Addition is commutative, counters included. */
  lemma AddCommutes(a: Matrix, b: Matrix)
    ensures Add(a, b).Ok? <==> Add(b, a).Ok?
    ensures Add(a, b).Ok? ==> Add(a, b).value == Add(b, a).value
  {
  }

  /**
    With every dimension at least one, neither combinator lowers a counter:
    each counter of the result is at least the sum of the operands' counters.
   */
  lemma CountersNeverDecrease(a: Matrix, b: Matrix)
    requires a.nrow >= 1 && a.ncol >= 1 && b.nrow >= 1 && b.ncol >= 1
    ensures Add(a, b).Ok? ==>
      Add(a, b).value.addOps > a.addOps + b.addOps &&
      Add(a, b).value.multOps == a.multOps + b.multOps
    ensures Mul(a, b).Ok? ==>
      Mul(a, b).value.addOps >= a.addOps + b.addOps &&
      Mul(a, b).value.multOps > a.multOps + b.multOps
  {
  }

  /**
    With non-negative dimensions the multiplication counter of a product
    never drops, but its addition counter drops exactly when the left operand
    has cells and the right operand has no columns.
   */
  lemma MulAddsDropIff(a: Matrix, b: Matrix)
    requires a.nrow >= 0 && a.ncol >= 0 && b.ncol >= 0
    requires a.ncol == b.nrow
    ensures Mul(a, b).value.multOps >= a.multOps + b.multOps
    ensures Mul(a, b).value.addOps < a.addOps + b.addOps <==> a.nrow * a.ncol > 0 && b.ncol == 0
  {
  }

  /** The expected values the source pins down with `static_assert`. */
  lemma CompileTimeChecks()
    ensures var a := New(2, 10);
      a.nrow == 2 && a.ncol == 10 && a.addOps == 0 && a.multOps == 0 && Flops(a) == 0
    ensures var c := Add(New(2, 10), New(2, 10));
      c.Ok? && c.value.nrow == 2 && c.value.ncol == 10 &&
      c.value.addOps == 20 && c.value.multOps == 0 && Flops(c.value) == 20
    ensures var c := Mul(New(2, 5), New(5, 10));
      c.Ok? && c.value.nrow == 2 && c.value.ncol == 10 &&
      c.value.addOps == 90 && c.value.multOps == 100 && Flops(c.value) == 190
  {
  }
}
