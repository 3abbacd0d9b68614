/**
  The operation counts of a product computed by inner products.

  Each of the `a.nrow * b.ncol` output cells of `a * b` is the inner product
  of a row of `a` with a column of `b`: `a.ncol` multiplications whose
  results are summed with `a.ncol - 1` additions (none when `a.ncol` is 0).
  matrix.cpp:123 charges `a.nrow * a.ncol * (b.ncol - 1)` additions instead,
  which swaps the inner dimension with the output column count and goes
  negative when `a` has cells and `b` has no columns. `Mul` here is the product with the
  inner-product addition count; the multiplication count and the shape rules
  are the source's own.
 */
module InnerProduct {
  import opened Matrices

  /** Additions in one inner product of length `n`; an empty one needs none. */
  function DotAdds(n: int): nat
  {
    if n <= 0 then 0 else n - 1
  }

  /** Product `a * b` charging the additions its inner products perform. */
  function Mul(a: Matrix, b: Matrix): (r: Result<Matrix>)
    ensures r.Err? <==> Matrices.Mul(a, b).Err?
    ensures r.Err? ==> r == Matrices.Mul(a, b)
    ensures r.Ok? ==>
      r.value.nrow == Matrices.Mul(a, b).value.nrow &&
      r.value.ncol == Matrices.Mul(a, b).value.ncol &&
      r.value.multOps == Matrices.Mul(a, b).value.multOps
  {
    if a.ncol != b.nrow then
      Err(DimensionMismatch(a.nrow, a.ncol, b.nrow, b.ncol))
    else
      Ok(Matrix(a.nrow, b.ncol,
                a.addOps + b.addOps + a.nrow * b.ncol * DotAdds(a.ncol),
                a.multOps + b.multOps + a.nrow * a.ncol * b.ncol))
  }

  /**
    With a non-empty inner dimension, every output cell costs
    `2 * a.ncol - 1` flops.
   */
  lemma FlopsOfMul(a: Matrix, b: Matrix)
    requires a.ncol == b.nrow && a.ncol >= 1
    ensures Mul(a, b).Ok?
    ensures Flops(Mul(a, b).value) == Flops(a) + Flops(b) + a.nrow * b.ncol * (2 * a.ncol - 1)
  {
  }

  /**
    With non-negative dimensions neither counter ever drops, zero-sized
    operands included.
   */
  lemma CountersNeverDecrease(a: Matrix, b: Matrix)
    requires a.nrow >= 0 && a.ncol >= 0 && b.ncol >= 0
    ensures Mul(a, b).Ok? ==>
      Mul(a, b).value.addOps >= a.addOps + b.addOps &&
      Mul(a, b).value.multOps >= a.multOps + b.multOps
  {
  }

  /**
    The source's addition charge for a product agrees with the inner-product
    count exactly when the left operand has no rows or the inner dimension
    equals the output column count.
   */
  lemma SourceChargeAgreesIff(a: Matrix, b: Matrix)
    requires a.ncol == b.nrow && a.ncol >= 1
    ensures Matrices.Mul(a, b) == Mul(a, b) <==> a.nrow == 0 || a.ncol == b.ncol
  {
  }

  /**
    A(2,5) * B(5,10): the source charges 90 additions; the 20 inner products
    of length 5 perform 80.
   */
  lemma SwappedDimensionsExample()
    ensures Matrices.Mul(New(2, 5), New(5, 10)).value.addOps == 90
    ensures Mul(New(2, 5), New(5, 10)).value.addOps == 80
  {
  }

  /**
    A(2,5) * B(5,0): the source charges -10 additions, lowering the counter;
    the empty result needs none.
   */
  lemma NegativeChargeExample()
    ensures Matrices.Mul(New(2, 5), New(5, 0)).value.addOps == -10
    ensures Mul(New(2, 5), New(5, 0)).value.addOps == 0
  {
  }
}
