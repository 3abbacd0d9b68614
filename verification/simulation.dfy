/**
  Reference counts: the loops a dense implementation of `+` and `*` would
  run, counting each scalar addition and multiplication as it happens. For
  non-negative shapes (a negative extent runs no iterations) these counts are
  proved equal to `Matrices.Add` and to `InnerProduct.Mul`, and so to the
  multiplication charge of `Matrices.Mul`. The addition charge of
  `Matrices.Mul` does not equal them: see module InnerProduct.
 */
module Simulation {
  import opened Matrices
  import InnerProduct

  function Extent(n: int): nat
  {
    if n < 0 then 0 else n
  }

  /** Adds `a` and `b` cell by cell, one scalar addition per cell. */
  method SimulateAdd(a: Matrix, b: Matrix) returns (r: Result<Matrix>)
    ensures r.Err? <==> !SameShape(a, b)
    ensures a.nrow >= 0 && a.ncol >= 0 ==> r == Add(a, b)
  {
    if !SameShape(a, b) {
      return Err(DimensionMismatch(a.nrow, a.ncol, b.nrow, b.ncol));
    }
    var rows, cols := Extent(a.nrow), Extent(a.ncol);
    var adds := 0;
    var i := 0;
    while i < rows
      invariant 0 <= i <= rows
      invariant adds == i * cols
    {
      var j := 0;
      while j < cols
        invariant 0 <= j <= cols
        invariant adds == i * cols + j
      {
        adds := adds + 1;
        j := j + 1;
      }
      i := i + 1;
    }
    r := Ok(Matrix(a.nrow, a.ncol, a.addOps + b.addOps + adds, a.multOps + b.multOps));
  }

  /**
    One output cell: the `n` products of a row and a column, summed by
    adding each product after the first to the running total.
   */
  method DotProduct(n: int) returns (adds: nat, mults: nat)
    ensures mults == Extent(n)
    ensures adds == InnerProduct.DotAdds(n)
  {
    var len := Extent(n);
    adds, mults := 0, 0;
    var k := 0;
    while k < len
      invariant 0 <= k <= len
      invariant mults == k
      invariant adds == InnerProduct.DotAdds(k)
    {
      mults := mults + 1;
      if k > 0 {
        adds := adds + 1;
      }
      k := k + 1;
    }
  }

  /** Multiplies `a` by `b` one output cell at a time. */
  method SimulateMul(a: Matrix, b: Matrix) returns (r: Result<Matrix>)
    ensures r.Err? <==> a.ncol != b.nrow
    ensures r.Ok? ==> r.value.nrow == a.nrow && r.value.ncol == b.ncol
    ensures a.nrow >= 0 && a.ncol >= 0 && b.ncol >= 0 ==> r == InnerProduct.Mul(a, b)
  {
    if a.ncol != b.nrow {
      return Err(DimensionMismatch(a.nrow, a.ncol, b.nrow, b.ncol));
    }
    var rows, cols := Extent(a.nrow), Extent(b.ncol);
    var cellAdds, cellMults := DotProduct(a.ncol);
    var adds, mults, cells := 0, 0, 0;
    var i := 0;
    while i < rows
      invariant 0 <= i <= rows
      invariant cells == i * cols
      invariant adds == cells * cellAdds && mults == cells * cellMults
    {
      var j := 0;
      while j < cols
        invariant 0 <= j <= cols
        invariant cells == i * cols + j
        invariant adds == cells * cellAdds && mults == cells * cellMults
      {
        var da, dm := DotProduct(a.ncol);
        NextCell(cells, cellAdds);
        NextCell(cells, cellMults);
        adds, mults, cells := adds + da, mults + dm, cells + 1;
        j := j + 1;
      }
      NextCell(i, cols);
      i := i + 1;
    }
    if a.nrow >= 0 && a.ncol >= 0 && b.ncol >= 0 {
      assert cells == a.nrow * b.ncol;
      assert mults == a.nrow * b.ncol * a.ncol;
      assert a.nrow * b.ncol * a.ncol == a.nrow * a.ncol * b.ncol;
    }
    r := Ok(Matrix(a.nrow, b.ncol, a.addOps + b.addOps + adds, a.multOps + b.multOps + mults));
  }

  lemma NextCell(x: int, y: int)
    ensures (x + 1) * y == x * y + y
  {
  }
}
