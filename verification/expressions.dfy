/**
  Expressions built from `+` and `*` over matrix values, as the source writes
  them (`A * B * C * D + E * F`). An expression evaluates to a `Result`: the
  first failing combinator aborts the whole expression, as a thrown
  `std::logic_error` would.
 */
module Expressions {
  import opened Matrices

  datatype Expr =
    | Leaf(m: Matrix)
    | Plus(left: Expr, right: Expr)
    | Times(left: Expr, right: Expr)

  /**
    The value of an expression. When both operands of a node fail, the left
    operand's error is the one returned.
    Whatever the operators, a successful result has the first operand's rows
    and the last operand's columns.
   */
  function Eval(e: Expr): (r: Result<Matrix>)
    ensures r.Err? ==> !e.Leaf?
    ensures !e.Leaf? && (Eval(e.left).Err? || Eval(e.right).Err?) ==> r.Err?
    ensures r.Ok? ==> r.value.nrow == First(e).nrow && r.value.ncol == Last(e).ncol
  {
    match e
    case Leaf(m) => Ok(m)
    case Plus(l, r) =>
      var x := Eval(l);
      var y := Eval(r);
      if x.Err? then x else if y.Err? then y else Add(x.value, y.value)
    case Times(l, r) =>
      var x := Eval(l);
      var y := Eval(r);
      if x.Err? then x else if y.Err? then y else Mul(x.value, y.value)
  }

  /** The leftmost operand. */
  function First(e: Expr): Matrix
  {
    match e
    case Leaf(m) => m
    case Plus(l, _) => First(l)
    case Times(l, _) => First(l)
  }

  /** The rightmost operand. */
  function Last(e: Expr): Matrix
  {
    match e
    case Leaf(m) => m
    case Plus(_, r) => Last(r)
    case Times(_, r) => Last(r)
  }

  /** The operands of an expression, left to right. */
  function Leaves(e: Expr): (s: seq<Matrix>)
    ensures |s| >= 1 && s[0] == First(e) && s[|s| - 1] == Last(e)
  {
    match e
    case Leaf(m) => [m]
    case Plus(l, r) => Leaves(l) + Leaves(r)
    case Times(l, r) => Leaves(l) + Leaves(r)
  }

  /** A product chain: `*` nodes only, in some grouping. */
  predicate IsChain(e: Expr)
  {
    match e
    case Leaf(_) => true
    case Plus(_, _) => false
    case Times(l, r) => IsChain(l) && IsChain(r)
  }

  /** Every operand's column count equals its successor's row count. */
  predicate Compatible(ms: seq<Matrix>)
  {
    forall i :: 0 <= i < |ms| - 1 ==> ms[i].ncol == ms[i + 1].nrow
  }

  lemma CompatibleConcat(xs: seq<Matrix>, ys: seq<Matrix>)
    requires |xs| >= 1 && |ys| >= 1
    ensures Compatible(xs + ys) <==>
      Compatible(xs) && Compatible(ys) && xs[|xs| - 1].ncol == ys[0].nrow
  {
    var s := xs + ys;
    if Compatible(xs) && Compatible(ys) && xs[|xs| - 1].ncol == ys[0].nrow {
      forall i | 0 <= i < |s| - 1
        ensures s[i].ncol == s[i + 1].nrow
      {
        if i < |xs| - 1 {
          assert s[i] == xs[i] && s[i + 1] == xs[i + 1];
        } else if i == |xs| - 1 {
          assert s[i] == xs[i] && s[i + 1] == ys[0];
        } else {
          assert s[i] == ys[i - |xs|] && s[i + 1] == ys[i - |xs| + 1];
        }
      }
    }
    if Compatible(s) {
      forall i | 0 <= i < |xs| - 1
        ensures xs[i].ncol == xs[i + 1].nrow
      {
        assert s[i] == xs[i] && s[i + 1] == xs[i + 1];
      }
      forall i | 0 <= i < |ys| - 1
        ensures ys[i].ncol == ys[i + 1].nrow
      {
        assert s[|xs| + i] == ys[i] && s[|xs| + i + 1] == ys[i + 1];
      }
      assert s[|xs| - 1] == xs[|xs| - 1] && s[|xs|] == ys[0];
    }
  }

  /**
    A product chain succeeds exactly when its operands are compatible, and
    then its shape is the first operand's rows by the last operand's columns,
    whatever the grouping.
   */
  lemma {:induction false} ChainShape(e: Expr)
    requires IsChain(e)
    ensures Eval(e).Ok? <==> Compatible(Leaves(e))
    ensures Eval(e).Ok? ==>
      Eval(e).value.nrow == Leaves(e)[0].nrow &&
      Eval(e).value.ncol == Leaves(e)[|Leaves(e)| - 1].ncol
  {
    match e
    case Leaf(m) =>
    case Times(l, r) =>
      ChainShape(l);
      ChainShape(r);
      CompatibleConcat(Leaves(l), Leaves(r));
      assert Leaves(e)[0] == Leaves(l)[0];
      assert Leaves(e)[|Leaves(e)| - 1] == Leaves(r)[|Leaves(r)| - 1];
  }

  /**
    Two groupings of the same operand sequence both fail or both succeed,
    and when they succeed they have the same shape.
   */
  lemma ShapeIndependentOfGrouping(e1: Expr, e2: Expr)
    requires IsChain(e1) && IsChain(e2) && Leaves(e1) == Leaves(e2)
    ensures Eval(e1).Ok? <==> Eval(e2).Ok?
    ensures Eval(e1).Ok? ==>
      Eval(e1).value.nrow == Eval(e2).value.nrow &&
      Eval(e1).value.ncol == Eval(e2).value.ncol
  {
    ChainShape(e1);
    ChainShape(e2);
  }

  /** `ms[0] * ms[1] * ... `: C++ groups a run of `*` from the left. */
  function LeftChain(ms: seq<Matrix>): (e: Expr)
    requires |ms| >= 1
    ensures IsChain(e) && Leaves(e) == ms
  {
    if |ms| == 1 then Leaf(ms[0])
    else Times(LeftChain(ms[..|ms| - 1]), Leaf(ms[|ms| - 1]))
  }

  /** A left fold of `*` over a sequence, starting from `acc`; a failure stops it. */
  function FoldProduct(acc: Result<Matrix>, ms: seq<Matrix>): Result<Matrix>
    decreases |ms|
  {
    if |ms| == 0 then acc
    else if acc.Err? then acc
    else FoldProduct(Mul(acc.value, ms[0]), ms[1..])
  }

  /** The left-grouped expression evaluates to the left fold of `*`. */
  lemma {:induction false} LeftChainIsFold(ms: seq<Matrix>)
    requires |ms| >= 1
    ensures Eval(LeftChain(ms)) == FoldProduct(Ok(ms[0]), ms[1..])
  {
    if |ms| > 1 {
      var init := ms[..|ms| - 1];
      LeftChainIsFold(init);
      assert init[0] == ms[0];
      FoldSnoc(Ok(ms[0]), init[1..], ms[|ms| - 1]);
      assert init[1..] + [ms[|ms| - 1]] == ms[1..];
    }
  }

  lemma {:induction false} FoldSnoc(acc: Result<Matrix>, ms: seq<Matrix>, m: Matrix)
    ensures FoldProduct(acc, ms + [m]) ==
      var x := FoldProduct(acc, ms); if x.Err? then x else Mul(x.value, m)
    decreases |ms|
  {
    if |ms| == 0 {
      assert ms + [m] == [m];
      assert [m][1..] == [];
    } else if acc.Err? {
    } else {
      assert (ms + [m])[0] == ms[0];
      assert (ms + [m])[1..] == ms[1..] + [m];
      FoldSnoc(Mul(acc.value, ms[0]), ms[1..], m);
    }
  }

  /**
    `(a + b) + c` and `a + (b + c)` fail on the same inputs, and when they
    succeed they are equal, counters included.
   */
  lemma AddAssociates(a: Matrix, b: Matrix, c: Matrix)
    ensures var l := Eval(Plus(Plus(Leaf(a), Leaf(b)), Leaf(c)));
      var r := Eval(Plus(Leaf(a), Plus(Leaf(b), Leaf(c))));
      (l.Ok? <==> r.Ok?) && (l.Ok? ==> l.value == r.value)
  {
  }

  /** The operands of the compile-time check at the end of the source. */
  function CheckOperands(): seq<Matrix>
  {
    var a, b, c, d := New(2, 5), New(5, 10), New(10, 3), New(3, 8);
    [a, b, c, d]
  }

  lemma CheckOperandsCompatible()
    ensures Compatible(CheckOperands())
  {
  }

  /** `E * F` of the compile-time check, for E(2,7) and F(7,8). */
  function CheckTail(): Expr
  {
    Times(Leaf(New(2, 7)), Leaf(New(7, 8)))
  }

  /** The compile-time check on `A * B * C * D + E * F`: the result is 2 x 8. */
  lemma UngroupedExpressionShape()
    ensures var g := Eval(Plus(LeftChain(CheckOperands()), CheckTail()));
      g.Ok? && g.value.nrow == 2 && g.value.ncol == 8
  {
    var ms := CheckOperands();
    CheckOperandsCompatible();
    ChainShape(LeftChain(ms));
  }

  /** The compile-time check on `(A * (B * C)) * D + E * F`: the result is 2 x 8. */
  lemma GroupedExpressionShape()
    ensures var ms := CheckOperands();
      var g2 := Eval(Plus(Times(Times(Leaf(ms[0]), Times(Leaf(ms[1]), Leaf(ms[2]))), Leaf(ms[3])), CheckTail()));
      g2.Ok? && g2.value.nrow == 2 && g2.value.ncol == 8
  {
    var ms := CheckOperands();
    var chain := Times(Times(Leaf(ms[0]), Times(Leaf(ms[1]), Leaf(ms[2]))), Leaf(ms[3]));
    assert Leaves(chain) == ms;
    CheckOperandsCompatible();
    ChainShape(chain);
  }

  /**
    The grouping decides the cost: for the demo's A(2,5), B(5,3), C(3,10),
    `(A * B) * C` charges 164 flops and `A * (B * C)` charges 475.
   */
  lemma GroupingChangesCost()
    ensures var a, b, c := New(2, 5), New(5, 3), New(3, 10);
      var left := Eval(Times(Times(Leaf(a), Leaf(b)), Leaf(c)));
      var right := Eval(Times(Leaf(a), Times(Leaf(b), Leaf(c))));
      left.Ok? && right.Ok? &&
      left.value.addOps == 74 && left.value.multOps == 90 && Flops(left.value) == 164 &&
      right.value.addOps == 225 && right.value.multOps == 250 && Flops(right.value) == 475
  {
  }
}
