# Cost-accounting matrix values

A model of the `Matrix` value type of `matrix.cpp`. A `Matrix` holds no
entries. It holds its shape (`nrow` x `ncol`) and two counters: the scalar
additions (`add_ops`) and multiplications (`mult_ops`) charged to produce it.
`get_flops` is their sum, and `Flops` models it by that definition. Two combinators build new values and never change
their operands:

- `+` needs equal shapes. It charges one addition per cell.
- `*` needs `this.ncol == other.nrow`. It charges `nrow*ncol*(other.ncol-1)`
  additions and `nrow*ncol*other.ncol` multiplications.

A dimension mismatch throws `std::logic_error` in the source. Here it is the
`Err` case of a `Result`.

Modules:

- `Matrices` (`matrix.dfy`): the value, `New`, `Flops`, `Add`, `Mul` as
  written in the source, their algebra, and the source's compile-time checks.
- `Expressions` (`expressions.dfy`): expression trees over `+` and `*`, with
  failure propagating like an exception. It proves that the shape of a
  product chain does not depend on its grouping, while the cost does.
- `InnerProduct` (`inner_product.dfy`): a product that charges the additions
  its inner products actually perform (see Findings).
- `Simulation` (`simulation.dfy`): loops that count each scalar operation of
  a dense `+` and `*`. For non-negative shapes they equal `Matrices.Add`,
  `InnerProduct.Mul`, and so the multiplication charge of `Matrices.Mul`.
  They do not equal the source's addition charge for `*` (see Findings).

## Model

| member | source | states |
|---|---|---|
| `Matrices.New` | matrix.cpp:36-50 | A new value has the given shape and zero additions and multiplications |
| `Matrices.NewHasNoFlops` | matrix.cpp:47-50 | A new value has zero flops |
| `Matrices.Add` | matrix.cpp:95-108 | Fails exactly when `nrow` or `ncol` differ, and the error carries both shapes. On success the result has both operands' shape, the addition counter grows by `nrow*ncol` over the operands' sum, and the multiplication counter is the operands' sum |
| `Matrices.Mul` | matrix.cpp:113-126 | Fails exactly when `a.ncol != b.nrow`. On success the shape is `a.nrow x b.ncol`, the additions grow by `a.nrow*a.ncol*(b.ncol-1)`, and the multiplications grow by rows x inner x columns |
| `Matrices.FlopsOfAdd` | matrix.cpp:87-107 | The flops of a sum are the operands' flops plus one per cell |
| `Matrices.FlopsOfMul` | matrix.cpp:120-125 | The flops of a product are the operands' flops plus `nrow*ncol*(2*other.ncol-1)` |
| `Matrices.AddCommutes` | matrix.cpp:98-107 | `a + b` and `b + a` fail together and otherwise are equal values, counters included |
| `Matrices.CountersNeverDecrease` | matrix.cpp:102-125 | With all dimensions at least 1, `+` strictly raises the addition counter and keeps the multiplication counter. `*` never lowers additions and strictly raises multiplications |
| `Matrices.MulAddsDropIff` | matrix.cpp:123-124 | With non-negative dimensions, `*` never lowers the multiplication counter. It lowers the addition counter if and only if the left operand has cells and the right operand has no columns |
| `Matrices.CompileTimeChecks` | matrix.cpp:141-175 | A(2,10) is fresh; A(2,10)+B(2,10) has 20 adds and 20 flops; A(2,5)*B(5,10) is 2x10 with 90 adds, 100 mults and 190 flops |
| `Expressions.Eval` | matrix.cpp:184-185 | Evaluates a `+`/`*` expression. A failing subexpression makes the whole expression fail, as the thrown `logic_error` does, and a leaf never fails. A successful result has the first operand's rows and the last operand's columns |
| `Expressions.AddAssociates` | matrix.cpp:98-107 | `(a + b) + c` and `a + (b + c)` fail on the same inputs, and when they succeed they are equal, counters included |
| `Expressions.ChainShape` | matrix.cpp:116-122 | Any grouping of a `*` chain succeeds exactly when each operand's columns equal the next operand's rows. Its shape is then the first operand's rows by the last operand's columns |
| `Expressions.ShapeIndependentOfGrouping` | matrix.cpp:177-190 | Two groupings of the same operands both fail or both succeed with the same shape |
| `Expressions.LeftChain` | matrix.cpp:184 | An ungrouped run `A * B * ...` is a product chain over exactly those operands, in order |
| `Expressions.LeftChainIsFold` | matrix.cpp:184 | Evaluating the left-grouped chain equals a left fold of `*` over the operands, stopping at the first failure |
| `Expressions.UngroupedExpressionShape` | matrix.cpp:177-188 | `A*B*C*D + E*F` succeeds with shape 2x8 |
| `Expressions.GroupedExpressionShape` | matrix.cpp:177-190 | `(A*(B*C))*D + E*F` succeeds with shape 2x8 |
| `Expressions.GroupingChangesCost` | matrix.cpp:197-205 | For A(2,5), B(5,3), C(3,10), `(A*B)*C` charges 164 flops and `A*(B*C)` charges 475 |
| `InnerProduct.Mul` | matrix.cpp:113-126 | Corrected product. It fails exactly when the source's `*` fails, and it has the source's shape and multiplication count |
| `InnerProduct.FlopsOfMul` | matrix.cpp:123-124 | With a non-empty inner dimension, each output cell costs `2*inner-1` flops |
| `InnerProduct.CountersNeverDecrease` | matrix.cpp:123-124 | With non-negative dimensions, including zeros, the corrected product never lowers either counter |
| `InnerProduct.SourceChargeAgreesIff` | matrix.cpp:123 | With a non-empty inner dimension, the source's charge equals the inner-product count if and only if the left operand has no rows or `inner == b.ncol` |
| `InnerProduct.SwappedDimensionsExample` | matrix.cpp:123 | A(2,5)*B(5,10): the source charges 90 additions; the inner products perform 80 |
| `InnerProduct.NegativeChargeExample` | matrix.cpp:123 | A(2,5)*B(5,0): the source charges -10 additions; the corrected product charges 0 |
| `Simulation.SimulateAdd` | matrix.cpp:98-107 | Counting one addition per cell gives exactly `Matrices.Add`, for non-negative shapes. It fails exactly on a shape mismatch |
| `Simulation.DotProduct` | matrix.cpp:123-124 | One inner product of length `n` performs `n` multiplications and `n-1` additions, and none when `n` is 0 |
| `Simulation.SimulateMul` | matrix.cpp:113-125 | Counting cell by cell gives exactly `InnerProduct.Mul` for non-negative shapes, and so the source's multiplication count. It fails exactly when `a.ncol != b.nrow` |

## Left out

- C++ `int` overflow: counters and dimensions are unbounded integers. Overflow of the source's signed `int` (undefined behaviour in C++) is not modelled.
- `operator<<` and `main`: these are output formatting and a demo. The demo's values are stated in `Expressions.GroupingChangesCost`.
- The text of the `std::logic_error` messages. Only the failure condition is modelled, and the error carries both shapes. The `+` message names `ncol` and `nrow` where it means two column or two row counts.
- Which error escapes when both operands of `+` or `*` fail: C++ leaves the order in which the operands are evaluated unspecified, so the `logic_error` that escapes is not fixed. `Expressions.Eval` always returns the left operand's error.
- `constexpr` and `static_assert` mechanics. The asserted values are lemmas.
- Immutability (`const` fields, operands passed by `const&`): this holds by construction, because Dafny datatype values cannot be mutated.
- The private four-argument constructor is the datatype constructor `Matrix(...)`. `New` is the public two-argument constructor.
- Matrix-chain-order optimization: `matrix.cpp` contains no such code.
- `Simulation.SimulateAdd`: equality with `Matrices.Add` is stated only for non-negative shapes. With a negative extent the loops run no iterations, while the closed form multiplies the negative numbers.
- `Simulation.SimulateMul`: equality with `InnerProduct.Mul` is stated only for non-negative shapes, for the same reason.

## Findings

| source | as written | input that shows it | evidently intended | confidence | as-written member | corrected member |
|---|---|---|---|---|---|---|
| matrix.cpp:123 | `*` charges `nrow*ncol*(other.ncol-1)` additions, which swaps the inner dimension and the output column count | A(2,5)*B(5,10): the source charges 90 additions, but 20 inner products of length 5 perform 80 | `nrow*other.ncol*(ncol-1)` additions, i.e. `ncol-1` per output cell, and none when `ncol` is 0 | medium (the compile-time check at line 172 records 90, computed from the same formula); not executed | `InnerProduct.SwappedDimensionsExample` (about `Matrices.Mul`) | `InnerProduct.Mul` |
| matrix.cpp:123 | When the left operand has cells (`nrow*ncol > 0`) and `other.ncol` is 0, the addition charge `nrow*ncol*(0-1)` is negative and lowers the counter (`Matrices.MulAddsDropIff` proves exactly this condition) | A(2,5)*B(5,0): the source charges -10 additions | no additions for an empty result | medium; not executed | `InnerProduct.NegativeChargeExample` (about `Matrices.Mul`) | `InnerProduct.Mul` |

`InnerProduct.Mul` is proved equal to the cell-by-cell count of
`Simulation.SimulateMul`. It never lowers a counter for non-negative shapes
(`InnerProduct.CountersNeverDecrease`). `InnerProduct.SourceChargeAgreesIff`
says exactly when the two charges agree. `Expressions` keeps the as-written
`Matrices.Mul`, because the source's compile-time checks depend on it.
