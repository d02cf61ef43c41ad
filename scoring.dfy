/** The E/W/R vectors of a model (`BaseModel.vectors`) and the product of
    two models (`BaseModel.__mul__`). */
module Scoring {

  /** Efficiency, water and resilience, in that order. */
  datatype Vector = Vector(efficiency: int, water: int, resilience: int)
  {
    /** The `vectors` property: the components as a triple. */
    function Components(): seq<int>
    {
      [efficiency, water, resilience]
    }
  }

  /** `sum(x * y for x, y in zip(xs, ys))`; `zip` stops at the shorter side. */
  function SumOfProducts(xs: seq<int>, ys: seq<int>): int
    decreases |xs|
  {
    if xs == [] || ys == [] then 0
    else xs[0] * ys[0] + SumOfProducts(xs[1..], ys[1..])
  }

  /** `sum(v ** 2 for v in xs)` */
  function SumOfSquares(xs: seq<int>): int
    decreases |xs|
  {
    if xs == [] then 0 else xs[0] * xs[0] + SumOfSquares(xs[1..])
  }

  /** `a * b` between two models. */
  function Dot(a: Vector, b: Vector): int
  {
    SumOfProducts(a.Components(), b.Components())
  }

  /** The product is the sum of the componentwise products. */
  lemma DotComponents(a: Vector, b: Vector)
    ensures Dot(a, b) == a.efficiency * b.efficiency + a.water * b.water + a.resilience * b.resilience
  {
    var xs, ys := a.Components(), b.Components();
    var last := SumOfProducts([a.resilience], [b.resilience]);
    assert [a.resilience][1..] == [] && [b.resilience][1..] == [];
    assert last == a.resilience * b.resilience + SumOfProducts([], []);
    var tail := SumOfProducts([a.water, a.resilience], [b.water, b.resilience]);
    assert [a.water, a.resilience][1..] == [a.resilience] && [b.water, b.resilience][1..] == [b.resilience];
    assert tail == a.water * b.water + last;
    assert xs[1..] == [a.water, a.resilience] && ys[1..] == [b.water, b.resilience];
  }

  lemma {:induction false} SumOfProductsCommutes(xs: seq<int>, ys: seq<int>)
    ensures SumOfProducts(xs, ys) == SumOfProducts(ys, xs)
    decreases |xs|
  {
    if xs != [] && ys != [] {
      SumOfProductsCommutes(xs[1..], ys[1..]);
      assert xs[0] * ys[0] == ys[0] * xs[0];
    }
  }

  /** `a * b == b * a` */
  lemma DotCommutes(a: Vector, b: Vector)
    ensures Dot(a, b) == Dot(b, a)
  {
    SumOfProductsCommutes(a.Components(), b.Components());
  }

  lemma {:induction false} SumOfProductsWithItself(xs: seq<int>)
    ensures SumOfProducts(xs, xs) == SumOfSquares(xs)
    decreases |xs|
  {
    if xs != [] { SumOfProductsWithItself(xs[1..]); }
  }

  /** `m * m` is the sum of the squares of the components. */
  lemma DotSelf(a: Vector)
    ensures Dot(a, a) == SumOfSquares(a.Components())
  {
    SumOfProductsWithItself(a.Components());
  }
}
