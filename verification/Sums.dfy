/** Finite sums of reals indexed by a set. */
module Sums {

  ghost function Sum<T(!new)>(S: set<T>, f: T -> real): real {
    if S == {} then 0.0 else
      var x :| x in S;
      f(x) + Sum(S - {x}, f)
  }

  /** The summand taken out first does not matter. */
  lemma {:induction false} SumPick<T(!new)>(S: set<T>, f: T -> real, x: T)
    requires x in S
    ensures Sum(S, f) == f(x) + Sum(S - {x}, f)
    decreases |S|
  {
    var y :| y in S && Sum(S, f) == f(y) + Sum(S - {y}, f);
    if x != y {
      SumPick(S - {y}, f, x);
      SumPick(S - {x}, f, y);
      assert S - {y} - {x} == S - {x} - {y};
    }
  }

  lemma {:induction false} SumSame<T(!new)>(S: set<T>, f: T -> real, g: T -> real)
    requires forall x :: x in S ==> f(x) == g(x)
    ensures Sum(S, f) == Sum(S, g)
    decreases |S|
  {
    if S != {} {
      var x :| x in S;
      SumPick(S, f, x);
      SumPick(S, g, x);
      SumSame(S - {x}, f, g);
    }
  }

  lemma {:induction false} SumAdd<T(!new)>(S: set<T>, f: T -> real, g: T -> real, h: T -> real)
    requires forall x :: x in S ==> h(x) == f(x) + g(x)
    ensures Sum(S, h) == Sum(S, f) + Sum(S, g)
    decreases |S|
  {
    if S != {} {
      var x :| x in S;
      SumPick(S, f, x);
      SumPick(S, g, x);
      SumPick(S, h, x);
      SumAdd(S - {x}, f, g, h);
    }
  }

  /** Multiplication as a named function, so that equal factors give equal products without arithmetic. */
  ghost function Mul(a: real, b: real): real {
    a * b
  }

  lemma Distribute(c: real, x: real, y: real)
    ensures Mul(c, x + y) == Mul(c, x) + Mul(c, y)
  {
  }

  ghost function Scaled<T(!new)>(c: real, f: T -> real): T -> real {
    x => Mul(c, f(x))
  }

  lemma {:induction false} SumScale<T(!new)>(S: set<T>, f: T -> real, c: real)
    ensures Sum(S, Scaled(c, f)) == Mul(c, Sum(S, f))
    decreases |S|
  {
    if S != {} {
      var x :| x in S;
      var a, b := f(x), Sum(S - {x}, f);
      assert Sum(S, Scaled(c, f)) == Mul(c, a) + Mul(c, b) by {
        SumPick(S, Scaled(c, f), x);
        SumScale(S - {x}, f, c);
      }
      assert Sum(S, f) == a + b by { SumPick(S, f, x); }
      Distribute(c, a, b);
    }
  }

  /** A sum of multiples of f is that multiple of the sum of f. */
  lemma SumProportional<T(!new)>(S: set<T>, h: T -> real, f: T -> real, c: real)
    requires forall x :: x in S ==> h(x) == Mul(c, f(x))
    ensures Sum(S, h) == Mul(c, Sum(S, f))
  {
    SumSame(S, h, Scaled(c, f));
    SumScale(S, f, c);
  }

  ghost function Product<T(!new)>(c: T -> real, f: T -> real): T -> real {
    x => Mul(c(x), f(x))
  }

  lemma SumProductSame<T(!new)>(S: set<T>, c: T -> real, f: T -> real, g: T -> real)
    requires forall x :: x in S ==> f(x) == g(x)
    ensures Sum(S, Product(c, f)) == Sum(S, Product(c, g))
  {
    SumSame(S, Product(c, f), Product(c, g));
  }

  /** Terms outside R contribute nothing. */
  lemma {:induction false} SumRestrict<T(!new)>(S: set<T>, R: set<T>, f: T -> real)
    requires R <= S
    requires forall x :: x in S - R ==> f(x) == 0.0
    ensures Sum(S, f) == Sum(R, f)
    decreases |S|
  {
    if S - R == {} {
      assert S == R;
    } else {
      var x :| x in S - R;
      SumPick(S, f, x);
      SumRestrict(S - {x}, R, f);
    }
  }

  lemma {:induction false} SumSplit<T(!new)>(A: set<T>, B: set<T>, f: T -> real)
    requires A !! B
    ensures Sum(A + B, f) == Sum(A, f) + Sum(B, f)
    decreases |A|
  {
    if A == {} {
      assert A + B == B;
    } else {
      var x :| x in A;
      SumPick(A, f, x);
      SumPick(A + B, f, x);
      assert A + B - {x} == (A - {x}) + B;
      SumSplit(A - {x}, B, f);
    }
  }

  lemma {:induction false} SumOnes<T(!new)>(S: set<T>, f: T -> real)
    requires forall x :: x in S ==> f(x) == 1.0
    ensures Sum(S, f) == |S| as real
    decreases |S|
  {
    if S != {} {
      var x :| x in S;
      SumPick(S, f, x);
      SumOnes(S - {x}, f);
    }
  }

  ghost function Row<T(!new), U(!new)>(F: (T, U) -> real, a: T): U -> real {
    b => F(a, b)
  }

  ghost function Col<T(!new), U(!new)>(F: (T, U) -> real, b: U): T -> real {
    a => F(a, b)
  }

  ghost function RowSum<T(!new), U(!new)>(F: (T, U) -> real, B: set<U>): T -> real {
    a => Sum(B, Row(F, a))
  }

  ghost function ColSum<T(!new), U(!new)>(F: (T, U) -> real, A: set<T>): U -> real {
    b => Sum(A, Col(F, b))
  }

  /** Exchanging the order of a double sum. */
  lemma {:induction false} SumSwap<T(!new), U(!new)>(A: set<T>, B: set<U>, F: (T, U) -> real)
    ensures Sum(A, RowSum(F, B)) == Sum(B, ColSum(F, A))
    decreases |A|
  {
    if A == {} {
      SumRestrict(B, {}, ColSum(F, A));
    } else {
      var x :| x in A;
      SumPick(A, RowSum(F, B), x);
      SumSwap(A - {x}, B, F);
      forall b | b in B ensures ColSum(F, A)(b) == Row(F, x)(b) + ColSum(F, A - {x})(b) {
        SumPick(A, Col(F, b), x);
      }
      SumAdd(B, Row(F, x), ColSum(F, A - {x}), ColSum(F, A));
    }
  }

  ghost function Weighted<T(!new), U(!new)>(c: U -> real, F: (T, U) -> real): (T, U) -> real {
    (a, b) => Mul(c(b), F(a, b))
  }

  ghost function WeightedRows<T(!new), U(!new)>(c: U -> real, F: (T, U) -> real, B: set<U>): T -> real {
    a => Sum(B, Product(c, Row(F, a)))
  }

  lemma SumSwapWeighted<T(!new), U(!new)>(A: set<T>, B: set<U>, c: U -> real, F: (T, U) -> real)
    ensures Sum(A, WeightedRows(c, F, B)) == Sum(B, Product(c, ColSum(F, A)))
  {
    var W := Weighted(c, F);
    forall a ensures WeightedRows(c, F, B)(a) == RowSum(W, B)(a) {
      SumSame(B, Product(c, Row(F, a)), Row(W, a));
    }
    SumSame(A, WeightedRows(c, F, B), RowSum(W, B));
    SumSwap(A, B, W);
    forall b ensures ColSum(W, A)(b) == Product(c, ColSum(F, A))(b) {
      SumProportional(A, Col(W, b), Col(F, b), c(b));
    }
    SumSame(B, ColSum(W, A), Product(c, ColSum(F, A)));
  }

  ghost function SizeOf<T(!new), U(!new)>(F: T -> set<U>): T -> real {
    x => |F(x)| as real
  }

  /** The size of a disjoint union is the sum of the sizes. */
  lemma {:induction false} UnionSize<T(!new), U(!new)>(S: set<T>, F: T -> set<U>, all: set<U>)
    requires forall u :: u in all <==> exists x :: x in S && u in F(x)
    requires forall x, y, u :: x in S && y in S && u in F(x) && u in F(y) ==> x == y
    ensures |all| as real == Sum(S, SizeOf(F))
    decreases |S|
  {
    if S != {} {
      var x :| x in S;
      SumPick(S, SizeOf(F), x);
      var rest := all - F(x);
      forall u | u in F(x) ensures u in all {}
      assert all == F(x) + rest;
      forall u ensures u in rest <==> exists y :: y in S - {x} && u in F(y) {
        if u in rest {
          var y :| y in S && u in F(y);
          assert y in S - {x};
        }
      }
      UnionSize(S - {x}, F, rest);
    }
  }
}
