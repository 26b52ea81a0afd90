/** What the similarity of two word vectors is (websearch/dedup.go:71-90), by the
    sums over their words: its square, and when it is one or zero. */
module CosineLaws {
  import opened RealFacts
  import opened WordVectors

  // ---- The square of the similarity

  // f lists the products of the weights of a's words in a and b.
  ghost predicate Products(f: string -> real, a: map<string, real>, b: map<string, real>) {
    forall k <- a :: f(k) == a[k] * (if k in b then b[k] else 0.0)
  }

  lemma SumOfProducts(f: string -> real, a: map<string, real>, b: map<string, real>)
    requires Products(f, a, b)
    ensures SumOver(a.Keys, f) == Dot(a, b)
  {
    forall k | k in a.Keys ensures f(k) == Product(a, b)(k) {}
    SumSame(a.Keys, f, Product(a, b));
  }

  // The similarity c, by the square of the dot product and the product n of both
  // sums of squares.
  ghost predicate SquareLaw(c: real, dotSquared: real, n: real) {
    c >= 0.0 && c * c * n == dotSquared && (n == 0.0 ==> c == 0.0)
  }

  // The same for a dot product d and sums of squares na, nb.
  ghost predicate IsSimilarity(c: real, d: real, na: real, nb: real) { SquareLaw(c, d * d, na * nb) }

  lemma QuotientSquared(d: real, na: real, nb: real, sqrt: real -> real)
    requires IsSqrt(sqrt) && d >= 0.0 && Bound(d, na, nb)
    ensures IsSimilarity(Normalised(d, na, nb, sqrt), d, na, nb)
  {
    var ra, rb := sqrt(na), sqrt(nb);
    assert ra >= 0.0 && ra * ra == na && rb >= 0.0 && rb * rb == nb;
    RootsSquared(ra, rb, na, nb);
    ProductNonNegative(ra, rb);
    assert Normalised(d, na, nb, sqrt) == if ra * rb == 0.0 then 0.0 else d / (ra * rb);
    if ra * rb == 0.0 {
      SquareIsZero(d, na * nb);
    } else {
      DivisionSquared(d, ra * rb, na * nb);
    }
  }

  lemma {:induction false} RootsSquared(ra: real, rb: real, na: real, nb: real)
    requires ra * ra == na && rb * rb == nb
    ensures (ra * rb) * (ra * rb) == na * nb
    ensures na == 0.0 || nb == 0.0 ==> ra * rb == 0.0
  {
    assert (ra * rb) * (ra * rb) == (ra * ra) * (rb * rb);
    SquareIsZero(ra, na);
    SquareIsZero(rb, nb);
  }

  lemma {:induction false} SquareIsZero(d: real, n: real)
    requires d * d <= n
    ensures n == 0.0 ==> d == 0.0
  {
    if d > 0.0 { LargerSquare(d, 0.0); }
    if d < 0.0 { LargerSquare(-d, 0.0); }
  }

  lemma {:induction false} DivisionSquared(d: real, r: real, n: real)
    requires d >= 0.0 && r > 0.0 && r * r == n
    ensures d / r >= 0.0 && (d / r) * (d / r) * n == d * d
  {
    var c := d / r;
    assert c * r == d;
    assert c * c * (r * r) == (c * r) * (c * r);
    if c < 0.0 { ProductStrict(c, 0.0, r); }
  }

  // The similarity c of two vectors of counts: it is not negative, its square times
  // both sums of squares is the square of the dot product, and it is zero when a sum
  // of squares is. Where both sums are positive this leaves one value for c.
  lemma CosineSquared(a: map<string, real>, b: map<string, real>, sqrt: real -> real,
                      ab: string -> real, aa: string -> real, bb: string -> real)
    requires IsSqrt(sqrt) && NonNegative(a) && NonNegative(b)
    requires Products(ab, a, b) && Products(aa, a, a) && Products(bb, b, b)
    ensures var c := Cosine(a, b, sqrt);
      var dot, na, nb := SumOver(a.Keys, ab), SumOver(a.Keys, aa), SumOver(b.Keys, bb);
      IsSimilarity(c, dot, na, nb)
  {
    SumOfProducts(ab, a, b);
    SumOfProducts(aa, a, a);
    SumOfProducts(bb, b, b);
    CosineOfDots(a, b, sqrt);
  }

  lemma CosineOfDots(a: map<string, real>, b: map<string, real>, sqrt: real -> real)
    requires IsSqrt(sqrt) && NonNegative(a) && NonNegative(b)
    ensures IsSimilarity(Cosine(a, b, sqrt), Dot(a, b), Dot(a, a), Dot(b, b))
    ensures Dot(a, b) >= 0.0 && Bound(Dot(a, b), Dot(a, a), Dot(b, b))
  {
    DotCauchySchwarz(a, b);
    DotNonNegative(a, b);
    if |a| == 0 || |b| == 0 {
      EmptyDot(a);
      EmptyDot(b);
      ZeroBound(Dot(a, b), Dot(a, a), Dot(b, b));
    } else {
      QuotientSquared(Dot(a, b), Dot(a, a), Dot(b, b), sqrt);
    }
  }

  lemma EmptyDot(a: map<string, real>)
    ensures |a| == 0 ==> Dot(a, a) == 0.0
  {
    if |a| == 0 { assert a.Keys == {}; }
  }

  lemma {:induction false} ZeroBound(d: real, na: real, nb: real)
    requires Bound(d, na, nb) && (na == 0.0 || nb == 0.0)
    ensures IsSimilarity(0.0, d, na, nb)
  {
    assert na * nb == 0.0;
    SquareIsZero(d, na * nb);
  }

  // ---- Similarity one: positive multiples

  predicate LinearAt(f: string -> real, p: string -> real, x: real, q: string -> real, y: real, r: string -> real,
                     k: string)
  {
    Linear(f(k), p(k), x, q(k), y, r(k))
  }

  predicate Linear(f: real, p: real, x: real, q: real, y: real, r: real) { f == p + x * q + y * r }

  lemma {:induction false} SumLinear(s: set<string>, f: string -> real, p: string -> real, x: real, q: string -> real,
                                     y: real, r: string -> real)
    requires forall k <- s :: LinearAt(f, p, x, q, y, r, k)
    ensures Linear(SumOver(s, f), SumOver(s, p), x, SumOver(s, q), y, SumOver(s, r))
    decreases s
  {
    if k :| k in s {
      SumTake(s, f, k);
      SumTake(s, p, k);
      SumTake(s, q, k);
      SumTake(s, r, k);
      SumLinear(s - {k}, f, p, x, q, y, r);
      assert LinearAt(f, p, x, q, y, r, k);
      LinearStep(f(k), p(k), x, q(k), y, r(k), SumOver(s - {k}, f), SumOver(s - {k}, p), SumOver(s - {k}, q),
                 SumOver(s - {k}, r));
    }
  }

  lemma LinearStep(f: real, p: real, x: real, q: real, y: real, r: real, ff: real, pp: real, qq: real, rr: real)
    requires Linear(f, p, x, q, y, r) && Linear(ff, pp, x, qq, y, rr)
    ensures Linear(f + ff, p + pp, x, q + qq, y, r + rr)
  {
    Distribute(x, q, qq);
    Distribute(y, r, rr);
  }

  lemma {:induction false} Distribute(x: real, u: real, v: real)
    ensures x * (u + v) == x * u + x * v
  {}

  lemma {:induction false} SumZero(s: set<string>, f: string -> real, k: string)
    requires k in s && (forall m <- s :: f(m) >= 0.0) && SumOver(s, f) == 0.0
    ensures f(k) == 0.0
  {
    SumTake(s, f, k);
    SumNonNegative(s - {k}, f);
  }

  // b weighs every word t times as much as a does.
  ghost predicate Multiple(b: map<string, real>, t: real, a: map<string, real>) {
    forall k :: WordWeight(b, k) == t * WordWeight(a, k)
  }

  predicate Scales(x: real, t: real, y: real) { x == t * y }

  predicate ScaledAt(f: string -> real, t: real, g: string -> real, k: string) { Scales(f(k), t, g(k)) }

  lemma {:induction false} SumScaled(s: set<string>, f: string -> real, t: real, g: string -> real)
    requires forall k <- s :: ScaledAt(f, t, g, k)
    ensures Scales(SumOver(s, f), t, SumOver(s, g))
    decreases s
  {
    if k :| k in s {
      SumTake(s, f, k);
      SumTake(s, g, k);
      SumScaled(s - {k}, f, t, g);
      assert ScaledAt(f, t, g, k);
      Distribute(t, g(k), SumOver(s - {k}, g));
    }
  }

  lemma ProductsScaled(a: map<string, real>, b: map<string, real>, t: real, k: string)
    requires WordWeight(b, k) == t * WordWeight(a, k)
    ensures ScaledAt(Product(a, b), t, Product(a, a), k) && ScaledAt(Product(b, b), t, Product(a, b), k)
  {
    Regroup(t, WordWeight(a, k), WordWeight(b, k));
  }

  lemma MultipleDots(a: map<string, real>, b: map<string, real>, t: real)
    requires Multiple(b, t, a)
    ensures Scales(Dot(a, b), t, Dot(a, a)) && Scales(Dot(b, b), t, Dot(a, b))
  {
    var all := a.Keys + b.Keys;
    DotOverUnion(a, b, all);
    DotOverUnion(a, a, all);
    DotOverUnion(b, b, all);
    forall k | k in all
      ensures ScaledAt(Product(a, b), t, Product(a, a), k) && ScaledAt(Product(b, b), t, Product(a, b), k)
    {
      ProductsScaled(a, b, t, k);
    }
    SumScaled(all, Product(a, b), t, Product(a, a));
    SumScaled(all, Product(b, b), t, Product(a, b));
  }

  lemma {:induction false} SumOfZeros(s: set<string>, f: string -> real)
    requires forall k <- s :: f(k) == 0.0
    ensures SumOver(s, f) == 0.0
    decreases s
  {
    if k :| k in s {
      SumTake(s, f, k);
      SumOfZeros(s - {k}, f);
    }
  }

  lemma {:induction false} Regroup(t: real, u: real, v: real)
    requires v == t * u
    ensures u * v == t * (u * u) && v * v == t * (u * v)
  {}

  // The residue of b against t times a at a word, squared.
  ghost function Residue(a: map<string, real>, b: map<string, real>, t: real): string -> real {
    (k: string) => Gap(WordWeight(a, k), WordWeight(b, k), t)
  }

  function Gap(u: real, v: real, t: real): real { (v - t * u) * (v - t * u) }

  lemma ResidueLinear(a: map<string, real>, b: map<string, real>, t: real, k: string)
    ensures LinearAt(Residue(a, b, t), Product(b, b), -2.0 * t, Product(a, b), t * t, Product(a, a), k)
  {
    ExpandResidue(WordWeight(a, k), WordWeight(b, k), t);
  }

  lemma ResidueSum(a: map<string, real>, b: map<string, real>, t: real, all: set<string>)
    requires all == a.Keys + b.Keys
    ensures Linear(SumOver(all, Residue(a, b, t)), Dot(b, b), -2.0 * t, Dot(a, b), t * t, Dot(a, a))
  {
    DotOverUnion(a, b, all);
    DotOverUnion(a, a, all);
    DotOverUnion(b, b, all);
    ResidueTerms(all, a, b, t, -2.0 * t, t * t);
    SumLinear(all, Residue(a, b, t), Product(b, b), -2.0 * t, Product(a, b), t * t, Product(a, a));
  }

  lemma ResidueTerms(all: set<string>, a: map<string, real>, b: map<string, real>, t: real, x: real, y: real)
    requires x == -2.0 * t && y == t * t
    ensures forall k <- all :: LinearAt(Residue(a, b, t), Product(b, b), x, Product(a, b), y, Product(a, a), k)
  {
    forall k | k in all ensures LinearAt(Residue(a, b, t), Product(b, b), x, Product(a, b), y, Product(a, a), k) {
      ResidueLinear(a, b, t, k);
    }
  }

  lemma {:induction false} ExpandResidue(u: real, v: real, t: real)
    ensures Linear(Gap(u, v, t), v * v, -2.0 * t, u * v, t * t, u * u)
  {}

  lemma {:induction false} ResidueVanishes(d: real, na: real, nb: real, t: real)
    requires na > 0.0 && d * d == na * nb && t * na == d
    ensures Linear(0.0, nb, -2.0 * t, d, t * t, na)
  {
    assert t * (t * na) == t * d;
    assert (t * t) * na == t * d;
    assert na * nb == d * (t * na);
    assert na * (nb - t * d) == 0.0;
    CancelFactor(na, nb - t * d);
  }

  lemma {:induction false} CancelFactor(x: real, y: real)
    requires x > 0.0 && x * y == 0.0
    ensures y == 0.0
  {}

  lemma {:induction false} CancelSquare(c: real, n: real)
    requires c >= 0.0 && n > 0.0 && c * c * n == n
    ensures c == 1.0
  {
    assert (c * c - 1.0) * n == 0.0;
    CancelFactor(n, c * c - 1.0);
    assert (c - 1.0) * (c + 1.0) == 0.0;
    CancelFactor(c + 1.0, c - 1.0);
  }

  lemma {:induction false} GapNatural(u: real, v: real, t: real)
    ensures Gap(u, v, t) >= 0.0
  {
    SquareNonNegative(v - t * u);
  }

  lemma {:induction false} NoGap(u: real, v: real, t: real)
    requires Gap(u, v, t) == 0.0
    ensures v == t * u
  {
    SquareIsZero(v - t * u, 0.0);
  }

  lemma ResidueNatural(a: map<string, real>, b: map<string, real>, t: real, all: set<string>)
    ensures forall m <- all :: Residue(a, b, t)(m) >= 0.0
  {
    forall m | m in all ensures Residue(a, b, t)(m) >= 0.0 { GapNatural(WordWeight(a, m), WordWeight(b, m), t); }
  }

  lemma ResidueZero(a: map<string, real>, b: map<string, real>, t: real, all: set<string>, k: string)
    requires k in all && SumOver(all, Residue(a, b, t)) == 0.0
    ensures WordWeight(b, k) == t * WordWeight(a, k)
  {
    ResidueNatural(a, b, t, all);
    SumZero(all, Residue(a, b, t), k);
    ResidueGap(a, b, t, k);
  }

  lemma ResidueGap(a: map<string, real>, b: map<string, real>, t: real, k: string)
    requires Residue(a, b, t)(k) == 0.0
    ensures WordWeight(b, k) == t * WordWeight(a, k)
  {
    NoGap(WordWeight(a, k), WordWeight(b, k), t);
  }

  lemma EqualityMeansMultiple(a: map<string, real>, b: map<string, real>, t: real)
    requires Dot(a, a) > 0.0 && Dot(a, b) * Dot(a, b) == Dot(a, a) * Dot(b, b) && t * Dot(a, a) == Dot(a, b)
    ensures Multiple(b, t, a)
  {
    var all := a.Keys + b.Keys;
    ResidueSum(a, b, t, all);
    ResidueVanishes(Dot(a, b), Dot(a, a), Dot(b, b), t);
    forall k ensures WordWeight(b, k) == t * WordWeight(a, k) {
      if k in all { ResidueZero(a, b, t, all, k); }
    }
  }

  lemma PositiveFactor(a: map<string, real>, b: map<string, real>, t: real)
    requires t * Dot(a, a) == Dot(a, b) > 0.0 && Dot(a, a) > 0.0
    ensures t > 0.0
  {
    if t <= 0.0 { ProductOrder(t, 0.0, Dot(a, a)); }
  }

  // Two vectors of counts have similarity one exactly when neither is zero and one
  // is a positive multiple of the other. So a text has similarity one with itself,
  // and with itself written twice.
  lemma SimilarityOne(a: map<string, real>, b: map<string, real>, sqrt: real -> real)
    requires IsSqrt(sqrt) && NonNegative(a) && NonNegative(b)
    ensures Cosine(a, b, sqrt) == 1.0 <==> (exists k <- a :: a[k] > 0.0) && exists t :: t > 0.0 && Multiple(b, t, a)
  {
    PositiveNorm(a);
    if Cosine(a, b, sqrt) == 1.0 {
      var t := OneMeansMultiple(a, b, sqrt);
    }
    if t :| t > 0.0 && Multiple(b, t, a) {
      if Dot(a, a) > 0.0 { MultipleMeansOne(a, b, t, sqrt); }
    }
  }

  lemma PositiveNorm(a: map<string, real>)
    requires NonNegative(a)
    ensures Dot(a, a) >= 0.0
    ensures Dot(a, a) > 0.0 <==> exists k <- a :: a[k] > 0.0
  {
    DotNonNegative(a, a);
    if k :| k in a && a[k] > 0.0 {
      forall m | m in a.Keys ensures Product(a, a)(m) >= 0.0 { SquareNonNegative(WordWeight(a, m)); }
      if Dot(a, a) == 0.0 {
        SumZero(a.Keys, Product(a, a), k);
        SquareIsZero(a[k], 0.0);
      }
    } else {
      forall m | m in a.Keys ensures Product(a, a)(m) == 0.0 { assert a[m] == 0.0; }
      SumOfZeros(a.Keys, Product(a, a));
    }
  }

  lemma OneMeansMultiple(a: map<string, real>, b: map<string, real>, sqrt: real -> real) returns (t: real)
    requires IsSqrt(sqrt) && NonNegative(a) && NonNegative(b) && Cosine(a, b, sqrt) == 1.0
    ensures Dot(a, a) > 0.0 && t > 0.0 && Multiple(b, t, a)
  {
    CosineOfDots(a, b, sqrt);
    var d, na, nb := Dot(a, b), Dot(a, a), Dot(b, b);
    PositiveProduct(d, na, nb);
    t := d / na;
    assert t * na == d;
    EqualityMeansMultiple(a, b, t);
    PositiveFactor(a, b, t);
  }

  lemma {:induction false} PositiveProduct(d: real, na: real, nb: real)
    requires IsSimilarity(1.0, d, na, nb) && na >= 0.0 && nb >= 0.0 && d >= 0.0
    ensures d > 0.0 && na > 0.0 && d * d == na * nb
  {
    ProductStrict(0.0, na, nb);
  }

  lemma MultipleMeansOne(a: map<string, real>, b: map<string, real>, t: real, sqrt: real -> real)
    requires IsSqrt(sqrt) && NonNegative(a) && NonNegative(b)
    requires Dot(a, a) > 0.0 && t > 0.0 && Multiple(b, t, a)
    ensures Cosine(a, b, sqrt) == 1.0
  {
    CosineOfDots(a, b, sqrt);
    MultipleDots(a, b, t);
    ScaledLaw(Cosine(a, b, sqrt), t, Dot(a, a), Dot(a, b), Dot(b, b));
  }

  lemma {:induction false} ScaledLaw(c: real, t: real, n: real, d: real, nb: real)
    requires t > 0.0 && n > 0.0 && Scales(d, t, n) && Scales(nb, t, d) && IsSimilarity(c, d, n, nb)
    ensures c == 1.0
  {
    ScaledNorms(t, n, d, nb);
    CancelLaw(c, d * d, n * nb);
  }

  lemma {:induction false} CancelLaw(c: real, dotSquared: real, n: real)
    requires SquareLaw(c, dotSquared, n) && n == dotSquared > 0.0
    ensures c == 1.0
  {
    CancelSquare(c, n);
  }

  lemma {:induction false} ScaledNorms(t: real, n: real, d: real, nb: real)
    requires t > 0.0 && n > 0.0 && Scales(d, t, n) && Scales(nb, t, d)
    ensures n * nb == d * d && n * nb > 0.0
  {
    ProductStrict(0.0, t, n);
    ProductStrict(0.0, d, d);
    assert n * (t * d) == (t * n) * d;
  }

  // ---- Similarity zero: no word in common

  // Similarity zero means that no word has weight in both.
  lemma SimilarityZero(a: map<string, real>, b: map<string, real>, sqrt: real -> real)
    requires IsSqrt(sqrt) && NonNegative(a) && NonNegative(b)
    ensures Cosine(a, b, sqrt) == 0.0 <==> forall k :: k in a && k in b ==> a[k] == 0.0 || b[k] == 0.0
  {
    CosineOfDots(a, b, sqrt);
    ZeroDot(a, b);
    NoQuotient(Cosine(a, b, sqrt), Dot(a, b), Dot(a, a), Dot(b, b));
  }

  lemma {:induction false} NoQuotient(c: real, d: real, na: real, nb: real)
    requires IsSimilarity(c, d, na, nb) && na >= 0.0 && nb >= 0.0
    ensures c == 0.0 <==> d == 0.0
  {
    if c == 0.0 { SquareIsZero(d, 0.0); }
    if d == 0.0 && na > 0.0 && nb > 0.0 {
      ProductStrict(0.0, na, nb);
      CancelFactor(na * nb, c * c);
      SquareIsZero(c, 0.0);
    }
  }

  lemma ZeroDot(a: map<string, real>, b: map<string, real>)
    requires NonNegative(a) && NonNegative(b)
    ensures Dot(a, b) == 0.0 <==> forall k :: k in a && k in b ==> a[k] == 0.0 || b[k] == 0.0
  {
    forall m | m in a.Keys ensures Product(a, b)(m) >= 0.0 { ProductNonNegative(WordWeight(a, m), WordWeight(b, m)); }
    if Dot(a, b) == 0.0 {
      forall k | k in a && k in b ensures a[k] == 0.0 || b[k] == 0.0 {
        SumZero(a.Keys, Product(a, b), k);
        if a[k] > 0.0 { CancelFactor(a[k], b[k]); }
      }
    }
    if forall k :: k in a && k in b ==> a[k] == 0.0 || b[k] == 0.0 {
      forall m | m in a.Keys ensures Product(a, b)(m) == 0.0 {}
      SumOfZeros(a.Keys, Product(a, b));
    }
  }
}
