/** Cosine similarity of word counts (websearch/dedup.go:71-90) over the reals:
    sums over finite maps in any iteration order, symmetric, and between 0 and 1
    by a Cauchy-Schwarz argument. */
module WordVectors {
  import opened RealFacts

  // ---- Sums over finite sets, in whatever order the elements come

  ghost function SumOver(s: set<string>, f: string -> real): real {
    if s == {} then 0.0 else var k :| k in s; f(k) + SumOver(s - {k}, f)
  }

  // The order of summation does not matter: any element may be taken first.
  lemma {:induction false} SumTake(s: set<string>, f: string -> real, x: string)
    requires x in s
    ensures SumOver(s, f) == f(x) + SumOver(s - {x}, f)
    decreases s
  {
    var k :| k in s && SumOver(s, f) == f(k) + SumOver(s - {k}, f);
    if k != x {
      SumTake(s - {k}, f, x);
      SumTake(s - {x}, f, k);
      assert s - {k} - {x} == s - {x} - {k};
    }
  }

  lemma {:induction false} SumSame(s: set<string>, f: string -> real, g: string -> real)
    requires forall k <- s :: f(k) == g(k)
    ensures SumOver(s, f) == SumOver(s, g)
    decreases s
  {
    if k :| k in s {
      SumTake(s, f, k);
      SumTake(s, g, k);
      SumSame(s - {k}, f, g);
    }
  }

  // Elements without a contribution can be left out.
  lemma {:induction false} SumSupport(s: set<string>, t: set<string>, f: string -> real)
    requires s <= t && forall k <- t - s :: f(k) == 0.0
    ensures SumOver(t, f) == SumOver(s, f)
    decreases t
  {
    if k :| k in t - s {
      SumTake(t, f, k);
      SumSupport(s, t - {k}, f);
    } else {
      assert forall k :: k in t ==> k in s by {
        forall k | k in t ensures k in s { assert k !in t - s; }
      }
      assert s == t;
    }
  }

  lemma {:induction false} SumNonNegative(s: set<string>, f: string -> real)
    requires forall k <- s :: f(k) >= 0.0
    ensures SumOver(s, f) >= 0.0
    decreases s
  {
    if k :| k in s {
      SumTake(s, f, k);
      SumNonNegative(s - {k}, f);
    }
  }

  // ---- Cosine similarity

  function WordWeight(v: map<string, real>, k: string): real { if k in v then v[k] else 0.0 }

  function Product(a: map<string, real>, b: map<string, real>): string -> real {
    (k: string) => WordWeight(a, k) * WordWeight(b, k)
  }

  ghost function Dot(a: map<string, real>, b: map<string, real>): real { SumOver(a.Keys, Product(a, b)) }

  function Normalised(dot: real, normA: real, normB: real, sqrt: real -> real): real {
    var denom := sqrt(normA) * sqrt(normB);
    if denom == 0.0 then 0.0 else dot / denom
  }

  ghost function Cosine(a: map<string, real>, b: map<string, real>, sqrt: real -> real): real {
    if |a| == 0 || |b| == 0 then 0.0 else Normalised(Dot(a, b), Dot(a, a), Dot(b, b), sqrt)
  }

  // Exact square roots in place of math.Sqrt.
  ghost predicate IsSqrt(sqrt: real -> real) {
    forall x: real :: x >= 0.0 ==> sqrt(x) >= 0.0 && sqrt(x) * sqrt(x) == x
  }

  // What one word adds to the dot product.
  function Share(a: map<string, real>, b: map<string, real>, k: string): real
    requires k in a
  {
    if k in b then a[k] * b[k] else 0.0
  }

  lemma {:induction false} ShareIsProduct(a: map<string, real>, b: map<string, real>, k: string)
    requires k in a
    ensures Share(a, b, k) == Product(a, b)(k)
  {}

  // One word's share added to a running sum.
  method AddShare(sum: real, a: map<string, real>, b: map<string, real>, k: string, ghost share: real)
    returns (more: real)
    requires k in a && k in b && share == Share(a, b, k)
    ensures more == sum + share
  {
    more := sum + a[k] * b[k];
  }

  // The first loop of cosineSimilarity; it takes the words in any order.
  method SumShares(a: map<string, real>, b: map<string, real>, ghost square: string -> real,
                   ghost product: string -> real)
    returns (dot: real, normA: real)
    requires forall k <- a :: square(k) == Share(a, a, k) && product(k) == Share(a, b, k)
    ensures dot == SumOver(a.Keys, product) && normA == SumOver(a.Keys, square)
  {
    dot, normA := 0.0, 0.0;
    var words := a.Keys;
    while words != {}
      invariant words <= a.Keys
      invariant normA + SumOver(words, square) == SumOver(a.Keys, square)
      invariant dot + SumOver(words, product) == SumOver(a.Keys, product)
      decreases words
    {
      var k :| k in words;
      SumTake(words, square, k);
      SumTake(words, product, k);
      normA := AddShare(normA, a, a, k, square(k));
      if k in b {
        dot := AddShare(dot, a, b, k, product(k));
      }
      words := words - {k};
    }
  }

  method DotAndNorm(a: map<string, real>, b: map<string, real>) returns (dot: real, normA: real)
    ensures dot == Dot(a, b) && normA == Dot(a, a)
  {
    forall k <- a ensures Product(a, a)(k) == Share(a, a, k) && Product(a, b)(k) == Share(a, b, k) {
      ShareIsProduct(a, a, k);
      ShareIsProduct(a, b, k);
    }
    dot, normA := SumShares(a, b, Product(a, a), Product(a, b));
  }

  // The second loop, over the words of b.
  method SumSquares(b: map<string, real>, ghost square: string -> real) returns (normB: real)
    requires forall k <- b :: square(k) == Share(b, b, k)
    ensures normB == SumOver(b.Keys, square)
  {
    normB := 0.0;
    var words := b.Keys;
    while words != {}
      invariant words <= b.Keys
      invariant normB + SumOver(words, square) == SumOver(b.Keys, square)
      decreases words
    {
      var k :| k in words;
      SumTake(words, square, k);
      normB := AddShare(normB, b, b, k, square(k));
      words := words - {k};
    }
  }

  method Norm(b: map<string, real>) returns (normB: real)
    ensures normB == Dot(b, b)
  {
    forall k <- b ensures Product(b, b)(k) == Share(b, b, k) { ShareIsProduct(b, b, k); }
    normB := SumSquares(b, Product(b, b));
  }

  // cosineSimilarity.
  method CosineSimilarity(a: map<string, real>, b: map<string, real>, sqrt: real -> real) returns (c: real)
    ensures c == Cosine(a, b, sqrt)
  {
    if |a| == 0 || |b| == 0 {
      return 0.0;
    }
    var dot, normA := DotAndNorm(a, b);
    var normB := Norm(b);
    c := Quotient(dot, normA, normB, sqrt);
  }

  method Quotient(dot: real, normA: real, normB: real, sqrt: real -> real) returns (c: real)
    ensures c == Normalised(dot, normA, normB, sqrt)
  {
    var denom := sqrt(normA) * sqrt(normB);
    if denom == 0.0 {
      return 0.0;
    }
    return dot / denom;
  }

  // Summing over all words of both texts gives the same products.
  lemma DotOverUnion(a: map<string, real>, b: map<string, real>, all: set<string>)
    requires a.Keys <= all && b.Keys <= all
    ensures Dot(a, b) == SumOver(all, Product(a, b))
  {
    SumSupport(a.Keys, all, Product(a, b));
  }

  lemma DotSymmetric(a: map<string, real>, b: map<string, real>)
    ensures Dot(a, b) == Dot(b, a)
  {
    var all := a.Keys + b.Keys;
    DotOverUnion(a, b, all);
    DotOverUnion(b, a, all);
    SumSame(all, Product(a, b), Product(b, a));
  }

  lemma {:induction false} NormalisedSymmetric(dot: real, normA: real, normB: real, sqrt: real -> real)
    ensures Normalised(dot, normA, normB, sqrt) == Normalised(dot, normB, normA, sqrt)
  {
    assert sqrt(normA) * sqrt(normB) == sqrt(normB) * sqrt(normA);
  }

  lemma CosineSymmetric(a: map<string, real>, b: map<string, real>, sqrt: real -> real)
    ensures Cosine(a, b, sqrt) == Cosine(b, a, sqrt)
  {
    DotSymmetric(a, b);
    NormalisedSymmetric(Dot(a, b), Dot(a, a), Dot(b, b), sqrt);
  }

  // The step of the Cauchy-Schwarz induction.
  lemma CrossTerm(d: real, na: real, nb: real, x: real, y: real, d1: real, na1: real, nb1: real)
    requires na >= 0.0 && nb >= 0.0 && d * d <= na * nb
    requires d1 == d + x * y && na1 == na + x * x && nb1 == nb + y * y
    ensures d1 * d1 <= na1 * nb1
  {
    var xx, yy := x * x, y * y;
    var p, q := 2.0 * d * x * y, na * yy + nb * xx;
    CrossSquare(d, na, nb, x, y, p, q);
    SquareNonNegative(x);
    SquareNonNegative(y);
    ProductNonNegative(na, yy);
    ProductNonNegative(nb, xx);
    SquareOrder(p, q);
    Expand(d, na, nb, x, y);
  }

  lemma {:induction false} Expand(d: real, na: real, nb: real, x: real, y: real)
    ensures (d + x * y) * (d + x * y) == d * d + 2.0 * d * x * y + (x * x) * (y * y)
    ensures (na + x * x) * (nb + y * y) == na * nb + (na * (y * y) + nb * (x * x)) + (x * x) * (y * y)
  {}

  lemma CrossSquare(d: real, na: real, nb: real, x: real, y: real, p: real, q: real)
    requires na >= 0.0 && nb >= 0.0 && d * d <= na * nb
    requires p == 2.0 * d * x * y && q == na * (y * y) + nb * (x * x)
    ensures p * p <= q * q
  {
    var xx, yy := x * x, y * y;
    var r := na * yy - nb * xx;
    SquareNonNegative(x);
    SquareNonNegative(y);
    SquareNonNegative(r);
    ProductNonNegative(xx, yy);
    ProductOrder(d * d, na * nb, xx * yy);
    SquareOfProduct(d, x, y, p);
    SquareOfSum(na * yy, nb * xx);
    assert (na * yy) * (nb * xx) == (na * nb) * (xx * yy);
  }

  lemma {:induction false} SquareOfProduct(d: real, x: real, y: real, p: real)
    requires p == 2.0 * d * x * y
    ensures p * p == 4.0 * ((d * d) * ((x * x) * (y * y)))
  {}

  lemma {:induction false} SquareOfSum(u: real, v: real)
    ensures (u + v) * (u + v) == (u - v) * (u - v) + 4.0 * (u * v)
  {}

  lemma {:induction false} SquareNonNegative(x: real)
    ensures x * x >= 0.0
  {}

  lemma SquareOrder(p: real, q: real)
    requires p * p <= q * q && q >= 0.0
    ensures p <= q
  {
    if p > q {
      LargerSquare(p, q);
    }
  }

  lemma LargerSquare(p: real, q: real)
    requires p > q >= 0.0
    ensures p * p > q * q
  {
    var s, d := p + q, p - q;
    assert d * s > 0.0;
    assert d * s == p * p - q * q;
  }

  // The Cauchy-Schwarz inequality for a dot product d and squared norms na, nb.
  ghost predicate Bound(d: real, na: real, nb: real) { d * d <= na * nb && na >= 0.0 && nb >= 0.0 }

  // Adding the summands of any one word keeps p.
  ghost predicate Keeps(p: (real, real, real) -> bool, f: string -> real, g: string -> real, h: string -> real) {
    forall k, x, y, z, x1, y1, z1 {:trigger p(x, y, z), p(x1, y1, z1), f(k)} ::
      p(x, y, z) && x1 == f(k) + x && y1 == g(k) + y && z1 == h(k) + z ==> p(x1, y1, z1)
  }

  // What holds of three empty sums and is kept by every summand holds of the sums.
  lemma {:induction false} SumsKeep(s: set<string>, f: string -> real, g: string -> real, h: string -> real,
                                    p: (real, real, real) -> bool)
    requires p(0.0, 0.0, 0.0) && Keeps(p, f, g, h)
    ensures p(SumOver(s, f), SumOver(s, g), SumOver(s, h))
    decreases s
  {
    if k :| k in s {
      SumTake(s, f, k);
      SumTake(s, g, k);
      SumTake(s, h, k);
      SumsKeep(s - {k}, f, g, h, p);
    }
  }

  lemma DotsKeep(a: map<string, real>, b: map<string, real>, p: (real, real, real) -> bool)
    requires p(0.0, 0.0, 0.0) && Keeps(p, Product(a, b), Product(a, a), Product(b, b))
    ensures p(Dot(a, b), Dot(a, a), Dot(b, b))
  {
    var all := a.Keys + b.Keys;
    SumsKeep(all, Product(a, b), Product(a, a), Product(b, b), p);
    DotOverUnion(a, b, all);
    DotOverUnion(a, a, all);
    DotOverUnion(b, b, all);
  }

  ghost predicate Triple(x: real, y: real, z: real) { true }

  // p is Bound; Triple keeps the products out of proofs that only pass p on.
  ghost predicate IsBound(p: (real, real, real) -> bool) {
    forall x, y, z {:trigger Triple(x, y, z)} :: Triple(x, y, z) ==> p(x, y, z) == Bound(x, y, z)
  }

  lemma BoundKept(p: (real, real, real) -> bool, u: real, v: real, uv: real, uu: real, vv: real,
                  d: real, na: real, nb: real, d1: real, na1: real, nb1: real)
    requires IsBound(p) && p(d, na, nb) && uv == u * v && uu == u * u && vv == v * v
    requires d1 == uv + d && na1 == uu + na && nb1 == vv + nb
    ensures p(d1, na1, nb1)
  {
    assert Triple(d, na, nb) && Triple(d1, na1, nb1);
    CrossTermBound(d, na, nb, u, v, d1, na1, nb1);
  }

  lemma CrossTermBound(d: real, na: real, nb: real, u: real, v: real, d1: real, na1: real, nb1: real)
    requires Bound(d, na, nb) && d1 == u * v + d && na1 == u * u + na && nb1 == v * v + nb
    ensures Bound(d1, na1, nb1)
  {
    SquareNonNegative(u);
    SquareNonNegative(v);
    CrossTerm(d, na, nb, u, v, d1, na1, nb1);
  }

  predicate ProductsAt(u: string -> real, v: string -> real, uv: string -> real, uu: string -> real, vv: string -> real,
                       k: string)
  {
    uv(k) == u(k) * v(k) && uu(k) == u(k) * u(k) && vv(k) == v(k) * v(k)
  }

  // The function values u, v stand for the weights of a word in either text.
  lemma BoundKeeps(p: (real, real, real) -> bool, u: string -> real, v: string -> real,
                   uv: string -> real, uu: string -> real, vv: string -> real)
    requires IsBound(p)
    requires forall k :: ProductsAt(u, v, uv, uu, vv, k)
    ensures Keeps(p, uv, uu, vv)
  {
    forall k, x, y, z, x1, y1, z1 | p(x, y, z) && x1 == uv(k) + x && y1 == uu(k) + y && z1 == vv(k) + z
      ensures p(x1, y1, z1)
    {
      assert ProductsAt(u, v, uv, uu, vv, k);
      BoundKept(p, u(k), v(k), uv(k), uu(k), vv(k), x, y, z, x1, y1, z1);
    }
  }

  lemma ProductsHere(a: map<string, real>, b: map<string, real>, u: string -> real, v: string -> real, k: string)
    requires u(k) == WordWeight(a, k) && v(k) == WordWeight(b, k)
    ensures ProductsAt(u, v, Product(a, b), Product(a, a), Product(b, b), k)
  {}

  lemma {:induction false} BoundItself(p: (real, real, real) -> bool)
    requires p == ((d: real, na: real, nb: real) => Bound(d, na, nb))
    ensures IsBound(p) && p(0.0, 0.0, 0.0)
  {}

  // The square of the dot product is at most the product of the squared norms.
  lemma DotCauchySchwarz(a: map<string, real>, b: map<string, real>)
    ensures Bound(Dot(a, b), Dot(a, a), Dot(b, b))
  {
    var p := (d: real, na: real, nb: real) => Bound(d, na, nb);
    var u, v := (k: string) => WordWeight(a, k), (k: string) => WordWeight(b, k);
    forall k ensures ProductsAt(u, v, Product(a, b), Product(a, a), Product(b, b), k) {
      ProductsHere(a, b, u, v, k);
    }
    BoundItself(p);
    BoundKeeps(p, u, v, Product(a, b), Product(a, a), Product(b, b));
    DotsKeep(a, b, p);
  }

  ghost predicate NonNegative(v: map<string, real>) { forall k <- v :: v[k] >= 0.0 }

  lemma DotNonNegative(a: map<string, real>, b: map<string, real>)
    requires NonNegative(a) && NonNegative(b)
    ensures Dot(a, b) >= 0.0
  {
    forall k | k in a.Keys ensures Product(a, b)(k) >= 0.0 { ProductNonNegative(WordWeight(a, k), WordWeight(b, k)); }
    SumNonNegative(a.Keys, Product(a, b));
  }

  // Cosine similarity of word counts lies between 0 and 1.
  lemma CosineInUnitInterval(a: map<string, real>, b: map<string, real>, sqrt: real -> real)
    requires IsSqrt(sqrt) && NonNegative(a) && NonNegative(b)
    ensures 0.0 <= Cosine(a, b, sqrt) <= 1.0
  {
    DotCauchySchwarz(a, b);
    DotNonNegative(a, b);
    NormalisedInUnit(Dot(a, b), Dot(a, a), Dot(b, b), sqrt);
  }

  lemma NormalisedInUnit(d: real, na: real, nb: real, sqrt: real -> real)
    requires IsSqrt(sqrt) && d >= 0.0 && Bound(d, na, nb)
    ensures 0.0 <= Normalised(d, na, nb, sqrt) <= 1.0
  {
    var ra, rb := sqrt(na), sqrt(nb);
    assert ra >= 0.0 && ra * ra == na;
    assert rb >= 0.0 && rb * rb == nb;
    QuotientInUnit(d, na, nb, ra, rb);
    assert Normalised(d, na, nb, sqrt) == if ra * rb == 0.0 then 0.0 else d / (ra * rb);
  }

  lemma QuotientInUnit(d: real, na: real, nb: real, ra: real, rb: real)
    requires d >= 0.0 && d * d <= na * nb
    requires ra >= 0.0 && rb >= 0.0 && ra * ra == na && rb * rb == nb
    ensures ra * rb != 0.0 ==> 0.0 <= d / (ra * rb) <= 1.0
  {
    var r := ra * rb;
    ProductNonNegative(ra, rb);
    assert r * r == na * nb;
    SquareOrder(d, r);
    if r != 0.0 { FractionInUnit(d, r); }
  }

  lemma {:induction false} FractionInUnit(d: real, r: real)
    requires 0.0 <= d <= r && r > 0.0
    ensures 0.0 <= d / r <= 1.0
  {}
}
