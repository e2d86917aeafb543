/**
 * Near-duplicate scoring (lineage.py:60-144).
 *
 * A token counter is a dictionary in insertion order; `Put` is the entry inserted last.  The
 * cosine is kept as a fraction of squares, `dot^2 / (norm^2 * norm^2)`, so that no square
 * root or rounding is involved.
 */
module Similarity {
  import opened Common

  datatype Counter = Empty | Put(rest: Counter, token: string, count: nat)

  /** `counter.get(token, 0)`. */
  function Get(c: Counter, token: string): nat {
    match c
    case Empty => 0
    case Put(rest, t, n) => if t == token then n else Get(rest, token)
  }

  /** Keys are distinct and every count is positive. */
  predicate IsCounter(c: Counter) {
    match c
    case Empty => true
    case Put(rest, t, n) => 0 < n && Get(rest, t) == 0 && IsCounter(rest)
  }

  /** `Counter(tokens)`. */
  function Count(tokens: seq<string>): Counter {
    if tokens == [] then Empty else Increment(Count(tokens[..|tokens| - 1]), tokens[|tokens| - 1])
  }

  function Increment(c: Counter, token: string): Counter {
    match c
    case Empty => Put(Empty, token, 1)
    case Put(rest, t, n) => if t == token then Put(rest, t, n + 1) else Put(Increment(rest, token), t, n)
  }

  /** `sum(value * right.get(token, 0) for token, value in left.items())`. */
  function Dot(left: Counter, right: Counter): nat {
    match left
    case Empty => 0
    case Put(rest, t, n) => Dot(rest, right) + n * Get(right, t)
  }

  function SquaredNorm(c: Counter): nat {
    match c
    case Empty => 0
    case Put(rest, t, n) => SquaredNorm(rest) + n * n
  }

  function Without(c: Counter, token: string): Counter {
    match c
    case Empty => Empty
    case Put(rest, t, n) => if t == token then rest else Put(Without(rest, token), t, n)
  }

  // ---------------------------------------------------------------------------------------
  // Counting
  // ---------------------------------------------------------------------------------------

  lemma {:induction false} IncrementLaws(c: Counter, token: string)
    requires IsCounter(c)
    ensures IsCounter(Increment(c, token))
    ensures forall t :: Get(Increment(c, token), t) == Get(c, t) + if t == token then 1 else 0
  {
    match c
    case Empty =>
    case Put(rest, t, n) =>
      if t != token {
        IncrementLaws(rest, token);
      }
  }

  /** The counter of a token list holds each token's multiplicity. */
  lemma {:induction false} CountLaws(tokens: seq<string>)
    ensures IsCounter(Count(tokens))
    ensures forall t :: Get(Count(tokens), t) == multiset(tokens)[t]
  {
    if tokens != [] {
      var front, last := tokens[..|tokens| - 1], tokens[|tokens| - 1];
      CountLaws(front);
      IncrementLaws(Count(front), last);
      assert tokens == front + [last];
    }
  }

  // ---------------------------------------------------------------------------------------
  // Cauchy-Schwarz
  // ---------------------------------------------------------------------------------------

  /** Taking one token out of a counter takes exactly its count out of every other quantity. */
  lemma {:induction false} WithoutLaws(c: Counter, token: string)
    requires IsCounter(c)
    ensures IsCounter(Without(c, token))
    ensures SquaredNorm(c) == SquaredNorm(Without(c, token)) + Get(c, token) * Get(c, token)
    ensures forall t :: Get(Without(c, token), t) == if t == token then 0 else Get(c, t)
  {
    match c
    case Empty =>
    case Put(rest, t, n) =>
      if t != token {
        WithoutLaws(rest, token);
      }
  }

  lemma {:induction false} DotIgnoresAbsent(left: Counter, right: Counter, token: string)
    requires IsCounter(left) && IsCounter(right) && Get(left, token) == 0
    ensures Dot(left, Without(right, token)) == Dot(left, right)
  {
    match left
    case Empty =>
    case Put(rest, t, n) =>
      DotIgnoresAbsent(rest, right, token);
      WithoutLaws(right, token);
  }

  lemma Exchange(a: int, b: int, c: int, d: int)
    ensures (a * b) * (c * d) == (a * c) * (b * d)
  {
  }

  lemma SquareOfSum(p: int, z: int)
    ensures (p + z) * (p + z) == p * p + 2 * (p * z) + z * z
  {
  }

  lemma ProductOfSums(a: int, x: int, b: int, y: int)
    ensures (a + x) * (b + y) == a * b + a * y + b * x + x * y
  {
  }

  lemma SquareReflects(a: nat, b: nat)
    requires a * a <= b * b
    ensures a <= b
  {
    if b < a {
      MulMonotone(b, a, b);
      MulMonotone(b + 1, a, a);
    }
  }

  /** `m^2 <= u v` gives `2 m <= u + v`. */
  lemma TwiceGeometricMean(m: nat, u: nat, v: nat)
    requires m * m <= u * v
    ensures 2 * m <= u + v
  {
    SquareOfSum(u, v);
    var w: int := 0 - v;
    SquareOfSum(u, w);
    assert 0 <= (u - v) * (u - v);
    assert (2 * m) * (2 * m) == 4 * (m * m);
    SquareReflects(2 * m, u + v);
  }

  /** `2 p x y <= a y^2 + b x^2` whenever `p^2 <= a b`. */
  lemma CrossTerm(p: nat, a: nat, b: nat, x: nat, y: nat)
    requires p * p <= a * b
    ensures 2 * (p * (x * y)) <= a * (y * y) + b * (x * x)
  {
    Exchange(p, x * y, p, x * y);
    Exchange(a, y * y, b, x * x);
    Exchange(x, y, x, y);
    MulMonotone(p * p, a * b, (x * y) * (x * y));
    TwiceGeometricMean(p * (x * y), a * (y * y), b * (x * x));
  }

  /** `(p + x y)^2 <= (a + x^2)(b + y^2)` whenever `p^2 <= a b`. */
  lemma CauchySchwarzStep(p: nat, a: nat, b: nat, x: nat, y: nat)
    requires p * p <= a * b
    ensures (p + x * y) * (p + x * y) <= (a + x * x) * (b + y * y)
  {
    CrossTerm(p, a, b, x, y);
    Exchange(x, y, x, y);
    SquareOfSum(p, x * y);
    ProductOfSums(a, x * x, b, y * y);
  }

  /** Cauchy-Schwarz on token counts: the cosine never exceeds one. */
  lemma {:induction false} CosineAtMostOne(left: Counter, right: Counter)
    requires IsCounter(left) && IsCounter(right)
    ensures Dot(left, right) * Dot(left, right) <= SquaredNorm(left) * SquaredNorm(right)
    decreases left
  {
    match left
    case Empty =>
    case Put(front, token, x) =>
      var rest, y := Without(right, token), Get(right, token);
      WithoutLaws(right, token);
      DotIgnoresAbsent(front, right, token);
      CosineAtMostOne(front, rest);
      CauchySchwarzStep(Dot(front, rest), SquaredNorm(front), SquaredNorm(rest), x, y);
  }

  /** Iterating either side gives the same dot product. */
  lemma {:induction false} DotSymmetric(left: Counter, right: Counter)
    requires IsCounter(left) && IsCounter(right)
    ensures Dot(left, right) == Dot(right, left)
    decreases left
  {
    match left
    case Empty =>
      DotWithEmpty(right);
    case Put(rest, token, n) =>
      DotSymmetric(rest, right);
      DotGrowsOnRight(right, rest, token, n);
  }

  lemma {:induction false} DotWithEmpty(c: Counter)
    ensures Dot(c, Empty) == 0
  {
    match c
    case Empty =>
    case Put(rest, _, _) => DotWithEmpty(rest);
  }

  lemma {:induction false} DotGrowsOnRight(c: Counter, right: Counter, token: string, n: nat)
    requires IsCounter(c) && Get(right, token) == 0
    ensures Dot(c, Put(right, token, n)) == Dot(c, right) + n * Get(c, token)
  {
    match c
    case Empty =>
    case Put(rest, t, m) => DotGrowsOnRight(rest, right, token, n);
  }

  /** A text compared with itself scores exactly one, and a non-empty counter has a norm. */
  lemma {:induction false} SelfCosineIsOne(c: Counter)
    requires IsCounter(c)
    ensures Dot(c, c) == SquaredNorm(c)
    ensures c != Empty ==> 0 < SquaredNorm(c)
  {
    match c
    case Empty =>
    case Put(rest, token, n) =>
      SelfCosineIsOne(rest);
      DotGrowsOnRight(rest, rest, token, n);
      assert 0 < n * n;
  }

  ghost predicate SameCounts(a: Counter, b: Counter) {
    forall t :: Get(a, t) == Get(b, t)
  }

  lemma {:induction false} DotDependsOnCounts(c: Counter, a: Counter, b: Counter)
    requires SameCounts(a, b)
    ensures Dot(c, a) == Dot(c, b)
  {
    match c
    case Empty =>
    case Put(rest, _, _) => DotDependsOnCounts(rest, a, b);
  }

  /** Word order is irrelevant: texts with the same words score alike against everything. */
  lemma CosineIgnoresOrder(tokens: seq<string>, shuffled: seq<string>, other: Counter)
    requires multiset(tokens) == multiset(shuffled) && IsCounter(other)
    ensures var a, b := Count(tokens), Count(shuffled);
            Dot(a, other) == Dot(b, other) && SquaredNorm(a) == SquaredNorm(b)
  {
    var a, b := Count(tokens), Count(shuffled);
    CountLaws(tokens);
    CountLaws(shuffled);
    DotSymmetric(a, other);
    DotSymmetric(b, other);
    DotDependsOnCounts(other, a, b);
    SelfCosineIsOne(a);
    SelfCosineIsOne(b);
    DotDependsOnCounts(a, a, b);
    DotSymmetric(a, b);
    DotDependsOnCounts(b, a, b);
  }

  // ---------------------------------------------------------------------------------------
  // MinHash
  // ---------------------------------------------------------------------------------------

  const PERMUTATIONS: nat := 64
  const WIDTH: nat := 5

  /** A shingle is the list of tokens that the code joins with blanks. */
  type Shingle = seq<string>

  function Shingles(tokens: seq<string>): seq<Shingle> {
    if tokens == [] then []
    else if |tokens| < WIDTH then [tokens]
    else seq(|tokens| - WIDTH + 1, i requires 0 <= i <= |tokens| - WIDTH => tokens[i..i + WIDTH])
  }

  ghost predicate IsLeast(least: nat, seed: nat, shingles: set<Shingle>, hash: (nat, Shingle) -> nat) {
    && (exists s :: s in shingles && hash(seed, s) == least)
    && (forall s | s in shingles :: least <= hash(seed, s))
  }

  ghost predicate IsSignature(signature: seq<nat>, shingles: set<Shingle>, hash: (nat, Shingle) -> nat) {
    if shingles == {} then signature == []
    else |signature| == PERMUTATIONS && forall k | 0 <= k < PERMUTATIONS :: IsLeast(signature[k], k, shingles, hash)
  }

  function ShingleSet(tokens: seq<string>): set<Shingle> {
    set s | s in Shingles(tokens)
  }

  method LeastHash(seed: nat, shingles: seq<Shingle>, hash: (nat, Shingle) -> nat) returns (least: nat)
    requires shingles != []
    ensures IsLeast(least, seed, (set s | s in shingles), hash)
  {
    least := hash(seed, shingles[0]);
    for i := 1 to |shingles|
      invariant exists s :: s in shingles[..i] && hash(seed, s) == least
      invariant forall s | s in shingles[..i] :: least <= hash(seed, s)
    {
      if hash(seed, shingles[i]) < least {
        least := hash(seed, shingles[i]);
      }
      assert shingles[i] in shingles[..i + 1];
    }
    assert shingles[..|shingles|] == shingles;
  }

  method MinhashSignature(tokens: seq<string>, hash: (nat, Shingle) -> nat) returns (signature: seq<nat>)
    ensures IsSignature(signature, ShingleSet(tokens), hash)
  {
    var shingles := Shingles(tokens);
    if shingles == [] {
      return [];
    }
    signature := [];
    for seed := 0 to PERMUTATIONS
      invariant |signature| == seed
      invariant forall k | 0 <= k < seed :: IsLeast(signature[k], k, ShingleSet(tokens), hash)
    {
      var least := LeastHash(seed, shingles, hash);
      signature := signature + [least];
    }
    assert shingles[0] in ShingleSet(tokens);
  }

  /** Positions at which two signatures agree. */
  function Agreements(left: seq<nat>, right: seq<nat>): nat
    requires |left| == |right|
  {
    if left == [] then 0
    else Agreements(left[1..], right[1..]) + if left[0] == right[0] then 1 else 0
  }

  datatype Fraction = Fraction(part: nat, whole: nat)

  const ZERO := Fraction(0, 1)

  /** `minhash_similarity`: the share of positions that agree. */
  function MinhashSimilarity(left: seq<nat>, right: seq<nat>): Fraction {
    if left == [] || |left| != |right| then ZERO else Fraction(Agreements(left, right), |left|)
  }

  lemma {:induction false} AgreementLaws(left: seq<nat>, right: seq<nat>)
    requires |left| == |right|
    ensures Agreements(left, right) == Agreements(right, left) <= |left|
    ensures Agreements(left, right) == |left| <==> left == right
  {
    if left != [] {
      AgreementLaws(left[1..], right[1..]);
      assert left == [left[0]] + left[1..] && right == [right[0]] + right[1..];
    }
  }

  /** The score is symmetric, lies between zero and one, and is one only for equal signatures. */
  lemma MinhashIsASimilarity(left: seq<nat>, right: seq<nat>)
    ensures MinhashSimilarity(left, right) == MinhashSimilarity(right, left)
    ensures var f := MinhashSimilarity(left, right);
            f.part <= f.whole && 0 < f.whole && (f.part == f.whole <==> left != [] && left == right)
  {
    if left != [] && |left| == |right| {
      AgreementLaws(left, right);
    }
  }

  /**
   * The signature depends only on the set of shingles: texts with the same shingles, in any
   * order and number, score one; a text without tokens scores zero even against itself.
   */
  lemma EqualShinglesScoreOne(left: seq<string>, right: seq<string>, hash: (nat, Shingle) -> nat, l: seq<nat>, r: seq<nat>)
    requires ShingleSet(left) == ShingleSet(right)
    requires IsSignature(l, ShingleSet(left), hash) && IsSignature(r, ShingleSet(right), hash)
    ensures l == r
    ensures var f := MinhashSimilarity(l, r);
            if left == [] then f.part == 0 else f.part == f.whole
  {
    if left != [] {
      assert Shingles(left)[0] in ShingleSet(left);
      forall k | 0 <= k < PERMUTATIONS ensures l[k] == r[k] {
        assert IsLeast(l[k], k, ShingleSet(left), hash) && IsLeast(r[k], k, ShingleSet(left), hash);
      }
    }
    MinhashIsASimilarity(l, r);
  }

  /** The signature of a union of shingle sets is the pointwise minimum. */
  lemma SignatureOfUnion(a: set<Shingle>, b: set<Shingle>, hash: (nat, Shingle) -> nat, s: seq<nat>, t: seq<nat>, u: seq<nat>)
    requires a != {} && b != {}
    requires IsSignature(s, a, hash) && IsSignature(t, b, hash) && IsSignature(u, a + b, hash)
    ensures forall k | 0 <= k < PERMUTATIONS :: u[k] == if s[k] <= t[k] then s[k] else t[k]
  {
    forall k | 0 <= k < PERMUTATIONS ensures u[k] == if s[k] <= t[k] then s[k] else t[k] {
      assert IsLeast(s[k], k, a, hash) && IsLeast(t[k], k, b, hash) && IsLeast(u[k], k, a + b, hash);
    }
  }

  // ---------------------------------------------------------------------------------------
  // The near-duplicate gate
  // ---------------------------------------------------------------------------------------

  /** `cosine >= 0.92 and minhash >= 0.75`, cleared of the square root. */
  predicate Qualifies(left: Counter, right: Counter, leftSignature: seq<nat>, rightSignature: seq<nat>) {
    && left != Empty && right != Empty
    && 8464 * (SquaredNorm(left) * SquaredNorm(right)) <= 10000 * (Dot(left, right) * Dot(left, right))
    && 3 * MinhashSimilarity(leftSignature, rightSignature).whole <= 4 * MinhashSimilarity(leftSignature, rightSignature).part
  }

  /** The gate does not care which of the two texts is the subject. */
  lemma QualifiesIsSymmetric(left: Counter, right: Counter, l: seq<nat>, r: seq<nat>)
    requires IsCounter(left) && IsCounter(right) && Qualifies(left, right, l, r)
    ensures Qualifies(right, left, r, l)
  {
    DotSymmetric(left, right);
    MinhashIsASimilarity(l, r);
    var m, n := SquaredNorm(left), SquaredNorm(right);
    assert m * n == n * m;
  }

  /** Every text with at least one token passes the gate against itself. */
  lemma QualifiesIsReflexive(c: Counter, signature: seq<nat>)
    requires IsCounter(c) && c != Empty && signature != []
    ensures Qualifies(c, c, signature, signature)
  {
    SelfCosineIsOne(c);
    MinhashIsASimilarity(signature, signature);
    var square := SquaredNorm(c) * SquaredNorm(c);
    assert Dot(c, c) * Dot(c, c) == square && 0 <= square;
  }

  /** The shingles of a text are its runs of five tokens, or the whole text if it is shorter. */
  lemma ShinglesExactly(tokens: seq<string>, s: Shingle)
    ensures s in ShingleSet(tokens) <==>
              if |tokens| < 5 then tokens != [] && s == tokens else exists i: nat, j: nat | j == i + 5 && j <= |tokens| :: s == tokens[i..j]
  {
    if |tokens| >= 5 {
      if i: nat, j: nat :| j == i + 5 && j <= |tokens| && s == tokens[i..j] {
        assert Shingles(tokens)[i] == s;
      }
      if s in ShingleSet(tokens) {
        var i :| 0 <= i < |Shingles(tokens)| && Shingles(tokens)[i] == s;
        assert s == tokens[i..i + 5];
      }
    }
  }

  /** Positions at which the signatures agree, as a set. */
  ghost function Agreeing(left: seq<nat>, right: seq<nat>): set<nat>
    requires |left| == |right|
  {
    set k: nat | k < |left| && left[k] == right[k]
  }

  lemma AgreeingShifts(left: seq<nat>, right: seq<nat>, rest: set<nat>)
    requires |left| == |right| && left != [] && rest == Shifted(Agreeing(left[1..], right[1..]))
    ensures 0 !in rest && Agreeing(left, right) == (if left[0] == right[0] then {0} else {}) + rest
  {
    ShiftedSize(Agreeing(left[1..], right[1..]));
    forall k: nat | k > 0 ensures k in Agreeing(left, right) <==> k in rest {
      assert k in rest <==> k - 1 in Agreeing(left[1..], right[1..]);
    }
  }

  lemma {:induction false} AgreementsAreAgreeing(left: seq<nat>, right: seq<nat>)
    requires |left| == |right|
    ensures Agreements(left, right) == |Agreeing(left, right)|
  {
    if left != [] {
      hide Agreeing, Shifted;
      AgreementsAreAgreeing(left[1..], right[1..]);
      var rest := Shifted(Agreeing(left[1..], right[1..]));
      ShiftedSize(Agreeing(left[1..], right[1..]));
      AgreeingShifts(left, right, rest);
    }
  }

  ghost function Shifted(s: set<nat>): set<nat> {
    set k | k in s :: k + 1
  }

  lemma {:induction false} ShiftedSize(s: set<nat>)
    ensures |Shifted(s)| == |s|
    ensures forall k: nat | k > 0 :: k in Shifted(s) <==> k - 1 in s
    ensures 0 !in Shifted(s)
    decreases |s|
  {
    if k :| k in s {
      ShiftedSize(s - {k});
      assert Shifted(s) == Shifted(s - {k}) + {k + 1};
    }
  }

  /** The product of the squared norms, and the square of the dot product. */
  function Norms(left: Counter, right: Counter): nat {
    SquaredNorm(left) * SquaredNorm(right)
  }

  function DotSquare(left: Counter, right: Counter): nat {
    Dot(left, right) * Dot(left, right)
  }

  /** The cosine of two texts: the non-negative root of the squared dot product over the product of the squared norms. */
  ghost predicate IsCosine(left: Counter, right: Counter, cosine: real) {
    cosine >= 0.0 && cosine * cosine * (Norms(left, right) as real) == DotSquare(left, right) as real
  }

  /**
   * What the gate asks: both texts have tokens, their cosine is at least 0.92, and their signatures
   * agree at three quarters of the positions or more.
   */
  lemma QualifiesExactly(left: Counter, right: Counter, l: seq<nat>, r: seq<nat>, cosine: real)
    requires IsCounter(left) && IsCounter(right) && |l| == |r| && l != [] && IsCosine(left, right, cosine)
    ensures Qualifies(left, right, l, r) <==> left != Empty && right != Empty && cosine >= 0.92 && 4 * |Agreeing(l, r)| >= 3 * |l|
  {
    AgreementsAreAgreeing(l, r);
    if left != Empty && right != Empty {
      NormsArePositive(left, right);
      ThresholdExactly(Norms(left, right), DotSquare(left, right), cosine);
    }
    GateIs(left, right, l, r);
    hide Norms, DotSquare, Qualifies, Agreements, Agreeing, IsCounter;
  }

  lemma GateIs(left: Counter, right: Counter, l: seq<nat>, r: seq<nat>)
    requires |l| == |r| && l != []
    ensures Qualifies(left, right, l, r) <==>
              left != Empty && right != Empty && 8464 * Norms(left, right) <= 10000 * DotSquare(left, right) && 3 * |l| <= 4 * Agreements(l, r)
  {
    hide Dot, SquaredNorm, Agreements;
  }

  lemma NormsArePositive(left: Counter, right: Counter)
    requires IsCounter(left) && IsCounter(right) && left != Empty && right != Empty
    ensures Norms(left, right) > 0
  {
    SelfCosineIsOne(left);
    SelfCosineIsOne(right);
    MulMonotone(1, SquaredNorm(left), SquaredNorm(right));
  }

  lemma ThresholdExactly(n: nat, d: nat, cosine: real)
    requires n > 0 && cosine >= 0.0 && cosine * cosine * (n as real) == d as real
    ensures 8464 * n <= 10000 * d <==> cosine >= 0.92
  {
    var x, c := n as real, cosine * cosine;
    assert (8464 * n) as real == 8464.0 * x && (10000 * d) as real == 10000.0 * (d as real);
    SquareAgainst(cosine);
    ScaleExactly(c, x);
  }

  lemma ProductIsNonNegative(a: real, b: real)
    requires a >= 0.0 && b >= 0.0
    ensures a * b >= 0.0
  {
  }

  lemma SquareAgainst(cosine: real)
    requires cosine >= 0.0
    ensures cosine * cosine >= 0.8464 <==> cosine >= 0.92
  {
    if cosine >= 0.92 {
      ProductIsNonNegative(cosine - 0.92, cosine);
      assert (cosine - 0.92) * cosine == cosine * cosine - 0.92 * cosine;
    } else {
      ProductIsNonNegative(0.92 - cosine, cosine);
      assert (0.92 - cosine) * cosine == 0.92 * cosine - cosine * cosine;
    }
  }

  lemma ScaleExactly(c: real, x: real)
    requires x > 0.0
    ensures 8464.0 * x <= 10000.0 * (c * x) <==> c >= 0.8464
  {
    if c >= 0.8464 {
      assert (c - 0.8464) * x >= 0.0;
    } else {
      assert (0.8464 - c) * x > 0.0;
    }
  }
}
