/** scoring.py: MCRIT scores and candidate statistics as bytes, over exact reals. */
module Scoring {
  import opened Collections

  const CONFIDENCE_FULL_BYTES := 64.0
  const CLEAR_MARGIN := 10.0

  /** `flags & (1 << 1)`, for any integer in two's complement. */
  predicate IsPicHash(flags: int) {
    (flags / 2) % 2 == 1
  }

  /** `flags & (1 << 2)`. */
  predicate IsLibrary(flags: int) {
    (flags / 4) % 2 == 1
  }

  /** Python's `round`: to the nearest integer, ties to the even one. */
  function Round(x: real): int {
    var low := x.Floor;
    var rest := x - low as real;
    if rest < 0.5 || (rest == 0.5 && low % 2 == 0) then low else low + 1
  }

  function ClampScore(value: int): int {
    if value < 0 then 0 else if value > 255 then 255 else value
  }

  function SimilarityFromMinhash(score: real): int {
    if score <= 0.0 then 0
    else if score >= 100.0 then 255
    else ClampScore(Round(score / 100.0 * 255.0))
  }

  function UniquenessWeight(margin: Option<real>): real {
    if margin.None? then 1.0
    else
      var weight := 0.5 + margin.value / (2.0 * CLEAR_MARGIN);
      var capped := if weight > 1.0 then 1.0 else weight;
      if capped < 0.25 then 0.25 else capped
  }

  function SizeWeight(numBytes: real): real {
    var size := if numBytes < 0.0 then 0.0 else numBytes;
    if size >= CONFIDENCE_FULL_BYTES then 1.0 else size / CONFIDENCE_FULL_BYTES
  }

  function ConfidenceFromMatch(
    score: real, flags: int, numBytes: real, margin: Option<real>, pichashCandidates: nat): int
  {
    if IsPicHash(flags) then (if pichashCandidates <= 1 then 255 else 128)
    else ClampScore(Round(Weighted(score, numBytes, margin)))
  }

  function Weighted(score: real, numBytes: real, margin: Option<real>): real {
    Product(SimilarityFromMinhash(score) as real, SizeWeight(numBytes), UniquenessWeight(margin))
  }

  function Product(similarity: real, size: real, uniqueness: real): real {
    similarity * size * uniqueness
  }

  // ---------------------------------------------------------------- bounds and monotonicity

  lemma RoundIsNearest(x: real)
    ensures -0.5 <= Round(x) as real - x <= 0.5
    ensures Round(x) as real - x == 0.5 || Round(x) as real - x == -0.5 ==> Round(x) % 2 == 0
  {
  }

  lemma RoundIsMonotone(x: real, y: real)
    requires x <= y
    ensures Round(x) <= Round(y)
  {
    RoundIsNearest(x);
    RoundIsNearest(y);
  }

  lemma SimilarityIsMonotone(x: real, y: real)
    requires x <= y
    ensures 0 <= SimilarityFromMinhash(x) <= SimilarityFromMinhash(y) <= 255
  {
    if 0.0 < x && y < 100.0 {
      RoundIsMonotone(x / 100.0 * 255.0, y / 100.0 * 255.0);
    }
  }

  /** A tie halves the confidence, a lead of ten points keeps it, trailing floors at a quarter. */
  lemma UniquenessIsMonotone(x: real, y: real)
    requires x <= y
    ensures 0.25 <= UniquenessWeight(Some(x)) <= UniquenessWeight(Some(y)) <= 1.0
    ensures UniquenessWeight(Some(x)) > 0.5 <==> x > 0.0
    ensures UniquenessWeight(Some(x)) == 1.0 <==> x >= 10.0
  {
  }

  lemma ProductMonotone(a: real, b: real, c: real, d: real)
    requires 0.0 <= a <= b && 0.0 <= c <= d
    ensures 0.0 <= a * c <= b * d
  {
    assert b * d - a * c == (b - a) * d + a * (d - c);
  }

  lemma TripleProductMonotone(a: real, b: real, w: real, c: real, d: real)
    requires 0.0 <= a <= b && 0.0 <= w && 0.0 <= c <= d
    ensures 0.0 <= Product(a, w, c) <= Product(b, w, d)
  {
    ProductMonotone(a, b, w, w);
    var x, y := a * w, b * w;
    ProductMonotone(x, y, c, d);
  }

  /** For one size, a higher score with at least the same lead never has a lower confidence. */
  lemma ConfidenceIsMonotone(
    x: real, y: real, flags1: int, flags2: int, numBytes: real, m1: Option<real>, m2: Option<real>, p1: nat, p2: nat)
    requires x <= y && !IsPicHash(flags1) && !IsPicHash(flags2)
    requires m1.Some? && m2.Some? && m1.value <= m2.value
    ensures 0 <= ConfidenceFromMatch(x, flags1, numBytes, m1, p1)
              <= ConfidenceFromMatch(y, flags2, numBytes, m2, p2) <= 255
  {
    WeightedIsMonotone(x, y, numBytes, m1, m2);
    hide Weighted, Round;
    RoundIsMonotone(Weighted(x, numBytes, m1), Weighted(y, numBytes, m2));
  }

  lemma WeightedIsMonotone(x: real, y: real, numBytes: real, m1: Option<real>, m2: Option<real>)
    requires x <= y && m1.Some? && m2.Some? && m1.value <= m2.value
    ensures Weighted(x, numBytes, m1) <= Weighted(y, numBytes, m2)
  {
    assert SizeWeight(numBytes) >= 0.0;
    assert m1 == Some(m1.value) && m2 == Some(m2.value);
    hide SimilarityFromMinhash, SizeWeight, UniquenessWeight, Product;
    SimilarityIsMonotone(x, y);
    UniquenessIsMonotone(m1.value, m2.value);
    TripleProductMonotone(SimilarityFromMinhash(x) as real, SimilarityFromMinhash(y) as real, SizeWeight(numBytes),
                          UniquenessWeight(m1), UniquenessWeight(m2));
  }

  /** A similarity is the nearest byte to the score on a scale from 0 to 255, and saturates outside 0 to 100. */
  lemma SimilarityIsNearestByte(score: real)
    ensures 0.0 <= score <= 100.0 ==> -0.5 <= SimilarityFromMinhash(score) as real - score * 2.55 <= 0.5
    ensures score < 0.0 ==> SimilarityFromMinhash(score) == 0
    ensures score > 100.0 ==> SimilarityFromMinhash(score) == 255
  {
    if 0.0 < score < 100.0 {
      RoundIsNearest(score / 100.0 * 255.0);
    }
  }

  /**
   * Without a PicHash the confidence is never above the similarity; it is the similarity for a function of full size
   * that is alone or leads by ten points, and half of it, to the nearest byte, for a tie.
   */
  lemma ConfidenceAgainstSimilarity(score: real, flags: int, numBytes: real, margin: Option<real>, pichash: nat)
    requires !IsPicHash(flags)
    ensures var similarity, confidence := SimilarityFromMinhash(score),
                                          ConfidenceFromMatch(score, flags, numBytes, margin, pichash);
            && 0 <= confidence <= similarity
            && (numBytes <= 0.0 ==> confidence == 0)
            && (numBytes >= 64.0 ==>
                  && (margin.None? || margin.value >= 10.0 ==> confidence == similarity)
                  && (margin == Some(0.0) ==> -1 <= 2 * confidence - similarity <= 1))
  {
    var similarity, size, weight := SimilarityFromMinhash(score), SizeWeight(numBytes), UniquenessWeight(margin);
    assert 0.0 <= size <= 1.0 && 0.25 <= weight <= 1.0;
    assert (numBytes <= 0.0 ==> size == 0.0) && (numBytes >= 64.0 ==> size == 1.0);
    assert (margin.None? || margin.value >= 10.0 ==> weight == 1.0) && (margin == Some(0.0) ==> weight == 0.5);
    hide SimilarityFromMinhash, SizeWeight, UniquenessWeight, Round, Product;
    SimilarityIsMonotone(score, score);
    ProductIsBelow(similarity as real, size, weight);
    RoundIsBelow(Product(similarity as real, size, weight), similarity);
  }

  /**
   * Without a PicHash the confidence is the nearest integer to the similarity times two weights: a sixty-fourth for
   * each byte up to 64, and a half plus a twentieth of the lead, kept between a quarter and one.
   */
  lemma ConfidenceIsNearestProduct(
    score: real, flags: int, numBytes: real, margin: Option<real>, pichash: nat, size: real, weight: real)
    requires !IsPicHash(flags)
    requires size == if numBytes <= 0.0 then 0.0 else if numBytes >= 64.0 then 1.0 else numBytes / 64.0
    requires weight == if margin.None? || margin.value >= 10.0 then 1.0
                       else if margin.value <= -5.0 then 0.25 else 0.5 + margin.value / 20.0
    ensures IsNearest(ConfidenceFromMatch(score, flags, numBytes, margin, pichash), SimilarityFromMinhash(score), size,
                      weight)
  {
    SizeAndWeight(numBytes, margin);
    ConfidenceOfProduct(score, flags, numBytes, margin, pichash);
    hide *;
    SimilarityIsMonotone(score, score);
    assert 0.0 <= size <= 1.0 && 0.0 <= weight <= 1.0;
    RoundedProduct(SimilarityFromMinhash(score), size, weight);
  }

  predicate IsNearest(n: int, similarity: int, size: real, weight: real) {
    -0.5 <= n as real - similarity as real * size * weight <= 0.5
  }

  lemma ConfidenceOfProduct(score: real, flags: int, numBytes: real, margin: Option<real>, pichash: nat)
    requires !IsPicHash(flags)
    ensures ConfidenceFromMatch(score, flags, numBytes, margin, pichash)
            == ClampScore(Round(Product(SimilarityFromMinhash(score) as real, SizeWeight(numBytes),
                                        UniquenessWeight(margin))))
  {
    hide Product, SimilarityFromMinhash, SizeWeight, UniquenessWeight, Round;
  }

  lemma SizeAndWeight(numBytes: real, margin: Option<real>)
    ensures SizeWeight(numBytes)
            == if numBytes <= 0.0 then 0.0 else if numBytes >= 64.0 then 1.0 else numBytes / 64.0
    ensures UniquenessWeight(margin)
            == if margin.None? || margin.value >= 10.0 then 1.0
               else if margin.value <= -5.0 then 0.25 else 0.5 + margin.value / 20.0
    ensures 0.0 <= SizeWeight(numBytes) <= 1.0 && 0.25 <= UniquenessWeight(margin) <= 1.0
  {
  }

  lemma RoundedProduct(similarity: int, size: real, weight: real)
    requires 0 <= similarity <= 255 && 0.0 <= size <= 1.0 && 0.0 <= weight <= 1.0
    ensures IsNearest(ClampScore(Round(Product(similarity as real, size, weight))), similarity, size, weight)
  {
    ProductIsBelow(similarity as real, size, weight);
    assert Product(similarity as real, size, weight) == similarity as real * size * weight;
    hide Product, Round;
    RoundIsBelow(Product(similarity as real, size, weight), similarity);
  }

  /** The flags of a match, bit by bit: `low` are the bits below, `high` is what is above. */
  lemma FlagBits(high: int, low: int)
    ensures 0 <= low < 2 ==> IsPicHash(4 * high + 2 + low) && !IsPicHash(4 * high + low)
    ensures 0 <= low < 4 ==> IsLibrary(8 * high + 4 + low) && !IsLibrary(8 * high + low)
  {
    if 0 <= low < 2 {
      assert (4 * high + 2 + low) / 2 == 2 * high + 1 && (4 * high + low) / 2 == 2 * high;
    }
    if 0 <= low < 4 {
      assert (8 * high + 4 + low) / 4 == 2 * high + 1 && (8 * high + low) / 4 == 2 * high;
    }
  }

  lemma RoundIsBelow(x: real, n: int)
    requires 0.0 <= x <= n as real
    ensures 0 <= Round(x) <= n && -0.5 <= Round(x) as real - x <= 0.5
    ensures x == n as real ==> Round(x) == n
  {
    RoundIsMonotone(x, n as real);
  }

  lemma ProductIsBelow(s: real, size: real, weight: real)
    requires 0.0 <= s && 0.0 <= size <= 1.0 && 0.0 <= weight <= 1.0
    ensures 0.0 <= Product(s, size, weight) <= s
    ensures size == 0.0 ==> Product(s, size, weight) == 0.0
    ensures size == 1.0 && weight == 1.0 ==> Product(s, size, weight) == s
    ensures size == 1.0 && weight == 0.5 ==> Product(s, size, weight) == s / 2.0
  {
    ProductMonotone(s, s, size, 1.0);
    var x := s * size;
    ProductMonotone(x, s, weight, 1.0);
  }
}
