/** Integer shares `floor(i * total / parts)`: the one piece of arithmetic behind every decimation of the program. */
module EvenSpread {

  function Share(i: nat, total: nat, parts: nat): nat
    requires parts > 0
  {
    i * total / parts
  }

  /** A quotient is known by the multiples on either side. */
  lemma QuotientIs(x: nat, d: nat, q: nat)
    requires d > 0 && q * d <= x < q * d + d
    ensures x / d == q
  {
    var p := x / d;
    assert p * d <= x < p * d + d;
    if p < q {
      MulLeq(p + 1, q, d);
    } else if q < p {
      MulLeq(q + 1, p, d);
    }
  }

  lemma MulLeq(a: nat, b: nat, d: nat)
    requires a <= b
    ensures a * d <= b * d
  {
  }

  lemma ShareEnds(total: nat, parts: nat)
    requires parts > 0
    ensures Share(0, total, parts) == 0 && Share(parts, total, parts) == total
  {
    QuotientIs(parts * total, parts, total);
  }

  /** A share is the largest number whose multiple does not exceed the product. */
  lemma ShareIsFloor(i: nat, total: nat, parts: nat)
    requires parts > 0
    ensures Share(i, total, parts) * parts <= i * total < (Share(i, total, parts) + 1) * parts
  {
    var x, q := i * total, i * total / parts;
    assert x == q * parts + x % parts;
    assert (q + 1) * parts == q * parts + parts;
  }

  /** No part has more than one element more than another. */
  lemma ShareBalanced(i: nat, total: nat, parts: nat)
    requires parts > 0
    ensures total / parts <= Share(i + 1, total, parts) - Share(i, total, parts) <= total / parts + 1
  {
    assert (i + 1) * total == i * total + total;
    QuotientOfSum(i * total, total, parts);
  }

  lemma QuotientOfSum(x: nat, y: nat, d: nat)
    requires d > 0
    ensures x / d + y / d <= (x + y) / d <= x / d + y / d + 1
  {
    var rest := x % d + y % d;
    assert x + y == (x / d + y / d) * d + rest by {
      assert (x / d + y / d) * d == (x / d) * d + (y / d) * d;
    }
    QuotientSplit(x / d + y / d, rest, d);
    QuotientIs(rest, d, if rest < d then 0 else 1);
  }

  /** One more part is at least one more element, as long as there are no more parts than elements. */
  lemma ShareStep(i: nat, total: nat, parts: nat)
    requires 0 < parts <= total
    ensures Share(i, total, parts) < Share(i + 1, total, parts)
  {
    var x := i * total;
    var q := x / parts;
    assert (i + 1) * total == x + total;
    assert q * parts <= x < q * parts + parts;
    QuotientIs(x + parts, parts, q + 1);
    DivMonotone(x + parts, x + total, parts);
  }

  lemma DivMonotone(a: nat, b: nat, d: nat)
    requires a <= b && d > 0
    ensures a / d <= b / d
  {
    if b / d < a / d {
      MulLeq(b / d + 1, a / d, d);
    }
  }

  /** Shares are strictly increasing. */
  lemma {:induction false} ShareIncreasing(i: nat, j: nat, total: nat, parts: nat)
    requires 0 < parts <= total && i < j
    ensures Share(i, total, parts) < Share(j, total, parts)
    decreases j
  {
    ShareStep(j - 1, total, parts);
    if i < j - 1 {
      ShareIncreasing(i, j - 1, total, parts);
    }
  }

  /** Every element lies in exactly one part. */
  lemma {:induction false} ShareTiles(x: nat, total: nat, parts: nat, upTo: nat) returns (part: nat)
    requires 0 < parts <= total && 0 < upTo <= parts && x < Share(upTo, total, parts)
    ensures part < upTo && Share(part, total, parts) <= x < Share(part + 1, total, parts)
    decreases upTo
  {
    ShareEnds(total, parts);
    if Share(upTo - 1, total, parts) <= x {
      part := upTo - 1;
    } else {
      part := ShareTiles(x, total, parts, upTo - 1);
    }
  }

  /** A multiple of the divisor comes out of a quotient. */
  lemma QuotientSplit(whole: nat, part: nat, d: nat)
    requires d > 0
    ensures (whole * d + part) / d == whole + part / d
  {
    var p := part / d;
    assert part == p * d + part % d;
    assert (whole + p) * d == whole * d + p * d;
    QuotientIs(whole * d + part, d, whole + p);
  }
}
