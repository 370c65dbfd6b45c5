/** The final mark of a quiz: `Math.round((score / n) * 100)`
    (script.js:259), taken over exact rationals. `Math.round` rounds to the
    nearest integer with halves going up, so the mark is
    floor((100 * score) / n + 1/2) = floor((200 * score + n) / (2 * n)). */
module Grading {

  /** The percentage mark of `score` correct answers out of `n` questions:
      the integer nearest to 100 * score / n, halves rounded up. */
  function Percent(score: int, n: int): (r: int)
    requires n > 0
    ensures -n < 2 * (n * r - 100 * score) <= n
  {
    var r := (200 * score + n) / (2 * n);
    assert 2 * n * r <= 200 * score + n < 2 * n * r + 2 * n;
    r
  }

  /** The rounding rule pins the mark down: no other integer is as close to
      100 * score / n with halves going up. */
  lemma {:induction false} PercentUnique(score: int, n: int, m: int)
    requires n > 0
    requires -n < 2 * (n * m - 100 * score) <= n
    ensures m == Percent(score, n)
  {
    var r := Percent(score, n);
    if m < r {
      MulMonotone(n, m + 1, r);
      assert false;
    } else if m > r {
      MulMonotone(n, r + 1, m);
      assert false;
    }
  }

  lemma MulMonotone(n: int, a: int, b: int)
    requires n > 0 && a <= b
    ensures n * a <= n * b
  {
    assert n * b - n * a == n * (b - a);
  }

  /** A mark lies between 0 and 100 when the score does not exceed the
      question count. */
  lemma {:induction false} PercentInRange(score: int, n: int)
    requires n > 0 && 0 <= score <= n
    ensures 0 <= Percent(score, n) <= 100
  {
    PercentUnique(0, n, 0);
    PercentUnique(n, n, 100);
    PercentMonotone(0, score, n);
    PercentMonotone(score, n, n);
  }

  /** No correct answer gives 0 and all correct gives 100. */
  lemma PercentExtremes(n: int)
    requires n > 0
    ensures Percent(0, n) == 0
    ensures Percent(n, n) == 100
  {
    PercentUnique(0, n, 0);
    PercentUnique(n, n, 100);
  }

  /** More correct answers never give a lower mark. */
  lemma {:induction false} PercentMonotone(s1: int, s2: int, n: int)
    requires n > 0 && s1 <= s2
    ensures Percent(s1, n) <= Percent(s2, n)
  {
    var r1, r2 := Percent(s1, n), Percent(s2, n);
    if r2 < r1 {
      MulMonotone(n, r2 + 1, r1);
      assert false;
    }
  }
}
