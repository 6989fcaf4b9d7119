/**
 Exact arithmetic for the match percentages of `predict_disease` (app.py).
 A fresh score is the ratio `matched / total` of two symptom counts, kept as
 that pair; a stored score is `round(100 * matched / total, 2)`, kept as a
 whole number of hundredths of a percent (`3333` stands for `33.33`).
 */
module Scoring {

  /** One hundred percent, in hundredths. */
  const Full: nat := 10000

  /** Python's `round(x, 2)` applied to the exact value of
      `matched / total * 100`: the nearest hundredth, ties to the even one. */
  function Round2(matched: nat, total: nat): (h: nat)
    requires total > 0
    ensures 2 * (h * total - Full * matched) <= total
    ensures 2 * (Full * matched - h * total) <= total
  {
    var q := (Full * matched) / total;
    var r := (Full * matched) % total;
    if 2 * r > total then q + 1
    else if 2 * r < total then q
    else if q % 2 == 0 then q
    else q + 1
  }

  /** The test at app.py:329: the fresh ratio `matched / total * 100` is
      strictly above the stored value of `stored` hundredths. */
  predicate Beats(matched: nat, total: nat, stored: nat): (b: bool)
    ensures b ==> matched > 0
    ensures total > 0 && stored == 0 ==> (b <==> matched > 0)
    ensures stored >= Full && matched <= total ==> !b
  {
    Full * matched > stored * total
  }

  /** The test at app.py:340: the fresh ratio is at least 30 percent. */
  predicate AtLeastThirty(matched: nat, total: nat): (r: bool)
    ensures r && total > 0 ==> matched > 0
    ensures matched >= total ==> r
  {
    10 * matched >= 3 * total
  }

  /** Cancelling a positive factor keeps a strict order. */
  lemma {:induction false} ProductOrder(a: int, b: int, t: int)
    requires t > 0 && a * t < b * t
    ensures a < b
  {
  }

  /** Rounding never goes below a whole number of hundredths that the exact
      value reaches. */
  lemma {:induction false} RoundAtLeast(matched: nat, total: nat, v: nat)
    requires total > 0 && Full * matched >= v * total
    ensures Round2(matched, total) >= v
  {
    var h := Round2(matched, total);
    assert (v - 1) * total == v * total - total;
    assert (v - 1) * total < h * total;
    ProductOrder(v - 1, h, total);
  }

  /** Rounding never goes above a whole number of hundredths that the exact
      value does not exceed. */
  lemma {:induction false} RoundAtMost(matched: nat, total: nat, v: nat)
    requires total > 0 && Full * matched <= v * total
    ensures Round2(matched, total) <= v
  {
    var h := Round2(matched, total);
    assert (v + 1) * total == v * total + total;
    assert h * total < (v + 1) * total;
    ProductOrder(h, v + 1, total);
  }

  /** A stored score lies in [0, 100] percent, is 0 exactly for no match
      (given fewer than 20000 symptoms; with more, a single match can round
      down to 0.00), and 100 exactly for a full match. */
  lemma {:induction false} RoundBounds(matched: nat, total: nat)
    requires 0 < total && matched <= total
    ensures Round2(matched, total) <= Full
    ensures matched == 0 ==> Round2(matched, total) == 0
    ensures matched == total ==> Round2(matched, total) == Full
    ensures matched > 0 && 2 * Full > total ==> Round2(matched, total) > 0
  {
    RoundAtMost(matched, total, Full);
    if matched == 0 {
      RoundAtMost(matched, total, 0);
    }
    if matched == total {
      RoundAtLeast(matched, total, Full);
    }
  }

  /** A score that passes the 30 percent test is stored as at least 30.00. */
  lemma {:induction false} ThirtyStored(matched: nat, total: nat)
    requires total > 0 && AtLeastThirty(matched, total)
    ensures Round2(matched, total) >= 3000
  {
    RoundAtLeast(matched, total, 3000);
  }

  /** A fresh score that does not beat the stored value rounds to at most it,
      and one that does beats it rounds to at least it. */
  lemma {:induction false} BeatsAndRounding(matched: nat, total: nat, stored: nat)
    requires total > 0
    ensures !Beats(matched, total, stored) ==> Round2(matched, total) <= stored
    ensures Beats(matched, total, stored) ==> Round2(matched, total) >= stored
  {
    if Beats(matched, total, stored) {
      RoundAtLeast(matched, total, stored);
    } else {
      RoundAtMost(matched, total, stored);
    }
  }

  /** When the exact value lies exactly halfway between two hundredths, the
      stored one is the even one. */
  lemma {:induction false} RoundTiesEven(matched: nat, total: nat)
    requires total > 0
    ensures var h := Round2(matched, total);
            2 * (h * total - Full * matched) == total || 2 * (Full * matched - h * total) == total ==> h % 2 == 0
  {
    var q := (Full * matched) / total;
    var r := (Full * matched) % total;
    var h := Round2(matched, total);
    assert Full * matched == q * total + r;
    if 2 * r != total {
      if 2 * r > total {
        assert h == q + 1;
        assert h * total - Full * matched == total - r;
      } else {
        assert h == q;
        assert Full * matched - h * total == r;
      }
    }
  }

  /** Equal ratios compare the same way against any stored value. */
  lemma {:induction false} SameRatioBeats(m: nat, t: nat, m0: nat, t0: nat, stored: nat)
    requires t > 0 && t0 > 0 && m * t0 == m0 * t
    ensures Beats(m, t, stored) <==> Beats(m0, t0, stored)
  {
    assert (Full * m) * t0 == (Full * m0) * t by {
      assert (Full * m) * t0 == Full * (m * t0);
      assert (Full * m0) * t == Full * (m0 * t);
    }
    assert (stored * t) * t0 == (stored * t0) * t;
    CrossScale(Full * m, stored * t, Full * m0, stored * t0, t, t0);
  }

  /** Two comparisons scaled by positive factors into the same products
      agree. */
  lemma {:induction false} CrossScale(x: int, y: int, x0: int, y0: int, t: int, t0: int)
    requires t > 0 && t0 > 0 && x * t0 == x0 * t && y * t0 == y0 * t
    ensures x > y <==> x0 > y0
  {
    if x0 > y0 {
      assert y0 * t < x0 * t;
      ProductOrder(y, x, t0);
    }
    if x > y {
      assert y * t0 < x * t0;
      ProductOrder(y0, x0, t);
    }
  }

  /** Ties go to the even hundredth: 1/32 is 3.125 percent and is stored as
      3.12, 3/32 is 9.375 percent and is stored as 9.38. */
  lemma {:induction false} HalfToEven()
    ensures Round2(1, 32) == 312
    ensures Round2(3, 32) == 938
    ensures Round2(1, 3) == 3333 && Round2(2, 3) == 6667
  {
  }
}
