/**
 The urgency level and the recommendation attached to a prediction
 (app.py:349-357). Both are decided by the stored, rounded score of the best
 match, not by its exact ratio.
 */
module Urgency {
  import opened Options
  import opened Scoring

  datatype Level = Low | Medium | High

  /** The order of the levels, lowest first. */
  function Rank(u: Level): nat {
    match u
    case Low => 0
    case Medium => 1
    case High => 2
  }

  /** Above 75 percent is high, above 50 percent medium, anything else low. */
  function LevelOf(stored: nat): Level {
    if stored > 7500 then High
    else if stored > 5000 then Medium
    else Low
  }

  const HighAdvice: string := "High probability of this condition. Please consult a healthcare provider soon."
  const MediumAdvice: string := "Moderate likelihood. Monitor symptoms and consult a doctor if they worsen."
  const LowAdvice: string := "Low probability match. Monitor your symptoms."

  /** The recommendation shown for each level. */
  function Advice(u: Level): string {
    match u
    case High => HighAdvice
    case Medium => MediumAdvice
    case Low => LowAdvice
  }

  /** Reads the level back from a recommendation; `None` for any other text. */
  function LevelOfAdvice(s: string): Option<Level> {
    if s == HighAdvice then Some(High)
    else if s == MediumAdvice then Some(Medium)
    else if s == LowAdvice then Some(Low)
    else None
  }

  /** The three recommendations are distinct texts, so each names its level. */
  lemma {:induction false} AdviceRoundTrip(u: Level)
    ensures LevelOfAdvice(Advice(u)) == Some(u)
  {
    assert |HighAdvice| == 78 && |MediumAdvice| == 74 && |LowAdvice| == 45;
  }

  /** A higher stored score never gives a lower level. */
  lemma {:induction false} LevelMonotone(p: nat, q: nat)
    requires p <= q
    ensures Rank(LevelOf(p)) <= Rank(LevelOf(q))
  {
  }

  /** The thresholds are strict: exactly 50 percent is low, exactly 75 percent medium. */
  lemma {:induction false} LevelBoundaries()
    ensures LevelOf(5000) == Low && LevelOf(5001) == Medium
    ensures LevelOf(7500) == Medium && LevelOf(7501) == High
    ensures LevelOf(Full) == High && LevelOf(0) == Low
  {
  }

  /** The level in terms of the exact ratio `matched / total` of the best match:
      at most 50 percent is low, at most 75 percent is not high, and at least
      50.01 or 75.01 percent reaches medium or high. Between those, rounding
      to hundredths decides. */
  lemma {:induction false} LevelFromRatio(matched: nat, total: nat)
    requires 0 < total
    ensures 2 * matched <= total ==> LevelOf(Round2(matched, total)) == Low
    ensures 4 * matched <= 3 * total ==> LevelOf(Round2(matched, total)) != High
    ensures Full * matched >= 5001 * total ==> LevelOf(Round2(matched, total)) != Low
    ensures Full * matched >= 7501 * total ==> LevelOf(Round2(matched, total)) == High
  {
    if 2 * matched <= total {
      RoundAtMost(matched, total, 5000);
    }
    if 4 * matched <= 3 * total {
      RoundAtMost(matched, total, 7500);
    }
    if Full * matched >= 5001 * total {
      RoundAtLeast(matched, total, 5001);
    }
    if Full * matched >= 7501 * total {
      RoundAtLeast(matched, total, 7501);
    }
  }

  /** Three of four symptoms is exactly 75 percent and so only medium; a
      complete match is high; half the symptoms is low. */
  lemma {:induction false} LevelExamples()
    ensures LevelOf(Round2(3, 4)) == Medium
    ensures LevelOf(Round2(5, 5)) == High
    ensures LevelOf(Round2(1, 2)) == Low
  {
  }
}
