/**
 The best-match scan of `predict_disease` (app.py:310-333): walk the catalog
 in order and keep a disease whenever its fresh match ratio is strictly above
 the score stored so far. The stored score is the rounded one, so the
 comparison is between an exact ratio and a rounded value.
 */
module BestMatch {
  import opened Options
  import opened Catalog
  import opened Scoring

  /** The part of the prediction the scan fills in. */
  datatype Best = Best(id: Option<int>, name: string, probability: nat, matched: set<string>)

  /** The defaults the prediction starts from (app.py:310-318). */
  const NoMatch: Best := Best(None, "Unknown", 0, {})

  /** The score the source would store for `e`: its rounded match percentage,
      and 0 for a disease without symptoms. */
  function Stored(e: Entry, observed: set<string>): nat {
    if |e.symptoms| == 0 then 0 else Round2(|observed * e.symptoms|, |e.symptoms|)
  }

  /** A stored score is at most 100.00, and at least 30.00 when the exact
      score is at least 30 percent. */
  lemma {:induction false} StoredRange(e: Entry, observed: set<string>)
    ensures Stored(e, observed) <= Full
    ensures |e.symptoms| > 0 && AtLeastThirty(|observed * e.symptoms|, |e.symptoms|) ==> 3000 <= Stored(e, observed)
  {
    if |e.symptoms| > 0 {
      var m, t := |observed * e.symptoms|, |e.symptoms|;
      SharedAtMostAll(observed, e.symptoms);
      RoundBounds(m, t);
      if AtLeastThirty(m, t) {
        ThirtyStored(m, t);
      }
    }
  }

  /** One iteration of the scan (app.py:323-333). */
  function Consider(b: Best, e: Entry, observed: set<string>): Best {
    var m := observed * e.symptoms;
    if |e.symptoms| > 0 && Beats(|m|, |e.symptoms|, b.probability)
    then Best(Some(e.id), e.name, Round2(|m|, |e.symptoms|), m)
    else b
  }

  /** The scan over the whole catalog, in catalog order. */
  function Scan(c: seq<Entry>, observed: set<string>): Best
    decreases |c|
  {
    if |c| == 0 then NoMatch
    else Consider(Scan(c[..|c| - 1], observed), c[|c| - 1], observed)
  }

  /** `b` records `e` as the best match: its id and name, the observed
      symptoms it shares, and its stored score. */
  ghost predicate Records(b: Best, e: Entry, observed: set<string>) {
    && b.id == Some(e.id)
    && b.name == e.name
    && |e.symptoms| > 0
    && b.matched == observed * e.symptoms
    && b.matched != {}
    && b.probability == Round2(|b.matched|, |e.symptoms|)
  }

  lemma {:induction false} SharedAtMostAll(observed: set<string>, symptoms: set<string>)
    ensures |observed * symptoms| <= |symptoms|
  {
    var shared := observed * symptoms;
    var rest := symptoms - observed;
    assert symptoms == shared + rest;
    assert shared * rest == {};
  }

  /** The scan finds a disease exactly when some disease shares a symptom with
      the observed set; otherwise it keeps every default. The disease it finds
      is recorded with its shared symptoms and its stored score, which is the
      greatest stored score of the catalog and at most 100 percent. */
  lemma {:induction false} ScanSpec(c: seq<Entry>, observed: set<string>)
    ensures Scan(c, observed).id == None <==> forall i :: 0 <= i < |c| ==> observed * c[i].symptoms == {}
    ensures Scan(c, observed).id == None ==> Scan(c, observed) == NoMatch
    ensures Scan(c, observed).id != None ==> exists i :: 0 <= i < |c| && Records(Scan(c, observed), c[i], observed)
    ensures forall i :: 0 <= i < |c| ==> Stored(c[i], observed) <= Scan(c, observed).probability
    ensures Scan(c, observed).probability <= Full
    decreases |c|
  {
    if |c| == 0 {
      return;
    }
    var init := c[..|c| - 1];
    var e := c[|c| - 1];
    var b0 := Scan(init, observed);
    var b := Scan(c, observed);
    ScanSpec(init, observed);
    assert b == Consider(b0, e, observed);
    var m := observed * e.symptoms;
    forall i | 0 <= i < |init| ensures init[i] == c[i] {
    }
    if |e.symptoms| > 0 {
      SharedAtMostAll(observed, e.symptoms);
      BeatsAndRounding(|m|, |e.symptoms|, b0.probability);
      RoundBounds(|m|, |e.symptoms|);
    }
    if |e.symptoms| > 0 && Beats(|m|, |e.symptoms|, b0.probability) {
      assert |m| > 0;
      assert Records(b, c[|c| - 1], observed);
    } else {
      assert b == b0;
      if b0.id == None {
        assert m == {};
      } else {
        var i :| 0 <= i < |init| && Records(b0, init[i], observed);
        assert Records(b, c[i], observed);
      }
    }
  }

  /** The largest stored score over the catalog, 0 for an empty catalog: an
      independent definition of what the scan should report. */
  function MaxStored(c: seq<Entry>, observed: set<string>): nat
    decreases |c|
  {
    if |c| == 0 then 0
    else
      var rest := MaxStored(c[..|c| - 1], observed);
      var last := Stored(c[|c| - 1], observed);
      if last > rest then last else rest
  }

  lemma {:induction false} MaxStoredSpec(c: seq<Entry>, observed: set<string>)
    ensures forall i :: 0 <= i < |c| ==> Stored(c[i], observed) <= MaxStored(c, observed)
    ensures MaxStored(c, observed) == 0 || exists i :: 0 <= i < |c| && MaxStored(c, observed) == Stored(c[i], observed)
    decreases |c|
  {
    if |c| > 0 {
      var init := c[..|c| - 1];
      MaxStoredSpec(init, observed);
      forall i | 0 <= i < |init| ensures init[i] == c[i] {
      }
      if MaxStored(c, observed) != Stored(c[|c| - 1], observed) && MaxStored(init, observed) != 0 {
        var i :| 0 <= i < |init| && MaxStored(init, observed) == Stored(init[i], observed);
        assert MaxStored(c, observed) == Stored(c[i], observed);
      }
    }
  }

  /** The probability the scan reports is the greatest stored score of the
      catalog, whatever the order of the catalog. */
  lemma {:induction false} BestIsMax(c: seq<Entry>, observed: set<string>)
    ensures Scan(c, observed).probability == MaxStored(c, observed)
  {
    ScanSpec(c, observed);
    MaxStoredSpec(c, observed);
    var b := Scan(c, observed);
    if b.id != None {
      var i :| 0 <= i < |c| && Records(b, c[i], observed);
      assert Stored(c[i], observed) == b.probability;
    }
    if MaxStored(c, observed) != 0 {
      var i :| 0 <= i < |c| && MaxStored(c, observed) == Stored(c[i], observed);
    }
  }

  /** The general rule behind the two cases below: when the running best was
      stored from the ratio `m0 / t0` and the next entry has the same ratio,
      the next entry takes over exactly when that ratio was rounded down. */
  lemma {:induction false} EqualRatioReplaces(b: Best, e: Entry, observed: set<string>, m0: nat, t0: nat)
    requires t0 > 0 && b.probability == Round2(m0, t0)
    requires |e.symptoms| > 0 && |observed * e.symptoms| * t0 == m0 * |e.symptoms|
    ensures Round2(m0, t0) * t0 < Full * m0 ==>
              Consider(b, e, observed) == Best(Some(e.id), e.name, Stored(e, observed), observed * e.symptoms)
    ensures Round2(m0, t0) * t0 >= Full * m0 ==> Consider(b, e, observed) == b
  {
    SameRatioBeats(|observed * e.symptoms|, |e.symptoms|, m0, t0, b.probability);
  }

  /** Ties are not always kept by the first disease. Two diseases matching one
      symptom in three both score 33.333...; the first is stored as 33.33, and
      the second's exact ratio is above that, so the second replaces it. */
  lemma {:induction false} LaterEqualRatioCanWin()
    ensures var c := [Entry(1, "Flu", {"fever", "cough", "ache"}), Entry(2, "Cold", {"sneeze", "chill", "rash"})];
            Scan(c, {"fever", "sneeze"}) == Best(Some(2), "Cold", 3333, {"sneeze"})
  {
    var c := [Entry(1, "Flu", {"fever", "cough", "ache"}), Entry(2, "Cold", {"sneeze", "chill", "rash"})];
    var observed := {"fever", "sneeze"};
    assert observed * c[0].symptoms == {"fever"};
    assert observed * c[1].symptoms == {"sneeze"};
    assert |c[0].symptoms| == 3 && |c[1].symptoms| == 3;
    assert c[..1] == [c[0]] && c[..0] == [];
    assert Scan([c[0]], observed) == Best(Some(1), "Flu", 3333, {"fever"});
  }

  /** ... while two diseases matching two symptoms in three keep the first:
      66.666... is stored as 66.67, which the second's exact ratio does not
      exceed. */
  lemma {:induction false} EarlierEqualRatioCanStay()
    ensures var c := [Entry(1, "Flu", {"fever", "cough", "ache"}), Entry(2, "Cold", {"sneeze", "chill", "rash"})];
            Scan(c, {"fever", "cough", "sneeze", "chill"}) == Best(Some(1), "Flu", 6667, {"fever", "cough"})
  {
    var c := [Entry(1, "Flu", {"fever", "cough", "ache"}), Entry(2, "Cold", {"sneeze", "chill", "rash"})];
    var observed := {"fever", "cough", "sneeze", "chill"};
    assert observed * c[0].symptoms == {"fever", "cough"};
    assert observed * c[1].symptoms == {"sneeze", "chill"};
    assert |c[0].symptoms| == 3 && |c[1].symptoms| == 3;
    assert c[..1] == [c[0]] && c[..0] == [];
    assert Scan([c[0]], observed) == Best(Some(1), "Flu", 6667, {"fever", "cough"});
  }
}
