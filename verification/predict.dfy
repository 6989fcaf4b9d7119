/**
 `predict_disease` (app.py:288-371) as one pure function from the fetched
 association rows and the observed symptom names to the result record, and
 its properties stated directly over the rows.
 */
module Predict {
  import opened Options
  import opened Catalog
  import opened Scoring
  import opened BestMatch
  import opened Alternatives
  import opened Urgency

  /** The result record of `predict_disease`. */
  datatype Prediction = Prediction(
    diseaseId: Option<int>,
    diseaseName: string,
    probability: nat,
    matched: set<string>,
    alternatives: seq<Alternative>,
    recommendation: string,
    urgency: Level)

  /** The observed symptoms as a set (app.py:320). */
  function Observed(symptoms: seq<string>): (o: set<string>)
    ensures |o| <= |symptoms|
    ensures o == {} <==> symptoms == []
  {
    ObservedSize(symptoms);
    var o := set s | s in symptoms;
    assert |symptoms| > 0 ==> symptoms[0] in o;
    o
  }

  /** Repeated symptoms collapse, so the set is never larger than the list. */
  lemma {:induction false} ObservedSize(symptoms: seq<string>)
    ensures |set s | s in symptoms| <= |symptoms|
    decreases |symptoms|
  {
    if |symptoms| > 0 {
      var init := symptoms[..|symptoms| - 1];
      ObservedSize(init);
      assert (set s | s in symptoms) == (set s | s in init) + {symptoms[|symptoms| - 1]};
    }
  }

  /** Best match, alternatives and urgency for a grouped catalog. */
  function Match(c: seq<Entry>, observed: set<string>): Prediction {
    var b := Scan(c, observed);
    var level := LevelOf(b.probability);
    Prediction(b.id, b.name, b.probability, b.matched,
               TopAlternatives(c, observed, b.id), Advice(level), level)
  }

  /** The prediction for the fetched rows and the observed symptoms. */
  function PredictDisease(rows: seq<Row>, symptoms: seq<string>): Prediction {
    Match(Group(rows), Observed(symptoms))
  }

  /** The fixed result returned when reading the rows fails (app.py:361-371). */
  function ErrorPrediction(): (p: Prediction)
    ensures LevelOfAdvice(p.recommendation) == None
    ensures p.urgency == LevelOf(p.probability)
  {
    Prediction(None, "Error in prediction", 0, {}, [], "Unable to make prediction. Please try again.", Low)
  }

  /** The whole function, where `None` stands for a failed database read. */
  function PredictFromFetch(fetched: Option<seq<Row>>, symptoms: seq<string>): Prediction {
    match fetched
    case None => ErrorPrediction()
    case Some(rows) => PredictDisease(rows, symptoms)
  }

  /** The stored score of disease `id` computed from the rows themselves. */
  ghost function RowScore(rows: seq<Row>, id: int, observed: set<string>): nat {
    var s := SymptomsOf(rows, id);
    if |s| == 0 then 0 else Round2(|observed * s|, |s|)
  }

  /** Disease `id` qualifies as an alternative to `best` (app.py:337-340). */
  ghost predicate RowEligible(rows: seq<Row>, id: int, observed: set<string>, best: Option<int>) {
    && Mentions(rows, id)
    && best != Some(id)
    && |SymptomsOf(rows, id)| > 0
    && AtLeastThirty(|observed * SymptomsOf(rows, id)|, |SymptomsOf(rows, id)|)
  }

  /** The name the rows give disease `id`: the one on its first row. */
  ghost predicate NamedAsFirstRow(rows: seq<Row>, id: int, name: string) {
    FirstRow(rows, id) < |rows| && name == rows[FirstRow(rows, id)].diseaseName
  }

  /** Facts about one catalog entry of the grouped rows. */
  lemma {:induction false} EntryFacts(rows: seq<Row>, i: int, observed: set<string>)
    requires GroupedFrom(Group(rows), rows) && 0 <= i < |Group(rows)|
    ensures Mentions(rows, Group(rows)[i].id)
    ensures Locate(Group(rows), Group(rows)[i].id) == i
    ensures Stored(Group(rows)[i], observed) == RowScore(rows, Group(rows)[i].id, observed)
  {
    var c := Group(rows);
    assert HasId(c, c[i].id);
  }

  /** Every disease the rows mention has an entry in the catalog. */
  lemma {:induction false} MentionedHasEntry(rows: seq<Row>, id: int)
    requires GroupedFrom(Group(rows), rows) && Mentions(rows, id)
    ensures Locate(Group(rows), id) < |Group(rows)|
  {
    var c := Group(rows);
    assert HasId(c, id);
    var i :| 0 <= i < |c| && c[i].id == id;
  }

  /** Some catalog entry shares a symptom with `observed` exactly when some
      row names an observed symptom. */
  lemma {:induction false} OverlapFromRows(rows: seq<Row>, observed: set<string>)
    requires GroupedFrom(Group(rows), rows)
    ensures (exists i :: 0 <= i < |Group(rows)| && observed * Group(rows)[i].symptoms != {})
        <==> (exists k :: 0 <= k < |rows| && rows[k].symptom in observed)
  {
    var c := Group(rows);
    if exists i :: 0 <= i < |c| && observed * c[i].symptoms != {} {
      var i :| 0 <= i < |c| && observed * c[i].symptoms != {};
      var x :| x in observed * c[i].symptoms;
      assert x in SymptomsOf(rows, c[i].id);
      var k :| 0 <= k < |rows| && rows[k].diseaseId == c[i].id && rows[k].symptom == x;
    }
    if exists k :: 0 <= k < |rows| && rows[k].symptom in observed {
      var k :| 0 <= k < |rows| && rows[k].symptom in observed;
      var id := rows[k].diseaseId;
      assert Mentions(rows, id);
      MentionedHasEntry(rows, id);
      var i := Locate(c, id);
      assert rows[k].symptom in SymptomsOf(rows, id);
      assert rows[k].symptom in observed * c[i].symptoms;
    }
  }

  /** There is no best match exactly when no row names an observed symptom,
      and then the defaults stay: name "Unknown", score 0, nothing matched
      (app.py:310-318, 329). */
  lemma {:induction false} PredictNone(rows: seq<Row>, symptoms: seq<string>)
    ensures PredictDisease(rows, symptoms).diseaseId == None
        <==> forall k :: 0 <= k < |rows| ==> rows[k].symptom !in symptoms
    ensures PredictDisease(rows, symptoms).diseaseId == None ==>
              && PredictDisease(rows, symptoms).diseaseName == "Unknown"
              && PredictDisease(rows, symptoms).probability == 0
              && PredictDisease(rows, symptoms).matched == {}
  {
    var c := Group(rows);
    GroupSpec(rows);
    ScanSpec(c, Observed(symptoms));
    OverlapFromRows(rows, Observed(symptoms));
  }

  /** A best match is a disease of the rows, named after its first row, whose
      matched symptoms are the observed ones among its symptoms (at least
      one), and whose score is its rounded match percentage (app.py:320-333). */
  lemma {:induction false} PredictSome(rows: seq<Row>, symptoms: seq<string>)
    ensures PredictDisease(rows, symptoms).diseaseId != None ==>
              var id := PredictDisease(rows, symptoms).diseaseId.value;
              && Mentions(rows, id)
              && NamedAsFirstRow(rows, id, PredictDisease(rows, symptoms).diseaseName)
              && PredictDisease(rows, symptoms).matched == Observed(symptoms) * SymptomsOf(rows, id)
              && PredictDisease(rows, symptoms).matched != {}
              && PredictDisease(rows, symptoms).probability == RowScore(rows, id, Observed(symptoms))
  {
    var c := Group(rows);
    var observed := Observed(symptoms);
    var b := Scan(c, observed);
    GroupSpec(rows);
    ScanSpec(c, observed);
    if b.id != None {
      var i :| 0 <= i < |c| && Records(b, c[i], observed);
      EntryFacts(rows, i, observed);
    }
  }

  /** No disease of the rows scores higher than the best match, whose score
      is at most 100 percent; the urgency follows the score and the
      recommendation names the urgency (app.py:326-333, 349-357). */
  lemma {:induction false} PredictMax(rows: seq<Row>, symptoms: seq<string>)
    ensures forall id :: Mentions(rows, id) ==>
              RowScore(rows, id, Observed(symptoms)) <= PredictDisease(rows, symptoms).probability
    ensures PredictDisease(rows, symptoms).probability <= Full
    ensures PredictDisease(rows, symptoms).urgency == LevelOf(PredictDisease(rows, symptoms).probability)
    ensures LevelOfAdvice(PredictDisease(rows, symptoms).recommendation) == Some(PredictDisease(rows, symptoms).urgency)
  {
    var c := Group(rows);
    var observed := Observed(symptoms);
    var p := PredictDisease(rows, symptoms);
    GroupSpec(rows);
    ScanSpec(c, observed);
    AdviceRoundTrip(p.urgency);
    forall id | Mentions(rows, id) ensures RowScore(rows, id, observed) <= p.probability {
      MentionedHasEntry(rows, id);
      EntryFacts(rows, Locate(c, id), observed);
    }
  }

  /** What each reported alternative is, stated over the rows
      (app.py:336-347): at most three, highest score first, each another
      disease of the rows than the best match, named after its first row,
      with its rounded score, at least 30 percent exactly. */
  lemma {:induction false} PredictAlternatives(rows: seq<Row>, symptoms: seq<string>)
    ensures |PredictDisease(rows, symptoms).alternatives| <= MaxAlternatives
    ensures SortedDesc(PredictDisease(rows, symptoms).alternatives)
    ensures forall a :: a in PredictDisease(rows, symptoms).alternatives ==>
              && RowEligible(rows, a.id, Observed(symptoms), PredictDisease(rows, symptoms).diseaseId)
              && NamedAsFirstRow(rows, a.id, a.name)
              && a.probability == RowScore(rows, a.id, Observed(symptoms))
              && 3000 <= a.probability <= Full
  {
    var c := Group(rows);
    var observed := Observed(symptoms);
    var best := Scan(c, observed).id;
    var alts := TopAlternatives(c, observed, best);
    GroupSpec(rows);
    AlternativesSpec(c, observed, best);
    CandidatesSpec(c, observed, best);
    forall a | a in alts
      ensures && RowEligible(rows, a.id, observed, best)
              && NamedAsFirstRow(rows, a.id, a.name)
              && a.probability == RowScore(rows, a.id, observed)
    {
      var i :| 0 <= i < |c| && Eligible(c[i], observed, best) && a == AlternativeOf(c[i], observed);
      EntryFacts(rows, i, observed);
    }
  }

  /** Which qualifying diseases are reported (app.py:346-347): one left out
      scores no higher than any reported one, and when fewer than three are
      reported none is left out. */
  lemma {:induction false} PredictAlternativesComplete(rows: seq<Row>, symptoms: seq<string>)
    ensures forall id, x ::
              (RowEligible(rows, id, Observed(symptoms), PredictDisease(rows, symptoms).diseaseId) &&
               x in PredictDisease(rows, symptoms).alternatives) ==>
              (exists a :: a in PredictDisease(rows, symptoms).alternatives && a.id == id)
              || RowScore(rows, id, Observed(symptoms)) <= x.probability
    ensures |PredictDisease(rows, symptoms).alternatives| < MaxAlternatives ==>
              forall id :: RowEligible(rows, id, Observed(symptoms), PredictDisease(rows, symptoms).diseaseId) ==>
                exists a :: a in PredictDisease(rows, symptoms).alternatives && a.id == id
  {
    var c := Group(rows);
    var observed := Observed(symptoms);
    var best := Scan(c, observed).id;
    var cands := Candidates(c, observed, best);
    var alts := TopAlternatives(c, observed, best);
    GroupSpec(rows);
    AlternativesSpec(c, observed, best);
    AlternativesTop(c, observed, best);
    CandidatesSpec(c, observed, best);
    forall id | RowEligible(rows, id, observed, best)
      ensures AlternativeOf(c[Locate(c, id)], observed) in cands
      ensures AlternativeOf(c[Locate(c, id)], observed).id == id
      ensures AlternativeOf(c[Locate(c, id)], observed).probability == RowScore(rows, id, observed)
    {
      MentionedHasEntry(rows, id);
      EntryFacts(rows, Locate(c, id), observed);
    }
    if |alts| < MaxAlternatives {
      assert |alts| == |cands|;
      forall a | a in cands ensures a in alts {
        var sorted := SortDesc(cands);
        SortDescSpec(cands);
        assert a in multiset(sorted);
        assert alts == sorted;
      }
    }
  }

  /** The reported diseases are distinct (app.py:336-344). */
  lemma {:induction false} PredictAlternativesDistinct(rows: seq<Row>, symptoms: seq<string>)
    ensures var alts := PredictDisease(rows, symptoms).alternatives;
            forall i, j :: 0 <= i < j < |alts| ==> alts[i].id != alts[j].id
  {
    var c := Group(rows);
    var observed := Observed(symptoms);
    var best := Scan(c, observed).id;
    var alts := TopAlternatives(c, observed, best);
    GroupSpec(rows);
    AlternativesSpec(c, observed, best);
    CandidatesSpec(c, observed, best);
    AlternativesStable(c, observed, best);
    forall i, j | 0 <= i < j < |alts| ensures alts[i].id != alts[j].id {
      assert alts[i] in alts && alts[j] in alts;
      var ki :| 0 <= ki < |c| && Eligible(c[ki], observed, best) && alts[i] == AlternativeOf(c[ki], observed);
      var kj :| 0 <= kj < |c| && Eligible(c[kj], observed, best) && alts[j] == AlternativeOf(c[kj], observed);
      if alts[i].id == alts[j].id {
        EntryFacts(rows, ki, observed);
        EntryFacts(rows, kj, observed);
      }
    }
  }

  /** Reported diseases with equal scores come in the order of their first
      rows, which is the order of the scan (app.py:336, 346). */
  lemma {:induction false} PredictAlternativesOrder(rows: seq<Row>, symptoms: seq<string>)
    ensures var alts := PredictDisease(rows, symptoms).alternatives;
            forall i, j :: 0 <= i < j < |alts| && alts[i].probability == alts[j].probability ==>
              FirstRow(rows, alts[i].id) < FirstRow(rows, alts[j].id)
  {
    var c := Group(rows);
    var observed := Observed(symptoms);
    var best := Scan(c, observed).id;
    var alts := TopAlternatives(c, observed, best);
    GroupSpec(rows);
    AlternativesSpec(c, observed, best);
    AlternativesStable(c, observed, best);
    forall i, j | 0 <= i < j < |alts| && alts[i].probability == alts[j].probability
      ensures FirstRow(rows, alts[i].id) < FirstRow(rows, alts[j].id)
    {
      var ki := Locate(c, alts[i].id);
      var kj := Locate(c, alts[j].id);
      assert alts[i] in alts && alts[j] in alts;
      CandidatesLocated(c, observed, best);
    }
  }

  /** With no row naming an observed symptom the result keeps its defaults:
      no disease, score 0, no alternatives, low urgency (app.py:310-318, 355-357). */
  lemma {:induction false} NoOverlapDefaults(rows: seq<Row>, symptoms: seq<string>)
    requires forall k :: 0 <= k < |rows| ==> rows[k].symptom !in symptoms
    ensures PredictDisease(rows, symptoms) == Prediction(None, "Unknown", 0, {}, [], LowAdvice, Low)
  {
    var c := Group(rows);
    var observed := Observed(symptoms);
    PredictNone(rows, symptoms);
    GroupSpec(rows);
    ScanSpec(c, observed);
    NothingSharedNoCandidates(c, observed, None);
  }

  /** The error result can be told apart from every real prediction. */
  lemma {:induction false} FetchSpec(fetched: Option<seq<Row>>, symptoms: seq<string>)
    ensures PredictFromFetch(fetched, symptoms) == ErrorPrediction() <==> fetched == None
    ensures LevelOfAdvice(ErrorPrediction().recommendation) == None
  {
    assert |"Unknown"| == 7 && |"Error in prediction"| == 19;
    if fetched.Some? {
      PredictNone(fetched.value, symptoms);
    }
  }

  lemma {:induction false} GroupStep(rows: seq<Row>, n: nat, prefix: seq<Entry>)
    requires 0 < n <= |rows| && Group(rows[..n - 1]) == prefix
    ensures Group(rows[..n]) == AddRow(prefix, rows[n - 1])
  {
    assert rows[..n][..n - 1] == rows[..n - 1];
  }

  /** The five rows of the worked case below; the two diseases' rows are
      interleaved. */
  const ExampleRows: seq<Row> :=
    [Row(1, "D1", "fever"), Row(2, "D2", "fever"), Row(1, "D1", "cough"),
     Row(2, "D2", "rash"), Row(2, "D2", "cough")]

  /** The first two rows: one entry per disease, each with fever. */
  lemma {:induction false} GroupExampleTwo()
    ensures Group(ExampleRows[..2]) == [Entry(1, "D1", {"fever"}), Entry(2, "D2", {"fever"})]
  {
    var rows := ExampleRows;
    var g1 := [Entry(1, "D1", {"fever"})];
    assert Group(rows[..1]) == g1 by {
      assert rows[..1][..0] == [];
    }
    GroupStep(rows, 2, g1);
    assert Locate(g1, 2) == 1;
  }

  /** The first three rows: D1 gets both its symptoms, D2 its first. */
  lemma {:induction false} GroupExamplePrefix()
    ensures Group(ExampleRows[..3]) == [Entry(1, "D1", {"fever", "cough"}), Entry(2, "D2", {"fever"})]
  {
    var g2 := [Entry(1, "D1", {"fever"}), Entry(2, "D2", {"fever"})];
    GroupExampleTwo();
    GroupStep(ExampleRows, 3, g2);
    assert Locate(g2, 1) == 0;
    assert {"fever"} + {"cough"} == {"fever", "cough"};
  }

  lemma {:induction false} GroupExampleFour()
    ensures Group(ExampleRows[..4]) == [Entry(1, "D1", {"fever", "cough"}), Entry(2, "D2", {"fever", "rash"})]
  {
    var g3 := [Entry(1, "D1", {"fever", "cough"}), Entry(2, "D2", {"fever"})];
    GroupExamplePrefix();
    GroupStep(ExampleRows, 4, g3);
    assert Locate(g3, 2) == 1;
    assert {"fever"} + {"rash"} == {"fever", "rash"};
  }

  /** Grouping the five rows: D1 with fever and cough, then D2 with fever,
      rash and cough, in the order the diseases first appear. */
  lemma {:induction false} GroupExample()
    ensures Group(ExampleRows) == [Entry(1, "D1", {"fever", "cough"}), Entry(2, "D2", {"fever", "rash", "cough"})]
  {
    var g4 := [Entry(1, "D1", {"fever", "cough"}), Entry(2, "D2", {"fever", "rash"})];
    GroupExampleFour();
    GroupStep(ExampleRows, 5, g4);
    assert Locate(g4, 2) == 1;
    assert {"fever", "rash"} + {"cough"} == {"fever", "rash", "cough"};
    assert ExampleRows[..5] == ExampleRows;
  }

  /** Matching fever and cough against that catalog. */
  lemma {:induction false} MatchExample()
    ensures Match([Entry(1, "D1", {"fever", "cough"}), Entry(2, "D2", {"fever", "rash", "cough"})], {"fever", "cough"})
         == Prediction(Some(1), "D1", 10000, {"fever", "cough"},
                       [Alternative(2, "D2", 6667)], HighAdvice, High)
  {
    var d1 := Entry(1, "D1", {"fever", "cough"});
    var d2 := Entry(2, "D2", {"fever", "rash", "cough"});
    var c := [d1, d2];
    var observed := {"fever", "cough"};
    assert observed * d1.symptoms == observed && |d1.symptoms| == 2;
    assert observed * d2.symptoms == observed && |d2.symptoms| == 3;
    assert c[..1] == [d1] && c[..0] == [];
    assert Scan([d1], observed) == Best(Some(1), "D1", 10000, observed);
    assert Scan(c, observed) == Best(Some(1), "D1", 10000, observed);
    assert c[1..] == [d2] && c[1..][1..] == [];
    assert !Eligible(d1, observed, Some(1));
    assert Eligible(d2, observed, Some(1));
    assert Round2(2, 3) == 6667;
    assert Candidates(c[1..], observed, Some(1)) == [Alternative(2, "D2", 6667)];
    assert Candidates(c, observed, Some(1)) == [Alternative(2, "D2", 6667)];
  }

  /** The whole prediction for those rows: D1 matches fully and D2 is the one
      alternative at 66.67 percent. */
  lemma {:induction false} TwoDiseaseExample()
    ensures PredictDisease(ExampleRows, ["fever", "cough"])
         == Prediction(Some(1), "D1", 10000, {"fever", "cough"},
                       [Alternative(2, "D2", 6667)], HighAdvice, High)
  {
    GroupExample();
    MatchExample();
    assert Observed(["fever", "cough"]) == {"fever", "cough"};
  }
}
