/**
 The alternative diseases of `predict_disease` (app.py:335-347): every
 disease other than the best match whose fresh score is at least 30 percent,
 sorted by stored score, highest first, keeping the order of the catalog
 among equal scores (Python's sort is stable, also in reverse), and cut to
 the first three.
 */
module Alternatives {
  import opened Options
  import opened Catalog
  import opened Scoring
  import opened BestMatch

  /** An alternative as the source lists it (name and stored score), together
      with the disease id it came from. */
  datatype Alternative = Alternative(id: int, name: string, probability: nat)

  /** How many alternatives are reported (app.py:347). */
  const MaxAlternatives: nat := 3

  /** `e` is listed as an alternative to the best match `best` (app.py:337-340):
      it is another disease, it has symptoms (otherwise its score is 0), and
      its exact score is at least 30 percent. */
  predicate Eligible(e: Entry, observed: set<string>, best: Option<int>): (r: bool)
    ensures r ==> observed * e.symptoms != {}
    ensures r ==> 3000 <= AlternativeOf(e, observed).probability
  {
    && best != Some(e.id)
    && |e.symptoms| > 0
    && AtLeastThirty(|observed * e.symptoms|, |e.symptoms|)
  }

  /** The record of `e` as an alternative (app.py:341-344): its name and its
      stored score, which is at most 100.00, and at least 30.00 when the
      exact score is at least 30 percent. */
  function AlternativeOf(e: Entry, observed: set<string>): (a: Alternative)
    ensures a.probability <= Full
    ensures |e.symptoms| > 0 && AtLeastThirty(|observed * e.symptoms|, |e.symptoms|) ==> 3000 <= a.probability
  {
    StoredRange(e, observed);
    Alternative(e.id, e.name, Stored(e, observed))
  }

  /** The eligible diseases, in catalog order (app.py:336-344). */
  function Candidates(c: seq<Entry>, observed: set<string>, best: Option<int>): (r: seq<Alternative>)
    ensures |r| <= |c|
    decreases |c|
  {
    if |c| == 0 then []
    else
      (if Eligible(c[0], observed, best) then [AlternativeOf(c[0], observed)] else [])
      + Candidates(c[1..], observed, best)
  }

  ghost predicate SortedDesc(s: seq<Alternative>) {
    forall i, j :: 0 <= i < j < |s| ==> s[i].probability >= s[j].probability
  }

  /** The entries of `s` with stored score `p`, in their order in `s`. */
  function WithProbability(s: seq<Alternative>, p: nat): seq<Alternative>
    decreases |s|
  {
    if |s| == 0 then []
    else (if s[0].probability == p then [s[0]] else []) + WithProbability(s[1..], p)
  }

  /** Places `x` before the first entry whose score it reaches. */
  function Insert(x: Alternative, s: seq<Alternative>): (r: seq<Alternative>)
    ensures |r| == |s| + 1
    decreases |s|
  {
    if |s| == 0 || x.probability >= s[0].probability then [x] + s
    else [s[0]] + Insert(x, s[1..])
  }

  /** The stable sort by descending stored score (app.py:346). */
  function SortDesc(s: seq<Alternative>): (r: seq<Alternative>)
    ensures |r| == |s|
    decreases |s|
  {
    if |s| == 0 then [] else Insert(s[0], SortDesc(s[1..]))
  }

  /** The reported alternatives (app.py:346-347). */
  function TopAlternatives(c: seq<Entry>, observed: set<string>, best: Option<int>): (r: seq<Alternative>)
    ensures |r| <= MaxAlternatives
  {
    var sorted := SortDesc(Candidates(c, observed, best));
    if |sorted| <= MaxAlternatives then sorted else sorted[..MaxAlternatives]
  }

  /** Every candidate comes from an eligible disease of the catalog, and every
      eligible disease is a candidate. */
  lemma {:induction false} CandidatesSpec(c: seq<Entry>, observed: set<string>, best: Option<int>)
    ensures forall a :: a in Candidates(c, observed, best) ==>
              exists i :: 0 <= i < |c| && Eligible(c[i], observed, best) && a == AlternativeOf(c[i], observed)
    ensures forall i :: 0 <= i < |c| && Eligible(c[i], observed, best) ==>
              AlternativeOf(c[i], observed) in Candidates(c, observed, best)
    decreases |c|
  {
    if |c| > 0 {
      var tail := c[1..];
      CandidatesSpec(tail, observed, best);
      var cands := Candidates(c, observed, best);
      var head := if Eligible(c[0], observed, best) then [AlternativeOf(c[0], observed)] else [];
      assert cands == head + Candidates(tail, observed, best);
      forall a | a in cands
        ensures exists i :: 0 <= i < |c| && Eligible(c[i], observed, best) && a == AlternativeOf(c[i], observed)
      {
        if a in head {
          assert Eligible(c[0], observed, best) && a == AlternativeOf(c[0], observed);
        } else {
          var i :| 0 <= i < |tail| && Eligible(tail[i], observed, best) && a == AlternativeOf(tail[i], observed);
          assert c[i + 1] == tail[i];
        }
      }
      forall i | 0 <= i < |c| && Eligible(c[i], observed, best) ensures AlternativeOf(c[i], observed) in cands {
        if i > 0 {
          assert c[i] == tail[i - 1];
        }
      }
    }
  }

  /** Every candidate is another disease than the best match, scored from 30
      to 100 percent. */
  lemma {:induction false} CandidateScores(c: seq<Entry>, observed: set<string>, best: Option<int>)
    ensures forall a :: a in Candidates(c, observed, best) ==>
              best != Some(a.id) && 3000 <= a.probability <= Full
  {
    CandidatesSpec(c, observed, best);
    forall a | a in Candidates(c, observed, best) ensures best != Some(a.id) && 3000 <= a.probability <= Full {
      var i :| 0 <= i < |c| && Eligible(c[i], observed, best) && a == AlternativeOf(c[i], observed);
      var e := c[i];
      ThirtyStored(|observed * e.symptoms|, |e.symptoms|);
      SharedAtMostAll(observed, e.symptoms);
      RoundBounds(|observed * e.symptoms|, |e.symptoms|);
    }
  }

  /** Where `Insert` places `x`: after every entry scoring more. */
  function InsertPos(x: Alternative, s: seq<Alternative>): (k: nat)
    ensures k <= |s|
    decreases |s|
  {
    if |s| == 0 || x.probability >= s[0].probability then 0 else 1 + InsertPos(x, s[1..])
  }

  /** `Insert` splices `x` in at `InsertPos`: every entry before it scores
      more than `x`, and the entry after it scores no more. */
  lemma {:induction false} InsertSplit(x: Alternative, s: seq<Alternative>)
    ensures Insert(x, s) == s[..InsertPos(x, s)] + [x] + s[InsertPos(x, s)..]
    ensures forall i :: 0 <= i < InsertPos(x, s) ==> s[i].probability > x.probability
    ensures InsertPos(x, s) < |s| ==> x.probability >= s[InsertPos(x, s)].probability
    decreases |s|
  {
    if |s| > 0 && x.probability < s[0].probability {
      var tail := s[1..];
      InsertSplit(x, tail);
      var k := InsertPos(x, tail);
      assert s[..k + 1] == [s[0]] + tail[..k];
      assert s[k + 1..] == tail[k..];
      forall i | 0 <= i < k + 1 ensures s[i].probability > x.probability {
        if i > 0 {
          assert s[i] == tail[i - 1];
        }
      }
    }
  }

  lemma {:induction false} InsertCount(x: Alternative, s: seq<Alternative>)
    ensures multiset(Insert(x, s)) == multiset(s) + multiset{x}
  {
    InsertSplit(x, s);
    var k := InsertPos(x, s);
    assert s == s[..k] + s[k..];
  }

  /** Where each element of `s` lands once `x` is spliced in at `k`. */
  lemma {:induction false} SpliceAt(s: seq<Alternative>, k: nat, x: Alternative)
    requires k <= |s|
    ensures |s[..k] + [x] + s[k..]| == |s| + 1
    ensures forall i :: 0 <= i < k ==> (s[..k] + [x] + s[k..])[i] == s[i]
    ensures (s[..k] + [x] + s[k..])[k] == x
    ensures forall i :: k < i <= |s| ==> (s[..k] + [x] + s[k..])[i] == s[i - 1]
  {
  }

  lemma {:induction false} InsertSorted(x: Alternative, s: seq<Alternative>)
    requires SortedDesc(s)
    ensures SortedDesc(Insert(x, s))
  {
    InsertSplit(x, s);
    SpliceAt(s, InsertPos(x, s), x);
  }

  lemma {:induction false} InsertStable(x: Alternative, s: seq<Alternative>, p: nat)
    ensures WithProbability(Insert(x, s), p) == (if x.probability == p then [x] else []) + WithProbability(s, p)
    decreases |s|
  {
    var own := if x.probability == p then [x] else [];
    if |s| == 0 || x.probability >= s[0].probability {
      var r := [x] + s;
      assert r[0] == x && r[1..] == s;
      assert WithProbability(r, p) == own + WithProbability(s, p);
    } else {
      var tail := s[1..];
      var first := if s[0].probability == p then [s[0]] else [];
      InsertStable(x, tail, p);
      var r := [s[0]] + Insert(x, tail);
      assert r[0] == s[0] && r[1..] == Insert(x, tail);
      calc {
        WithProbability(r, p);
        first + WithProbability(Insert(x, tail), p);
        first + (own + WithProbability(tail, p));
        { assert first == [] || own == []; assert first + own == own + first; }
        own + (first + WithProbability(tail, p));
        own + WithProbability(s, p);
      }
    }
  }

  /** A catalog sharing no symptom with the observed ones has no candidates. */
  lemma {:induction false} NothingSharedNoCandidates(c: seq<Entry>, observed: set<string>, best: Option<int>)
    requires forall i :: 0 <= i < |c| ==> observed * c[i].symptoms == {}
    ensures Candidates(c, observed, best) == []
    decreases |c|
  {
    if |c| > 0 {
      assert observed * c[0].symptoms == {};
      assert forall i :: 0 <= i < |c[1..]| ==> c[1..][i] == c[i + 1];
      NothingSharedNoCandidates(c[1..], observed, best);
    }
  }

  lemma {:induction false} SortDescPermutes(s: seq<Alternative>)
    ensures multiset(SortDesc(s)) == multiset(s)
    decreases |s|
  {
    if |s| > 0 {
      SortDescPermutes(s[1..]);
      InsertCount(s[0], SortDesc(s[1..]));
      assert s == [s[0]] + s[1..];
    }
  }

  lemma {:induction false} SortDescSorted(s: seq<Alternative>)
    ensures SortedDesc(SortDesc(s))
    decreases |s|
  {
    if |s| > 0 {
      SortDescSorted(s[1..]);
      InsertSorted(s[0], SortDesc(s[1..]));
    }
  }

  lemma {:induction false} SortDescStable(s: seq<Alternative>)
    ensures forall p :: WithProbability(SortDesc(s), p) == WithProbability(s, p)
    decreases |s|
  {
    if |s| > 0 {
      var tail := s[1..];
      SortDescStable(tail);
      forall p ensures WithProbability(SortDesc(s), p) == WithProbability(s, p) {
        InsertStable(s[0], SortDesc(tail), p);
        assert s == [s[0]] + tail;
        assert WithProbability(s, p) == (if s[0].probability == p then [s[0]] else []) + WithProbability(tail, p);
      }
    }
  }

  /** The sort is a permutation, puts higher scores first, and keeps the
      input order among entries with the same score. */
  lemma {:induction false} SortDescSpec(s: seq<Alternative>)
    ensures multiset(SortDesc(s)) == multiset(s)
    ensures SortedDesc(SortDesc(s))
    ensures forall p :: WithProbability(SortDesc(s), p) == WithProbability(s, p)
  {
    SortDescPermutes(s);
    SortDescSorted(s);
    SortDescStable(s);
  }


  /** The reported alternatives are the first of the sorted candidates. */
  lemma {:induction false} TopIsPrefix(c: seq<Entry>, observed: set<string>, best: Option<int>)
    ensures |SortDesc(Candidates(c, observed, best))| == |Candidates(c, observed, best)|
    ensures var n := if |Candidates(c, observed, best)| <= MaxAlternatives
                     then |Candidates(c, observed, best)| else MaxAlternatives;
            TopAlternatives(c, observed, best) == SortDesc(Candidates(c, observed, best))[..n]
  {
    var cands := Candidates(c, observed, best);
    var sorted := SortDesc(cands);
    SortDescSpec(cands);
    assert |multiset(sorted)| == |multiset(cands)|;
  }

  /** The reported alternatives: at most three, as many as there are
      candidates up to three, each a candidate (so another disease than the
      best match, scored at least 30 percent), highest first. */
  lemma {:induction false} AlternativesSpec(c: seq<Entry>, observed: set<string>, best: Option<int>)
    ensures |TopAlternatives(c, observed, best)| <= MaxAlternatives
    ensures |TopAlternatives(c, observed, best)| == if |Candidates(c, observed, best)| <= MaxAlternatives
                                                 then |Candidates(c, observed, best)| else MaxAlternatives
    ensures SortedDesc(TopAlternatives(c, observed, best))
    ensures forall a :: a in TopAlternatives(c, observed, best) ==> a in Candidates(c, observed, best)
    ensures forall a :: a in TopAlternatives(c, observed, best) ==> best != Some(a.id) && 3000 <= a.probability <= Full
  {
    var cands := Candidates(c, observed, best);
    var sorted := SortDesc(cands);
    var alts := TopAlternatives(c, observed, best);
    TopIsPrefix(c, observed, best);
    SortDescSpec(cands);
    CandidateScores(c, observed, best);
    forall a | a in alts ensures a in cands {
      assert a in multiset(sorted);
    }
  }

  /** No candidate left out scores above a reported one. */
  lemma {:induction false} AlternativesTop(c: seq<Entry>, observed: set<string>, best: Option<int>)
    ensures forall a, x ::
              (a in Candidates(c, observed, best) && a !in TopAlternatives(c, observed, best) &&
               x in TopAlternatives(c, observed, best)) ==> a.probability <= x.probability
  {
    var cands := Candidates(c, observed, best);
    var sorted := SortDesc(cands);
    var alts := TopAlternatives(c, observed, best);
    TopIsPrefix(c, observed, best);
    SortDescSpec(cands);
    forall a, x | a in cands && a !in alts && x in alts ensures a.probability <= x.probability {
      assert a in multiset(sorted);
      var j :| 0 <= j < |sorted| && sorted[j] == a;
      var i :| 0 <= i < |alts| && alts[i] == x;
      assert sorted[i] == x;
    }
  }

  /** A disease without symptoms never appears among the alternatives. */
  lemma {:induction false} NoEmptyAlternative(c: seq<Entry>, observed: set<string>, best: Option<int>)
    requires DistinctIds(c)
    ensures forall i, a :: 0 <= i < |c| && |c[i].symptoms| == 0 && a in TopAlternatives(c, observed, best)
                        ==> a.id != c[i].id
  {
    AlternativesSpec(c, observed, best);
    CandidatesSpec(c, observed, best);
    forall i, a | 0 <= i < |c| && |c[i].symptoms| == 0 && a in TopAlternatives(c, observed, best)
      ensures a.id != c[i].id
    {
      var j :| 0 <= j < |c| && Eligible(c[j], observed, best) && a == AlternativeOf(c[j], observed);
    }
  }

  /** Among entries of `s` with equal scores, the one listed first comes first
      in the catalog `c`. */
  ghost predicate TieOrdered(s: seq<Alternative>, c: seq<Entry>) {
    forall i, j :: 0 <= i < j < |s| && s[i].probability == s[j].probability ==>
      Locate(c, s[i].id) < Locate(c, s[j].id)
  }

  /** Every candidate's disease has an entry in the catalog. */
  lemma {:induction false} CandidatesLocated(c: seq<Entry>, observed: set<string>, best: Option<int>)
    ensures forall a :: a in Candidates(c, observed, best) ==> Locate(c, a.id) < |c|
  {
    CandidatesSpec(c, observed, best);
    forall a | a in Candidates(c, observed, best) ensures Locate(c, a.id) < |c| {
      var i :| 0 <= i < |c| && Eligible(c[i], observed, best) && a == AlternativeOf(c[i], observed);
      assert c[i].id == a.id;
    }
  }

  lemma {:induction false} DistinctTail(c: seq<Entry>)
    requires |c| > 0 && DistinctIds(c)
    ensures DistinctIds(c[1..])
  {
    forall i, j | 0 <= i < j < |c[1..]| ensures c[1..][i].id != c[1..][j].id {
      assert c[1..][i] == c[i + 1] && c[1..][j] == c[j + 1];
    }
  }

  /** With distinct ids, an id found in `c[1..]` sits one place further on in `c`. */
  lemma {:induction false} LocateInTail(c: seq<Entry>, id: int)
    requires |c| > 0 && DistinctIds(c) && Locate(c[1..], id) < |c| - 1
    ensures Locate(c, id) == 1 + Locate(c[1..], id)
  {
    var k := Locate(c[1..], id);
    assert c[k + 1] == c[1..][k];
  }

  /** Entries found in `c[1..]` keep their relative order in `c`, one place on. */
  lemma {:induction false} TailShift(c: seq<Entry>, rest: seq<Alternative>)
    requires |c| > 0 && DistinctIds(c)
    requires forall i :: 0 <= i < |rest| ==> Locate(c[1..], rest[i].id) < |c| - 1
    ensures forall i :: 0 <= i < |rest| ==> 0 < Locate(c, rest[i].id) == 1 + Locate(c[1..], rest[i].id) < |c|
  {
    forall i | 0 <= i < |rest| ensures Locate(c, rest[i].id) == 1 + Locate(c[1..], rest[i].id) {
      LocateInTail(c, rest[i].id);
    }
  }

  /** One step of the scan that builds the candidates: an optional entry for
      `c[0]` in front of a list already ordered by position in `c[1..]` stays
      ordered by position in `c`. */
  lemma {:induction false} ConsInOrder(c: seq<Entry>, head: seq<Alternative>, rest: seq<Alternative>)
    requires |c| > 0 && DistinctIds(c)
    requires |head| <= 1 && (|head| == 1 ==> head[0].id == c[0].id)
    requires forall i :: 0 <= i < |rest| ==> Locate(c[1..], rest[i].id) < |c| - 1
    requires forall i, j :: 0 <= i < j < |rest| ==> Locate(c[1..], rest[i].id) < Locate(c[1..], rest[j].id)
    ensures forall i :: 0 <= i < |head + rest| ==> Locate(c, (head + rest)[i].id) < |c|
    ensures forall i, j :: 0 <= i < j < |head + rest| ==>
              Locate(c, (head + rest)[i].id) < Locate(c, (head + rest)[j].id)
  {
    TailShift(c, rest);
    if |head| == 0 {
      assert head + rest == rest;
    } else {
      ConsFirst(c, head[0], rest);
    }
  }

  lemma {:induction false} ConsFirst(c: seq<Entry>, x: Alternative, rest: seq<Alternative>)
    requires |c| > 0 && x.id == c[0].id
    requires forall i :: 0 <= i < |rest| ==> 0 < Locate(c, rest[i].id) < |c|
    requires forall i, j :: 0 <= i < j < |rest| ==> Locate(c, rest[i].id) < Locate(c, rest[j].id)
    ensures forall i :: 0 <= i < |[x] + rest| ==> Locate(c, ([x] + rest)[i].id) < |c|
    ensures forall i, j :: 0 <= i < j < |[x] + rest| ==>
              Locate(c, ([x] + rest)[i].id) < Locate(c, ([x] + rest)[j].id)
  {
    var cands := [x] + rest;
    assert Locate(c, x.id) == 0;
    assert forall i :: 0 < i < |cands| ==> cands[i] == rest[i - 1];
  }

  /** The candidates follow the catalog order strictly. */
  lemma {:induction false} CandidatesInOrder(c: seq<Entry>, observed: set<string>, best: Option<int>)
    requires DistinctIds(c)
    ensures forall i :: 0 <= i < |Candidates(c, observed, best)| ==>
              Locate(c, Candidates(c, observed, best)[i].id) < |c|
    ensures forall i, j :: 0 <= i < j < |Candidates(c, observed, best)| ==>
              Locate(c, Candidates(c, observed, best)[i].id) < Locate(c, Candidates(c, observed, best)[j].id)
    decreases |c|
  {
    if |c| > 0 {
      DistinctTail(c);
      CandidatesInOrder(c[1..], observed, best);
      var head := if Eligible(c[0], observed, best) then [AlternativeOf(c[0], observed)] else [];
      ConsInOrder(c, head, Candidates(c[1..], observed, best));
    }
  }


  lemma {:induction false} InsertTieOrdered(x: Alternative, s: seq<Alternative>, c: seq<Entry>)
    requires TieOrdered(s, c)
    requires forall m :: 0 <= m < |s| && s[m].probability == x.probability ==> Locate(c, x.id) < Locate(c, s[m].id)
    ensures TieOrdered(Insert(x, s), c)
  {
    InsertSplit(x, s);
    SpliceAt(s, InsertPos(x, s), x);
  }

  /** Sorting keeps the input order among equal scores. */
  lemma {:induction false} SortDescTieOrdered(s: seq<Alternative>, c: seq<Entry>)
    requires TieOrdered(s, c)
    ensures TieOrdered(SortDesc(s), c)
    decreases |s|
  {
    if |s| > 0 {
      var tail := s[1..];
      assert TieOrdered(tail, c) by {
        forall i, j | 0 <= i < j < |tail| && tail[i].probability == tail[j].probability
          ensures Locate(c, tail[i].id) < Locate(c, tail[j].id)
        {
          assert tail[i] == s[i + 1] && tail[j] == s[j + 1];
        }
      }
      SortDescTieOrdered(tail, c);
      SortDescSpec(tail);
      var l := SortDesc(tail);
      forall m | 0 <= m < |l| && l[m].probability == s[0].probability
        ensures Locate(c, s[0].id) < Locate(c, l[m].id)
      {
        assert l[m] in multiset(l);
        var k :| 0 <= k < |tail| && tail[k] == l[m];
        assert s[k + 1] == tail[k];
      }
      InsertTieOrdered(s[0], SortDesc(tail), c);
    }
  }

  /** Reported alternatives with equal scores appear in catalog order, that
      is, in the order of the scan. */
  lemma {:induction false} AlternativesStable(c: seq<Entry>, observed: set<string>, best: Option<int>)
    requires DistinctIds(c)
    ensures TieOrdered(TopAlternatives(c, observed, best), c)
  {
    var cands := Candidates(c, observed, best);
    CandidatesInOrder(c, observed, best);
    SortDescTieOrdered(cands, c);
    var sorted := SortDesc(cands);
    var alts := TopAlternatives(c, observed, best);
    forall i, j | 0 <= i < j < |alts| && alts[i].probability == alts[j].probability
      ensures Locate(c, alts[i].id) < Locate(c, alts[j].id)
    {
      assert alts[i] == sorted[i] && alts[j] == sorted[j];
    }
  }
}
