/**
 Grouping of the disease/symptom association rows into a per-disease catalog
 (app.py, `predict_disease`, the first loop). The catalog is a sequence in the
 order diseases are first seen, which is the iteration order of the Python
 dictionary the source builds.
 */
module Catalog {

  /** One row of the join of diseases, their associations and symptoms. */
  datatype Row = Row(diseaseId: int, diseaseName: string, symptom: string)

  /** One disease of the catalog with the set of its symptom names. */
  datatype Entry = Entry(id: int, name: string, symptoms: set<string>)

  /** The dictionary the source builds has one entry per disease id. */
  ghost predicate DistinctIds(c: seq<Entry>) {
    forall i, j :: 0 <= i < j < |c| ==> c[i].id != c[j].id
  }

  predicate HasId(c: seq<Entry>, id: int) {
    exists i :: 0 <= i < |c| && c[i].id == id
  }

  /** Some row is about disease `id`. */
  ghost predicate Mentions(rows: seq<Row>, id: int) {
    exists k :: 0 <= k < |rows| && rows[k].diseaseId == id
  }

  /** Every symptom name that some row associates with disease `id`. */
  ghost function SymptomsOf(rows: seq<Row>, id: int): set<string> {
    set k | 0 <= k < |rows| && rows[k].diseaseId == id :: rows[k].symptom
  }

  /** Row `k` is the first row about disease `id`. */
  ghost predicate IsFirstRow(rows: seq<Row>, id: int, k: int) {
    && 0 <= k < |rows|
    && rows[k].diseaseId == id
    && forall j :: 0 <= j < k ==> rows[j].diseaseId != id
  }

  /** Index of the first row about disease `id` (`|rows|` when there is none). */
  function FirstRow(rows: seq<Row>, id: int): nat
    decreases |rows|
  {
    if |rows| == 0 then 0
    else if rows[0].diseaseId == id then 0
    else 1 + FirstRow(rows[1..], id)
  }

  /** The catalog has one entry per disease id the rows mention, and no other. */
  ghost predicate KeysFrom(c: seq<Entry>, rows: seq<Row>) {
    && DistinctIds(c)
    && forall id :: HasId(c, id) <==> Mentions(rows, id)
  }

  /** Each entry holds exactly the symptoms of its disease's rows. */
  ghost predicate SetsFrom(c: seq<Entry>, rows: seq<Row>) {
    forall i :: 0 <= i < |c| ==> c[i].symptoms == SymptomsOf(rows, c[i].id)
  }

  /** Each entry is named after its disease's first row. */
  ghost predicate NamesFrom(c: seq<Entry>, rows: seq<Row>) {
    forall i :: 0 <= i < |c| ==> FirstRow(rows, c[i].id) < |rows| && c[i].name == rows[FirstRow(rows, c[i].id)].diseaseName
  }

  /** Entries appear in the order of their diseases' first rows. */
  ghost predicate OrderFrom(c: seq<Entry>, rows: seq<Row>) {
    forall i, j :: 0 <= i < j < |c| ==> FirstRow(rows, c[i].id) < FirstRow(rows, c[j].id)
  }

  /** What it means for `c` to be the catalog grouped from `rows`. */
  ghost predicate GroupedFrom(c: seq<Entry>, rows: seq<Row>) {
    KeysFrom(c, rows) && SetsFrom(c, rows) && NamesFrom(c, rows) && OrderFrom(c, rows)
  }

  /** Position of the entry for `id`, or `|c|` when the catalog has none. */
  function Locate(c: seq<Entry>, id: int): (k: nat)
    ensures k <= |c|
    ensures k < |c| ==> c[k].id == id
    ensures forall i :: 0 <= i < k ==> c[i].id != id
  {
    if |c| == 0 then 0
    else if c[0].id == id then 0
    else 1 + Locate(c[1..], id)
  }

  /** One iteration of the grouping loop: create the entry on first sight
      (keeping that row's disease name), then add the row's symptom. */
  function AddRow(c: seq<Entry>, row: Row): seq<Entry> {
    var k := Locate(c, row.diseaseId);
    if k < |c| then c[k := c[k].(symptoms := c[k].symptoms + {row.symptom})]
    else c + [Entry(row.diseaseId, row.diseaseName, {row.symptom})]
  }

  /** The catalog built from all rows, in row order. */
  function Group(rows: seq<Row>): seq<Entry>
    decreases |rows|
  {
    if |rows| == 0 then []
    else AddRow(Group(rows[..|rows| - 1]), rows[|rows| - 1])
  }

  /** `FirstRow` finds the first row of every mentioned disease, and only then
      stays inside the rows. */
  lemma {:induction false} FirstRowIsFirst(rows: seq<Row>, id: int)
    ensures Mentions(rows, id) <==> FirstRow(rows, id) < |rows|
    ensures Mentions(rows, id) ==> IsFirstRow(rows, id, FirstRow(rows, id))
    decreases |rows|
  {
    if |rows| > 0 && rows[0].diseaseId != id {
      var tail := rows[1..];
      FirstRowIsFirst(tail, id);
      if Mentions(rows, id) {
        var k :| 0 <= k < |rows| && rows[k].diseaseId == id;
        assert tail[k - 1] == rows[k];
      }
      if Mentions(tail, id) {
        var k :| 0 <= k < |tail| && tail[k].diseaseId == id;
        assert rows[k + 1] == tail[k];
        forall j | 0 <= j < FirstRow(rows, id) ensures rows[j].diseaseId != id {
          if j > 0 {
            assert rows[j] == tail[j - 1];
          }
        }
      }
    } else if |rows| > 0 {
      assert rows[0].diseaseId == id;
    }
  }

  /** A first row is unique. */
  lemma {:induction false} FirstRowUnique(rows: seq<Row>, id: int, k1: int, k2: int)
    requires IsFirstRow(rows, id, k1) && IsFirstRow(rows, id, k2)
    ensures k1 == k2
  {
  }

  lemma {:induction false} SymptomsOfSnoc(rows: seq<Row>, id: int)
    requires |rows| > 0
    ensures SymptomsOf(rows, id)
         == SymptomsOf(rows[..|rows| - 1], id)
          + (if rows[|rows| - 1].diseaseId == id then {rows[|rows| - 1].symptom} else {})
  {
    var init := rows[..|rows| - 1];
    var last := rows[|rows| - 1];
    var rhs := SymptomsOf(init, id) + (if last.diseaseId == id then {last.symptom} else {});
    forall s | s in SymptomsOf(rows, id) ensures s in rhs {
      var k :| 0 <= k < |rows| && rows[k].diseaseId == id && rows[k].symptom == s;
      if k < |rows| - 1 {
        assert init[k] == rows[k];
      }
    }
    forall s | s in rhs ensures s in SymptomsOf(rows, id) {
      if s in SymptomsOf(init, id) {
        var k :| 0 <= k < |init| && init[k].diseaseId == id && init[k].symptom == s;
        assert rows[k] == init[k];
      } else {
        assert rows[|rows| - 1].diseaseId == id;
      }
    }
  }

  lemma {:induction false} MentionsSnoc(rows: seq<Row>, id: int)
    requires |rows| > 0
    ensures Mentions(rows, id) <==> Mentions(rows[..|rows| - 1], id) || rows[|rows| - 1].diseaseId == id
  {
    var init := rows[..|rows| - 1];
    if Mentions(init, id) {
      var k :| 0 <= k < |init| && init[k].diseaseId == id;
      assert rows[k] == init[k];
    }
    if Mentions(rows, id) && rows[|rows| - 1].diseaseId != id {
      var k :| 0 <= k < |rows| && rows[k].diseaseId == id;
      assert init[k] == rows[k];
    }
  }

  /** Appending a row does not move the first row of an id already seen, and
      makes itself the first row of an id not seen before. */
  lemma {:induction false} FirstRowSnoc(rows: seq<Row>, id: int)
    requires |rows| > 0
    ensures Mentions(rows[..|rows| - 1], id) ==> FirstRow(rows, id) == FirstRow(rows[..|rows| - 1], id)
    ensures !Mentions(rows[..|rows| - 1], id) && rows[|rows| - 1].diseaseId == id ==> FirstRow(rows, id) == |rows| - 1
  {
    var init := rows[..|rows| - 1];
    MentionsSnoc(rows, id);
    FirstRowIsFirst(rows, id);
    FirstRowIsFirst(init, id);
    if Mentions(init, id) {
      var k := FirstRow(init, id);
      assert IsFirstRow(rows, id, k) by {
        assert rows[k] == init[k];
        forall j | 0 <= j < k ensures rows[j].diseaseId != id {
          assert rows[j] == init[j];
        }
      }
      FirstRowUnique(rows, id, k, FirstRow(rows, id));
    } else if rows[|rows| - 1].diseaseId == id {
      assert IsFirstRow(rows, id, |rows| - 1) by {
        forall j | 0 <= j < |rows| - 1 ensures rows[j].diseaseId != id {
          assert rows[j] == init[j];
        }
      }
      FirstRowUnique(rows, id, |rows| - 1, FirstRow(rows, id));
    }
  }

  /** Catalogs with the same id at every position have the same keys. */
  lemma {:induction false} SameIds(c0: seq<Entry>, c: seq<Entry>)
    requires |c| == |c0| && forall i :: 0 <= i < |c| ==> c[i].id == c0[i].id
    ensures DistinctIds(c) == DistinctIds(c0)
    ensures forall id :: HasId(c, id) <==> HasId(c0, id)
  {
    forall id ensures HasId(c, id) <==> HasId(c0, id) {
      if HasId(c, id) {
        var i :| 0 <= i < |c| && c[i].id == id;
        assert c0[i].id == id;
      }
      if HasId(c0, id) {
        var i :| 0 <= i < |c0| && c0[i].id == id;
        assert c[i].id == id;
      }
    }
  }

  /** A row whose disease already has an entry only grows that entry's set. */
  lemma {:induction false} AddRowExisting(c0: seq<Entry>, rows: seq<Row>)
    requires |rows| > 0 && GroupedFrom(c0, rows[..|rows| - 1])
    requires Locate(c0, rows[|rows| - 1].diseaseId) < |c0|
    ensures GroupedFrom(AddRow(c0, rows[|rows| - 1]), rows)
  {
    var init := rows[..|rows| - 1];
    var row := rows[|rows| - 1];
    var k := Locate(c0, row.diseaseId);
    var c := AddRow(c0, row);
    assert c == c0[k := c0[k].(symptoms := c0[k].symptoms + {row.symptom})];
    assert HasId(c0, row.diseaseId);
    SameIds(c0, c);
    forall id ensures HasId(c, id) <==> Mentions(rows, id) {
      MentionsSnoc(rows, id);
    }
    forall i | 0 <= i < |c| ensures c[i].symptoms == SymptomsOf(rows, c[i].id) {
      SymptomsOfSnoc(rows, c[i].id);
    }
    forall i | 0 <= i < |c| ensures FirstRow(rows, c[i].id) == FirstRow(init, c0[i].id) {
      assert HasId(c0, c0[i].id);
      FirstRowSnoc(rows, c[i].id);
    }
    forall i | 0 <= i < |c|
      ensures FirstRow(rows, c[i].id) < |rows| && c[i].name == rows[FirstRow(rows, c[i].id)].diseaseName
    {
      assert init[FirstRow(init, c0[i].id)] == rows[FirstRow(init, c0[i].id)];
    }
  }

  /** Appending an entry with a fresh id keeps the ids distinct and adds that id. */
  lemma {:induction false} AppendKeys(c0: seq<Entry>, e: Entry)
    requires DistinctIds(c0) && !HasId(c0, e.id)
    ensures DistinctIds(c0 + [e])
    ensures forall id :: HasId(c0 + [e], id) <==> HasId(c0, id) || id == e.id
  {
    var c := c0 + [e];
    forall i, j | 0 <= i < j < |c| ensures c[i].id != c[j].id {
      if j == |c0| {
        assert c[i] == c0[i];
      }
    }
    forall id ensures HasId(c, id) <==> HasId(c0, id) || id == e.id {
      if HasId(c, id) && id != e.id {
        var i :| 0 <= i < |c| && c[i].id == id;
        assert c0[i].id == id;
      }
      if HasId(c0, id) {
        var i :| 0 <= i < |c0| && c0[i].id == id;
        assert c[i].id == id;
      }
      if id == e.id {
        assert c[|c0|].id == id;
      }
    }
  }

  /** A row of a new disease appends an entry whose first row is that row. */
  lemma {:induction false} AddRowNew(c0: seq<Entry>, rows: seq<Row>)
    requires |rows| > 0 && GroupedFrom(c0, rows[..|rows| - 1])
    requires Locate(c0, rows[|rows| - 1].diseaseId) == |c0|
    ensures GroupedFrom(AddRow(c0, rows[|rows| - 1]), rows)
  {
    var init := rows[..|rows| - 1];
    var row := rows[|rows| - 1];
    var c := AddRow(c0, row);
    assert c == c0 + [Entry(row.diseaseId, row.diseaseName, {row.symptom})];
    assert !HasId(c0, row.diseaseId);
    assert !Mentions(init, row.diseaseId);
    AppendKeys(c0, c[|c0|]);
    forall id ensures HasId(c, id) <==> Mentions(rows, id) {
      MentionsSnoc(rows, id);
    }
    forall i | 0 <= i < |c| ensures c[i].symptoms == SymptomsOf(rows, c[i].id) {
      SymptomsOfSnoc(rows, c[i].id);
      if i == |c0| {
        assert SymptomsOf(init, row.diseaseId) == {};
      }
    }
    FirstRowSnoc(rows, row.diseaseId);
    forall i | 0 <= i < |c0| ensures FirstRow(rows, c[i].id) == FirstRow(init, c0[i].id) < |init| {
      assert HasId(c0, c0[i].id);
      FirstRowSnoc(rows, c[i].id);
    }
    forall i | 0 <= i < |c|
      ensures FirstRow(rows, c[i].id) < |rows| && c[i].name == rows[FirstRow(rows, c[i].id)].diseaseName
    {
      if i < |c0| {
        assert init[FirstRow(init, c0[i].id)] == rows[FirstRow(init, c0[i].id)];
      }
    }
  }

  /** Grouping yields exactly one entry per disease id seen, holding the set
      of symptoms of that id's rows and the name of its first row, in order
      of first appearance. */
  lemma {:induction false} GroupSpec(rows: seq<Row>)
    ensures GroupedFrom(Group(rows), rows)
    decreases |rows|
  {
    if |rows| > 0 {
      var c0 := Group(rows[..|rows| - 1]);
      GroupSpec(rows[..|rows| - 1]);
      if Locate(c0, rows[|rows| - 1].diseaseId) < |c0| {
        AddRowExisting(c0, rows);
      } else {
        AddRowNew(c0, rows);
      }
    }
  }

  /** Every entry of a grouped catalog has at least one symptom, since each
      entry is created from a row that brings one. */
  lemma {:induction false} GroupedNonEmpty(rows: seq<Row>)
    ensures forall i :: 0 <= i < |Group(rows)| ==> |Group(rows)[i].symptoms| > 0
  {
    var c := Group(rows);
    GroupSpec(rows);
    forall i | 0 <= i < |c| ensures |c[i].symptoms| > 0 {
      assert HasId(c, c[i].id);
      FirstRowIsFirst(rows, c[i].id);
      var k := FirstRow(rows, c[i].id);
      assert rows[k].symptom in SymptomsOf(rows, c[i].id);
    }
  }
}
