/**
 * Duplicate rows of a table: `DataFrame.duplicated()` and
 * `DataFrame.drop_duplicates()` with their defaults (all columns, keep the
 * first occurrence). A frame without columns is "empty" to pandas: it has
 * no duplicated rows and `drop_duplicates` returns it unchanged.
 */
module Duplicates {
  import opened Tables
  import opened Deduplication

  /** Column `c` restricted to the rows `k`, in that order. */
  function Pick(c: Column, k: seq<nat>): (r: Column)
    ensures r.name == c.name && r.kind == c.kind && |r.cells| == |k|
    ensures forall a :: 0 <= a < |k| ==> r.cells[a] == Cell(c, k[a])
  {
    c.(cells := seq(|k|, a requires 0 <= a < |k| => Cell(c, k[a])))
  }

  /** The table `drop_duplicates()` returns. */
  function DropDuplicates(t: Table): (r: Table)
    ensures |r.columns| == |t.columns| && r.height <= t.height
    ensures forall j :: 0 <= j < |t.columns| ==>
              r.columns[j].name == t.columns[j].name && r.columns[j].kind == t.columns[j].kind
  {
    if |t.columns| == 0 then t
    else
      var k := FirstOccurrences(Rows(t));
      DedupPicksFirstOccurrences(Rows(t));
      DedupRemovesDuplicated(Rows(t));
      Table(seq(|t.columns|, j requires 0 <= j < |t.columns| => Pick(t.columns[j], k)), |k|)
  }

  /** `duplicated().sum()`. */
  function DuplicatedRows(t: Table): nat
  {
    if |t.columns| == 0 then 0 else DuplicatedCount(Rows(t))
  }

  /** Row `a` of the result is row `k[a]` of the input. */
  lemma RowOfPick(t: Table, k: seq<nat>, a: nat)
    requires |t.columns| > 0 && a < |k| && k == FirstOccurrences(Rows(t))
    ensures Row(DropDuplicates(t), a) == Row(t, k[a])
  {
  }

  /** With at least one column, the rows of the result are the rows
      `Dedup` keeps: every first occurrence, in order, and nothing else. */
  lemma DropDuplicatesRows(t: Table)
    requires |t.columns| > 0
    ensures Rows(DropDuplicates(t)) == Dedup(Rows(t))
  {
    var k := FirstOccurrences(Rows(t));
    var r := DropDuplicates(t);
    DedupPicksFirstOccurrences(Rows(t));
    forall a | 0 <= a < r.height ensures Rows(r)[a] == Dedup(Rows(t))[a] {
      RowOfPick(t, k, a);
    }
  }

  /** The result has no two equal rows, and it keeps every row of the
      input: each input row still occurs in it. */
  lemma DropDuplicatesDistinct(t: Table)
    ensures |t.columns| > 0 ==> Distinct(Rows(DropDuplicates(t)))
    ensures forall i :: 0 <= i < t.height ==> Row(t, i) in Rows(DropDuplicates(t))
  {
    if |t.columns| > 0 {
      DropDuplicatesRows(t);
      DedupDistinct(Rows(t));
      DedupSameValues(Rows(t));
      assert forall i :: 0 <= i < t.height ==> Row(t, i) == Rows(t)[i];
    }
  }

  /** The number of rows removed is the number `duplicated()` marks, which
      the quality score uses. */
  lemma RemovedIsDuplicated(t: Table)
    ensures t.height - DropDuplicates(t).height == DuplicatedRows(t)
  {
    if |t.columns| > 0 {
      DedupPicksFirstOccurrences(Rows(t));
      DedupRemovesDuplicated(Rows(t));
    }
  }

  /** Removing duplicates keeps a table well formed. */
  lemma DropDuplicatesWellFormed(t: Table)
    requires WellFormed(t)
    ensures WellFormed(DropDuplicates(t))
  {
    if |t.columns| > 0 {
      var r := DropDuplicates(t);
      var k := FirstOccurrences(Rows(t));
      forall j | 0 <= j < |r.columns| ensures ColumnOk(r.columns[j], r.height) {
        assert ColumnOk(t.columns[j], t.height);
        assert forall a :: 0 <= a < |k| ==> k[a] < t.height;
      }
    }
  }

  /** Removing duplicates a second time changes nothing. */
  lemma DropDuplicatesIdempotent(t: Table)
    ensures DropDuplicates(DropDuplicates(t)) == DropDuplicates(t)
    ensures DuplicatedRows(DropDuplicates(t)) == 0
  {
    if |t.columns| > 0 {
      var r := DropDuplicates(t);
      DropDuplicatesRows(t);
      DedupDistinct(Rows(t));
      FirstOccurrencesOfDistinct(Rows(r));
      DedupOfDistinct(Rows(r));
      var k := FirstOccurrences(Rows(r));
      assert |k| == r.height;
      var r2 := DropDuplicates(r);
      forall j | 0 <= j < |r.columns| ensures r2.columns[j] == r.columns[j] {
        assert r2.columns[j].cells == r.columns[j].cells;
      }
      assert r2.columns == r.columns;
    }
  }
}
