/**
 * The two steps of `clean_missing_values` (src/data_cleaner.py:43-63):
 * drop every column that is more than half missing, then fill the missing
 * cells of each remaining column, object columns with their mode and
 * numeric columns with their median.
 */
module Missing {
  import opened Wrappers
  import opened Tables
  import opened Stats
  import opened Text

  /** `isnull().mean() > 0.5`. The mean of an empty column is NaN, and
      NaN > 0.5 is false, so an empty column is never dropped. */
  predicate HighMissing(c: Column)
  {
    |c.cells| > 0 && 2 * NullCount(c.cells) > |c.cells|
  }

  // ------------------------------------------------------ dropping columns

  /** The columns `drop(columns=high_missing)` keeps. */
  function Kept(cs: seq<Column>): (r: seq<Column>)
    ensures |r| <= |cs|
  {
    if cs == [] then []
    else
      var last := cs[|cs| - 1];
      Kept(cs[..|cs| - 1]) + (if HighMissing(last) then [] else [last])
  }

  /** The columns collected in `high_missing`, in column order. */
  function Dropped(cs: seq<Column>): (r: seq<Column>)
    ensures |r| <= |cs|
  {
    if cs == [] then []
    else
      var last := cs[|cs| - 1];
      Dropped(cs[..|cs| - 1]) + (if HighMissing(last) then [last] else [])
  }

  /** The positions of the kept columns, in increasing order: exactly the
      columns that are not more than half missing. */
  function KeptPositions(cs: seq<Column>): (k: seq<nat>)
    ensures forall a :: 0 <= a < |k| ==> k[a] < |cs|
    ensures forall a, b :: 0 <= a < b < |k| ==> k[a] < k[b]
    ensures forall j :: 0 <= j < |cs| ==> (j in k <==> !HighMissing(cs[j]))
  {
    if cs == [] then []
    else
      var f := KeptPositions(cs[..|cs| - 1]);
      if HighMissing(cs[|cs| - 1]) then f else f + [|cs| - 1]
  }

  /** The kept columns are the input's columns at `KeptPositions`, so the
      kept columns stay in their original order. */
  lemma {:induction false} KeptAtPositions(cs: seq<Column>)
    ensures |Kept(cs)| == |KeptPositions(cs)|
    ensures forall a :: 0 <= a < |Kept(cs)| ==> Kept(cs)[a] == cs[KeptPositions(cs)[a]]
  {
    if cs != [] {
      var front, last := cs[..|cs| - 1], cs[|cs| - 1];
      KeptAtPositions(front);
      var kf, pf := Kept(front), KeptPositions(front);
      var tail := if HighMissing(last) then [] else [last];
      assert Kept(cs) == kf + tail;
      assert KeptPositions(cs) == pf + (if HighMissing(last) then [] else [|cs| - 1]);
      forall a | 0 <= a < |Kept(cs)| ensures Kept(cs)[a] == cs[KeptPositions(cs)[a]] {
        if a < |kf| {
          assert KeptPositions(cs)[a] == pf[a] < |front|;
        }
      }
    }
  }

  /** The positions of the dropped columns, in increasing order: exactly
      the columns that are more than half missing. */
  function DroppedPositions(cs: seq<Column>): (k: seq<nat>)
    ensures forall a :: 0 <= a < |k| ==> k[a] < |cs|
    ensures forall a, b :: 0 <= a < b < |k| ==> k[a] < k[b]
    ensures forall j :: 0 <= j < |cs| ==> (j in k <==> HighMissing(cs[j]))
  {
    if cs == [] then []
    else
      var f := DroppedPositions(cs[..|cs| - 1]);
      if HighMissing(cs[|cs| - 1]) then f + [|cs| - 1] else f
  }

  /** The dropped columns are the input's columns at `DroppedPositions`, so
      `high_missing` lists them in column order. */
  lemma {:induction false} DroppedAtPositions(cs: seq<Column>)
    ensures |Dropped(cs)| == |DroppedPositions(cs)|
    ensures forall a :: 0 <= a < |Dropped(cs)| ==> Dropped(cs)[a] == cs[DroppedPositions(cs)[a]]
  {
    if cs != [] {
      var front, last := cs[..|cs| - 1], cs[|cs| - 1];
      DroppedAtPositions(front);
      var df, pf := Dropped(front), DroppedPositions(front);
      var tail := if HighMissing(last) then [last] else [];
      assert Dropped(cs) == df + tail;
      assert DroppedPositions(cs) == pf + (if HighMissing(last) then [|cs| - 1] else []);
      forall a | 0 <= a < |Dropped(cs)| ensures Dropped(cs)[a] == cs[DroppedPositions(cs)[a]] {
        if a < |df| {
          assert DroppedPositions(cs)[a] == pf[a] < |front|;
        }
      }
    }
  }

  /** A column is kept exactly when it is a column of the input that is not
      more than half missing. */
  lemma KeptColumns(cs: seq<Column>)
    ensures forall c :: c in Kept(cs) ==> c in cs && !HighMissing(c)
    ensures forall j :: 0 <= j < |cs| && !HighMissing(cs[j]) ==> cs[j] in Kept(cs)
  {
    KeptAtPositions(cs);
    var k := KeptPositions(cs);
    forall c | c in Kept(cs) ensures c in cs && !HighMissing(c) {
      var a :| 0 <= a < |Kept(cs)| && Kept(cs)[a] == c;
      assert k[a] in k;
    }
    forall j | 0 <= j < |cs| && !HighMissing(cs[j]) ensures cs[j] in Kept(cs) {
      var a :| 0 <= a < |k| && k[a] == j;
      assert Kept(cs)[a] == cs[j];
    }
  }

  /** A column is dropped exactly when it is a column of the input that is
      more than half missing. */
  lemma {:induction false} DroppedColumns(cs: seq<Column>)
    ensures forall c :: c in Dropped(cs) ==> c in cs && HighMissing(c)
    ensures forall j :: 0 <= j < |cs| && HighMissing(cs[j]) ==> cs[j] in Dropped(cs)
  {
    if cs != [] {
      var front, last := cs[..|cs| - 1], cs[|cs| - 1];
      DroppedColumns(front);
      assert forall c :: c in front ==> c in cs;
    }
    DroppedAtPositions(cs);
    var k := DroppedPositions(cs);
    forall j | 0 <= j < |cs| && HighMissing(cs[j]) ensures cs[j] in Dropped(cs) {
      var a :| 0 <= a < |k| && k[a] == j;
      assert Dropped(cs)[a] == cs[j];
    }
  }

  /** The missing cells of a column list with one more column. */
  lemma TotalNullsSnoc(cs: seq<Column>, c: Column)
    ensures TotalNulls(cs + [c]) == TotalNulls(cs) + NullCount(c.cells)
  {
    TotalNullsAppend(cs, [c]);
    assert [c][1..] == [];
  }

  /** Every column is either kept or dropped, so the missing cells of the
      input split between the two. */
  lemma {:induction false} TotalNullsSplit(cs: seq<Column>)
    ensures TotalNulls(cs) == TotalNulls(Kept(cs)) + TotalNulls(Dropped(cs))
  {
    if cs != [] {
      var front, last := cs[..|cs| - 1], cs[|cs| - 1];
      TotalNullsSplit(front);
      assert cs == front + [last];
      TotalNullsSnoc(front, last);
      var kf, df := Kept(front), Dropped(front);
      if HighMissing(last) {
        assert Kept(cs) == kf;
        assert Dropped(cs) == df + [last];
        TotalNullsSnoc(df, last);
      } else {
        assert Kept(cs) == kf + [last];
        assert Dropped(cs) == df;
        TotalNullsSnoc(kf, last);
      }
    }
  }

  /** Dropping keeps a table well formed: the kept columns are columns of
      the input, with their names still distinct. */
  lemma KeptWellFormed(t: Table)
    requires WellFormed(t)
    ensures WellFormed(Table(Kept(t.columns), t.height))
  {
    var cs := t.columns;
    var k := KeptPositions(cs);
    KeptAtPositions(cs);
    var r := Kept(cs);
    forall a, b | 0 <= a < b < |r| ensures r[a].name != r[b].name {
      assert k[a] < k[b];
    }
  }

  // ------------------------------------------------------ filling cells

  /** What `fillna` puts into the missing cells of a column: the first
      value of `mode()` for an object column, `median()` for a numeric one,
      nothing for other dtypes or when the column has no value to offer
      (`mode()` is empty; a median of nothing is NaN, and filling with NaN
      changes nothing). */
  function FillValue(c: Column): (v: Option<Value>)
    ensures v.Some? <==>
              (c.kind == Object && Strings(c.cells) != []) || (c.kind == Number && Numbers(c.cells) != [])
    ensures v.Some? && c.kind == Object ==>
              var xs := Strings(c.cells);
              && v.value.Str? && v.value.s in xs
              && (forall x :: x in xs ==> Occurrences(xs, x) <= Occurrences(xs, v.value.s))
              && (forall x :: x in xs && Occurrences(xs, x) == Occurrences(xs, v.value.s) ==> LexLe(v.value.s, x))
    ensures v.Some? && c.kind == Number ==>
              var xs := Numbers(c.cells);
              && v.value == Num(Median(xs))
              && 2 * CountAtMost(xs, v.value.x) >= |xs|
              && 2 * CountAtLeast(xs, v.value.x) >= |xs|
  {
    match c.kind
    case Object =>
      (match Mode(Strings(c.cells))
       case None => None
       case Some(m) => Some(Str(m)))
    case Number =>
      var xs := Numbers(c.cells);
      if xs == [] then None
      else
        MedianSplitsInHalf(xs);
        Some(Num(Median(xs)))
    case Boolean => None
    case DateTime => None
  }

  /** One column after `fillna(value)`: cells that had a value keep it,
      missing cells take the fill value, and none is left missing. */
  function Imputed(c: Column): (r: Column)
    ensures r.name == c.name && r.kind == c.kind && |r.cells| == |c.cells|
    ensures forall i :: 0 <= i < |c.cells| && !c.cells[i].Null? ==> r.cells[i] == c.cells[i]
    ensures FillValue(c).Some? ==>
              && (forall i :: 0 <= i < |c.cells| && c.cells[i].Null? ==> r.cells[i] == FillValue(c).value)
              && NullCount(r.cells) == 0
    ensures FillValue(c).None? ==> r == c
  {
    match FillValue(c)
    case None => c
    case Some(v) =>
      var cells := seq(|c.cells|, i requires 0 <= i < |c.cells| => if c.cells[i].Null? then v else c.cells[i]);
      assert v.Str? || v.Num?;
      c.(cells := cells)
  }

  /** Filling never adds missing cells. */
  lemma ImputedNulls(c: Column)
    ensures NullCount(Imputed(c).cells) <= NullCount(c.cells)
    ensures FillValue(c).None? ==> NullCount(Imputed(c).cells) == NullCount(c.cells)
  {
  }

  /** A column that survived the drop and has at least one row has a value
      to fill with, if it is an object or numeric column. */
  lemma KeptIsFillable(c: Column)
    requires ColumnOk(c, |c.cells|) && |c.cells| > 0 && !HighMissing(c)
    requires c.kind == Object || c.kind == Number
    ensures FillValue(c).Some?
  {
    if forall i :: 0 <= i < |c.cells| ==> c.cells[i].Null? {
      NullCountAll(c.cells);
      assert false;
    }
    var i :| 0 <= i < |c.cells| && !c.cells[i].Null?;
    assert c.cells[i] in c.cells;
    if c.kind == Object {
      assert c.cells[i].s in Strings(c.cells);
    } else {
      assert c.cells[i].x in Numbers(c.cells);
    }
  }

  /** Filling keeps a column's cells in its dtype. */
  lemma ImputedOk(c: Column, h: nat)
    requires ColumnOk(c, h)
    ensures ColumnOk(Imputed(c), h)
  {
  }

  function ImputeAll(cs: seq<Column>): (r: seq<Column>)
    ensures |r| == |cs|
    ensures forall j :: 0 <= j < |cs| ==> r[j] == Imputed(cs[j])
  {
    seq(|cs|, j requires 0 <= j < |cs| => Imputed(cs[j]))
  }

  lemma {:induction false} ImputeAllNulls(cs: seq<Column>)
    ensures TotalNulls(ImputeAll(cs)) <= TotalNulls(cs)
  {
    if cs != [] {
      ImputeAllNulls(cs[1..]);
      assert ImputeAll(cs)[1..] == ImputeAll(cs[1..]);
      ImputedNulls(cs[0]);
    }
  }

  // ------------------------------------------------------ the whole step

  /** The table `clean_missing_values` returns. */
  function CleanMissing(t: Table): (r: Table)
    ensures r.height == t.height
  {
    Table(ImputeAll(Kept(t.columns)), t.height)
  }

  /** `report['fixed']['missing']['dropped_cols']`. */
  function DroppedNames(t: Table): seq<string>
  {
    Names(Dropped(t.columns))
  }

  /** `list(high_missing)` names the input's columns at the dropped
      positions, in column order. */
  lemma DroppedNamesInOrder(t: Table)
    ensures |DroppedNames(t)| == |DroppedPositions(t.columns)|
    ensures forall a :: 0 <= a < |DroppedNames(t)| ==>
              DroppedNames(t)[a] == t.columns[DroppedPositions(t.columns)[a]].name
  {
    DroppedAtPositions(t.columns);
  }

  /** `report['fixed']['missing']['imputed']`: missing cells before minus
      missing cells after. */
  function ImputedCount(t: Table): nat
  {
    TotalNullsSplit(t.columns);
    ImputeAllNulls(Kept(t.columns));
    TotalNulls(t.columns) - TotalNulls(CleanMissing(t).columns)
  }

  /** The count is the missing cells of the dropped columns plus the cells
      filled in the kept ones, and filling never adds missing cells. */
  lemma ImputedCountSplit(t: Table)
    ensures TotalNulls(CleanMissing(t).columns) <= TotalNulls(Kept(t.columns))
    ensures ImputedCount(t) ==
              TotalNulls(Dropped(t.columns)) + (TotalNulls(Kept(t.columns)) - TotalNulls(CleanMissing(t).columns))
  {
    TotalNullsSplit(t.columns);
    ImputeAllNulls(Kept(t.columns));
  }

  /** The result keeps the rows, keeps exactly the columns that are not
      more than half missing, in their order and with their names and
      dtypes, and is well formed. */
  lemma CleanMissingShape(t: Table)
    requires WellFormed(t)
    ensures var r := CleanMissing(t); var k := KeptPositions(t.columns);
      && WellFormed(r)
      && |r.columns| == |k|
      && forall a :: 0 <= a < |k| ==>
           r.columns[a].name == t.columns[k[a]].name && r.columns[a].kind == t.columns[k[a]].kind
  {
    KeptWellFormed(t);
    KeptAtPositions(t.columns);
    var r := CleanMissing(t);
    var kept := Kept(t.columns);
    forall j | 0 <= j < |r.columns| ensures ColumnOk(r.columns[j], t.height) {
      ImputedOk(kept[j], t.height);
    }
  }

  /** After the step, only datetime columns can still hold missing cells
      (a table with rows: every object or numeric column that survived the
      drop has a value to fill with, and bool columns have no missing
      cells). */
  lemma CleanMissingLeavesNoNulls(t: Table)
    requires WellFormed(t) && t.height > 0
    ensures forall j :: 0 <= j < |CleanMissing(t).columns| && CleanMissing(t).columns[j].kind != DateTime ==>
              NullCount(CleanMissing(t).columns[j].cells) == 0
  {
    var kept := Kept(t.columns);
    KeptWellFormed(t);
    KeptColumns(t.columns);
    forall j | 0 <= j < |kept| && kept[j].kind != DateTime
      ensures NullCount(Imputed(kept[j]).cells) == 0
    {
      var c := kept[j];
      assert ColumnOk(c, t.height);
      assert c in kept;
      if c.kind == Boolean {
        assert forall i :: 0 <= i < |c.cells| ==> !c.cells[i].Null?;
      } else {
        KeptIsFillable(c);
      }
    }
  }
}
