/**
 * `CustomerDataCleaner` (src/data_cleaner.py:9-160): the `report` it fills
 * in as it runs, the stages that write to it, and `clean_dataset`, which
 * runs the stages in order.
 *
 * The report dictionary becomes fields; an entry not yet written is
 * `None`. Percentages are kept as numbers: their `:.2f` rendering is not
 * modelled.
 */
module Cleaner {
  import opened Wrappers
  import opened Tables
  import opened Missing
  import opened Duplicates
  import opened Formats
  import opened Outliers
  import opened Quality

  /** `assess_data_quality`'s `missing`, `dupes` and `outliers` entries. */
  datatype Assessment = Assessment(missing: map<string, nat>, dupes: nat, outliers: map<string, nat>)

  /** `report['fixed']['missing']`. */
  datatype MissingFix = MissingFix(droppedCols: seq<string>, imputed: nat)

  /** `report['fixed']['dupes']`; `rate` is a percentage. */
  datatype DupesFix = DupesFix(removed: nat, rate: real)

  /** `report['quality']`. */
  datatype QualityReport = QualityReport(orig: real, final: real, improve: real)

  /** The labels of the first `i` columns, and of the numeric ones among them. */
  function NamesBelow(cs: seq<Column>, i: nat): set<string>
    requires i <= |cs|
  {
    set j | 0 <= j < i :: cs[j].name
  }

  function NumericNamesBelow(cs: seq<Column>, i: nat): set<string>
    requires i <= |cs|
  {
    set j | 0 <= j < i && cs[j].kind == Number :: cs[j].name
  }

  lemma NamesBelowStep(cs: seq<Column>, i: nat)
    requires i < |cs|
    ensures NumericNamesBelow(cs, i + 1) ==
              NumericNamesBelow(cs, i) + (if cs[i].kind == Number then {cs[i].name} else {})
  {
  }

  /** `outliers` holds the outlier count of every numeric column among the
      first `i`, under that column's label. */
  predicate OutliersRecorded(outliers: map<string, nat>, cs: seq<Column>, i: nat)
    requires i <= |cs|
  {
    forall j :: 0 <= j < i && cs[j].kind == Number ==>
      cs[j].name in outliers && outliers[cs[j].name] == OutlierCount(cs[j])
  }

  /** Recording the outlier count of column `i` keeps the counts already
      recorded for earlier columns, whose labels differ. */
  lemma OutlierStep(cs: seq<Column>, i: nat, outliers: map<string, nat>)
    requires DistinctNames(cs) && i < |cs| && OutliersRecorded(outliers, cs, i)
    ensures OutliersRecorded(
              if cs[i].kind == Number then outliers[cs[i].name := OutlierCount(cs[i])] else outliers, cs, i + 1)
  {
  }

  /** `a` is the assessment of `t`: a missing count for every column, the
      number of duplicated rows, and an outlier count for every numeric
      column (`select_dtypes(include=[np.number])`: bool and datetime
      columns are not numeric). */
  predicate Describes(a: Assessment, t: Table)
  {
    && a.missing.Keys == NamesBelow(t.columns, |t.columns|)
    && (forall j :: 0 <= j < |t.columns| ==>
          t.columns[j].name in a.missing && a.missing[t.columns[j].name] == NullCount(t.columns[j].cells))
    && a.dupes == DuplicatedRows(t)
    && a.outliers.Keys == NumericNamesBelow(t.columns, |t.columns|)
    && OutliersRecorded(a.outliers, t.columns, |t.columns|)
  }

  /** `isnull().sum().to_dict()`: each column's label mapped to its missing count. */
  function MissingCounts(cs: seq<Column>): (m: map<string, nat>)
    requires DistinctNames(cs)
    ensures m.Keys == NamesBelow(cs, |cs|)
    ensures forall j :: 0 <= j < |cs| ==> cs[j].name in m && m[cs[j].name] == NullCount(cs[j].cells)
  {
    var m := map j | 0 <= j < |cs| :: cs[j].name := NullCount(cs[j].cells);
    assert forall j :: 0 <= j < |cs| ==> cs[j].name in m;
    m
  }

  /** What `remove_duplicates` records for a table with rows. */
  function DupesRecord(t: Table): DupesFix
    requires t.height > 0
  {
    RemovedIsDuplicated(t);
    var removed := t.height - DropDuplicates(t).height;
    DupesFix(removed, 100.0 * removed as real / t.height as real)
  }

  /** The scores before and after, and the improvement. */
  function QualityOf(before: Table, after: Table): (q: QualityReport)
    ensures 0.0 <= q.orig <= 100.0 && 0.0 <= q.final <= 100.0
    ensures q.improve == q.final - q.orig
  {
    var orig := QualityScore(before);
    var final := QualityScore(after);
    QualityReport(orig, final, final - orig)
  }

  /** The table `clean_dataset` returns, or the exception it raises. A
      table left without rows after the missing-value stage makes
      `remove_duplicates` divide by zero. */
  function CleanPipeline(t: Table, conv: Conversions): Result<Table, Failure>
  {
    var afterMissing := CleanMissing(t);
    if afterMissing.height == 0 then Err(DivisionByZero)
    else
      match StandardizeFormats(DropDuplicates(afterMissing), conv)
      case Err(e) => Err(e)
      case Ok(formatted) => ClipAll(formatted, OutlierColumns)
  }

  /** `CleanPipeline` stage by stage. */
  lemma PipelineStops(t: Table, conv: Conversions)
    ensures var afterMissing := CleanMissing(t);
      && (afterMissing.height == 0 ==> CleanPipeline(t, conv) == Err(DivisionByZero))
      && (afterMissing.height > 0 ==>
            var formatted := StandardizeFormats(DropDuplicates(afterMissing), conv);
            && (formatted.Err? ==> CleanPipeline(t, conv) == Err(formatted.error))
            && (formatted.Ok? ==> CleanPipeline(t, conv) == ClipAll(formatted.value, OutlierColumns)))
  {
  }

  /** A successful run turns a well-formed table into a well-formed table
      whose rows are the rows left after the missing-value stage less the
      duplicated ones. */
  lemma CleanPipelineWellFormed(t: Table, conv: Conversions)
    requires WellFormed(t)
    ensures CleanPipeline(t, conv).Ok? ==>
              && WellFormed(CleanPipeline(t, conv).value)
              && CleanPipeline(t, conv).value.height == t.height - DuplicatedRows(CleanMissing(t))
  {
    var afterMissing := CleanMissing(t);
    PipelineStops(t, conv);
    if afterMissing.height > 0 {
      CleanMissingShape(t);
      DropDuplicatesWellFormed(afterMissing);
      RemovedIsDuplicated(afterMissing);
      var deduplicated := DropDuplicates(afterMissing);
      var formatted := StandardizeFormats(deduplicated, conv);
      if formatted.Ok? {
        StandardizeFormatsWellFormed(deduplicated, conv);
        ClipAllWellFormed(formatted.value);
        HandleOutliersEffect(formatted.value);
      }
    }
  }

  /** The whole run adds at most one column: every column of a successful
      result is a column of the input or `Email_Valid`, and a column can
      otherwise only have been dropped. */
  lemma CleanPipelineColumns(t: Table, conv: Conversions)
    requires WellFormed(t)
    ensures CleanPipeline(t, conv).Ok? ==>
              && |CleanPipeline(t, conv).value.columns| <= |t.columns| + 1
              && NamedFrom(CleanPipeline(t, conv).value.columns, t.columns, "Email_Valid")
  {
    var afterMissing := CleanMissing(t);
    PipelineStops(t, conv);
    if afterMissing.height > 0 {
      var deduplicated := DropDuplicates(afterMissing);
      var formatted := StandardizeFormats(deduplicated, conv);
      if formatted.Ok? && ClipAll(formatted.value, OutlierColumns).Ok? {
        CleanMissingShape(t);
        DropDuplicatesWellFormed(afterMissing);
        StandardizeFormatsWellFormed(deduplicated, conv);
        MissingLabels(t);
        LabelsNamedFrom(deduplicated.columns, afterMissing.columns, "Email_Valid");
        NamedFromTrans(deduplicated.columns, afterMissing.columns, t.columns, "Email_Valid");
        StandardizeFormatsNamed(deduplicated, conv);
        NamedFromTrans(formatted.value.columns, deduplicated.columns, t.columns, "Email_Valid");
        ClipAllNamed(formatted.value, t);
      }
    }
  }

  /** The missing-value stage keeps at most the input's columns, under
      their own labels. */
  lemma MissingLabels(t: Table)
    requires WellFormed(t)
    ensures |CleanMissing(t).columns| <= |t.columns|
    ensures NamedFrom(CleanMissing(t).columns, t.columns, "Email_Valid")
  {
    CleanMissingShape(t);
    KeptAtPositions(t.columns);
    var r := CleanMissing(t).columns;
    var k := KeptPositions(t.columns);
    forall a | 0 <= a < |r| ensures r[a].name in Names(t.columns) {
      assert Names(t.columns)[k[a]] == r[a].name;
    }
  }

  /** Clipping keeps the columns and their labels. */
  lemma ClipAllNamed(u: Table, t: Table)
    requires DistinctNames(u.columns) && ClipAll(u, OutlierColumns).Ok?
    requires |u.columns| <= |t.columns| + 1 && NamedFrom(u.columns, t.columns, "Email_Valid")
    ensures |ClipAll(u, OutlierColumns).value.columns| <= |t.columns| + 1
    ensures NamedFrom(ClipAll(u, OutlierColumns).value.columns, t.columns, "Email_Valid")
  {
    HandleOutliersEffect(u);
    var r := ClipAll(u, OutlierColumns).value;
    LabelsNamedFrom(r.columns, u.columns, "Email_Valid");
    NamedFromTrans(r.columns, u.columns, t.columns, "Email_Valid");
  }

  class CustomerDataCleaner {
    var origShape: Option<Shape>
    var finalShape: Option<Shape>
    var found: Option<Assessment>
    var fixedMissing: Option<MissingFix>
    var fixedDupes: Option<DupesFix>
    var quality: Option<QualityReport>

    /** A report with nothing recorded yet. */
    constructor ()
      ensures origShape.None? && finalShape.None? && found.None?
      ensures fixedMissing.None? && fixedDupes.None? && quality.None?
    {
      origShape, finalShape, found := None, None, None;
      fixedMissing, fixedDupes, quality := None, None, None;
    }

    /** Lines 20-41: `isnull().sum().to_dict()` and `duplicated().sum()`
        at once, then the loop over the numeric columns. Column labels are
        distinct, as `to_dict` needs them to be. */
    method AssessDataQuality(t: Table) returns (a: Assessment)
      requires DistinctNames(t.columns)
      ensures Describes(a, t)
    {
      var cs := t.columns;
      var outliers: map<string, nat> := map[];
      var i := 0;
      while i < |cs|
        invariant 0 <= i <= |cs|
        invariant outliers.Keys == NumericNamesBelow(cs, i)
        invariant OutliersRecorded(outliers, cs, i)
      {
        NamesBelowStep(cs, i);
        OutlierStep(cs, i, outliers);
        if cs[i].kind == Number {
          outliers := outliers[cs[i].name := OutlierCount(cs[i])];
        }
        i := i + 1;
      }
      a := Assessment(MissingCounts(cs), DuplicatedRows(t), outliers);
    }

    /** Lines 43-63: drop the mostly-missing columns, fill the rest column
        by column, and record what was dropped and how many cells were
        filled. */
    method CleanMissingValues(t: Table) returns (r: Table)
      modifies this
      ensures r == CleanMissing(t)
      ensures fixedMissing == Some(MissingFix(DroppedNames(t), ImputedCount(t)))
      ensures origShape == old(origShape) && finalShape == old(finalShape) && found == old(found)
      ensures fixedDupes == old(fixedDupes) && quality == old(quality)
    {
      var kept := Kept(t.columns);
      var cols := kept;
      var j := 0;
      while j < |cols|
        invariant 0 <= j <= |cols| == |kept|
        invariant forall m :: 0 <= m < j ==> cols[m] == Imputed(kept[m])
        invariant forall m :: j <= m < |cols| ==> cols[m] == kept[m]
      {
        cols := cols[j := Imputed(cols[j])];
        j := j + 1;
      }
      r := Table(cols, t.height);
      assert r.columns == ImputeAll(kept);
      fixedMissing := Some(MissingFix(DroppedNames(t), ImputedCount(t)));
    }

    /** Lines 65-75. `removed / initial` fails on a table without rows,
        before anything is recorded. */
    method RemoveDuplicates(t: Table) returns (res: Result<Table, Failure>)
      modifies this
      ensures t.height == 0 ==> res == Err(DivisionByZero) && fixedDupes == old(fixedDupes)
      ensures t.height > 0 ==>
                && res == Ok(DropDuplicates(t))
                && fixedDupes == Some(DupesRecord(t))
                && fixedDupes.value.removed == DuplicatedRows(t)
      ensures origShape == old(origShape) && finalShape == old(finalShape) && found == old(found)
      ensures fixedMissing == old(fixedMissing) && quality == old(quality)
    {
      if t.height == 0 {
        return Err(DivisionByZero);
      }
      var cleaned := DropDuplicates(t);
      RemovedIsDuplicated(t);
      fixedDupes := Some(DupesRecord(t));
      res := Ok(cleaned);
    }

    /** Lines 99-114: clip each of Age and Income that is present. */
    method HandleOutliers(t: Table) returns (res: Result<Table, Failure>)
      ensures res == ClipAll(t, OutlierColumns)
    {
      var names := OutlierColumns;
      var cleaned := t;
      var i := 0;
      while i < |names|
        invariant 0 <= i <= |names|
        invariant ClipAll(t, names[..i]) == Ok(cleaned)
      {
        assert names[..i + 1][..i] == names[..i];
        var step := ClipOne(cleaned, names[i]);
        if step.Err? {
          return Err(step.error);
        }
        cleaned := step.value;
        i := i + 1;
      }
      assert names[..i] == names;
      res := Ok(cleaned);
    }

    /** Lines 116-150. Each entry of the report is written when its stage
        runs, so a failing stage leaves the entries of the stages before it
        written and the later ones as they were. */
    method CleanDataset(t: Table, conv: Conversions) returns (res: Result<Table, Failure>)
      requires DistinctNames(t.columns)
      modifies this
      ensures res == CleanPipeline(t, conv)
      ensures origShape == Some(ShapeOf(t))
      ensures found.Some? && Describes(found.value, t)
      ensures fixedMissing == Some(MissingFix(DroppedNames(t), ImputedCount(t)))
      ensures CleanMissing(t).height == 0 ==> fixedDupes == old(fixedDupes)
      ensures CleanMissing(t).height > 0 ==> fixedDupes == Some(DupesRecord(CleanMissing(t)))
      ensures res.Ok? ==>
                && finalShape == Some(ShapeOf(res.value))
                && quality == Some(QualityOf(t, res.value))
      ensures res.Err? ==> finalShape == old(finalShape) && quality == old(quality)
    {
      origShape := Some(ShapeOf(t));
      var assessment := AssessDataQuality(t);
      found := Some(assessment);
      var cleaned := CleanMissingValues(t);
      var deduplicated := RemoveDuplicates(cleaned);
      if deduplicated.Err? {
        res := Err(deduplicated.error);
      } else {
        var formatted := StandardizeFormats(deduplicated.value, conv);
        if formatted.Err? {
          res := Err(formatted.error);
        } else {
          var clipped := HandleOutliers(formatted.value);
          if clipped.Err? {
            res := Err(clipped.error);
          } else {
            var final := clipped.value;
            finalShape := Some(ShapeOf(final));
            quality := Some(QualityOf(t, final));
            res := Ok(final);
          }
        }
      }
    }
  }
}
