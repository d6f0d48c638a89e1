/**
 * The IQR rule of the cleaner: `handle_outliers` clips Age and Income to
 * [Q1 - 1.5 IQR, Q3 + 1.5 IQR] (src/data_cleaner.py:99-114), and
 * `assess_data_quality` counts the values outside those fences in every
 * numeric column (src/data_cleaner.py:29-39).
 *
 * The quartiles skip missing values. A column with no values has NaN
 * quartiles: nothing compares outside NaN fences, and clipping to NaN
 * bounds changes nothing, so such a column counts no outliers and is left
 * as it is.
 */
module Outliers {
  import opened Wrappers
  import opened Tables
  import opened Stats

  function ClampCell(v: Value, f: Fences): (r: Value)
    requires f.lower <= f.upper
    ensures r.Num? <==> v.Num?
    ensures r.Num? ==> f.lower <= r.x <= f.upper
    ensures !v.Num? || f.lower <= v.x <= f.upper ==> r == v
  {
    if v.Num? then Num(Clamp(v.x, f.lower, f.upper)) else v
  }

  /** `np.clip` of a whole column: missing cells stay missing. */
  function ClampCells(s: seq<Value>, f: Fences): (r: seq<Value>)
    requires f.lower <= f.upper
    ensures |r| == |s|
    ensures forall i :: 0 <= i < |s| ==> r[i] == ClampCell(s[i], f)
  {
    if s == [] then [] else [ClampCell(s[0], f)] + ClampCells(s[1..], f)
  }

  /** One column after `handle_outliers`: clipped to its own fences, or
      unchanged when it has no values. */
  function ClippedColumn(c: Column): (r: Column)
    ensures r.name == c.name && r.kind == c.kind && |r.cells| == |c.cells|
    ensures Numbers(c.cells) == [] ==> r == c
    ensures Numbers(c.cells) != [] ==>
              var f := ColumnFences(Numbers(c.cells));
              forall i :: 0 <= i < |c.cells| && c.cells[i].Num? ==>
                r.cells[i].Num? && f.lower <= r.cells[i].x <= f.upper
    ensures forall i :: 0 <= i < |c.cells| && !c.cells[i].Num? ==> r.cells[i] == c.cells[i]
  {
    var xs := Numbers(c.cells);
    if xs == [] then c else c.(cells := ClampCells(c.cells, ColumnFences(xs)))
  }

  /** Clipping one named column; quantiles need a numeric (or datetime) column. */
  function ClipOne(t: Table, name: string): (r: Result<Table, Failure>)
  {
    match Find(t.columns, name)
    case None => Ok(t)
    case Some(j) =>
      var c := t.columns[j];
      if c.kind == Number || c.kind == DateTime then Ok(SetColumn(t, j, ClippedColumn(c)))
      else Err(NotNumeric(name))
  }

  /** The loop of `handle_outliers` over `names`, first to last. */
  function ClipAll(t: Table, names: seq<string>): Result<Table, Failure>
  {
    if names == [] then Ok(t)
    else
      match ClipAll(t, names[..|names| - 1])
      case Err(e) => Err(e)
      case Ok(u) => ClipOne(u, names[|names| - 1])
  }

  const OutlierColumns: seq<string> := ["Age", "Income"]

  predicate Clippable(t: Table, name: string)
  {
    Find(t.columns, name).None? || t.columns[Find(t.columns, name).value].kind in {Number, DateTime}
  }

  /** Clipping a column whose name is absent from `t` leaves the named
      column and its dtype where they were. */
  lemma ClipOneOther(t: Table, name: string, m: nat)
    requires ClipOne(t, name).Ok? && m < |t.columns| && t.columns[m].name != name
    ensures var u := ClipOne(t, name).value;
      |u.columns| == |t.columns| && u.height == t.height && u.columns[m] == t.columns[m]
  {
  }

  /** What `handle_outliers` does: it fails exactly when Age or Income is
      present but not numeric; otherwise it keeps the rows and the columns,
      clips Age and Income to their own fences and leaves every other
      column as it was. */
  lemma HandleOutliersEffect(t: Table)
    requires DistinctNames(t.columns)
    ensures ClipAll(t, OutlierColumns).Ok? <==> Clippable(t, "Age") && Clippable(t, "Income")
    ensures ClipAll(t, OutlierColumns).Ok? ==>
              var r := ClipAll(t, OutlierColumns).value;
              && r.height == t.height && |r.columns| == |t.columns|
              && forall m :: 0 <= m < |t.columns| ==>
                   r.columns[m] == if t.columns[m].name in OutlierColumns then ClippedColumn(t.columns[m]) else t.columns[m]
  {
    ClipAllTwo(t);
    var r1 := ClipOne(t, "Age");
    if r1.Ok? {
      var u := r1.value;
      FindSameNamesAfterSet(t, u);
      var r2 := ClipOne(u, "Income");
      if r2.Ok? {
        var r := r2.value;
        forall m | 0 <= m < |t.columns|
          ensures r.columns[m] == if t.columns[m].name in OutlierColumns then ClippedColumn(t.columns[m]) else t.columns[m]
        {
          if t.columns[m].name == "Age" {
            FindDistinct(t.columns, "Age", m);
          } else if t.columns[m].name == "Income" {
            FindDistinct(u.columns, "Income", m);
          } else {
            assert t.columns[m].name !in OutlierColumns;
          }
        }
      }
    }
  }

  /** Clipping keeps a well-formed table well formed. */
  lemma ClipAllWellFormed(t: Table)
    requires WellFormed(t)
    ensures ClipAll(t, OutlierColumns).Ok? ==> WellFormed(ClipAll(t, OutlierColumns).value)
  {
    HandleOutliersEffect(t);
    if ClipAll(t, OutlierColumns).Ok? {
      var r := ClipAll(t, OutlierColumns).value;
      forall m | 0 <= m < |r.columns| ensures ColumnOk(r.columns[m], r.height) {
        var c := t.columns[m];
        assert ColumnOk(c, t.height);
        if c.name in OutlierColumns {
          forall i | 0 <= i < |c.cells| ensures Conforms(c.kind, ClippedColumn(c).cells[i]) {
            assert Conforms(c.kind, c.cells[i]);
          }
        }
      }
      assert DistinctNames(r.columns) by {
        assert forall m :: 0 <= m < |t.columns| ==> r.columns[m].name == t.columns[m].name;
      }
    }
  }

  /** The loop over the two names, unrolled. */
  lemma ClipAllTwo(t: Table)
    ensures ClipAll(t, OutlierColumns) ==
              match ClipOne(t, "Age")
              case Err(e) => Err(e)
              case Ok(u) => ClipOne(u, "Income")
  {
    var names := OutlierColumns;
    assert names[..1] == ["Age"] && names[..2] == names;
    assert ["Age"][..0] == [];
    assert ClipAll(t, ["Age"]) == ClipOne(t, "Age");
  }

  /** Clipping keeps every column's name and dtype, so names are found where they were. */
  lemma FindSameNamesAfterSet(t: Table, u: Table)
    requires ClipOne(t, "Age") == Ok(u)
    ensures |u.columns| == |t.columns| && DistinctNames(t.columns) ==> DistinctNames(u.columns)
    ensures forall m :: 0 <= m < |t.columns| && m < |u.columns| ==>
              u.columns[m].name == t.columns[m].name && u.columns[m].kind == t.columns[m].kind
    ensures |u.columns| == |t.columns| && Find(u.columns, "Income") == Find(t.columns, "Income")
  {
    SameNamesFind(t.columns, u.columns, "Income");
  }

  lemma {:induction false} SameNamesFind(a: seq<Column>, b: seq<Column>, name: string)
    requires |a| == |b| && forall m :: 0 <= m < |a| ==> a[m].name == b[m].name
    ensures Find(a, name) == Find(b, name)
  {
    if a != [] {
      SameNamesFind(a[1..], b[1..], name);
    }
  }

  // ------------------------------------------------------------ counting outliers

  function CountOutside(xs: seq<real>, f: Fences): (n: nat)
    ensures n <= |xs|
  {
    if xs == [] then 0
    else (if xs[0] < f.lower || xs[0] > f.upper then 1 else 0) + CountOutside(xs[1..], f)
  }

  /** `assess['outliers'][col]`: rows whose value lies outside the fences. */
  function OutlierCount(c: Column): nat
  {
    var xs := Numbers(c.cells);
    if xs == [] then 0 else CountOutside(xs, ColumnFences(xs))
  }

  /** The number of positions at which two columns of cells differ. */
  function Changed(a: seq<Value>, b: seq<Value>): (n: nat)
    requires |a| == |b|
    ensures n <= |a|
    ensures n == 0 <==> a == b
  {
    if a == [] then 0
    else
      assert a == [a[0]] + a[1..] && b == [b[0]] + b[1..];
      (if a[0] != b[0] then 1 else 0) + Changed(a[1..], b[1..])
  }

  lemma {:induction false} ChangedIsOutside(s: seq<Value>, f: Fences)
    requires f.lower <= f.upper
    ensures Changed(s, ClampCells(s, f)) == CountOutside(Numbers(s), f)
  {
    if s != [] {
      var r := ClampCells(s, f);
      assert r[1..] == ClampCells(s[1..], f);
      ChangedIsOutside(s[1..], f);
      var rest := Numbers(s[1..]);
      assert Changed(s, r) == (if s[0] != r[0] then 1 else 0) + Changed(s[1..], r[1..]);
      if s[0].Num? {
        var x := s[0].x;
        assert Numbers(s) == [x] + rest;
        assert ([x] + rest)[1..] == rest;
        assert CountOutside(Numbers(s), f) == (if x < f.lower || x > f.upper then 1 else 0) + CountOutside(rest, f);
        assert (s[0] != r[0]) == (x < f.lower || x > f.upper);
      } else {
        assert Numbers(s) == rest;
        assert r[0] == s[0];
      }
    }
  }

  /** The outliers `assess_data_quality` reports for a column are exactly
      the cells `handle_outliers` changes in it. */
  lemma OutliersAreClipped(c: Column)
    ensures OutlierCount(c) == Changed(c.cells, ClippedColumn(c).cells)
  {
    var xs := Numbers(c.cells);
    if xs != [] {
      ChangedIsOutside(c.cells, ColumnFences(xs));
    }
  }
}
