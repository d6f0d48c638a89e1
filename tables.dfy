/**
 * The table model shared by the cleaner and the generator.
 *
 * A pandas DataFrame is held column by column, as pandas itself stores it:
 * every column has a name, a dtype and one cell per row. The dtype is kept
 * as a `Kind`, because the cleaning stages branch on it.
 */
module Tables {
  import opened Wrappers

  /** A cell. `Null` is pandas' missing value (None, NaN or NaT). */
  datatype Value = Null | Str(s: string) | Num(x: real) | Bool(b: bool)

  /** The dtypes the pipeline distinguishes: object, int64/float64, bool, datetime64. */
  datatype Kind = Object | Number | Boolean | DateTime

  datatype Column = Column(name: string, kind: Kind, cells: seq<Value>)

  /** `height` is the length of the index, so a table without columns still has rows. */
  datatype Table = Table(columns: seq<Column>, height: nat)

  /** Which cells a column of each dtype can hold: object columns hold
      strings (and missing values), numeric and datetime columns hold
      numbers, bool columns hold no missing values at all. */
  predicate Conforms(k: Kind, v: Value)
  {
    match k
    case Object => v.Null? || v.Str?
    case Number => v.Null? || v.Num?
    case Boolean => v.Bool?
    case DateTime => v.Null? || v.Num?
  }

  predicate ColumnOk(c: Column, h: nat)
  {
    |c.cells| == h && forall i :: 0 <= i < |c.cells| ==> Conforms(c.kind, c.cells[i])
  }

  predicate DistinctNames(cs: seq<Column>)
  {
    forall i, j :: 0 <= i < j < |cs| ==> cs[i].name != cs[j].name
  }

  predicate WellFormed(t: Table)
  {
    && (forall j :: 0 <= j < |t.columns| ==> ColumnOk(t.columns[j], t.height))
    && DistinctNames(t.columns)
  }

  function Names(cs: seq<Column>): (r: seq<string>)
    ensures |r| == |cs|
    ensures forall j :: 0 <= j < |cs| ==> r[j] == cs[j].name
  {
    if cs == [] then [] else [cs[0].name] + Names(cs[1..])
  }

  /** Every column of `r` carries a label of `cs`, or the label `extra`. */
  predicate NamedFrom(r: seq<Column>, cs: seq<Column>, extra: string)
  {
    forall m :: 0 <= m < |r| ==> r[m].name == extra || r[m].name in Names(cs)
  }

  /** Each column's label occurs among the labels, and a list whose labels
      all come from `cs` by position is named from `cs`. */
  lemma LabelsNamedFrom(r: seq<Column>, cs: seq<Column>, extra: string)
    requires |r| <= |cs| && forall m :: 0 <= m < |r| ==> r[m].name == cs[m].name
    ensures NamedFrom(r, cs, extra)
  {
    forall m | 0 <= m < |r| ensures r[m].name in Names(cs) {
      assert Names(cs)[m] == r[m].name;
    }
  }

  lemma NamedFromTrans(r: seq<Column>, s: seq<Column>, cs: seq<Column>, extra: string)
    requires NamedFrom(r, s, extra) && NamedFrom(s, cs, extra)
    ensures NamedFrom(r, cs, extra)
  {
    forall m | 0 <= m < |r| && r[m].name != extra ensures r[m].name in Names(cs) {
      var x :| 0 <= x < |s| && Names(s)[x] == r[m].name;
      assert s[x].name == r[m].name;
    }
  }

  /** The position of the column called `name`, as `name in df.columns` finds it. */
  function Find(cs: seq<Column>, name: string): (r: Option<nat>)
    ensures r.None? <==> forall j :: 0 <= j < |cs| ==> cs[j].name != name
    ensures r.Some? ==> r.value < |cs| && cs[r.value].name == name
    ensures r.Some? ==> forall j :: 0 <= j < r.value ==> cs[j].name != name
  {
    if cs == [] then None
    else if cs[0].name == name then Some(0)
    else match Find(cs[1..], name)
      case None => None
      case Some(j) => Some(j + 1)
  }

  lemma FindDistinct(cs: seq<Column>, name: string, j: nat)
    requires DistinctNames(cs)
    requires j < |cs| && cs[j].name == name
    ensures Find(cs, name) == Some(j)
  {
  }

  /** Number of missing cells: `isnull().sum()` for one column. */
  function NullCount(s: seq<Value>): (r: nat)
    ensures r <= |s|
    ensures r == 0 <==> forall i :: 0 <= i < |s| ==> !s[i].Null?
  {
    if s == [] then 0 else (if s[0].Null? then 1 else 0) + NullCount(s[1..])
  }

  lemma {:induction false} NullCountAppend(a: seq<Value>, b: seq<Value>)
    ensures NullCount(a + b) == NullCount(a) + NullCount(b)
  {
    if a == [] {
      assert a + b == b;
    } else {
      assert (a + b)[1..] == a[1..] + b;
      NullCountAppend(a[1..], b);
    }
  }

  /** A column that is all missing has as many missing cells as cells. */
  lemma {:induction false} NullCountAll(s: seq<Value>)
    requires forall i :: 0 <= i < |s| ==> s[i].Null?
    ensures NullCount(s) == |s|
  {
    if s != [] {
      NullCountAll(s[1..]);
    }
  }

  /** Overwriting one cell changes the missing count by what left and what came in. */
  lemma {:induction false} NullCountSet(s: seq<Value>, i: nat, v: Value)
    requires i < |s|
    ensures NullCount(s[i := v]) == NullCount(s) - (if s[i].Null? then 1 else 0) + (if v.Null? then 1 else 0)
  {
    if i > 0 {
      NullCountSet(s[1..], i - 1, v);
      assert s[i := v][1..] == s[1..][i - 1 := v];
    } else {
      assert s[i := v][1..] == s[1..];
    }
  }

  /** The strings of a column, missing cells skipped, in row order. */
  function Strings(s: seq<Value>): (r: seq<string>)
    ensures |r| <= |s|
    ensures forall x :: x in r <==> Str(x) in s
  {
    if s == [] then []
    else
      assert forall v :: v in s <==> v == s[0] || v in s[1..];
      (if s[0].Str? then [s[0].s] else []) + Strings(s[1..])
  }

  /** The numbers of a column, missing cells skipped, in row order: what
      `Series.quantile` and `Series.median` work on. */
  function Numbers(s: seq<Value>): (r: seq<real>)
    ensures |r| <= |s|
    ensures forall x :: x in r <==> Num(x) in s
  {
    if s == [] then []
    else
      assert forall v :: v in s <==> v == s[0] || v in s[1..];
      (if s[0].Num? then [s[0].x] else []) + Numbers(s[1..])
  }

  /** Total missing cells: `isnull().sum().sum()`. */
  function TotalNulls(cs: seq<Column>): nat
  {
    if cs == [] then 0 else NullCount(cs[0].cells) + TotalNulls(cs[1..])
  }

  lemma {:induction false} TotalNullsZero(cs: seq<Column>)
    ensures TotalNulls(cs) == 0 <==> forall j :: 0 <= j < |cs| ==> NullCount(cs[j].cells) == 0
  {
    if cs != [] {
      TotalNullsZero(cs[1..]);
      assert forall j :: 1 <= j < |cs| ==> cs[j] == cs[1..][j - 1];
    }
  }

  lemma {:induction false} TotalNullsAppend(a: seq<Column>, b: seq<Column>)
    ensures TotalNulls(a + b) == TotalNulls(a) + TotalNulls(b)
  {
    if a == [] {
      assert a + b == b;
    } else {
      assert (a + b)[1..] == a[1..] + b;
      TotalNullsAppend(a[1..], b);
    }
  }

  /** The cell of column `c` in row `i`; a missing row reads as `Null`
      (never the case for a well-formed table). */
  function Cell(c: Column, i: nat): Value
  {
    if i < |c.cells| then c.cells[i] else Null
  }

  /** Row `i` as the sequence of its cells, in column order. */
  function Row(t: Table, i: nat): (r: seq<Value>)
    ensures |r| == |t.columns|
  {
    seq(|t.columns|, j requires 0 <= j < |t.columns| => Cell(t.columns[j], i))
  }

  function Rows(t: Table): (r: seq<seq<Value>>)
    ensures |r| == t.height
    ensures forall i :: 0 <= i < t.height ==> r[i] == Row(t, i)
  {
    seq(t.height, i requires 0 <= i < t.height => Row(t, i))
  }

  /** `df[c.name] = c.cells`: a column of that name is replaced where it
      stands; otherwise the new column is appended on the right. */
  function Upsert(cs: seq<Column>, c: Column): (r: seq<Column>)
    ensures |r| == |cs| + (if Find(cs, c.name).None? then 1 else 0)
    ensures forall j :: 0 <= j < |cs| && cs[j].name != c.name ==> r[j] == cs[j]
    ensures Find(r, c.name).Some? && r[Find(r, c.name).value] == c
  {
    match Find(cs, c.name)
    case None =>
      var r := cs + [c];
      assert r[|cs|].name == c.name;
      r
    case Some(j) =>
      var r := cs[j := c];
      assert forall m :: 0 <= m < j ==> r[m].name != c.name;
      assert r[j].name == c.name;
      r
  }

  /** Assigning a column adds at most its own label. */
  lemma UpsertNamed(cs: seq<Column>, c: Column)
    ensures NamedFrom(Upsert(cs, c), cs, c.name)
  {
    var r := Upsert(cs, c);
    forall m | 0 <= m < |r| && r[m].name != c.name ensures r[m].name in Names(cs) {
      assert m < |cs| && r[m] == cs[m];
      assert Names(cs)[m] == cs[m].name;
    }
  }

  /** Setting a column keeps a table well formed when the column has a
      cell per row, each cell of its dtype. */
  lemma UpsertWellFormed(t: Table, c: Column)
    requires WellFormed(t) && ColumnOk(c, t.height)
    ensures WellFormed(Table(Upsert(t.columns, c), t.height))
  {
    var r := Upsert(t.columns, c);
    match Find(t.columns, c.name)
    case None =>
    case Some(j) =>
      forall a, b | 0 <= a < b < |r| ensures r[a].name != r[b].name {
        assert r[a].name == t.columns[a].name && r[b].name == t.columns[b].name;
      }
  }

  /** A table in which column `j` is replaced by a column of the same name. */
  function SetColumn(t: Table, j: nat, c: Column): (r: Table)
    requires j < |t.columns| && c.name == t.columns[j].name
    ensures r.height == t.height && |r.columns| == |t.columns| && r.columns[j] == c
    ensures forall m :: 0 <= m < |t.columns| && m != j ==> r.columns[m] == t.columns[m]
  {
    t.(columns := t.columns[j := c])
  }

  lemma SetColumnWellFormed(t: Table, j: nat, c: Column)
    requires WellFormed(t) && j < |t.columns| && c.name == t.columns[j].name && ColumnOk(c, t.height)
    ensures WellFormed(SetColumn(t, j, c))
  {
    var r := SetColumn(t, j, c);
    assert forall m :: 0 <= m < |r.columns| ==> r.columns[m].name == t.columns[m].name;
  }

  /** The exceptions the pipeline can raise, one per cause. */
  datatype Failure =
    | NoStringAccessor(column: string)           // AttributeError: `.str` on a non-string column
    | BadOperandForInvert                        // TypeError: `~` on a mask holding NaN
    | InvalidGroupReference                      // re.error: a replacement names a group the pattern lacks
    | NotConvertibleToDatetime(column: string)   // TypeError from `pd.to_datetime`
    | NotNumeric(column: string)                 // TypeError from `Series.quantile`
    | DivisionByZero                             // ZeroDivisionError
    | SampleLargerThanPopulation                 // ValueError from `random.sample`

  /** `df.shape`. */
  datatype Shape = Shape(rows: nat, cols: nat)

  function ShapeOf(t: Table): Shape
  {
    Shape(t.height, |t.columns|)
  }
}
