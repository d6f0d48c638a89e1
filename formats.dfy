/**
 * `standardize_formats` (src/data_cleaner.py:77-97), one step per column it
 * touches, applied in the source's order: Email, Phone,
 * Registration_Date, Status.
 *
 * Conversions that happen outside the visible code are parameters:
 * `str()` of a number or a timestamp (used by `astype(str)`), pandas'
 * guess of a date format from one string, and parsing one string with a
 * format (or without one). The phone reformat at line 87 names
 * groups 2 and 3 of a pattern that has one group; `TemplateReading` says
 * whether that template is rejected, as CPython's `re` does before it
 * matches anything, or is taken to change nothing.
 */
module Formats {
  import opened Wrappers
  import opened Tables
  import opened Text
  import opened Email

  datatype TemplateReading = RejectTemplate | IgnoreTemplate

  datatype Conversions = Conversions(
    numberText: real -> string,
    dateText: real -> string,
    guessFormat: string -> Option<string>,
    parseDate: (Option<string>, string) -> Option<real>,
    template: TemplateReading)

  predicate AllStr(s: seq<Value>)
  {
    forall i :: 0 <= i < |s| ==> s[i].Str?
  }

  // ------------------------------------------------------------ Email

  /** What the Email step leaves behind, with `j` the Email column of `t`:
      every address the pattern matches is kept and every other one is
      missing, a bool column `Email_Valid` records the match, replacing a
      column of that name or appended after the others, and nothing else
      changes. */
  ghost predicate EmailOutcome(t: Table, j: nat, u: Table)
    requires j < |t.columns| && AllStr(t.columns[j].cells)
  {
    var c := t.columns[j];
    var n := |c.cells|;
    && u.height == t.height
    && |u.columns| == |t.columns| + (if Find(t.columns, "Email_Valid").None? then 1 else 0)
    && u.columns[j].name == "Email" && u.columns[j].kind == Object && |u.columns[j].cells| == n
    && (forall i :: 0 <= i < n ==>
          u.columns[j].cells[i] == if RegexMatch(c.cells[i].s) then c.cells[i] else Null)
    && Find(u.columns, "Email_Valid").Some?
    && (var k := Find(u.columns, "Email_Valid").value;
        && u.columns[k].kind == Boolean && |u.columns[k].cells| == n
        && (forall i :: 0 <= i < n ==> u.columns[k].cells[i] == Bool(RegexMatch(c.cells[i].s))))
    && (forall m :: 0 <= m < |t.columns| && m != j && t.columns[m].name != "Email_Valid" ==>
          u.columns[m] == t.columns[m])
  }

  /** Lines 80-83. `str.match` gives NaN for a missing address; `~` on a
      mask holding NaN raises, so the step fails unless every address is a
      string (and `.str` itself needs a string column). */
  function EmailStep(t: Table): (r: Result<Table, Failure>)
    ensures Find(t.columns, "Email").None? ==> r == Ok(t)
    ensures Find(t.columns, "Email").Some? ==>
              var c := t.columns[Find(t.columns, "Email").value];
              && (r.Ok? <==> c.kind == Object && AllStr(c.cells))
              && (r.Err? ==> r.error == if c.kind != Object then NoStringAccessor("Email") else BadOperandForInvert)
              && (r.Ok? ==> EmailOutcome(t, Find(t.columns, "Email").value, r.value))
  {
    match Find(t.columns, "Email")
    case None => Ok(t)
    case Some(j) =>
      var c := t.columns[j];
      if c.kind != Object then Err(NoStringAccessor("Email"))
      else if !AllStr(c.cells) then Err(BadOperandForInvert)
      else
        var n := |c.cells|;
        var flags := seq(n, i requires 0 <= i < n => Bool(EmailValid(c.cells[i].s)));
        var kept := seq(n, i requires 0 <= i < n => if EmailValid(c.cells[i].s) then c.cells[i] else Null);
        var marked := Upsert(t.columns, Column("Email_Valid", Boolean, flags));
        var u := Table(marked[j := c.(cells := kept)], t.height);
        EmailValidIsRegexEverywhere();
        assert u.columns[j].name == "Email";
        assert Find(u.columns, "Email_Valid") == Find(marked, "Email_Valid") by {
          FindSameNames(marked, u.columns, "Email_Valid");
        }
        Ok(u)
  }

  /** Two column lists with the same names find a name at the same place. */
  lemma {:induction false} FindSameNames(a: seq<Column>, b: seq<Column>, name: string)
    requires |a| == |b| && forall m :: 0 <= m < |a| ==> a[m].name == b[m].name
    ensures Find(a, name) == Find(b, name)
  {
    if a != [] {
      FindSameNames(a[1..], b[1..], name);
    }
  }

  // ------------------------------------------------------------ Phone

  /** `astype(str)` of one cell. A missing cell renders as "nan" (or
      "None", or "NaT"): text without digits either way. */
  function AsText(v: Value, k: Kind, conv: Conversions): string
  {
    match v
    case Null => if k == DateTime then "NaT" else "nan"
    case Str(s) => s
    case Bool(b) => if b then "True" else "False"
    case Num(x) => if k == DateTime then conv.dateText(x) else conv.numberText(x)
  }

  /** Lines 85-87: every phone becomes the digits of its text, in order;
      the line-87 template then fails on the first value, if there is one. */
  function PhoneStep(t: Table, conv: Conversions): (r: Result<Table, Failure>)
    ensures Find(t.columns, "Phone").None? ==> r == Ok(t)
    ensures Find(t.columns, "Phone").Some? ==>
              var j := Find(t.columns, "Phone").value;
              var c := t.columns[j];
              && (r.Err? <==> conv.template == RejectTemplate && |c.cells| > 0)
              && (r.Err? ==> r.error == InvalidGroupReference)
              && (r.Ok? ==>
                    && r.value.height == t.height && |r.value.columns| == |t.columns|
                    && r.value.columns[j].name == "Phone" && r.value.columns[j].kind == Object
                    && |r.value.columns[j].cells| == |c.cells|
                    && (forall i :: 0 <= i < |c.cells| ==>
                          && r.value.columns[j].cells[i].Str?
                          && AllDigits(r.value.columns[j].cells[i].s)
                          && r.value.columns[j].cells[i].s == StripNonDigits(AsText(c.cells[i], c.kind, conv)))
                    && (forall m :: 0 <= m < |t.columns| && m != j ==> r.value.columns[m] == t.columns[m]))
  {
    match Find(t.columns, "Phone")
    case None => Ok(t)
    case Some(j) =>
      var c := t.columns[j];
      var n := |c.cells|;
      var digits := seq(n, i requires 0 <= i < n => Str(StripNonDigits(AsText(c.cells[i], c.kind, conv))));
      if conv.template == RejectTemplate && n > 0 then Err(InvalidGroupReference)
      else Ok(SetColumn(t, j, Column("Phone", Object, digits)))
  }

  // ------------------------------------------------------------ Registration_Date

  /** The position of the first present cell. */
  function FirstPresent(cells: seq<Value>): (r: Option<nat>)
    ensures r.None? <==> forall i :: 0 <= i < |cells| ==> cells[i].Null?
    ensures r.Some? ==>
              && r.value < |cells| && !cells[r.value].Null?
              && forall i :: 0 <= i < r.value ==> cells[i].Null?
  {
    if cells == [] then None
    else if !cells[0].Null? then Some(0)
    else match FirstPresent(cells[1..])
      case None => None
      case Some(i) => Some(i + 1)
  }

  /** The one format `pd.to_datetime` uses for a whole column: the guess
      made from the first present cell when that cell is text, and none
      otherwise (each string is then parsed on its own). */
  function ColumnDateFormat(cells: seq<Value>, conv: Conversions): Option<string>
  {
    match FirstPresent(cells)
    case None => None
    case Some(i) => if cells[i].Str? then conv.guessFormat(cells[i].s) else None
  }

  function ParsedCell(v: Value, format: Option<string>, conv: Conversions): Value
  {
    match v
    case Str(s) => (match conv.parseDate(format, s) case None => Null case Some(x) => Num(x))
    case _ => if v.Num? then v else Null
  }

  /** Lines 89-92: `pd.to_datetime(errors='coerce')` on the whole column.
      Every string is parsed with the format inferred from the column's
      first present cell, and a string that does not parse with it becomes
      NaT; numbers are read as epoch nanoseconds; a bool column cannot be
      converted. */
  function DateStep(t: Table, conv: Conversions): (r: Result<Table, Failure>)
    ensures Find(t.columns, "Registration_Date").None? ==> r == Ok(t)
    ensures Find(t.columns, "Registration_Date").Some? ==>
              var j := Find(t.columns, "Registration_Date").value;
              var c := t.columns[j];
              && (r.Err? <==> c.kind == Boolean)
              && (r.Err? ==> r.error == NotConvertibleToDatetime("Registration_Date"))
              && (r.Ok? ==>
                    && r.value.height == t.height && |r.value.columns| == |t.columns|
                    && r.value.columns[j].name == c.name && r.value.columns[j].kind == DateTime
                    && |r.value.columns[j].cells| == |c.cells|
                    && (forall i :: 0 <= i < |c.cells| && c.cells[i].Str? ==>
                          r.value.columns[j].cells[i] ==
                            var p := conv.parseDate(ColumnDateFormat(c.cells, conv), c.cells[i].s);
                            if p.Some? then Num(p.value) else Null)
                    && (forall i :: 0 <= i < |c.cells| && !c.cells[i].Str? && ColumnOk(c, |c.cells|) ==>
                          r.value.columns[j].cells[i] == c.cells[i])
                    && (forall m :: 0 <= m < |t.columns| && m != j ==> r.value.columns[m] == t.columns[m]))
  {
    match Find(t.columns, "Registration_Date")
    case None => Ok(t)
    case Some(j) =>
      var c := t.columns[j];
      if c.kind == Boolean then Err(NotConvertibleToDatetime("Registration_Date"))
      else
        var n := |c.cells|;
        var parsed := seq(n, i requires 0 <= i < n => ParsedCell(c.cells[i], ColumnDateFormat(c.cells, conv), conv));
        Ok(SetColumn(t, j, Column(c.name, DateTime, parsed)))
  }

  // ------------------------------------------------------------ Status

  /** Lines 94-95: `str.title()` on every status; missing ones stay missing. */
  function StatusStep(t: Table): (r: Result<Table, Failure>)
    ensures Find(t.columns, "Status").None? ==> r == Ok(t)
    ensures Find(t.columns, "Status").Some? ==>
              var j := Find(t.columns, "Status").value;
              var c := t.columns[j];
              && (r.Err? <==> c.kind != Object)
              && (r.Err? ==> r.error == NoStringAccessor("Status"))
              && (r.Ok? ==>
                    && r.value.height == t.height && |r.value.columns| == |t.columns|
                    && r.value.columns[j].name == c.name && r.value.columns[j].kind == Object
                    && |r.value.columns[j].cells| == |c.cells|
                    && (forall i :: 0 <= i < |c.cells| ==>
                          r.value.columns[j].cells[i] == if c.cells[i].Str? then Str(Title(c.cells[i].s)) else c.cells[i])
                    && (forall m :: 0 <= m < |t.columns| && m != j ==> r.value.columns[m] == t.columns[m]))
  {
    match Find(t.columns, "Status")
    case None => Ok(t)
    case Some(j) =>
      var c := t.columns[j];
      if c.kind != Object then Err(NoStringAccessor("Status"))
      else
        var n := |c.cells|;
        var titled := seq(n, i requires 0 <= i < n => if c.cells[i].Str? then Str(Title(c.cells[i].s)) else c.cells[i]);
        Ok(SetColumn(t, j, c.(cells := titled)))
  }

  // ------------------------------------------------------------ the whole step

  function StandardizeFormats(t: Table, conv: Conversions): Result<Table, Failure>
  {
    match EmailStep(t)
    case Err(e) => Err(e)
    case Ok(t1) =>
      match PhoneStep(t1, conv)
      case Err(e) => Err(e)
      case Ok(t2) =>
        match DateStep(t2, conv)
        case Err(e) => Err(e)
        case Ok(t3) => StatusStep(t3)
  }

  // ------------------------------------------------------------ properties

  /** In a well-formed table the e-mail step succeeds exactly when the
      Email column (if any) is an object column without missing cells. */
  lemma EmailStepSucceeds(t: Table)
    requires WellFormed(t) && Find(t.columns, "Email").Some?
    ensures var c := t.columns[Find(t.columns, "Email").value];
      EmailStep(t).Ok? <==> c.kind == Object && NullCount(c.cells) == 0
  {
    var c := t.columns[Find(t.columns, "Email").value];
    assert ColumnOk(c, t.height);
  }

  lemma EmailStepWellFormed(t: Table)
    requires WellFormed(t) && EmailStep(t).Ok?
    ensures WellFormed(EmailStep(t).value)
  {
    match Find(t.columns, "Email")
    case None =>
    case Some(j) =>
      var c := t.columns[j];
      var n := |c.cells|;
      var flags := seq(n, i requires 0 <= i < n => Bool(EmailValid(c.cells[i].s)));
      var kept := seq(n, i requires 0 <= i < n => if EmailValid(c.cells[i].s) then c.cells[i] else Null);
      var v := Column("Email_Valid", Boolean, flags);
      assert ColumnOk(c, t.height);
      UpsertWellFormed(t, v);
      var marked := Table(Upsert(t.columns, v), t.height);
      assert marked.columns[j] == c;
      SetColumnWellFormed(marked, j, c.(cells := kept));
  }

  lemma PhoneStepWellFormed(t: Table, conv: Conversions)
    requires WellFormed(t) && PhoneStep(t, conv).Ok?
    ensures WellFormed(PhoneStep(t, conv).value)
  {
    match Find(t.columns, "Phone")
    case None =>
    case Some(j) =>
      var c := t.columns[j];
      var digits := seq(|c.cells|, i requires 0 <= i < |c.cells| => Str(StripNonDigits(AsText(c.cells[i], c.kind, conv))));
      assert ColumnOk(c, t.height);
      SetColumnWellFormed(t, j, Column("Phone", Object, digits));
  }

  lemma DateStepWellFormed(t: Table, conv: Conversions)
    requires WellFormed(t) && DateStep(t, conv).Ok?
    ensures WellFormed(DateStep(t, conv).value)
  {
    match Find(t.columns, "Registration_Date")
    case None =>
    case Some(j) =>
      var c := t.columns[j];
      var parsed := seq(|c.cells|, i requires 0 <= i < |c.cells| => ParsedCell(c.cells[i], ColumnDateFormat(c.cells, conv), conv));
      assert ColumnOk(c, t.height);
      SetColumnWellFormed(t, j, Column(c.name, DateTime, parsed));
  }

  lemma StatusStepWellFormed(t: Table)
    requires WellFormed(t) && StatusStep(t).Ok?
    ensures WellFormed(StatusStep(t).value)
  {
    match Find(t.columns, "Status")
    case None =>
    case Some(j) =>
      var c := t.columns[j];
      var titled := seq(|c.cells|, i requires 0 <= i < |c.cells| => if c.cells[i].Str? then Str(Title(c.cells[i].s)) else c.cells[i]);
      assert ColumnOk(c, t.height);
      SetColumnWellFormed(t, j, c.(cells := titled));
  }

  /** Standardising keeps a table well formed and keeps its rows. */
  lemma StandardizeFormatsWellFormed(t: Table, conv: Conversions)
    requires WellFormed(t) && StandardizeFormats(t, conv).Ok?
    ensures WellFormed(StandardizeFormats(t, conv).value)
    ensures StandardizeFormats(t, conv).value.height == t.height
  {
    EmailStepWellFormed(t);
    var t1 := EmailStep(t).value;
    PhoneStepWellFormed(t1, conv);
    var t2 := PhoneStep(t1, conv).value;
    DateStepWellFormed(t2, conv);
    var t3 := DateStep(t2, conv).value;
    StatusStepWellFormed(t3);
  }

  /** The e-mail step adds at most one column, `Email_Valid`; every other
      label was there before. */
  lemma EmailStepNamed(t: Table)
    requires EmailStep(t).Ok?
    ensures |EmailStep(t).value.columns| <= |t.columns| + 1
    ensures NamedFrom(EmailStep(t).value.columns, t.columns, "Email_Valid")
  {
    match Find(t.columns, "Email")
    case None =>
      LabelsNamedFrom(t.columns, t.columns, "Email_Valid");
    case Some(j) =>
      var c := t.columns[j];
      var n := |c.cells|;
      var flags := seq(n, i requires 0 <= i < n => Bool(EmailValid(c.cells[i].s)));
      var kept := seq(n, i requires 0 <= i < n => if EmailValid(c.cells[i].s) then c.cells[i] else Null);
      MarkedNamed(t.columns, j, Column("Email_Valid", Boolean, flags), c.(cells := kept));
  }

  /** Assigning a column `v` and then rewriting column `j` in place adds at
      most `v`'s label. */
  lemma MarkedNamed(cs: seq<Column>, j: nat, v: Column, e: Column)
    requires j < |cs| && e.name == cs[j].name && v.name != cs[j].name
    ensures |Upsert(cs, v)[j := e]| <= |cs| + 1
    ensures NamedFrom(Upsert(cs, v)[j := e], cs, v.name)
  {
    var marked := Upsert(cs, v);
    UpsertNamed(cs, v);
    assert marked[j] == cs[j];
    LabelsNamedFrom(marked[j := e], marked, v.name);
    NamedFromTrans(marked[j := e], marked, cs, v.name);
  }

  /** `standardize_formats` adds at most one column, `Email_Valid`, and
      every other label of its result is a label of its input. */
  lemma StandardizeFormatsNamed(t: Table, conv: Conversions)
    requires StandardizeFormats(t, conv).Ok?
    ensures |StandardizeFormats(t, conv).value.columns| <= |t.columns| + 1
    ensures NamedFrom(StandardizeFormats(t, conv).value.columns, t.columns, "Email_Valid")
  {
    EmailStepNamed(t);
    var t1 := EmailStep(t).value;
    var t2 := PhoneStep(t1, conv).value;
    var t3 := DateStep(t2, conv).value;
    var t4 := StatusStep(t3).value;
    PhoneStepLabels(t1, conv);
    DateStepLabels(t2, conv);
    StatusStepLabels(t3);
    LabelsNamedFrom(t4.columns, t3.columns, "Email_Valid");
    LabelsNamedFrom(t3.columns, t2.columns, "Email_Valid");
    LabelsNamedFrom(t2.columns, t1.columns, "Email_Valid");
    NamedFromTrans(t2.columns, t1.columns, t.columns, "Email_Valid");
    NamedFromTrans(t3.columns, t2.columns, t.columns, "Email_Valid");
    NamedFromTrans(t4.columns, t3.columns, t.columns, "Email_Valid");
  }

  /** Both column lists have the same labels at the same positions. */
  predicate SameLabels(a: seq<Column>, b: seq<Column>)
  {
    |a| == |b| && forall m :: 0 <= m < |a| ==> a[m].name == b[m].name
  }

  lemma PhoneStepLabels(t: Table, conv: Conversions)
    requires PhoneStep(t, conv).Ok?
    ensures SameLabels(PhoneStep(t, conv).value.columns, t.columns)
  {
  }

  lemma DateStepLabels(t: Table, conv: Conversions)
    requires DateStep(t, conv).Ok?
    ensures SameLabels(DateStep(t, conv).value.columns, t.columns)
  {
  }

  lemma StatusStepLabels(t: Table)
    requires StatusStep(t).Ok?
    ensures SameLabels(StatusStep(t).value.columns, t.columns)
  {
  }

  /** Stripping a second time changes nothing (when line 87 changes nothing). */
  lemma PhoneStepIdempotent(t: Table, conv: Conversions)
    requires conv.template == IgnoreTemplate
    ensures PhoneStep(PhoneStep(t, conv).value, conv) == PhoneStep(t, conv)
  {
    match Find(t.columns, "Phone")
    case None =>
    case Some(j) =>
      var u := PhoneStep(t, conv).value;
      FindSameNames(t.columns, u.columns, "Phone");
      var c := u.columns[j];
      var again := PhoneStep(u, conv).value;
      forall i | 0 <= i < |c.cells| ensures again.columns[j].cells[i] == c.cells[i] {
        StripIdempotent(AsText(t.columns[j].cells[i], t.columns[j].kind, conv));
      }
      assert again.columns[j] == c;
      assert again.columns == u.columns;
  }

  /** Converting dates a second time changes nothing. */
  lemma DateStepIdempotent(t: Table, conv: Conversions)
    requires DateStep(t, conv).Ok?
    ensures DateStep(DateStep(t, conv).value, conv) == DateStep(t, conv)
  {
    match Find(t.columns, "Registration_Date")
    case None =>
    case Some(j) =>
      var u := DateStep(t, conv).value;
      FindSameNames(t.columns, u.columns, "Registration_Date");
      var c := u.columns[j];
      var again := DateStep(u, conv).value;
      forall i | 0 <= i < |c.cells| ensures ParsedCell(c.cells[i], ColumnDateFormat(c.cells, conv), conv) == c.cells[i] {
        assert c.cells[i].Num? || c.cells[i].Null?;
      }
      assert again.columns[j].cells == c.cells;
      assert again.columns == u.columns;
  }

  /** Title-casing a second time changes nothing. */
  lemma StatusStepIdempotent(t: Table)
    requires StatusStep(t).Ok?
    ensures StatusStep(StatusStep(t).value) == StatusStep(t)
  {
    match Find(t.columns, "Status")
    case None =>
    case Some(j) =>
      var u := StatusStep(t).value;
      FindSameNames(t.columns, u.columns, "Status");
      var c := u.columns[j];
      var again := StatusStep(u).value;
      forall i | 0 <= i < |c.cells| ensures again.columns[j].cells[i] == c.cells[i] {
        if t.columns[j].cells[i].Str? {
          TitleIdempotent(t.columns[j].cells[i].s);
        }
      }
      assert again.columns[j] == c;
      assert again.columns == u.columns;
  }
}
