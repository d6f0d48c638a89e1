/**
 * `create_sample_customer_data` (create_sample_data.py:6-93): the raw
 * customer table the cleaner is meant for.
 *
 * Every random choice is an input (`Draws`): which name parts were
 * picked, how each e-mail and phone came out, the normal samples for age
 * and income, the positions `random.sample` chose and the values put
 * there. What remains is the construction: the IDs, the None-ing of names,
 * the e-mail and phone renderings, clipping and overwriting of ages and
 * incomes, and the appended duplicate rows.
 */
module SampleData {
  import opened Wrappers
  import opened Tables
  import opened Text
  import opened Email
  import opened Stats
  import opened Deduplication
  import opened Duplicates

  const FirstNames: seq<string> := ["John", "Jane", "Mike", "Sarah", "David", "Emily", "Chris", "Lisa"]
  const LastNames: seq<string> := ["Smith", "Johnson", "Williams", "Brown", "Jones", "Garcia", "Miller"]
  const StatusOptions: seq<string> := ["active", "INACTIVE", "Pending", "suspended", "Active"]
  const AgeOutliers: seq<int> := [5, 10, 150, 200]
  const IncomeOutliers: seq<real> := [5000.0, 500000.0, 1000000.0]

  // ------------------------------------------------------------ IDs

  /** `f"CUST_{i:06d}"`. */
  function CustomerId(i: nat): string
  {
    "CUST_" + ZeroPad(i, 6)
  }

  /** For 1 <= i <= 999999 the ID has eleven characters. */
  lemma CustomerIdLength(i: nat)
    requires 1 <= i <= 999999
    ensures |CustomerId(i)| == 11
  {
    assert Pow10(6) == 1000000;
    DecimalShort(i, 6);
  }

  /** Different numbers give different IDs. */
  lemma CustomerIdInjective(i: nat, j: nat)
    requires CustomerId(i) == CustomerId(j)
    ensures i == j
  {
    assert ZeroPad(i, 6) == CustomerId(i)[5..];
    assert ZeroPad(j, 6) == CustomerId(j)[5..];
    ZeroPadInjective(i, j, 6);
  }

  /** Line 11: the IDs of records 1 to n. */
  function CustomerIds(n: nat): (ids: seq<string>)
    ensures |ids| == n
    ensures forall k :: 0 <= k < n ==> ids[k] == CustomerId(k + 1)
  {
    seq(n, k requires 0 <= k < n => CustomerId(k + 1))
  }

  lemma CustomerIdsDistinct(n: nat)
    ensures Distinct(CustomerIds(n))
  {
    var ids := CustomerIds(n);
    forall a, b | 0 <= a < b < n ensures ids[a] != ids[b] {
      if ids[a] == ids[b] {
        CustomerIdInjective(a + 1, b + 1);
      }
    }
  }

  // ------------------------------------------------------------ names

  function FullName(first: nat, last: nat): string
    requires first < |FirstNames| && last < |LastNames|
  {
    FirstNames[first] + " " + LastNames[last]
  }

  predicate PicksOk(picks: seq<nat>, bound: nat)
  {
    forall k :: 0 <= k < |picks| ==> picks[k] < bound
  }

  /** A position sampled without repeats was not sampled before. */
  lemma GapIsNew(gaps: seq<nat>, k: nat)
    requires k < |gaps| && Distinct(gaps)
    ensures gaps[k] !in gaps[..k]
  {
    forall m | 0 <= m < k ensures gaps[..k][m] != gaps[k] {
      assert gaps[..k][m] == gaps[m];
    }
  }

  /** The names list once the first `k` sampled positions are set to None. */
  predicate NamesGapped(names: seq<Value>, firstPick: seq<nat>, lastPick: seq<nat>, gaps: seq<nat>, k: nat)
    requires |firstPick| == |lastPick| && PicksOk(firstPick, |FirstNames|) && PicksOk(lastPick, |LastNames|)
    requires k <= |gaps|
  {
    && |names| == |firstPick|
    && forall i :: 0 <= i < |names| ==>
         names[i] == if i in gaps[..k] then Null else Str(FullName(firstPick[i], lastPick[i]))
  }

  /** Setting the next sampled position to None: it held a name until now. */
  lemma GapStep(names: seq<Value>, firstPick: seq<nat>, lastPick: seq<nat>, gaps: seq<nat>, k: nat)
    requires |firstPick| == |lastPick| && PicksOk(firstPick, |FirstNames|) && PicksOk(lastPick, |LastNames|)
    requires PicksOk(gaps, |firstPick|) && Distinct(gaps) && k < |gaps|
    requires NamesGapped(names, firstPick, lastPick, gaps, k)
    ensures !names[gaps[k]].Null?
    ensures NamesGapped(names[gaps[k] := Null], firstPick, lastPick, gaps, k + 1)
  {
    GapIsNew(gaps, k);
    assert gaps[..k + 1] == gaps[..k] + [gaps[k]];
  }

  /** Lines 13-19: one "First Last" per record, then None at each sampled
      position. The sample has distinct positions, so the list ends up
      with exactly as many missing names as positions were sampled. */
  method BuildNames(firstPick: seq<nat>, lastPick: seq<nat>, gaps: seq<nat>) returns (names: seq<Value>)
    requires |firstPick| == |lastPick|
    requires PicksOk(firstPick, |FirstNames|) && PicksOk(lastPick, |LastNames|)
    requires PicksOk(gaps, |firstPick|) && Distinct(gaps)
    ensures |names| == |firstPick|
    ensures forall i :: 0 <= i < |names| ==>
              names[i] == if i in gaps then Null else Str(FullName(firstPick[i], lastPick[i]))
    ensures NullCount(names) == |gaps|
  {
    var n := |firstPick|;
    names := seq(n, i requires 0 <= i < n => Str(FullName(firstPick[i], lastPick[i])));
    var k := 0;
    while k < |gaps|
      invariant 0 <= k <= |gaps|
      invariant NamesGapped(names, firstPick, lastPick, gaps, k)
      invariant NullCount(names) == k
    {
      var at := gaps[k];
      GapStep(names, firstPick, lastPick, gaps, k);
      NullCountSet(names, at, Null);
      names := names[at := Null];
      k := k + 1;
    }
    assert gaps[..k] == gaps;
  }

  // ------------------------------------------------------------ e-mails

  /** How the two `random.random()` draws of one record came out. */
  datatype EmailDraw = InvalidEmail | MissingEmail | ValidEmail

  function EmailFor(i: nat, d: EmailDraw): Value
  {
    match d
    case InvalidEmail => Str("invalid_email_" + Decimal(i))
    case MissingEmail => Null
    case ValidEmail => Str("user" + Decimal(i) + "@example.com")
  }

  /** `user{i}@example.com` is accepted by the cleaner's pattern. */
  lemma ValidEmailMatches(i: nat)
    ensures RegexMatch("user" + Decimal(i) + "@example.com")
  {
    var local := "user" + Decimal(i);
    var s := local + "@example.com";
    var at := |local|;
    var dot := at + 8;
    assert s[..at] == local;
    assert s[at + 1..dot] == "example";
    assert s[dot + 1..] == "com";
    assert AllLocal(local) by {
      forall k | 0 <= k < |local| ensures LocalChar(local[k]) {
        if k >= 4 {
          assert local[k] == Decimal(i)[k - 4];
        }
      }
    }
    assert MatchesAt(s, at, dot);
  }

  /** `invalid_email_{i}` has no `@`, so the pattern rejects it. */
  lemma InvalidEmailFails(i: nat)
    ensures !RegexMatch("invalid_email_" + Decimal(i))
  {
    var s := "invalid_email_" + Decimal(i);
    assert '@' !in s by {
      forall k | 0 <= k < |s| ensures s[k] != '@' {
        if k >= 14 {
          assert s[k] == Decimal(i)[k - 14];
        }
      }
    }
    NoAtInvalid(s);
    EmailValidIsRegex(s);
  }

  /** Lines 21-28: one e-mail per record, built by appending. An address
      is present and valid exactly when its draw says so. */
  method BuildEmails(draws: seq<EmailDraw>) returns (emails: seq<Value>)
    ensures |emails| == |draws|
    ensures forall i :: 0 <= i < |draws| ==> emails[i] == EmailFor(i, draws[i])
    ensures forall i :: 0 <= i < |draws| ==>
              (emails[i].Str? && RegexMatch(emails[i].s) <==> draws[i] == ValidEmail)
  {
    emails := [];
    var i := 0;
    while i < |draws|
      invariant 0 <= i <= |draws| && |emails| == i
      invariant forall k :: 0 <= k < i ==> emails[k] == EmailFor(k, draws[k])
    {
      emails := emails + [EmailFor(i, draws[i])];
      i := i + 1;
    }
    forall k | 0 <= k < |draws|
      ensures emails[k].Str? && RegexMatch(emails[k].s) <==> draws[k] == ValidEmail
    {
      ValidEmailMatches(k);
      InvalidEmailFails(k);
    }
  }

  // ------------------------------------------------------------ phones

  /** One record's phone: missing, or the three `randint` parts and the
      index of the format `random.choice` took. */
  datatype PhoneDraw = NoPhone | PhoneParts(area: int, prefix: int, line: int, format: nat)

  predicate PhoneDrawOk(d: PhoneDraw)
  {
    d.PhoneParts? ==>
      100 <= d.area <= 999 && 100 <= d.prefix <= 999 && 1000 <= d.line <= 9999 && d.format < 4
  }

  /** Line 36: the three parts written one after the other. */
  function BasePhone(d: PhoneDraw): (s: string)
    requires d.PhoneParts? && PhoneDrawOk(d)
    ensures |s| == 10 && AllDigits(s)
  {
    DecimalLength(d.area, 3);
    DecimalLength(d.prefix, 3);
    DecimalLength(d.line, 4);
    var s := Decimal(d.area) + Decimal(d.prefix) + Decimal(d.line);
    assert forall k :: 0 <= k < |s| ==> IsDigit(s[k]) by {
      forall k | 0 <= k < |s| ensures IsDigit(s[k]) {
        if k < 3 {
          assert s[k] == Decimal(d.area)[k];
        } else if k < 6 {
          assert s[k] == Decimal(d.prefix)[k - 3];
        } else {
          assert s[k] == Decimal(d.line)[k - 6];
        }
      }
    }
    s
  }

  /** Lines 38-43: the four renderings of a ten-digit phone. */
  function Rendering(base: string, format: nat): string
    requires |base| == 10 && format < 4
  {
    if format == 0 then base
    else if format == 1 then "(" + base[..3] + ") " + base[3..6] + "-" + base[6..]
    else if format == 2 then base[..3] + "-" + base[3..6] + "-" + base[6..]
    else "+1" + base
  }

  function PhoneFor(d: PhoneDraw): Value
    requires PhoneDrawOk(d)
  {
    match d
    case NoPhone => Null
    case PhoneParts(_, _, _, format) => Str(Rendering(BasePhone(d), format))
  }

  /** Lines 31-44: one phone per record, built by appending. */
  method BuildPhones(draws: seq<PhoneDraw>) returns (phones: seq<Value>)
    requires forall i :: 0 <= i < |draws| ==> PhoneDrawOk(draws[i])
    ensures |phones| == |draws|
    ensures forall i :: 0 <= i < |draws| ==> phones[i] == PhoneFor(draws[i])
  {
    phones := [];
    var i := 0;
    while i < |draws|
      invariant 0 <= i <= |draws| && |phones| == i
      invariant forall k :: 0 <= k < i ==> phones[k] == PhoneFor(draws[k])
    {
      phones := phones + [PhoneFor(draws[i])];
      i := i + 1;
    }
  }

  /** Stripping the non-digits of a rendering gives the base phone back;
      the `+1` rendering keeps its country code, eleven digits in all. */
  lemma RenderingStrips(base: string, format: nat)
    requires |base| == 10 && AllDigits(base) && format < 4
    ensures StripNonDigits(Rendering(base, format)) == if format == 3 then "1" + base else base
  {
    var a, b, c := base[..3], base[3..6], base[6..];
    assert base == a + b + c;
    StripOfDigits(base);
    if format == 1 {
      ParenthesisedStrips(a, b, c);
    } else if format == 2 {
      DashedStrips(a, b, c);
    } else if format == 3 {
      StripAppend("+1", base);
      assert StripNonDigits("+1") == "1";
    }
  }

  /** `(ddd) ddd-dddd` strips to its digits. */
  lemma ParenthesisedStrips(a: string, b: string, c: string)
    requires AllDigits(a) && AllDigits(b) && AllDigits(c)
    ensures StripNonDigits("(" + a + ") " + b + "-" + c) == a + b + c
  {
    StripOfDigits(a);
    StripOfDigits(b);
    StripOfDigits(c);
    StripNoDigits("(");
    StripNoDigits(") ");
    StripNoDigits("-");
    var s1 := "(" + a;
    StripAppend("(", a);
    assert StripNonDigits(s1) == a;
    var s2 := s1 + ") ";
    StripAppend(s1, ") ");
    assert StripNonDigits(s2) == a;
    var s3 := s2 + b;
    StripAppend(s2, b);
    assert StripNonDigits(s3) == a + b;
    var s4 := s3 + "-";
    StripAppend(s3, "-");
    assert StripNonDigits(s4) == a + b;
    StripAppend(s4, c);
  }

  /** `ddd-ddd-dddd` strips to its digits. */
  lemma DashedStrips(a: string, b: string, c: string)
    requires AllDigits(a) && AllDigits(b) && AllDigits(c)
    ensures StripNonDigits(a + "-" + b + "-" + c) == a + b + c
  {
    StripOfDigits(a);
    StripOfDigits(b);
    StripOfDigits(c);
    StripNoDigits("-");
    var s1 := a + "-";
    StripAppend(a, "-");
    assert StripNonDigits(s1) == a;
    var s2 := s1 + b;
    StripAppend(s1, b);
    assert StripNonDigits(s2) == a + b;
    var s3 := s2 + "-";
    StripAppend(s2, "-");
    assert StripNonDigits(s3) == a + b;
    StripAppend(s3, c);
  }

  // ------------------------------------------------------------ ages and incomes

  /** `np.clip` on integers. */
  function ClipInt(v: int, lo: int, hi: int): (r: int)
    requires lo <= hi
    ensures lo <= r <= hi
    ensures lo <= v <= hi ==> r == v
  {
    if v < lo then lo else if v > hi then hi else v
  }

  /** A loop `for k, idx in ...: s[idx] = vals[k]` over distinct positions:
      each sampled position takes its value, every other entry is kept. */
  method Overwrite<T>(s: seq<T>, at: seq<nat>, vals: seq<T>) returns (r: seq<T>)
    requires |at| == |vals| && PicksOk(at, |s|) && Distinct(at)
    ensures |r| == |s|
    ensures forall k :: 0 <= k < |at| ==> r[at[k]] == vals[k]
    ensures forall i :: 0 <= i < |s| && i !in at ==> r[i] == s[i]
  {
    r := s;
    var k := 0;
    while k < |at|
      invariant 0 <= k <= |at| && |r| == |s|
      invariant forall m :: 0 <= m < k ==> r[at[m]] == vals[m]
      invariant forall i :: 0 <= i < |s| && i !in at[..k] ==> r[i] == s[i]
    {
      assert forall m :: 0 <= m < k ==> at[m] != at[k];
      r := r[at[k] := vals[k]];
      assert at[..k + 1] == at[..k] + [at[k]];
      k := k + 1;
    }
    assert at[..k] == at;
  }

  /** Lines 46-50: normal samples clipped to [18, 80], then 50 sampled
      positions overwritten with one of 5, 10, 150, 200. */
  method BuildAges(normal: seq<int>, at: seq<nat>, pick: seq<nat>) returns (ages: seq<int>)
    requires |at| == |pick| && PicksOk(at, |normal|) && Distinct(at) && PicksOk(pick, |AgeOutliers|)
    ensures |ages| == |normal|
    ensures forall i :: 0 <= i < |normal| && i !in at ==> ages[i] == ClipInt(normal[i], 18, 80)
    ensures forall i :: 0 <= i < |normal| && i !in at ==> 18 <= ages[i] <= 80
    ensures forall k :: 0 <= k < |at| ==> ages[at[k]] == AgeOutliers[pick[k]]
    ensures forall i :: 0 <= i < |normal| ==> (18 <= ages[i] <= 80 || ages[i] in AgeOutliers)
  {
    var clipped := seq(|normal|, i requires 0 <= i < |normal| => ClipInt(normal[i], 18, 80));
    var vals := seq(|pick|, k requires 0 <= k < |pick| => AgeOutliers[pick[k]]);
    ages := Overwrite(clipped, at, vals);
    forall i | 0 <= i < |normal| ensures 18 <= ages[i] <= 80 || ages[i] in AgeOutliers {
      if i in at {
        var k :| 0 <= k < |at| && at[k] == i;
        assert ages[i] == AgeOutliers[pick[k]];
      }
    }
  }

  /** Lines 52-56: normal samples clipped to [20000, 200000], then 100
      sampled positions overwritten with one of 5000, 500000, 1000000. */
  method BuildIncomes(normal: seq<real>, at: seq<nat>, pick: seq<nat>) returns (incomes: seq<real>)
    requires |at| == |pick| && PicksOk(at, |normal|) && Distinct(at) && PicksOk(pick, |IncomeOutliers|)
    ensures |incomes| == |normal|
    ensures forall i :: 0 <= i < |normal| && i !in at ==> incomes[i] == Clamp(normal[i], 20000.0, 200000.0)
    ensures forall k :: 0 <= k < |at| ==> incomes[at[k]] == IncomeOutliers[pick[k]]
    ensures forall i :: 0 <= i < |normal| ==> (20000.0 <= incomes[i] <= 200000.0 || incomes[i] in IncomeOutliers)
  {
    var clipped := seq(|normal|, i requires 0 <= i < |normal| => Clamp(normal[i], 20000.0, 200000.0));
    var vals := seq(|pick|, k requires 0 <= k < |pick| => IncomeOutliers[pick[k]]);
    incomes := Overwrite(clipped, at, vals);
    forall i | 0 <= i < |normal| ensures 20000.0 <= incomes[i] <= 200000.0 || incomes[i] in IncomeOutliers {
      if i in at {
        var k :| 0 <= k < |at| && at[k] == i;
        assert incomes[i] == IncomeOutliers[pick[k]];
      }
    }
  }

  // ------------------------------------------------------------ statuses

  /** Lines 71-74: one of the five options per record, built by appending. */
  method BuildStatuses(picks: seq<nat>) returns (statuses: seq<string>)
    requires PicksOk(picks, |StatusOptions|)
    ensures |statuses| == |picks|
    ensures forall i :: 0 <= i < |picks| ==> statuses[i] == StatusOptions[picks[i]]
    ensures forall i :: 0 <= i < |picks| ==> statuses[i] in StatusOptions
  {
    statuses := [];
    var i := 0;
    while i < |picks|
      invariant 0 <= i <= |picks| && |statuses| == i
      invariant forall k :: 0 <= k < i ==> statuses[k] == StatusOptions[picks[k]]
    {
      statuses := statuses + [StatusOptions[picks[i]]];
      i := i + 1;
    }
  }

  /** A word of letters title-cases to its first letter in upper case and
      the rest in lower case. */
  lemma TitleOfWord(s: string)
    requires |s| > 0 && forall i :: 0 <= i < |s| ==> IsLetter(s[i])
    ensures Title(s) == [Upper(s[0])] + seq(|s| - 1, i requires 0 <= i < |s| - 1 => Lower(s[i + 1]))
  {
    TitleIsPointwise(s);
  }

  /** Title-casing, as the cleaner does to Status, folds the five options
      into four values: "active" and "Active" become the same status. */
  lemma StatusOptionsTitled()
    ensures Title(StatusOptions[0]) == "Active" && Title(StatusOptions[1]) == "Inactive"
    ensures Title(StatusOptions[2]) == "Pending" && Title(StatusOptions[3]) == "Suspended"
    ensures Title(StatusOptions[4]) == "Active"
  {
    TitledActive();
    TitledInactive();
    TitledPending();
    TitledSuspended();
    TitledCapitalActive();
  }

  // One lemma per option: each title computation is proved on its own.
  lemma TitledActive() ensures Title("active") == "Active" { TitleOfWord("active"); }
  lemma TitledInactive() ensures Title("INACTIVE") == "Inactive" { TitleOfWord("INACTIVE"); }
  lemma TitledPending() ensures Title("Pending") == "Pending" { TitleOfWord("Pending"); }
  lemma TitledSuspended() ensures Title("suspended") == "Suspended" { TitleOfWord("suspended"); }
  lemma TitledCapitalActive() ensures Title("Active") == "Active" { TitleOfWord("Active"); }

  // ------------------------------------------------------------ the table

  const ColumnNames: seq<string> :=
    ["CustomerID", "Name", "Email", "Phone", "Age", "Income", "Registration_Date", "Status"]

  /** The eight labels are distinct: no two share their first letter. */
  lemma ColumnNamesDistinct()
    ensures forall a, b :: 0 <= a < b < |ColumnNames| ==> ColumnNames[a] != ColumnNames[b]
  {
    var heads := seq(|ColumnNames|, j requires 0 <= j < |ColumnNames| => ColumnNames[j][0]);
    assert heads == "CNEPAIRS";
    forall a, b | 0 <= a < b < |ColumnNames| ensures ColumnNames[a] != ColumnNames[b] {
      assert heads[a] != heads[b];
    }
  }

  /** The dtypes pandas gives the eight lists: `Age` (int64) and `Income`
      (float64) are numeric, the other six are object columns. */
  const ColumnKinds: seq<Kind> :=
    [Object, Object, Object, Object, Number, Number, Object, Object]

  /** The columns carry the eight dtypes, in order. */
  predicate Typed(cs: seq<Column>)
  {
    |cs| == |ColumnKinds| && forall j :: 0 <= j < |ColumnKinds| ==> cs[j].kind == ColumnKinds[j]
  }

  /** The columns carry the eight labels, in order. */
  predicate Labelled(cs: seq<Column>)
  {
    |cs| == |ColumnNames| && forall j :: 0 <= j < |ColumnNames| ==> cs[j].name == ColumnNames[j]
  }

  /** Lines 77-86: the eight lists side by side. Ages become an integer
      column and incomes a float column, both numeric; the rest hold
      strings and missing values. */
  function SampleTable(ids: seq<string>, names: seq<Value>, emails: seq<Value>, phones: seq<Value>,
                       ages: seq<int>, incomes: seq<real>, dates: seq<string>, statuses: seq<string>): (t: Table)
    requires |names| == |ids| && |emails| == |ids| && |phones| == |ids| && |ages| == |ids|
    requires |incomes| == |ids| && |dates| == |ids| && |statuses| == |ids|
    ensures t.height == |ids| && Labelled(t.columns) && Typed(t.columns)
    ensures forall j :: 0 <= j < |t.columns| ==> |t.columns[j].cells| == |ids|
  {
    var n := |ids|;
    Table([Column("CustomerID", Object, seq(n, i requires 0 <= i < n => Str(ids[i]))),
           Column("Name", Object, names),
           Column("Email", Object, emails),
           Column("Phone", Object, phones),
           Column("Age", Number, seq(n, i requires 0 <= i < n => Num(ages[i] as real))),
           Column("Income", Number, seq(n, i requires 0 <= i < n => Num(incomes[i]))),
           Column("Registration_Date", Object, seq(n, i requires 0 <= i < n => Str(dates[i]))),
           Column("Status", Object, seq(n, i requires 0 <= i < n => Str(statuses[i])))],
          n)
  }

  predicate Textual(s: seq<Value>)
  {
    forall i :: 0 <= i < |s| ==> Conforms(Object, s[i])
  }

  lemma SampleTableWellFormed(ids: seq<string>, names: seq<Value>, emails: seq<Value>, phones: seq<Value>,
                              ages: seq<int>, incomes: seq<real>, dates: seq<string>, statuses: seq<string>)
    requires |names| == |ids| && |emails| == |ids| && |phones| == |ids| && |ages| == |ids|
    requires |incomes| == |ids| && |dates| == |ids| && |statuses| == |ids|
    requires Textual(names) && Textual(emails) && Textual(phones)
    ensures WellFormed(SampleTable(ids, names, emails, phones, ages, incomes, dates, statuses))
  {
    var t := SampleTable(ids, names, emails, phones, ages, incomes, dates, statuses);
    ColumnNamesDistinct();
    forall j | 0 <= j < |t.columns| ensures ColumnOk(t.columns[j], t.height) {
      assert |t.columns[j].cells| == |ids|;
    }
  }

  /** Lines 89-91: the rows at positions `at` (`df.iloc[at]`) appended
      below the table, renumbered from its height on. */
  function AppendRows(t: Table, at: seq<nat>): (r: Table)
    ensures r.height == t.height + |at| && |r.columns| == |t.columns|
    ensures forall j :: 0 <= j < |t.columns| ==>
              && r.columns[j].name == t.columns[j].name && r.columns[j].kind == t.columns[j].kind
              && r.columns[j].cells == t.columns[j].cells + Pick(t.columns[j], at).cells
  {
    Table(seq(|t.columns|, j requires 0 <= j < |t.columns| =>
            t.columns[j].(cells := t.columns[j].cells + Pick(t.columns[j], at).cells)),
          t.height + |at|)
  }

  /** The appended table is well formed, its first rows are the input's
      rows and each appended row is a copy of the row it was taken from. */
  lemma AppendRowsRows(t: Table, at: seq<nat>)
    requires WellFormed(t) && PicksOk(at, t.height)
    ensures WellFormed(AppendRows(t, at))
    ensures Rows(AppendRows(t, at))[..t.height] == Rows(t)
    ensures forall a :: 0 <= a < |at| ==> Rows(AppendRows(t, at))[t.height + a] == Row(t, at[a])
  {
    var r := AppendRows(t, at);
    forall j | 0 <= j < |r.columns| ensures ColumnOk(r.columns[j], r.height) {
      assert ColumnOk(t.columns[j], t.height);
    }
    forall i | 0 <= i < t.height ensures Row(r, i) == Row(t, i) {
      assert forall j :: 0 <= j < |t.columns| ==> Cell(r.columns[j], i) == Cell(t.columns[j], i);
    }
    forall a | 0 <= a < |at| ensures Row(r, t.height + a) == Row(t, at[a]) {
      assert forall j :: 0 <= j < |t.columns| ==> Cell(r.columns[j], t.height + a) == Cell(t.columns[j], at[a]);
    }
  }

  /** Two well-formed tables with the same column names, dtypes and rows
      are the same table. */
  lemma SameRowsSameTable(t: Table, u: Table)
    requires WellFormed(t) && WellFormed(u) && |u.columns| == |t.columns| && u.height == t.height
    requires forall j :: 0 <= j < |t.columns| ==>
               u.columns[j].name == t.columns[j].name && u.columns[j].kind == t.columns[j].kind
    requires Rows(u) == Rows(t)
    ensures u == t
  {
    forall j | 0 <= j < |t.columns| ensures u.columns[j].cells == t.columns[j].cells {
      assert ColumnOk(u.columns[j], u.height) && ColumnOk(t.columns[j], t.height);
      forall i | 0 <= i < t.height ensures u.columns[j].cells[i] == t.columns[j].cells[i] {
        assert Rows(u)[i][j] == Rows(t)[i][j];
      }
    }
    assert u.columns == t.columns;
  }

  /** The rows of the appended table are the rows of `t` followed by
      copies of some of them. */
  lemma AppendedRowsAreCopies(t: Table, at: seq<nat>)
    requires WellFormed(t) && Distinct(Rows(t)) && PicksOk(at, t.height)
    ensures Dedup(Rows(AppendRows(t, at))) == Rows(t)
    ensures DuplicatedCount(Rows(AppendRows(t, at))) == |at|
  {
    var r := AppendRows(t, at);
    var extra := Rows(r)[t.height..];
    AppendRowsRows(t, at);
    assert Rows(r) == Rows(t) + extra;
    forall e | 0 <= e < |extra| ensures extra[e] in Rows(t) {
      assert extra[e] == Rows(r)[t.height + e] == Rows(t)[at[e]];
    }
    DedupIgnoresCopies(Rows(t), extra);
    DedupOfDistinct(Rows(t));
  }

  /** When the rows of `t` are distinct, removing duplicates from the
      appended table takes away exactly the appended copies and gives `t`
      back. */
  lemma DuplicatesAreTheCopies(t: Table, at: seq<nat>)
    requires WellFormed(t) && |t.columns| > 0 && Distinct(Rows(t)) && PicksOk(at, t.height)
    ensures DuplicatedRows(AppendRows(t, at)) == |at|
    ensures DropDuplicates(AppendRows(t, at)) == t
  {
    var r := AppendRows(t, at);
    AppendedRowsAreCopies(t, at);
    AppendRowsRows(t, at);
    DropDuplicatesRows(r);
    DropDuplicatesWellFormed(r);
    SameRowsSameTable(t, DropDuplicates(r));
  }

  // ------------------------------------------------------------ the whole generator

  /** Every random outcome of one run, in the order the generator uses
      them. `nameGaps`, `ageAt`, `incomeAt` and `dupAt` are the position
      lists `random.sample` returned; `agePick` and `incomePick` say which
      outlier value went to each; `dates` are the chosen renderings of the
      registration dates. */
  datatype Draws = Draws(
    firstPick: seq<nat>, lastPick: seq<nat>, nameGaps: seq<nat>,
    emails: seq<EmailDraw>, phones: seq<PhoneDraw>,
    ageNormal: seq<int>, ageAt: seq<nat>, agePick: seq<nat>,
    incomeNormal: seq<real>, incomeAt: seq<nat>, incomePick: seq<nat>,
    dates: seq<string>, statusPick: seq<nat>, dupAt: seq<nat>)

  /** `random.sample(range(n), k)`: `k` distinct positions below `n`. */
  predicate SampleOf(at: seq<nat>, n: nat, k: nat)
  {
    |at| == k && PicksOk(at, n) && Distinct(at)
  }

  /** Outcomes a run with `n` records can produce; `int(n * 0.15)` and
      `int(n * 0.08)` are taken exactly. */
  predicate DrawsFor(n: nat, d: Draws)
  {
    && |d.firstPick| == n && PicksOk(d.firstPick, |FirstNames|)
    && |d.lastPick| == n && PicksOk(d.lastPick, |LastNames|)
    && SampleOf(d.nameGaps, n, n * 15 / 100)
    && |d.emails| == n
    && |d.phones| == n && (forall i :: 0 <= i < n ==> PhoneDrawOk(d.phones[i]))
    && |d.ageNormal| == n && SampleOf(d.ageAt, n, 50)
    && |d.agePick| == 50 && PicksOk(d.agePick, |AgeOutliers|)
    && |d.incomeNormal| == n && SampleOf(d.incomeAt, n, 100)
    && |d.incomePick| == 100 && PicksOk(d.incomePick, |IncomeOutliers|)
    && |d.dates| == n
    && |d.statusPick| == n && PicksOk(d.statusPick, |StatusOptions|)
    && SampleOf(d.dupAt, n, n * 8 / 100)
  }

  /** The first `n` cells of each column, record by record. */
  predicate IdCells(n: nat, c: seq<Value>)
    requires |c| >= n
  {
    forall i :: 0 <= i < n ==> c[i] == Str(CustomerId(i + 1))
  }

  predicate NameCells(n: nat, d: Draws, c: seq<Value>)
    requires DrawsFor(n, d) && |c| >= n
  {
    forall i :: 0 <= i < n ==>
      c[i] == (if i in d.nameGaps then Null else Str(FullName(d.firstPick[i], d.lastPick[i])))
  }

  predicate EmailCells(n: nat, d: Draws, c: seq<Value>)
    requires DrawsFor(n, d) && |c| >= n
  {
    forall i :: 0 <= i < n ==> c[i] == EmailFor(i, d.emails[i])
  }

  predicate PhoneCells(n: nat, d: Draws, c: seq<Value>)
    requires DrawsFor(n, d) && |c| >= n
  {
    forall i :: 0 <= i < n ==> c[i] == PhoneFor(d.phones[i])
  }

  predicate AgeCells(n: nat, d: Draws, c: seq<Value>)
    requires DrawsFor(n, d) && |c| >= n
  {
    && (forall i :: 0 <= i < n && i !in d.ageAt ==> c[i] == Num(ClipInt(d.ageNormal[i], 18, 80) as real))
    && (forall k :: 0 <= k < 50 ==> c[d.ageAt[k]] == Num(AgeOutliers[d.agePick[k]] as real))
  }

  predicate IncomeCells(n: nat, d: Draws, c: seq<Value>)
    requires DrawsFor(n, d) && |c| >= n
  {
    && (forall i :: 0 <= i < n && i !in d.incomeAt ==> c[i] == Num(Clamp(d.incomeNormal[i], 20000.0, 200000.0)))
    && (forall k :: 0 <= k < 100 ==> c[d.incomeAt[k]] == Num(IncomeOutliers[d.incomePick[k]]))
  }

  predicate DateCells(n: nat, d: Draws, c: seq<Value>)
    requires DrawsFor(n, d) && |c| >= n
  {
    forall i :: 0 <= i < n ==> c[i] == Str(d.dates[i])
  }

  predicate StatusCells(n: nat, d: Draws, c: seq<Value>)
    requires DrawsFor(n, d) && |c| >= n
  {
    forall i :: 0 <= i < n ==> c[i] == Str(StatusOptions[d.statusPick[i]])
  }

  /** What `create_sample_customer_data(n)` returns for the outcomes `d`:
      the eight columns, the first `n` rows built record by record, and
      below them one copy of each row sampled for duplication. */
  predicate IsSample(n: nat, d: Draws, t: Table)
    requires DrawsFor(n, d)
  {
    && WellFormed(t) && t.height == n + |d.dupAt| && Labelled(t.columns) && Typed(t.columns)
    && IdCells(n, t.columns[0].cells)
    && NameCells(n, d, t.columns[1].cells)
    && EmailCells(n, d, t.columns[2].cells)
    && PhoneCells(n, d, t.columns[3].cells)
    && AgeCells(n, d, t.columns[4].cells)
    && IncomeCells(n, d, t.columns[5].cells)
    && DateCells(n, d, t.columns[6].cells)
    && StatusCells(n, d, t.columns[7].cells)
    && (forall a :: 0 <= a < |d.dupAt| ==> Row(t, n + a) == Row(t, d.dupAt[a]))
  }

  /** The generator. Fewer than 100 records cannot work: line 55 samples
      100 positions, and `random.sample` refuses a sample larger than the
      population. */
  method CreateSampleCustomerData(n: nat, d: Draws) returns (res: Result<Table, Failure>)
    requires n >= 100 ==> DrawsFor(n, d)
    ensures res.Err? <==> n < 100
    ensures res.Err? ==> res.error == SampleLargerThanPopulation
    ensures res.Ok? ==> IsSample(n, d, res.value)
  {
    if n < 100 {
      return Err(SampleLargerThanPopulation);
    }
    var ids := CustomerIds(n);
    var names := BuildNames(d.firstPick, d.lastPick, d.nameGaps);
    var emails := BuildEmails(d.emails);
    var phones := BuildPhones(d.phones);
    var ages := BuildAges(d.ageNormal, d.ageAt, d.agePick);
    var incomes := BuildIncomes(d.incomeNormal, d.incomeAt, d.incomePick);
    var statuses := BuildStatuses(d.statusPick);
    assert NameCells(n, d, names);
    assert EmailCells(n, d, emails);
    assert PhoneCells(n, d, phones);
    var base := SampleTable(ids, names, emails, phones, ages, incomes, d.dates, statuses);
    SampleTableCells(n, d, names, emails, phones, ages, incomes, statuses);
    AppendedSample(n, d, base);
    return Ok(AppendRows(base, d.dupAt));
  }

  /** The columns the generator lines up, checked record by record. */
  lemma SampleTableCells(n: nat, d: Draws, names: seq<Value>, emails: seq<Value>, phones: seq<Value>,
                         ages: seq<int>, incomes: seq<real>, statuses: seq<string>)
    requires DrawsFor(n, d)
    requires |names| == n && |emails| == n && |phones| == n && |ages| == n && |incomes| == n && |statuses| == n
    requires NameCells(n, d, names) && EmailCells(n, d, emails) && PhoneCells(n, d, phones)
    requires forall i :: 0 <= i < n && i !in d.ageAt ==> ages[i] == ClipInt(d.ageNormal[i], 18, 80)
    requires forall k :: 0 <= k < 50 ==> ages[d.ageAt[k]] == AgeOutliers[d.agePick[k]]
    requires forall i :: 0 <= i < n && i !in d.incomeAt ==> incomes[i] == Clamp(d.incomeNormal[i], 20000.0, 200000.0)
    requires forall k :: 0 <= k < 100 ==> incomes[d.incomeAt[k]] == IncomeOutliers[d.incomePick[k]]
    requires forall i :: 0 <= i < n ==> statuses[i] == StatusOptions[d.statusPick[i]]
    ensures var t := SampleTable(CustomerIds(n), names, emails, phones, ages, incomes, d.dates, statuses);
      && WellFormed(t)
      && IdCells(n, t.columns[0].cells)
      && NameCells(n, d, t.columns[1].cells)
      && EmailCells(n, d, t.columns[2].cells)
      && PhoneCells(n, d, t.columns[3].cells)
      && AgeCells(n, d, t.columns[4].cells)
      && IncomeCells(n, d, t.columns[5].cells)
      && DateCells(n, d, t.columns[6].cells)
      && StatusCells(n, d, t.columns[7].cells)
  {
    assert Textual(names) && Textual(emails) && Textual(phones);
    SampleTableWellFormed(CustomerIds(n), names, emails, phones, ages, incomes, d.dates, statuses);
    var t := SampleTable(CustomerIds(n), names, emails, phones, ages, incomes, d.dates, statuses);
    assert t.columns[1].cells == names && t.columns[2].cells == emails && t.columns[3].cells == phones;
  }

  /** Appending the sampled copies to a table built as above gives a sample. */
  lemma AppendedSample(n: nat, d: Draws, base: Table)
    requires DrawsFor(n, d) && WellFormed(base) && base.height == n
    requires Labelled(base.columns) && Typed(base.columns)
    requires IdCells(n, base.columns[0].cells)
    requires NameCells(n, d, base.columns[1].cells)
    requires EmailCells(n, d, base.columns[2].cells)
    requires PhoneCells(n, d, base.columns[3].cells)
    requires AgeCells(n, d, base.columns[4].cells)
    requires IncomeCells(n, d, base.columns[5].cells)
    requires DateCells(n, d, base.columns[6].cells)
    requires StatusCells(n, d, base.columns[7].cells)
    ensures IsSample(n, d, AppendRows(base, d.dupAt))
  {
    AppendRowsRows(base, d.dupAt);
    var t := AppendRows(base, d.dupAt);
    forall j | 0 <= j < 8 ensures t.columns[j].cells[..n] == base.columns[j].cells {
      assert ColumnOk(base.columns[j], n);
    }
    PrefixCells(n, d, base, t);
    AppendedCopies(base, d.dupAt);
  }

  /** Each appended row equals the row of the table it was copied from. */
  lemma AppendedCopies(base: Table, at: seq<nat>)
    requires WellFormed(base) && PicksOk(at, base.height)
    ensures forall a :: 0 <= a < |at| ==>
              Row(AppendRows(base, at), base.height + a) == Row(AppendRows(base, at), at[a])
  {
    AppendRowsRows(base, at);
    var t := AppendRows(base, at);
    forall a | 0 <= a < |at| ensures Row(t, base.height + a) == Row(t, at[a]) {
      assert Rows(t)[base.height + a] == Row(base, at[a]);
      assert Rows(t)[..base.height][at[a]] == Rows(base)[at[a]];
    }
  }

  /** The record-by-record facts are about the first `n` cells only, so
      they carry over from the built table to the appended one. */
  lemma PrefixCells(n: nat, d: Draws, base: Table, t: Table)
    requires DrawsFor(n, d) && |base.columns| == 8 && |t.columns| == 8
    requires forall j :: 0 <= j < 8 ==> |base.columns[j].cells| == n && |t.columns[j].cells| >= n
    requires forall j :: 0 <= j < 8 ==> t.columns[j].cells[..n] == base.columns[j].cells
    requires IdCells(n, base.columns[0].cells)
    requires NameCells(n, d, base.columns[1].cells)
    requires EmailCells(n, d, base.columns[2].cells)
    requires PhoneCells(n, d, base.columns[3].cells)
    requires AgeCells(n, d, base.columns[4].cells)
    requires IncomeCells(n, d, base.columns[5].cells)
    requires DateCells(n, d, base.columns[6].cells)
    requires StatusCells(n, d, base.columns[7].cells)
    ensures IdCells(n, t.columns[0].cells)
    ensures NameCells(n, d, t.columns[1].cells)
    ensures EmailCells(n, d, t.columns[2].cells)
    ensures PhoneCells(n, d, t.columns[3].cells)
    ensures AgeCells(n, d, t.columns[4].cells)
    ensures IncomeCells(n, d, t.columns[5].cells)
    ensures DateCells(n, d, t.columns[6].cells)
    ensures StatusCells(n, d, t.columns[7].cells)
  {
    forall j, i | 0 <= j < 8 && 0 <= i < n ensures t.columns[j].cells[i] == base.columns[j].cells[i] {
      assert t.columns[j].cells[..n][i] == t.columns[j].cells[i];
    }
  }

  /** The first `n` rows of a sample differ in CustomerID, so removing
      duplicates takes away exactly the `int(n * 0.08)` appended copies and
      keeps the first `n` rows as they are. */
  lemma SampleDuplicates(n: nat, d: Draws, t: Table)
    requires DrawsFor(n, d) && IsSample(n, d, t)
    ensures DuplicatedRows(t) == n * 8 / 100
    ensures DropDuplicates(t).height == n
    ensures Rows(DropDuplicates(t)) == Rows(t)[..n]
  {
    var first, extra := Rows(t)[..n], Rows(t)[n..];
    assert Rows(t) == first + extra;
    IdRowsDistinct(n, t);
    SampleExtraRowsCopies(n, d, t);
    DedupIgnoresCopies(first, extra);
    DedupOfDistinct(first);
    DropDuplicatesRows(t);
    RemovedIsDuplicated(t);
  }

  /** Rows whose first cells are distinct CustomerIDs are distinct. */
  lemma IdRowsDistinct(n: nat, t: Table)
    requires |t.columns| > 0 && |t.columns[0].cells| >= n && n <= t.height
    requires IdCells(n, t.columns[0].cells)
    ensures Distinct(Rows(t)[..n])
  {
    var first := Rows(t)[..n];
    forall a, b | 0 <= a < b < n ensures first[a] != first[b] {
      assert first[a] == Row(t, a) && first[b] == Row(t, b);
      assert Row(t, a)[0] == Cell(t.columns[0], a) == Str(CustomerId(a + 1));
      assert Row(t, b)[0] == Cell(t.columns[0], b) == Str(CustomerId(b + 1));
      if CustomerId(a + 1) == CustomerId(b + 1) {
        CustomerIdInjective(a + 1, b + 1);
      }
    }
  }

  /** Every row below the first `n` is one of the first `n`. */
  lemma SampleExtraRowsCopies(n: nat, d: Draws, t: Table)
    requires DrawsFor(n, d) && IsSample(n, d, t)
    ensures forall e :: 0 <= e < t.height - n ==> Rows(t)[n..][e] in Rows(t)[..n]
  {
    var first, extra := Rows(t)[..n], Rows(t)[n..];
    forall e | 0 <= e < |extra| ensures extra[e] in first {
      assert extra[e] == Row(t, n + e) == Row(t, d.dupAt[e]) == first[d.dupAt[e]];
    }
  }

  /** Stripping non-digits from a generated phone, as the cleaner does,
      gives back its ten base digits, led by the country code `1` for the
      `+1` rendering. */
  lemma SamplePhoneStrips(n: nat, d: Draws, t: Table, i: nat)
    requires DrawsFor(n, d) && IsSample(n, d, t) && i < n && d.phones[i].PhoneParts?
    ensures t.columns[3].cells[i].Str?
    ensures StripNonDigits(t.columns[3].cells[i].s) ==
              (if d.phones[i].format == 3 then "1" else "") + BasePhone(d.phones[i])
  {
    RenderingStrips(BasePhone(d.phones[i]), d.phones[i].format);
  }
}
