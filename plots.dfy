/**
 * The table normalisation of the plotting tool (`load_and_prepare` in
 * make_plots.py): header sniffing, column naming, the FAILED filter, the
 * duration-unit rule and the per-PARAM grouping, as a pipeline of functions
 * over the rows the CSV reader produced.
 */
module Plots {
  import opened Wrappers
  import opened Decimal
  import opened Stats
  import opened Lex

  /** One cell as the CSV reader typed it. */
  datatype Cell = Num(value: real) | Str(text: string)

  /** A column label: text, or a number taken from a numeric header cell. */
  datatype Column = Named(name: string) | Numbered(value: real)

  /** The exceptions `load_and_prepare` can raise. */
  datatype LoadError =
    | EmptyData       // the reader finds no row at all
    | LengthMismatch  // default names do not fit the column count
    | MissingColumns  // PARAM or AVG_TIME absent (the ValueError of lines 46-51)
    | BadNumber       // `float(num)` raised inside `to_ms`

  /** A table after naming: its column labels and its data rows. */
  datatype Table = Table(columns: seq<Column>, rows: seq<seq<Cell>>)

  /**
   * One output line per PARAM value: the label, PARAM_NUM (None for NaN),
   * MEAN (None for NaN) and the square of STD (the sample variance), 0 when
   * fewer than two values were present.
   */
  datatype Group = Group(param: Cell, key: Option<real>, mean: Option<real>, variance: real)

  const ParamColumn: Column := Named("PARAM")
  const AvgColumn: Column := Named("AVG_TIME")
  const RunColumn: Column := Named("RUN")
  const FailedColumn: Column := Named("FAILED")

  predicate Rectangular(frame: seq<seq<Cell>>, width: nat)
  {
    forall r :: r in frame ==> |r| == width
  }

  // ---------------------------------------------------------------- text

  /** Python's `str.isspace` for one character. */
  predicate IsSpace(c: char)
  {
    var n := c as int;
    (9 <= n <= 13) || (28 <= n <= 32) || n == 0x85 || n == 0xA0 || n == 0x1680
    || (0x2000 <= n <= 0x200A) || n == 0x2028 || n == 0x2029 || n == 0x202F
    || n == 0x205F || n == 0x3000
  }

  function StripLeft(s: string): (r: string)
    ensures |r| <= |s| && r == s[|s| - |r|..]
    ensures r == [] || !IsSpace(r[0])
    ensures forall i :: 0 <= i < |s| - |r| ==> IsSpace(s[i])
  {
    if s != [] && IsSpace(s[0]) then StripLeft(s[1..]) else s
  }

  function StripRight(s: string): (r: string)
    ensures |r| <= |s| && r == s[..|r|]
    ensures r == [] || !IsSpace(r[|r| - 1])
    ensures forall i :: |r| <= i < |s| ==> IsSpace(s[i])
  {
    if s != [] && IsSpace(s[|s| - 1]) then StripRight(s[..|s| - 1]) else s
  }

  /** Python's `str.strip()`. */
  function Strip(s: string): string
  {
    StripRight(StripLeft(s))
  }

  function UpperChar(c: char): char
  {
    if 'a' <= c <= 'z' then (c as int - 32) as char else c
  }

  function LowerChar(c: char): char
  {
    if 'A' <= c <= 'Z' then (c as int + 32) as char else c
  }

  /** `str.upper()` on ASCII letters. */
  function Upper(s: string): (r: string)
    ensures |r| == |s|
    ensures forall i :: 0 <= i < |s| ==> r[i] == UpperChar(s[i])
  {
    if s == [] then [] else Upper(s[..|s| - 1]) + [UpperChar(s[|s| - 1])]
  }

  /** `str.lower()` on ASCII letters. */
  function Lower(s: string): (r: string)
    ensures |r| == |s|
    ensures forall i :: 0 <= i < |s| ==> r[i] == LowerChar(s[i])
  {
    if s == [] then [] else Lower(s[..|s| - 1]) + [LowerChar(s[|s| - 1])]
  }

  /** The label normalisation `c.strip().upper()`. */
  function Clean(s: string): string
  {
    Upper(Strip(s))
  }

  lemma StripFixed(s: string)
    requires s == [] || (!IsSpace(s[0]) && !IsSpace(s[|s| - 1]))
    ensures Strip(s) == s
  {
  }

  lemma UpperFixed(s: string)
    requires forall i :: 0 <= i < |s| ==> !('a' <= s[i] <= 'z')
    ensures Upper(s) == s
  {
  }

  lemma LowerFixed(s: string)
    requires NoUpper(s)
    ensures Lower(s) == s
  {
  }

  /** Normalising a label twice (lines 32 and 44) is the same as once. */
  lemma CleanIdempotent(s: string)
    ensures Clean(Clean(s)) == Clean(s)
  {
    var t := Strip(s);
    var u := Upper(t);
    assert t == [] || (!IsSpace(t[0]) && !IsSpace(t[|t| - 1]));
    assert u == [] || (!IsSpace(u[0]) && !IsSpace(u[|u| - 1]));
    StripFixed(u);
    UpperFixed(u);
  }

  /** `s.replace(c, '')`. */
  function Remove(s: string, c: char): (r: string)
    ensures forall x :: x in r <==> x in s && x != c
  {
    if s == [] then []
    else (if s[0] == c then [] else [s[0]]) + Remove(s[1..], c)
  }

  /** `str.isdigit()` on ASCII: non-empty and only digits. */
  predicate IsDigitText(s: string)
  {
    |s| > 0 && AllDigits(s)
  }

  // ---------------------------------------------------------------- header

  /** A cell that makes the first row a header: a string that is not digits once dots and dashes are deleted. */
  predicate HeaderLike(c: Cell)
  {
    c.Str? && !IsDigitText(Remove(Remove(c.text, '.'), '-'))
  }

  /** `has_header` of lines 25-28. */
  predicate HasHeader(row: seq<Cell>)
  {
    exists j :: 0 <= j < |row| && HeaderLike(row[j])
  }

  /** A string that has no digit, or that has a character other than a digit, `.` or `-`. */
  predicate NotNumberLike(t: string)
  {
    (forall i :: 0 <= i < |t| ==> !IsDigit(t[i]))
    || (exists i :: 0 <= i < |t| && !(IsDigit(t[i]) || t[i] == '.' || t[i] == '-'))
  }

  /**
   * The header rule in plain terms: a first row is a header iff one of its
   * cells is a string that is not number-like. Numeric cells never make a
   * header.
   */
  lemma HeaderRule(row: seq<Cell>)
    ensures HasHeader(row) <==> exists j :: 0 <= j < |row| && row[j].Str? && NotNumberLike(row[j].text)
  {
    forall c | c in row && c.Str?
      ensures HeaderLike(c) <==> NotNumberLike(c.text)
    {
      DigitTextAfterRemoval(c.text);
    }
  }

  lemma DigitTextAfterRemoval(t: string)
    ensures IsDigitText(Remove(Remove(t, '.'), '-')) <==>
      (exists i :: 0 <= i < |t| && IsDigit(t[i])) &&
      (forall i :: 0 <= i < |t| ==> IsDigit(t[i]) || t[i] == '.' || t[i] == '-')
  {
    var r := Remove(Remove(t, '.'), '-');
    assert forall x :: x in r <==> x in t && x != '.' && x != '-';
    if IsDigitText(r) {
      DigitsLeftMeanNumber(t, r);
    }
    if (exists i :: 0 <= i < |t| && IsDigit(t[i])) &&
       (forall i :: 0 <= i < |t| ==> IsDigit(t[i]) || t[i] == '.' || t[i] == '-') {
      NumberLeavesDigits(t, r);
    }
  }

  lemma DigitsLeftMeanNumber(t: string, r: string)
    requires forall x :: x in r <==> x in t && x != '.' && x != '-'
    requires IsDigitText(r)
    ensures exists i :: 0 <= i < |t| && IsDigit(t[i])
    ensures forall i :: 0 <= i < |t| ==> IsDigit(t[i]) || t[i] == '.' || t[i] == '-'
  {
    assert r[0] in t;
    forall i | 0 <= i < |t|
      ensures IsDigit(t[i]) || t[i] == '.' || t[i] == '-'
    {
      if t[i] != '.' && t[i] != '-' {
        assert t[i] in r;
      }
    }
  }

  lemma NumberLeavesDigits(t: string, r: string)
    requires forall x :: x in r <==> x in t && x != '.' && x != '-'
    requires exists i :: 0 <= i < |t| && IsDigit(t[i])
    requires forall i :: 0 <= i < |t| ==> IsDigit(t[i]) || t[i] == '.' || t[i] == '-'
    ensures IsDigitText(r)
  {
    var i :| 0 <= i < |t| && IsDigit(t[i]);
    assert t[i] in r;
    forall k | 0 <= k < |r|
      ensures IsDigit(r[k])
    {
      assert r[k] in t;
    }
  }

  // ---------------------------------------------------------------- naming

  function ColumnName(c: Cell): Column
  {
    match c
    case Str(t) => Named(Clean(t))
    case Num(x) => Numbered(x)
  }

  /** Line 32: the first row's cells, stripped and upper-cased. */
  function HeaderNames(row: seq<Cell>): (cols: seq<Column>)
    ensures |cols| == |row|
    ensures forall j :: 0 <= j < |row| && row[j].Str? ==> cols[j] == Named(Clean(row[j].text))
    ensures forall j :: 0 <= j < |row| && row[j].Num? ==> cols[j] == Numbered(row[j].value)
  {
    seq(|row|, j requires 0 <= j < |row| => ColumnName(row[j]))
  }

  /** Lines 36-41: names by column count when there is no header. */
  function DefaultNames(n: nat): seq<Column>
  {
    if n == 4 then [ParamColumn, AvgColumn, RunColumn, FailedColumn]
    else if n == 3 then [ParamColumn, AvgColumn, RunColumn]
    else [ParamColumn, AvgColumn] + ExtraNames(n)
  }

  /** `COL2` ... `COL<n-1>`. */
  function ExtraNames(n: nat): (cols: seq<Column>)
    ensures |cols| == if n > 2 then n - 2 else 0
    ensures forall c :: c in cols ==> c.Named? && |c.name| > 0 && c.name[0] == 'C'
    ensures forall j :: 0 <= j < |cols| ==> cols[j] == Named("COL" + NatToString(j + 2))
  {
    if n <= 2 then [] else ExtraNames(n - 1) + [Named("COL" + NatToString(n - 1))]
  }

  /**
   * The default names fit any width of at least two, always start with PARAM
   * and AVG_TIME, and hold FAILED only for four columns and RUN only for three
   * or four.
   */
  lemma DefaultNamesShape(n: nat)
    requires n >= 2
    ensures var cols := DefaultNames(n);
      && |cols| == n && cols[0] == ParamColumn && cols[1] == AvgColumn
      && (FailedColumn in cols <==> n == 4)
      && (RunColumn in cols <==> n == 3 || n == 4)
  {
    var cols := DefaultNames(n);
    if n != 3 && n != 4 {
      assert FailedColumn !in ExtraNames(n) && RunColumn !in ExtraNames(n);
    }
  }

  /** Line 44: every text label stripped and upper-cased again. */
  function Normalize(cols: seq<Column>): (r: seq<Column>)
    ensures |r| == |cols|
    ensures forall j :: 0 <= j < |cols| && cols[j].Named? ==> r[j] == Named(Clean(cols[j].name))
    ensures forall j :: 0 <= j < |cols| && cols[j].Numbered? ==> r[j] == cols[j]
  {
    seq(|cols|, j requires 0 <= j < |cols| =>
      match cols[j] case Named(t) => Named(Clean(t)) case Numbered(_) => cols[j])
  }

  /**
   * Lines 21-44: header detection and naming. A header row gives the labels
   * and leaves the data; otherwise the default names must fit the width.
   */
  function Prepare(frame: seq<seq<Cell>>, width: nat): (r: Result<Table, LoadError>)
    requires Rectangular(frame, width)
    ensures r.Failure? <==> frame == [] || (!HasHeader(frame[0]) && width < 2)
    ensures r.Success? ==>
      && |r.value.columns| == width
      && Rectangular(r.value.rows, width)
      && r.value.rows == frame[(if HasHeader(frame[0]) then 1 else 0)..]
    ensures r.Success? && HasHeader(frame[0]) ==> forall j :: 0 <= j < width && frame[0][j].Str? ==>
      r.value.columns[j] == Named(Clean(frame[0][j].text))
    ensures r.Success? && HasHeader(frame[0]) ==> forall j :: 0 <= j < width && frame[0][j].Num? ==>
      r.value.columns[j] == Numbered(frame[0][j].value)
    ensures r.Success? && !HasHeader(frame[0]) ==> r.value.columns == DefaultNames(width)
  {
    if frame == [] then Failure(EmptyData)
    else if HasHeader(frame[0]) then
      assert |frame[0]| == width;
      HeaderNamesClean(frame[0]);
      Success(Table(Normalize(HeaderNames(frame[0])), frame[1..]))
    else if width < 2 then Failure(LengthMismatch)
    else
      DefaultNamesShape(width);
      DefaultNamesClean(width);
      Success(Table(Normalize(DefaultNames(width)), frame))
  }

  /** A label that has no blank at either end and no lower-case letter is already clean. */
  lemma CleanFixed(s: string)
    requires s == [] || (!IsSpace(s[0]) && !IsSpace(s[|s| - 1]))
    requires forall i :: 0 <= i < |s| ==> !('a' <= s[i] <= 'z')
    ensures Clean(s) == s
  {
    StripFixed(s);
    UpperFixed(s);
  }

  /** The second normalisation (line 44) leaves header labels as line 32 made them. */
  lemma HeaderNamesClean(row: seq<Cell>)
    ensures Normalize(HeaderNames(row)) == HeaderNames(row)
  {
    forall j | 0 <= j < |row| && row[j].Str?
      ensures Normalize(HeaderNames(row))[j] == HeaderNames(row)[j]
    {
      CleanIdempotent(row[j].text);
    }
  }

  /** The default names are already clean, so line 44 leaves them alone. */
  lemma DefaultNamesClean(n: nat)
    requires n >= 2
    ensures Normalize(DefaultNames(n)) == DefaultNames(n)
  {
    var cols := DefaultNames(n);
    forall j | 0 <= j < n
      ensures cols[j].Named? && Clean(cols[j].name) == cols[j].name
    {
      if j < 2 || n == 3 || n == 4 {
        FixedNameClean(cols[j].name);
      } else {
        assert cols[j] == ExtraNames(n)[j - 2];
        CountedNameClean(j);
      }
    }
    CleanLabelsKept(cols);
  }

  lemma CleanLabelsKept(cols: seq<Column>)
    requires forall j :: 0 <= j < |cols| ==> cols[j].Named? && Clean(cols[j].name) == cols[j].name
    ensures Normalize(cols) == cols
  {
  }

  lemma FixedNameClean(s: string)
    requires s == "PARAM" || s == "AVG_TIME" || s == "RUN" || s == "FAILED"
    ensures Clean(s) == s
  {
    CleanFixed(s);
  }

  lemma CountedNameClean(k: nat)
    ensures Clean("COL" + NatToString(k)) == "COL" + NatToString(k)
  {
    var s, d := "COL" + NatToString(k), NatToString(k);
    assert s[0] == 'C';
    assert s[|s| - 1] == d[|d| - 1];
    assert forall i :: 3 <= i < |s| ==> s[i] == d[i - 3];
    CleanFixed(s);
  }

  /** The first position of a label. */
  function Find(cols: seq<Column>, c: Column): (r: Option<nat>)
    ensures r.None? <==> c !in cols
    ensures r.Some? ==> r.value < |cols| && cols[r.value] == c
  {
    if cols == [] then None
    else if cols[0] == c then Some(0)
    else match Find(cols[1..], c)
      case None => None
      case Some(k) => Some(k + 1)
  }

  // ---------------------------------------------------------------- FAILED filter

  /** `pd.to_numeric(errors="coerce").fillna(0)` of one FAILED cell. */
  function FailedValue(c: Cell): real
  {
    match c
    case Num(x) => x
    case Str(t) => match ParseNumber(t) case None => 0.0 case Some(v) => v
  }

  /** A row whose FAILED cell (column `fc`) coerces to 0. */
  predicate Succeeded(row: seq<Cell>, fc: nat)
  {
    fc < |row| && FailedValue(row[fc]) == 0.0
  }

  /** The rows that pass a test, in their original order (a boolean mask). */
  function Filter(rows: seq<seq<Cell>>, keep: seq<Cell> -> bool): seq<seq<Cell>>
  {
    if rows == [] then []
    else
      var n := |rows| - 1;
      Filter(rows[..n], keep) + (if keep(rows[n]) then [rows[n]] else [])
  }

  /** A mask filters piecewise and keeps exactly the rows that pass. */
  lemma {:induction false} FilterExactly(a: seq<seq<Cell>>, b: seq<seq<Cell>>, keep: seq<Cell> -> bool)
    ensures Filter(a + b, keep) == Filter(a, keep) + Filter(b, keep)
    ensures forall r :: r in Filter(a + b, keep) <==> r in a + b && keep(r)
    decreases |b|
  {
    if b == [] {
      assert a + b == a;
      FilterMembers(a, keep);
    } else {
      var n := |b| - 1;
      assert (a + b)[..|a + b| - 1] == a + b[..n];
      assert (a + b)[|a + b| - 1] == b[n];
      FilterExactly(a, b[..n], keep);
      FilterMembers(a + b, keep);
    }
  }

  lemma {:induction false} FilterMembers(rows: seq<seq<Cell>>, keep: seq<Cell> -> bool)
    ensures forall r :: r in Filter(rows, keep) <==> r in rows && keep(r)
  {
    if rows != [] {
      var n := |rows| - 1;
      FilterMembers(rows[..n], keep);
      assert rows == rows[..n] + [rows[n]];
    }
  }

  /** `df[df["FAILED"] == 0]`. */
  function KeepSucceeded(rows: seq<seq<Cell>>, fc: nat): seq<seq<Cell>>
  {
    Filter(rows, r => Succeeded(r, fc))
  }

  /**
   * Exactly the rows whose FAILED value coerces to 0 survive, and the filter
   * works piecewise, so survivors keep their original order.
   */
  lemma KeepSucceededExactly(a: seq<seq<Cell>>, b: seq<seq<Cell>>, fc: nat)
    ensures KeepSucceeded(a + b, fc) == KeepSucceeded(a, fc) + KeepSucceeded(b, fc)
    ensures forall r :: r in KeepSucceeded(a + b, fc) <==> r in a + b && Succeeded(r, fc)
  {
    FilterExactly(a, b, r => Succeeded(r, fc));
  }

  // ---------------------------------------------------------------- to_ms

  predicate NumChar(c: char)
  {
    IsDigit(c) || c == '.' || c == ','
  }

  /** The longest prefix of `[0-9.,]` characters. */
  function LeadingRun(s: string): (r: string)
    ensures |r| <= |s| && r == s[..|r|]
    ensures forall i :: 0 <= i < |r| ==> NumChar(r[i])
    ensures |r| == |s| || !NumChar(s[|r|])
  {
    if s != [] && NumChar(s[0]) then [s[0]] + LeadingRun(s[1..]) else []
  }

  /** `re.search(r"([\d.,]+)", s).group(1)`: the first maximal run of `[0-9.,]`. */
  function FirstRun(s: string): (r: Option<string>)
    ensures r.None? <==> forall i :: 0 <= i < |s| ==> !NumChar(s[i])
    ensures r.Some? ==> |r.value| > 0
  {
    if s == [] then None
    else if NumChar(s[0]) then Some(LeadingRun(s))
    else FirstRun(s[1..])
  }

  /** The run found starts at the first `[0-9.,]` character and is maximal there. */
  lemma FirstRunLeftmost(s: string)
    ensures FirstRun(s).Some? ==> exists i :: 0 <= i < |s| && NumChar(s[i]) && NoNumChar(s[..i]) && FirstRun(s).value == LeadingRun(s[i..])
  {
    if FirstRun(s).Some? {
      var i := FirstNumChar(s);
      FirstRunAt(s, i);
    }
  }

  /** The position of the first `[0-9.,]` character. */
  lemma {:induction false} FirstNumChar(s: string) returns (i: nat)
    requires !NoNumChar(s)
    ensures i < |s| && NumChar(s[i]) && NoNumChar(s[..i])
    ensures forall j :: 0 <= j < i ==> !NumChar(s[j])
  {
    if NumChar(s[0]) {
      i := 0;
    } else {
      var k := FirstNumChar(s[1..]);
      i := k + 1;
      assert s[..i] == [s[0]] + s[1..][..k];
    }
  }

  /** `s.replace(a, b)` for single characters. */
  function Replace(s: string, a: char, b: char): (r: string)
    ensures |r| == |s|
    ensures forall i :: 0 <= i < |s| ==> r[i] == (if s[i] == a then b else s[i])
  {
    if s == [] then [] else Replace(s[..|s| - 1], a, b) + [if s[|s| - 1] == a then b else s[|s| - 1]]
  }

  predicate OccursAt(s: string, sub: string, i: int)
  {
    0 <= i <= |s| - |sub| && s[i..i + |sub|] == sub
  }

  /** Python's `sub in s`. */
  predicate Contains(s: string, sub: string)
  {
    exists i :: 0 <= i <= |s| - |sub| && OccursAt(s, sub, i)
  }

  /** The unit rule: a `ms` anywhere keeps the value, else an `s` means seconds. */
  function Scale(s: string, v: real): real
  {
    if Contains(s, "ms") then v else if 's' in s then v * 1000.0 else v
  }

  /** `to_ms` after `strip().lower()`. */
  function TextToMs(s: string): Result<Option<real>, LoadError>
  {
    match FirstRun(s)
    case None => Success(None)
    case Some(run) =>
      match DecimalValue(Replace(run, ',', '.'))
      case None => Failure(BadNumber)
      case Some(v) => Success(Some(Scale(s, v)))
  }

  /**
   * `to_ms` (lines 60-75) of one AVG_TIME cell: `None` is NaN, `Failure` is
   * the ValueError of `float`. A numeric cell reaches the regular expression
   * as its text, whose minus sign the pattern skips.
   */
  function ToMs(c: Cell): (r: Result<Option<real>, LoadError>)
    ensures r.Failure? ==> r.error == BadNumber
    ensures c.Num? ==> r == Success(Some(if c.value < 0.0 then -c.value else c.value))
  {
    match c
    case Num(x) => Success(Some(if x < 0.0 then -x else x))
    case Str(t) => TextToMs(Lower(Strip(t)))
  }

  /** A cell reads as NaN exactly when it is text without any digit, dot or comma. */
  lemma ToMsNaN(c: Cell)
    ensures ToMs(c) == Success(None) <==>
      c.Str? && forall i :: 0 <= i < |c.text| ==> !NumChar(c.text[i])
  {
    if c.Str? {
      var t := c.text;
      TextToMsNaN(Lower(Strip(t)));
      StripLeftKeepsNumChars(t);
      StripRightKeepsNumChars(StripLeft(t));
      LowerKeepsNumChars(Strip(t));
    }
  }

  predicate NoNumChar(s: string)
  {
    forall i :: 0 <= i < |s| ==> !NumChar(s[i])
  }

  lemma TextToMsNaN(s: string)
    ensures TextToMs(s) == Success(None) <==> NoNumChar(s)
  {
  }

  lemma StripLeftKeepsNumChars(s: string)
    ensures NoNumChar(StripLeft(s)) <==> NoNumChar(s)
  {
    var r := StripLeft(s);
    var k := |s| - |r|;
    forall i | 0 <= i < k ensures !NumChar(s[i]) {
      assert IsSpace(s[i]);
    }
    assert forall i :: 0 <= i < |r| ==> r[i] == s[k + i];
  }

  lemma StripRightKeepsNumChars(s: string)
    ensures NoNumChar(StripRight(s)) <==> NoNumChar(s)
  {
    var r := StripRight(s);
    forall i | |r| <= i < |s| ensures !NumChar(s[i]) {
      assert IsSpace(s[i]);
    }
    assert forall i :: 0 <= i < |r| ==> r[i] == s[i];
  }

  lemma LowerKeepsNumChars(s: string)
    ensures NoNumChar(Lower(s)) <==> NoNumChar(s)
  {
    var r := Lower(s);
    assert forall i :: 0 <= i < |s| ==> (NumChar(r[i]) <==> NumChar(s[i]));
  }

  lemma ToMsOfCleanText(t: string)
    requires Lower(Strip(t)) == t
    ensures ToMs(Str(t)) == TextToMs(t)
  {
  }

  /** A run of `[0-9.,]` characters that `float` reads as `v` once its commas are dots. */
  predicate Reads(d: string, v: real)
  {
    |d| > 0 && (forall i :: 0 <= i < |d| ==> NumChar(d[i])) && DecimalValue(Replace(d, ',', '.')) == Some(v)
  }

  /** A digit string reads as its value. */
  lemma ReadsInteger(d: string)
    requires |d| > 0 && AllDigits(d)
    ensures Reads(d, DigitsValue(d) as real)
  {
    ReplaceFixed(d);
    DecimalOfDigits(d);
  }

  /** `w.f` and `w,f` both read as the whole part plus the fraction. */
  lemma ReadsDecimal(w: string, sep: char, f: string)
    requires AllDigits(w) && AllDigits(f) && |w| + |f| > 0
    requires sep == '.' || sep == ','
    ensures Reads(w + [sep] + f, DigitsValue(w) as real + FractionValue(f))
  {
    var d := w + [sep] + f;
    assert Replace(d, ',', '.') == w + "." + f;
    DecimalOfParts(w, f);
  }

  lemma ReplaceFixed(d: string)
    requires AllDigits(d)
    ensures Replace(d, ',', '.') == d
  {
  }

  /** The first `[0-9.,]` character of the text starts the run the pattern finds. */
  lemma {:induction false} FirstRunAt(s: string, i: nat)
    requires i < |s| && NumChar(s[i])
    requires forall j :: 0 <= j < i ==> !NumChar(s[j])
    ensures FirstRun(s) == Some(LeadingRun(s[i..]))
  {
    if i > 0 {
      assert !NumChar(s[0]);
      FirstRunAt(s[1..], i - 1);
      assert s[1..][i - 1..] == s[i..];
    }
  }

  /**
   * A number inside text: with no `[0-9.,]` before it and none right after
   * it, the number is what `to_ms` reads, and the unit rule looks at the
   * whole text.
   */
  lemma TextToMsOfRun(pre: string, d: string, suf: string, v: real)
    requires NoNumChar(pre) && Reads(d, v)
    requires suf == [] || !NumChar(suf[0])
    ensures TextToMs(pre + d + suf) == Success(Some(Scale(pre + d + suf, v)))
  {
    RunInText(pre, d, suf);
    TextToMsOfFirstRun(pre + d + suf, d, v);
  }

  lemma RunInText(pre: string, d: string, suf: string)
    requires NoNumChar(pre) && |d| > 0 && (forall i :: 0 <= i < |d| ==> NumChar(d[i]))
    requires suf == [] || !NumChar(suf[0])
    ensures FirstRun(pre + d + suf) == Some(d)
  {
    assert pre + d + suf == pre + (d + suf);
    assert (d + suf)[0] == d[0];
    FirstRunAfter(pre, d + suf);
    LeadingRunStops(d, suf);
  }

  /** Text without `[0-9.,]` in front of a run does not change the run found. */
  lemma {:induction false} FirstRunAfter(pre: string, t: string)
    requires NoNumChar(pre) && t != [] && NumChar(t[0])
    ensures FirstRun(pre + t) == Some(LeadingRun(t))
  {
    if pre == [] {
      assert pre + t == t;
    } else {
      assert (pre + t)[0] == pre[0];
      assert (pre + t)[1..] == pre[1..] + t;
      FirstRunAfter(pre[1..], t);
    }
  }

  lemma TextToMsOfFirstRun(s: string, d: string, v: real)
    requires FirstRun(s) == Some(d) && Reads(d, v)
    ensures TextToMs(s) == Success(Some(Scale(s, v)))
  {
  }

  predicate Spaces(gap: string)
  {
    forall i :: 0 <= i < |gap| ==> gap[i] == ' '
  }

  predicate Letters(unit: string)
  {
    forall i :: 0 <= i < |unit| ==> 'a' <= unit[i] <= 'z'
  }

  /** A number, blanks and a lower-case unit are unchanged by `strip().lower()`. */
  lemma CleanRun(d: string, gap: string, unit: string)
    requires |d| > 0 && (forall i :: 0 <= i < |d| ==> NumChar(d[i]))
    requires Spaces(gap) && Letters(unit) && (unit != [] || gap == [])
    ensures Lower(Strip(d + gap + unit)) == d + gap + unit
  {
    var t := d + gap + unit;
    assert t[0] == d[0];
    assert !IsSpace(t[|t| - 1]) by {
      if unit != [] {
        assert t[|t| - 1] == unit[|unit| - 1];
      } else {
        assert t[|t| - 1] == d[|d| - 1];
      }
    }
    assert NoUpper(t) by {
      forall i | 0 <= i < |t| ensures !('A' <= t[i] <= 'Z') {
        if i < |d| {
          assert t[i] == d[i];
        } else if i < |d| + |gap| {
          assert t[i] == gap[i - |d|];
        } else {
          assert t[i] == unit[i - |d| - |gap|];
        }
      }
    }
    StripFixed(t);
    LowerFixed(t);
  }

  /** Text without an `m` holds no `ms`. */
  lemma NoMillis(s: string)
    requires 'm' !in s
    ensures !Contains(s, "ms")
  {
    forall i | 0 <= i <= |s| - 2
      ensures !OccursAt(s, "ms", i)
    {
      assert s[i..i + 2][0] == s[i];
    }
  }

  lemma NumCharsNoLetters(d: string, gap: string)
    requires (forall i :: 0 <= i < |d| ==> NumChar(d[i])) && Spaces(gap)
    ensures 'm' !in d + gap && 's' !in d + gap
  {
    assert forall i :: 0 <= i < |d + gap| ==> (d + gap)[i] == (if i < |d| then d[i] else gap[i - |d|]);
  }

  /** A bare number is milliseconds. */
  lemma ToMsBare(d: string, v: real)
    requires Reads(d, v)
    ensures ToMs(Str(d)) == Success(Some(v))
  {
    CleanNumber(d);
    FirstRunWhole(d);
    TextToMsOfFirstRun(d, d, v);
    NoLetters(d);
    NoMillis(d);
  }

  lemma CleanNumber(d: string)
    requires |d| > 0 && (forall i :: 0 <= i < |d| ==> NumChar(d[i]))
    ensures Lower(Strip(d)) == d
  {
    assert NoUpper(d);
    StripFixed(d);
    LowerFixed(d);
  }

  lemma FirstRunWhole(d: string)
    requires |d| > 0 && (forall i :: 0 <= i < |d| ==> NumChar(d[i]))
    ensures FirstRun(d) == Some(d)
  {
    assert LeadingRun(d) == d;
  }

  lemma NoLetters(d: string)
    requires forall i :: 0 <= i < |d| ==> NumChar(d[i])
    ensures 'm' !in d && 's' !in d
  {
  }

  /** A number followed by `ms`, with or without blanks between, keeps its value. */
  lemma ToMsMillis(d: string, gap: string, v: real)
    requires Reads(d, v) && Spaces(gap)
    ensures ToMs(Str(d + gap + "ms")) == Success(Some(v))
  {
    var t := d + gap + "ms";
    CleanRun(d, gap, "ms");
    ToMsOfCleanText(t);
    UnitAfterRun(d, gap, "ms", v);
    HasMillis(t, |d| + |gap|);
  }

  /** A number followed by `s`, with or without blanks between, is seconds. */
  lemma ToMsSeconds(d: string, gap: string, v: real)
    requires Reads(d, v) && Spaces(gap)
    ensures ToMs(Str(d + gap + "s")) == Success(Some(v * 1000.0))
  {
    var t := d + gap + "s";
    CleanRun(d, gap, "s");
    ToMsOfCleanText(t);
    UnitAfterRun(d, gap, "s", v);
    NumCharsNoLetters(d, gap);
    assert t == (d + gap) + "s";
    NoMillis(t);
    assert t[|t| - 1] == 's';
  }

  /** A number, blanks, then a unit: the number is what `to_ms` reads. */
  lemma UnitAfterRun(d: string, gap: string, unit: string, v: real)
    requires Reads(d, v) && Spaces(gap) && Letters(unit) && unit != []
    ensures TextToMs(d + gap + unit) == Success(Some(Scale(d + gap + unit, v)))
  {
    var suf := gap + unit;
    assert suf[0] == if gap == [] then unit[0] else gap[0];
    RunInText([], d, suf);
    assert [] + d + suf == d + gap + unit;
    TextToMsOfFirstRun(d + gap + unit, d, v);
  }

  lemma HasMillis(t: string, k: nat)
    requires k + 2 <= |t| && t[k] == 'm' && t[k + 1] == 's'
    ensures Contains(t, "ms")
  {
    assert t[k..k + 2] == "ms";
    assert OccursAt(t, "ms", k);
  }

  /** `10ms`, a form the loader is written to accept, is 10 milliseconds. */
  lemma ToMsExampleMillis()
    ensures ToMs(Str("10ms")) == Success(Some(10.0))
  {
    TenReads();
    var d: string, gap: string := "10", [];
    assert d + gap + "ms" == "10ms";
    ToMsMillis(d, gap, 10.0);
  }

  /** So is `10 ms`, with a blank before the unit. */
  lemma ToMsExampleSpacedMillis()
    ensures ToMs(Str("10 ms")) == Success(Some(10.0))
  {
    TenReads();
    var d: string, gap: string := "10", " ";
    assert d + gap + "ms" == "10 ms";
    ToMsMillis(d, gap, 10.0);
  }

  lemma TenReads()
    ensures Reads("10", 10.0)
  {
    ReadsInteger("10");
    assert DigitsValue("10") == 10;
  }

  /** `0.01s`, a form the loader is written to accept, is 10 milliseconds too. */
  lemma ToMsExampleSeconds()
    ensures ToMs(Str("0.01s")) == Success(Some(10.0))
  {
    HundredthReads('.');
    var d: string, gap: string := "0.01", [];
    assert d + gap + "s" == "0.01s";
    ToMsSeconds(d, gap, 0.01);
  }

  /** So is `0,01s`, with a decimal comma. */
  lemma ToMsExampleCommaSeconds()
    ensures ToMs(Str("0,01s")) == Success(Some(10.0))
  {
    HundredthReads(',');
    var d: string, gap: string := "0,01", [];
    assert d + gap + "s" == "0,01s";
    ToMsSeconds(d, gap, 0.01);
  }

  lemma HundredthReads(sep: char)
    requires sep == '.' || sep == ','
    ensures Reads("0" + [sep] + "01", 0.01)
  {
    assert DigitsValue("0") == 0;
    assert FractionValue("01") == 0.01;
    ReadsDecimal("0", sep, "01");
  }

  /** A bare decimal with a comma, `0,5`, is 0.5 milliseconds. */
  lemma ToMsExampleComma()
    ensures ToMs(Str("0,5")) == Success(Some(0.5))
  {
    assert DigitsValue("0") == 0;
    assert FractionValue("5") == 0.5;
    ReadsDecimal("0", ',', "5");
    assert "0" + [','] + "5" == "0,5";
    ToMsBare("0,5", 0.5);
  }

  predicate NoUpper(s: string)
  {
    forall i :: 0 <= i < |s| ==> !('A' <= s[i] <= 'Z')
  }

  /** The run stops where the `[0-9.,]` characters do. */
  lemma {:induction false} LeadingRunStops(d: string, rest: string)
    requires forall i :: 0 <= i < |d| ==> NumChar(d[i])
    requires rest == [] || !NumChar(rest[0])
    ensures LeadingRun(d + rest) == d
  {
    if d == [] {
      assert d + rest == rest;
    } else {
      assert (d + rest)[0] == d[0];
      assert (d + rest)[1..] == d[1..] + rest;
      LeadingRunStops(d[1..], rest);
    }
  }

  // ---------------------------------------------------------------- conversion

  /** The cells of one column. */
  function ColumnCells(rows: seq<seq<Cell>>, k: nat): (cs: seq<Cell>)
    requires forall row :: row in rows ==> k < |row|
    ensures |cs| == |rows|
    ensures forall i :: 0 <= i < |rows| ==> cs[i] == rows[i][k]
  {
    seq(|rows|, i requires 0 <= i < |rows| => rows[i][k])
  }

  /** `to_ms` of every cell of a column. */
  function Times(cells: seq<Cell>): (ts: seq<Result<Option<real>, LoadError>>)
    ensures |ts| == |cells|
    ensures forall i :: 0 <= i < |cells| ==> ts[i] == ToMs(cells[i])
  {
    seq(|cells|, i requires 0 <= i < |cells| => ToMs(cells[i]))
  }

  /** Pairs each PARAM with its converted time; the first failure fails the whole map. */
  function Collect(params: seq<Cell>, ts: seq<Result<Option<real>, LoadError>>): (r: Result<seq<(Cell, Option<real>)>, LoadError>)
    requires |params| == |ts|
    ensures r.Failure? <==> exists i :: 0 <= i < |ts| && ts[i].Failure?
    ensures r.Failure? ==> exists i :: 0 <= i < |ts| && ts[i] == Failure(r.error)
    ensures r.Success? ==> |r.value| == |ts| && forall i :: 0 <= i < |ts| ==>
      r.value[i].0 == params[i] && ts[i] == Success(r.value[i].1)
  {
    if ts == [] then Success([])
    else
      var n := |ts| - 1;
      assert forall i :: 0 <= i < n ==> ts[..n][i] == ts[i];
      match Collect(params[..n], ts[..n])
      case Failure(e) => Failure(e)
      case Success(front) =>
        match ts[n]
        case Failure(e) => Failure(e)
        case Success(t) => Success(front + [(params[n], t)])
  }

  /**
   * `df["AVG_TIME"].map(to_ms)` paired with each row's PARAM cell; one
   * `float` failure makes the whole map raise.
   */
  function Convert(rows: seq<seq<Cell>>, pc: nat, ac: nat): (r: Result<seq<(Cell, Option<real>)>, LoadError>)
    requires forall row :: row in rows ==> pc < |row| && ac < |row|
    ensures r.Failure? <==> exists i :: 0 <= i < |rows| && ToMs(rows[i][ac]).Failure?
    ensures r.Failure? ==> r.error == BadNumber
    ensures r.Success? ==> |r.value| == |rows| && forall i :: 0 <= i < |rows| ==>
      r.value[i].0 == rows[i][pc] && ToMs(rows[i][ac]) == Success(r.value[i].1)
  {
    var ts := Times(ColumnCells(rows, ac));
    Collect(ColumnCells(rows, pc), ts)
  }

  // ---------------------------------------------------------------- grouping

  /** The distinct values of `xs` in order of first occurrence. */
  function Dedup(xs: seq<Cell>): (d: seq<Cell>)
    ensures Distinct(d)
    ensures forall x :: x in d <==> x in xs
  {
    if xs == [] then []
    else
      var front := Dedup(xs[..|xs| - 1]);
      assert forall x :: x in xs[..|xs| - 1] ==> x in xs;
      assert xs == xs[..|xs| - 1] + [xs[|xs| - 1]];
      if xs[|xs| - 1] in front then front else front + [xs[|xs| - 1]]
  }

  function Params(samples: seq<(Cell, Option<real>)>): (ps: seq<Cell>)
    ensures |ps| == |samples|
  {
    seq(|samples|, i requires 0 <= i < |samples| => samples[i].0)
  }

  /** The non-NaN AVG_TIME values of the rows whose PARAM is `key`, in row order. */
  function ValuesOf(samples: seq<(Cell, Option<real>)>, key: Cell): seq<real>
  {
    if samples == [] then []
    else
      var n := |samples| - 1;
      ValuesOf(samples[..n], key)
        + (if samples[n].0 == key && samples[n].1.Some? then [samples[n].1.value] else [])
  }

  function SumSquares(xs: seq<real>, m: real): real
  {
    if xs == [] then 0.0 else SumSquares(xs[..|xs| - 1], m) + (xs[|xs| - 1] - m) * (xs[|xs| - 1] - m)
  }

  /** The sample variance (the square of pandas' `std`), replaced by 0 below two values. */
  function Variance(xs: seq<real>): (v: real)
    ensures v >= 0.0
  {
    if |xs| < 2 then 0.0
    else
      var m := Sum(xs) / |xs| as real;
      SumSquaresNonNegative(xs, m);
      SumSquares(xs, m) / (|xs| - 1) as real
  }

  lemma {:induction false} SumSquaresNonNegative(xs: seq<real>, m: real)
    ensures SumSquares(xs, m) >= 0.0
  {
    if xs != [] {
      SumSquaresNonNegative(xs[..|xs| - 1], m);
      var e := xs[|xs| - 1] - m;
      if e < 0.0 {
        assert e * e == (-e) * (-e);
      }
    }
  }

  /**
   * One grouped line: the PARAM label, PARAM_NUM, pandas' `mean` (NaN
   * values skipped, NaN when none is left) and the square of `std`.
   */
  function MakeGroup(param: Cell, values: seq<real>): Group
  {
    Group(param, ParamNumber(param), Mean(values), Variance(values))
  }

  /** `groupby("PARAM")["AVG_TIME"].agg(["mean", "std"])`, one group per distinct PARAM value. */
  function GroupBy(samples: seq<(Cell, Option<real>)>): (gs: seq<Group>)
    ensures DistinctParams(gs)
    ensures forall p :: (exists i :: 0 <= i < |gs| && gs[i].param == p) <==> p in Params(samples)
    ensures forall i :: 0 <= i < |gs| ==> gs[i] == MakeGroup(gs[i].param, ValuesOf(samples, gs[i].param))
  {
    var keys := Dedup(Params(samples));
    var gs := seq(|keys|, i requires 0 <= i < |keys| => MakeGroup(keys[i], ValuesOf(samples, keys[i])));
    forall p | p in keys
      ensures exists i :: 0 <= i < |gs| && gs[i].param == p
    {
      var k :| 0 <= k < |keys| && keys[k] == p;
      assert gs[k].param == p;
    }
    gs
  }

  function PresentCount(samples: seq<(Cell, Option<real>)>): nat
  {
    if samples == [] then 0
    else PresentCount(samples[..|samples| - 1]) + (if samples[|samples| - 1].1.Some? then 1 else 0)
  }

  function GroupSizes(gs: seq<Group>, samples: seq<(Cell, Option<real>)>): nat
  {
    if gs == [] then 0 else GroupSizes(gs[..|gs| - 1], samples) + |ValuesOf(samples, gs[|gs| - 1].param)|
  }

  /** The groups partition the measured values: each non-NaN AVG_TIME lands in exactly one group. */
  lemma GroupsPartition(samples: seq<(Cell, Option<real>)>)
    ensures GroupSizes(GroupBy(samples), samples) == PresentCount(samples)
  {
    var gs := GroupBy(samples);
    KeysPartition(gs, samples);
  }

  lemma {:induction false} KeysPartition(gs: seq<Group>, samples: seq<(Cell, Option<real>)>)
    requires DistinctParams(gs)
    requires forall p :: p in Params(samples) ==> exists i :: 0 <= i < |gs| && gs[i].param == p
    ensures GroupSizes(gs, samples) == PresentCount(samples)
    decreases |samples|
  {
    if samples == [] {
      NoSamples(gs);
    } else {
      var n := |samples| - 1;
      var front := samples[..n];
      forall p | p in Params(front)
        ensures exists i :: 0 <= i < |gs| && gs[i].param == p
      {
        var k :| 0 <= k < n && Params(front)[k] == p;
        assert Params(samples)[k] == p;
        assert p in Params(samples);
      }
      KeysPartition(gs, front);
      assert Params(samples)[n] == samples[n].0;
      assert samples[n].0 in Params(samples);
      var i :| 0 <= i < |gs| && gs[i].param == samples[n].0;
      SizesStep(gs, samples, i);
      assert samples[..|samples| - 1] == front;
    }
  }

  lemma {:induction false} NoSamples(gs: seq<Group>)
    ensures GroupSizes(gs, []) == 0
  {
    if gs != [] {
      NoSamples(gs[..|gs| - 1]);
    }
  }

  /** Adding the last sample grows only the group of its PARAM, by one if its value is present. */
  lemma {:induction false} SizesStep(gs: seq<Group>, samples: seq<(Cell, Option<real>)>, at: nat)
    requires samples != []
    requires DistinctParams(gs)
    requires at < |gs| && gs[at].param == samples[|samples| - 1].0
    ensures GroupSizes(gs, samples)
         == GroupSizes(gs, samples[..|samples| - 1]) + (if samples[|samples| - 1].1.Some? then 1 else 0)
    decreases |gs|
  {
    var m := |gs| - 1;
    if at < m {
      SizesStep(gs[..m], samples, at);
    } else {
      GroupSizesUntouched(gs[..m], samples);
    }
  }

  /** Groups whose PARAM differs from the last sample's do not see it. */
  lemma {:induction false} GroupSizesUntouched(gs: seq<Group>, samples: seq<(Cell, Option<real>)>)
    requires samples != []
    requires forall i :: 0 <= i < |gs| ==> gs[i].param != samples[|samples| - 1].0
    ensures GroupSizes(gs, samples) == GroupSizes(gs, samples[..|samples| - 1])
  {
    if gs != [] {
      GroupSizesUntouched(gs[..|gs| - 1], samples);
    }
  }

  // ---------------------------------------------------------------- ordering

  /** At most one line per PARAM value. */
  predicate DistinctParams(gs: seq<Group>)
  {
    forall i, j :: 0 <= i < j < |gs| ==> gs[i].param != gs[j].param
  }

  /** `pd.to_numeric(PARAM, errors="coerce")`: `None` where the label is not numeric. */
  function ParamNumber(c: Cell): Option<real>
  {
    match c
    case Num(x) => Some(x)
    case Str(t) => ParseNumber(t)
  }

  /** PARAM_NUM ascending with NaN last. */
  predicate KeyLt(a: Option<real>, b: Option<real>)
  {
    a.Some? && (b.None? || a.value < b.value)
  }

  /** The PARAM tie-break: numbers in numeric order, text in string order. */
  predicate LabelLe(a: Cell, b: Cell)
  {
    match a
    case Num(x) => b.Num? ==> x <= b.value
    case Str(s) => b.Str? && LexLe(s, b.text)
  }

  /** `sort_values(by=["PARAM_NUM", "PARAM"], na_position="last")`. */
  predicate Before(g: Group, h: Group)
  {
    KeyLt(g.key, h.key) || (g.key == h.key && LabelLe(g.param, h.param))
  }

  lemma BeforeTotal(g: Group, h: Group)
    ensures Before(g, h) || Before(h, g)
  {
    if g.param.Str? && h.param.Str? {
      LexLeTotal(g.param.text, h.param.text);
    }
  }

  lemma BeforeTransitive(f: Group, g: Group, h: Group)
    requires Before(f, g) && Before(g, h)
    ensures Before(f, h)
  {
    if f.param.Str? && g.param.Str? && h.param.Str? && LexLe(f.param.text, g.param.text) && LexLe(g.param.text, h.param.text) {
      LexLeTransitive(f.param.text, g.param.text, h.param.text);
    }
  }

  predicate SortedGroups(gs: seq<Group>)
  {
    forall i, j :: 0 <= i < j < |gs| ==> Before(gs[i], gs[j])
  }

  function Insert(g: Group, gs: seq<Group>): (r: seq<Group>)
    requires SortedGroups(gs)
    ensures SortedGroups(r)
    ensures multiset(r) == multiset(gs) + multiset{g}
  {
    if gs == [] then [g]
    else if Before(g, gs[0]) then
      InsertAtFront(g, gs);
      [g] + gs
    else
      var rest := Insert(g, gs[1..]);
      InsertBehind(g, gs, rest);
      [gs[0]] + rest
  }

  lemma InsertAtFront(g: Group, gs: seq<Group>)
    requires gs != [] && SortedGroups(gs) && Before(g, gs[0])
    ensures SortedGroups([g] + gs)
  {
    var r := [g] + gs;
    forall i, j | 0 <= i < j < |r|
      ensures Before(r[i], r[j])
    {
      if i == 0 && j > 1 {
        BeforeTransitive(g, gs[0], gs[j - 1]);
      }
    }
  }

  lemma InsertBehind(g: Group, gs: seq<Group>, rest: seq<Group>)
    requires gs != [] && SortedGroups(gs) && !Before(g, gs[0])
    requires SortedGroups(rest) && multiset(rest) == multiset(gs[1..]) + multiset{g}
    ensures SortedGroups([gs[0]] + rest)
    ensures multiset([gs[0]] + rest) == multiset(gs) + multiset{g}
  {
    BeforeTotal(g, gs[0]);
    assert gs == [gs[0]] + gs[1..];
    var r := [gs[0]] + rest;
    forall i, j | 0 <= i < j < |r|
      ensures Before(r[i], r[j])
    {
      if i == 0 {
        var x := rest[j - 1];
        assert x in multiset(rest);
        if x != g {
          assert x in multiset(gs[1..]);
          var k :| 0 <= k < |gs[1..]| && gs[1..][k] == x;
          assert gs[k + 1] == x;
        }
      }
    }
  }

  /** `sort_values` over the grouped lines. */
  function SortGroups(gs: seq<Group>): (r: seq<Group>)
    ensures SortedGroups(r)
    ensures multiset(r) == multiset(gs)
  {
    if gs == [] then []
    else
      assert gs == [gs[0]] + gs[1..];
      Insert(gs[0], SortGroups(gs[1..]))
  }

  /** Sorting keeps one group per PARAM value. */
  lemma {:induction false} SortKeepsDistinct(gs: seq<Group>)
    requires DistinctParams(gs)
    ensures DistinctParams(SortGroups(gs))
  {
    if gs != [] {
      var rest := gs[1..];
      assert DistinctParams(rest) by {
        forall i, j | 0 <= i < j < |rest|
          ensures rest[i].param != rest[j].param
        {
          assert rest[i] == gs[i + 1] && rest[j] == gs[j + 1];
        }
      }
      SortKeepsDistinct(rest);
      var sorted := SortGroups(rest);
      forall h | h in sorted
        ensures h.param != gs[0].param
      {
        assert h in multiset(sorted);
        assert h in rest;
        var k :| 0 <= k < |rest| && rest[k] == h;
        assert gs[k + 1] == h;
      }
      InsertKeepsDistinct(gs[0], sorted);
    }
  }

  lemma {:induction false} InsertKeepsDistinct(g: Group, gs: seq<Group>)
    requires SortedGroups(gs)
    requires DistinctParams(gs)
    requires forall h :: h in gs ==> h.param != g.param
    ensures DistinctParams(Insert(g, gs))
  {
    if gs != [] && !Before(g, gs[0]) {
      var rest := gs[1..];
      assert forall h :: h in rest ==> h in gs;
      assert DistinctParams(rest) by {
        forall i, j | 0 <= i < j < |rest|
          ensures rest[i].param != rest[j].param
        {
          assert rest[i] == gs[i + 1] && rest[j] == gs[j + 1];
        }
      }
      InsertKeepsDistinct(g, rest);
      var r := Insert(g, rest);
      forall x | x in r
        ensures x.param != gs[0].param
      {
        assert x in multiset(r);
      }
    }
  }

  /** Sorted lines put numeric PARAMs first, in ascending numeric order. */
  lemma SortedMeaning(gs: seq<Group>, i: nat, j: nat)
    requires SortedGroups(gs) && i < j < |gs|
    ensures gs[j].key.Some? ==> gs[i].key.Some? && gs[i].key.value <= gs[j].key.value
  {
    assert Before(gs[i], gs[j]);
  }

  // ---------------------------------------------------------------- pipeline

  /** The rows that survive the FAILED filter (all rows when there is no FAILED column). */
  function Survivors(t: Table): (rows: seq<seq<Cell>>)
    requires forall r :: r in t.rows ==> |r| == |t.columns|
    ensures forall r :: r in rows ==> r in t.rows
  {
    match Find(t.columns, FailedColumn)
    case None => t.rows
    case Some(fc) => FilterMembers(t.rows, r => Succeeded(r, fc)); KeepSucceeded(t.rows, fc)
  }

  /** A surviving row whose AVG_TIME text `float` refuses. */
  predicate BadSurvivor(t: Table)
    requires forall r :: r in t.rows ==> |r| == |t.columns|
    requires AvgColumn in t.columns
  {
    var kept, ac := Survivors(t), Find(t.columns, AvgColumn).value;
    exists i :: 0 <= i < |kept| && ToMs(kept[i][ac]).Failure?
  }

  /**
   * Lines 46-77: PARAM and AVG_TIME must be present, FAILED rows go, and every
   * surviving AVG_TIME is converted, paired with its PARAM.
   */
  function Select(t: Table): (r: Result<seq<(Cell, Option<real>)>, LoadError>)
    requires forall r :: r in t.rows ==> |r| == |t.columns|
    ensures r.Failure? <==> ParamColumn !in t.columns || AvgColumn !in t.columns || BadSurvivor(t)
    ensures r.Failure? ==> r.error == (if ParamColumn !in t.columns || AvgColumn !in t.columns then MissingColumns else BadNumber)
    ensures r.Success? ==> ParamColumn in t.columns && AvgColumn in t.columns
    ensures r.Success? ==>
      var kept, pc, ac := Survivors(t), Find(t.columns, ParamColumn).value, Find(t.columns, AvgColumn).value;
      && |r.value| == |kept|
      && forall i :: 0 <= i < |kept| ==> r.value[i].0 == kept[i][pc] && ToMs(kept[i][ac]) == Success(r.value[i].1)
  {
    if ParamColumn !in t.columns || AvgColumn !in t.columns then Failure(MissingColumns)
    else
      var kept := Survivors(t);
      Convert(kept, Find(t.columns, ParamColumn).value, Find(t.columns, AvgColumn).value)
  }

  /** `load_and_prepare` on the rows the reader produced, all of `width` cells. */
  function Load(frame: seq<seq<Cell>>, width: nat): Result<seq<Group>, LoadError>
    requires Rectangular(frame, width)
  {
    match Prepare(frame, width)
    case Failure(e) => Failure(e)
    case Success(t) =>
      match Select(t)
      case Failure(e) => Failure(e)
      case Success(samples) => Success(SortGroups(GroupBy(samples)))
  }

  /** Each error of `load_and_prepare` has exactly its cause. */
  lemma LoadErrors(frame: seq<seq<Cell>>, width: nat)
    requires Rectangular(frame, width)
    ensures Load(frame, width) == Failure(EmptyData) <==> frame == []
    ensures Load(frame, width) == Failure(LengthMismatch) <==> frame != [] && !HasHeader(frame[0]) && width < 2
    ensures Load(frame, width) == Failure(MissingColumns) <==>
      Prepare(frame, width).Success? &&
      (ParamColumn !in Prepare(frame, width).value.columns || AvgColumn !in Prepare(frame, width).value.columns)
    ensures Load(frame, width) == Failure(BadNumber) <==>
      Prepare(frame, width).Success? &&
      ParamColumn in Prepare(frame, width).value.columns && AvgColumn in Prepare(frame, width).value.columns &&
      BadSurvivor(Prepare(frame, width).value)
  {
  }

  /**
   * A loaded table holds one line per PARAM value, numeric PARAMs first in
   * ascending order, each line carrying its own PARAM_NUM.
   */
  lemma LoadedGroups(frame: seq<seq<Cell>>, width: nat)
    requires Rectangular(frame, width) && Load(frame, width).Success?
    ensures var gs := Load(frame, width).value;
      && SortedGroups(gs)
      && DistinctParams(gs)
      && (forall i :: 0 <= i < |gs| ==> gs[i].key == ParamNumber(gs[i].param))
  {
    var samples := Select(Prepare(frame, width).value).value;
    assert Load(frame, width).value == SortGroups(GroupBy(samples));
    SortedGroupsFacts(samples);
  }

  lemma SortedGroupsFacts(samples: seq<(Cell, Option<real>)>)
    ensures var gs := SortGroups(GroupBy(samples));
      && SortedGroups(gs)
      && DistinctParams(gs)
      && (forall i :: 0 <= i < |gs| ==> gs[i].key == ParamNumber(gs[i].param))
  {
    var grouped := GroupBy(samples);
    SortKeepsDistinct(grouped);
    var gs := SortGroups(grouped);
    forall i | 0 <= i < |gs|
      ensures gs[i].key == ParamNumber(gs[i].param)
    {
      assert gs[i] in multiset(grouped);
    }
  }

  /** The header the benchmark drivers write. */
  const CanonicalHeader: seq<Cell> := [Str("PARAM"), Str("AVG_TIME"), Str("RUN"), Str("FAILED")]

  lemma CanonicalHeaderIsHeader()
    ensures HasHeader(CanonicalHeader)
  {
    assert Remove(Remove("PARAM", '.'), '-')[0] == 'P';
    assert HeaderLike(CanonicalHeader[0]);
  }

  /** A text-only header row names its columns as its raw labels would, once normalised. */
  lemma NormalizeHeaderNames(row: seq<Cell>)
    requires forall j :: 0 <= j < |row| ==> row[j].Str?
    ensures Normalize(HeaderNames(row)) == Normalize(seq(|row|, j requires 0 <= j < |row| => Named(row[j].text)))
  {
    var raw := seq(|row|, j requires 0 <= j < |row| => Named(row[j].text));
    forall j | 0 <= j < |row|
      ensures Normalize(HeaderNames(row))[j] == Normalize(raw)[j]
    {
      CleanIdempotent(row[j].text);
    }
  }

  lemma CanonicalHeaderNames()
    ensures Normalize(HeaderNames(CanonicalHeader)) == Normalize(DefaultNames(4))
  {
    HeaderNamesClean(CanonicalHeader);
    DefaultNamesClean(4);
    forall j | 0 <= j < 4
      ensures HeaderNames(CanonicalHeader)[j] == DefaultNames(4)[j]
    {
      FixedNameClean(CanonicalHeader[j].text);
    }
  }

  /**
   * A four-column table without a header loads exactly like the same rows
   * under the drivers' header line.
   */
  lemma HeaderOptional(frame: seq<seq<Cell>>)
    requires frame != [] && Rectangular(frame, 4) && !HasHeader(frame[0])
    ensures Rectangular([CanonicalHeader] + frame, 4)
    ensures Load([CanonicalHeader] + frame, 4) == Load(frame, 4)
  {
    PrepareUnderHeader(frame);
  }

  lemma PrepareUnderHeader(frame: seq<seq<Cell>>)
    requires frame != [] && Rectangular(frame, 4) && !HasHeader(frame[0])
    ensures Rectangular([CanonicalHeader] + frame, 4)
    ensures Prepare([CanonicalHeader] + frame, 4) == Prepare(frame, 4)
  {
    var withHeader := [CanonicalHeader] + frame;
    CanonicalHeaderIsHeader();
    CanonicalHeaderNames();
    assert withHeader[0] == CanonicalHeader;
    assert withHeader[1..] == frame;
  }
}
