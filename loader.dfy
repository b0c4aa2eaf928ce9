/** Reading the quoted CSV: every line is trimmed, its first and last characters (the
    quotes) are dropped and the rest is split on commas into trimmed fields. The first
    line is the header; blank data lines are skipped. The rows are then made into
    records, coercing the numeric columns. */
module Loader {
  import opened Table

  /** The characters Python's `str.strip()` removes (those for which `str.isspace()` holds). */
  predicate IsSpace(c: char)
  {
    ('\t' <= c <= '\r') || ('\U{1C}' <= c <= '\U{1F}') || c == ' ' || c == '\U{85}' || c == '\U{A0}'
    || c == '\U{1680}' || ('\U{2000}' <= c <= '\U{200A}') || c == '\U{2028}' || c == '\U{2029}'
    || c == '\U{202F}' || c == '\U{205F}' || c == '\U{3000}'
  }

  predicate AllSpace(s: string)
  {
    forall c :: c in s ==> IsSpace(c)
  }

  /** Neither begins nor ends with white space. */
  predicate IsStripped(s: string)
  {
    |s| == 0 || (!IsSpace(s[0]) && !IsSpace(s[|s| - 1]))
  }

  function TrimLeft(s: string): (r: string)
    ensures |r| <= |s| && r == s[|s| - |r|..]
    ensures |r| == 0 || !IsSpace(r[0])
  {
    if |s| > 0 && IsSpace(s[0]) then TrimLeft(s[1..]) else s
  }

  function TrimRight(s: string): (r: string)
    ensures |r| <= |s| && r == s[..|r|]
    ensures |r| == 0 || !IsSpace(r[|r| - 1])
  {
    if |s| > 0 && IsSpace(s[|s| - 1]) then TrimRight(s[..|s| - 1]) else s
  }

  /** What TrimLeft removes is white space. */
  lemma {:induction false} TrimLeftRemovesSpace(s: string)
    ensures AllSpace(s[..|s| - |TrimLeft(s)|])
    decreases |s|
  {
    if |s| > 0 && IsSpace(s[0]) {
      TrimLeftRemovesSpace(s[1..]);
      var n := |s| - |TrimLeft(s)|;
      assert s[..n] == [s[0]] + s[1..][..n - 1];
    }
  }

  /** What TrimRight removes is white space. */
  lemma {:induction false} TrimRightRemovesSpace(s: string)
    ensures AllSpace(s[|TrimRight(s)|..])
    decreases |s|
  {
    if |s| > 0 && IsSpace(s[|s| - 1]) {
      TrimRightRemovesSpace(s[..|s| - 1]);
      var n := |TrimRight(s)|;
      assert s[n..] == s[..|s| - 1][n..] + [s[|s| - 1]];
    }
  }

  /** How many white-space characters Strip removes from the front. */
  function Lead(s: string): nat
  {
    |s| - |TrimLeft(s)|
  }

  /** `str.strip()`: the text between the leading and the trailing run of white space. */
  function Strip(s: string): (r: string)
    ensures IsStripped(r) && |r| <= |s|
  {
    var t := TrimLeft(s);
    var r := TrimRight(t);
    assert |r| > 0 ==> r[0] == t[0];
    r
  }

  /** The stripped text is the input without a leading and a trailing run of white space. */
  lemma StripShape(s: string)
    ensures Lead(s) + |Strip(s)| <= |s| && Strip(s) == s[Lead(s)..Lead(s) + |Strip(s)|]
    ensures AllSpace(s[..Lead(s)]) && AllSpace(s[Lead(s) + |Strip(s)|..])
  {
    var t := TrimLeft(s);
    TrimLeftRemovesSpace(s);
    TrimRightRemovesSpace(t);
    MiddleOf(s, t, TrimRight(t));
  }

  /** A prefix `r` of a suffix `t` of `s`, with white space before `t` and after `r`. */
  lemma MiddleOf(s: string, t: string, r: string)
    requires |t| <= |s| && t == s[|s| - |t|..] && AllSpace(s[..|s| - |t|])
    requires |r| <= |t| && r == t[..|r|] && AllSpace(t[|r|..])
    ensures var n := |s| - |t|;
            n + |r| <= |s| && r == s[n..n + |r|] && AllSpace(s[..n]) && AllSpace(s[n + |r|..])
  {
    var n := |s| - |t|;
    assert t[|r|..] == s[n + |r|..];
  }

  lemma {:induction false} TrimLeftSkips(lead: string, rest: string)
    requires AllSpace(lead)
    requires |rest| == 0 || !IsSpace(rest[0])
    ensures TrimLeft(lead + rest) == rest
    decreases |lead|
  {
    if |lead| == 0 {
      assert lead + rest == rest;
    } else {
      assert (lead + rest)[1..] == lead[1..] + rest;
      TrimLeftSkips(lead[1..], rest);
    }
  }

  lemma {:induction false} TrimRightSkips(rest: string, trail: string)
    requires AllSpace(trail)
    requires |rest| == 0 || !IsSpace(rest[|rest| - 1])
    ensures TrimRight(rest + trail) == rest
    decreases |trail|
  {
    if |trail| == 0 {
      assert rest + trail == rest;
    } else {
      assert (rest + trail)[..|rest + trail| - 1] == rest + trail[..|trail| - 1];
      TrimRightSkips(rest, trail[..|trail| - 1]);
    }
  }

  /** Strip is determined by its postcondition: whatever a string is padded with on
      either side, as long as it is white space, Strip returns the stripped middle. */
  lemma StripUnique(lead: string, m: string, trail: string)
    requires AllSpace(lead) && AllSpace(trail) && IsStripped(m)
    ensures Strip(lead + m + trail) == m
  {
    if |m| == 0 {
      assert lead + m + trail == (lead + trail) + [];
      TrimLeftSkips(lead + trail, []);
    } else {
      assert lead + m + trail == lead + (m + trail);
      TrimLeftSkips(lead, m + trail);
      TrimRightSkips(m, trail);
    }
  }

  /** Stripping twice is stripping once (the header's `columns.str.strip()` is a no-op). */
  lemma StripIdempotent(s: string)
    ensures Strip(Strip(s)) == Strip(s)
  {
    StrippedIsFixed(Strip(s));
  }

  lemma StripKeepsCharacters(s: string, c: char)
    requires c !in s
    ensures c !in Strip(s)
  {
    var r := Strip(s);
    StripShape(s);
    forall k | 0 <= k < |r| ensures r[k] != c {
      assert r[k] == s[Lead(s) + k];
    }
  }

  /** `s[1:-1]`: the line without its first and last characters. */
  function DropOuter(s: string): (r: string)
    ensures |s| >= 2 ==> s == [s[0]] + r + [s[|s| - 1]]
    ensures |s| < 2 ==> |r| == 0
  {
    if |s| < 2 then [] else s[1..|s| - 1]
  }

  function CountComma(s: string): nat
  {
    if |s| == 0 then 0 else (if s[0] == ',' then 1 else 0) + CountComma(s[1..])
  }

  /** `str.split(",")`: never empty; the empty string gives one empty field. */
  function Split(s: string): (fields: seq<string>)
    ensures |fields| >= 1
  {
    if |s| == 0 then [""]
    else
      var rest := Split(s[1..]);
      if s[0] == ',' then [""] + rest else [[s[0]] + rest[0]] + rest[1..]
  }

  /** `",".join(fields)`, the inverse of Split. */
  function Join(fields: seq<string>): string
  {
    if |fields| == 0 then ""
    else if |fields| == 1 then fields[0]
    else fields[0] + "," + Join(fields[1..])
  }

  /** The fields `split(",")` gives: one more than the commas, none holding a comma, and
      joined with commas they are the text again. */
  lemma SplitShape(s: string)
    ensures |Split(s)| == CountComma(s) + 1
    ensures forall i :: 0 <= i < |Split(s)| ==> ',' !in Split(s)[i]
    ensures Join(Split(s)) == s
  {
    SplitCount(s);
    SplitNoComma(s);
    JoinSplit(s);
  }

  // How Split treats a first character: a comma opens a new field, any other character
  // joins the first field.
  lemma SplitComma(s: string)
    ensures Split([','] + s) == [""] + Split(s)
  {
    assert ([','] + s)[1..] == s;
  }

  lemma SplitOther(c: char, s: string)
    requires c != ','
    ensures Split([c] + s) == [[c] + Split(s)[0]] + Split(s)[1..]
  {
    assert ([c] + s)[1..] == s;
  }

  lemma {:induction false} SplitCount(s: string)
    ensures |Split(s)| == CountComma(s) + 1
    decreases |s|
  {
    if |s| > 0 {
      SplitCount(s[1..]);
    }
  }

  lemma {:induction false} SplitNoComma(s: string)
    ensures forall i :: 0 <= i < |Split(s)| ==> ',' !in Split(s)[i]
    decreases |s|
  {
    if |s| > 0 && s[0] != ',' {
      SplitNoComma(s[1..]);
      var rest := Split(s[1..]);
      var fields := Split(s);
      forall i | 0 <= i < |fields| ensures ',' !in fields[i] {
        if i > 0 {
          assert fields[i] == rest[i];
        }
      }
    } else if |s| > 0 {
      SplitNoComma(s[1..]);
      assert Split(s)[1..] == Split(s[1..]);
    }
  }

  /** Putting a character that is not a comma in front of the first field. */
  lemma JoinOther(c: char, fields: seq<string>)
    requires |fields| >= 1
    ensures Join([[c] + fields[0]] + fields[1..]) == [c] + Join(fields)
  {
    var first, rest := fields[0], fields[1..];
    var moved := [[c] + first] + rest;
    assert moved[0] == [c] + first;
    if |rest| == 0 {
      assert |moved| == 1;
    } else {
      assert moved[1..] == rest;
      var tail := "," + Join(rest);
      assert Join(moved) == ([c] + first) + tail;
      assert Join(fields) == first + tail;
      AppendAssoc([c], first, tail);
    }
  }

  /** Concatenation regrouped, proved on its own to keep JoinOther's proof small. */
  lemma AppendAssoc(x: string, y: string, z: string)
    ensures (x + y) + z == x + (y + z)
  {
  }

  lemma JoinComma(fields: seq<string>)
    requires |fields| >= 1
    ensures Join([""] + fields) == [','] + Join(fields)
  {
    var moved := [""] + fields;
    assert moved[0] == "" && moved[1..] == fields;
    assert Join(moved) == "" + "," + Join(fields);
    assert "" + "," == [','];
  }

  lemma {:induction false} JoinSplit(s: string)
    ensures Join(Split(s)) == s
    decreases |s|
  {
    if |s| > 0 {
      JoinSplit(s[1..]);
      assert s == [s[0]] + s[1..];
      if s[0] == ',' {
        JoinComma(Split(s[1..]));
      } else {
        JoinOther(s[0], Split(s[1..]));
      }
    }
  }

  /** Split recovers the fields Join put together, when no field holds a comma. */
  lemma {:induction false} SplitJoin(fields: seq<string>)
    requires |fields| >= 1
    requires forall i :: 0 <= i < |fields| ==> ',' !in fields[i]
    ensures Split(Join(fields)) == fields
    decreases |fields|, |fields[0]|
  {
    var f := fields[0];
    if |f| == 0 {
      if |fields| > 1 {
        JoinComma(fields[1..]);
        assert fields == [""] + fields[1..];
        SplitJoin(fields[1..]);
        SplitComma(Join(fields[1..]));
      }
    } else {
      var shorter := [f[1..]] + fields[1..];
      assert shorter[1..] == fields[1..];
      forall i | 0 <= i < |shorter| ensures ',' !in shorter[i] {
        if i == 0 {
          assert forall k :: 0 <= k < |f[1..]| ==> f[1..][k] == f[k + 1];
        } else {
          assert shorter[i] == fields[i];
        }
      }
      SplitJoin(shorter);
      assert [f[0]] + f[1..] == f;
      assert [[f[0]] + shorter[0]] + shorter[1..] == fields;
      JoinOther(f[0], shorter);
      assert f[0] == fields[0][0];
      SplitOther(f[0], Join(shorter));
    }
  }

  /** One quoted line cut into its trimmed fields. */
  function SplitRecordLine(line: string): (fields: seq<string>)
  {
    StripAll(Split(DropOuter(Strip(line))))
  }

  /** Every text stripped: the fields of a line, and the column names (`columns.str.strip()`). */
  function StripAll(names: seq<string>): (r: seq<string>)
    ensures |r| == |names| && forall i :: 0 <= i < |names| ==> r[i] == Strip(names[i])
  {
    seq(|names|, i requires 0 <= i < |names| => Strip(names[i]))
  }

  lemma StripAllCommaFree(pieces: seq<string>)
    requires forall i :: 0 <= i < |pieces| ==> ',' !in pieces[i]
    ensures forall i :: 0 <= i < |pieces| ==> ',' !in StripAll(pieces)[i]
  {
    forall i | 0 <= i < |pieces| ensures ',' !in StripAll(pieces)[i] {
      StripKeepsCharacters(pieces[i], ',');
    }
  }

  /** The fields of a line: one more than the commas between its outer characters, each
      the trimmed text between two commas, none holding a comma or surrounding space. */
  lemma RecordLineFields(line: string)
    ensures var inner := DropOuter(Strip(line));
            && |SplitRecordLine(line)| == CountComma(inner) + 1
            && Join(Split(inner)) == inner
            && (forall i :: 0 <= i < |Split(inner)| ==> SplitRecordLine(line)[i] == Strip(Split(inner)[i]))
            && (forall i :: 0 <= i < |SplitRecordLine(line)| ==>
                  IsStripped(SplitRecordLine(line)[i]) && ',' !in SplitRecordLine(line)[i])
  {
    SplitFields(DropOuter(Strip(line)));
  }

  lemma SplitFields(inner: string)
    ensures var fields := StripAll(Split(inner));
            && |fields| == CountComma(inner) + 1
            && Join(Split(inner)) == inner
            && forall i :: 0 <= i < |fields| ==> IsStripped(fields[i]) && ',' !in fields[i]
  {
    SplitShape(inner);
    StripAllCommaFree(Split(inner));
  }

  predicate IsBlank(line: string)
  {
    |Strip(line)| == 0
  }

  /** The rows one line contributes: none if it is blank, its fields otherwise. */
  function LineRows(line: string): seq<seq<string>>
  {
    if IsBlank(line) then [] else [SplitRecordLine(line)]
  }

  /** The rows the loop over the data lines collects. */
  function DataRows(lines: seq<string>): seq<seq<string>>
  {
    ConcatMap(lines, LineRows)
  }

  function ConcatMap<T>(lines: seq<string>, f: string -> seq<T>): seq<T>
  {
    if |lines| == 0 then [] else f(lines[0]) + ConcatMap(lines[1..], f)
  }

  function CountNonBlank(lines: seq<string>): nat
  {
    if |lines| == 0 then 0 else (if IsBlank(lines[0]) then 0 else 1) + CountNonBlank(lines[1..])
  }

  /** Line order is row order: the rows of two runs of lines are the rows of each, in turn. */
  lemma {:induction false} DataRowsAppend(a: seq<string>, b: seq<string>)
    ensures DataRows(a + b) == DataRows(a) + DataRows(b)
  {
    ConcatMapAppend(a, b, LineRows);
  }

  lemma {:induction false} ConcatMapAppend<T>(a: seq<string>, b: seq<string>, f: string -> seq<T>)
    ensures ConcatMap(a + b, f) == ConcatMap(a, f) + ConcatMap(b, f)
    decreases |a|
  {
    if |a| == 0 {
      assert a + b == b;
    } else {
      var ab := a + b;
      assert ab[0] == a[0];
      assert ab[1..] == a[1..] + b;
      ConcatMapAppend(a[1..], b, f);
    }
  }

  /** Each non-blank line gives exactly one row, a blank line none. */
  lemma {:induction false} DataRowsCount(lines: seq<string>)
    ensures |DataRows(lines)| == CountNonBlank(lines) <= |lines|
    decreases |lines|
  {
    if |lines| > 0 {
      DataRowsCount(lines[1..]);
    }
  }

  lemma DataRowsSnoc(lines: seq<string>, i: nat)
    requires i < |lines|
    ensures DataRows(lines[..i + 1]) == DataRows(lines[..i]) + LineRows(lines[i])
  {
    assert lines[..i + 1] == lines[..i] + [lines[i]];
    ConcatMapAppend(lines[..i], [lines[i]], LineRows);
    ConcatMapSingle(lines[i], LineRows);
  }

  lemma ConcatMapSingle<T>(line: string, f: string -> seq<T>)
    ensures ConcatMap([line], f) == f(line)
  {
    assert [line][1..] == [];
  }

  /** The loop that appends the fields of every non-blank data line to the rows. */
  method CollectDataRows(dataLines: seq<string>) returns (rows: seq<seq<string>>)
    ensures rows == DataRows(dataLines)
  {
    rows := [];
    var i := 0;
    while i < |dataLines|
      invariant 0 <= i <= |dataLines|
      invariant rows == DataRows(dataLines[..i])
    {
      var line := dataLines[i];
      DataRowsSnoc(dataLines, i);
      if !IsBlank(line) {
        rows := rows + [SplitRecordLine(line)];
      }
      i := i + 1;
    }
    assert dataLines[..i] == dataLines;
  }

  datatype LoadError =
    | NoHeaderLine
    | ColumnCountMismatch(declared: nat, found: nat)
    | MissingColumn(name: string)

  datatype Result<+T> = Ok(value: T) | Err(error: LoadError)

  /** The columns coerced to numbers, in the order they are coerced. */
  const NumericColumns: seq<string> := [
    "InvocationsPerMonth", "AvgDurationMs", "MemoryMB", "ColdStartRate",
    "ProvisionedConcurrency", "GBSeconds", "DataTransferGB", "CostUSD"]

  /** Every column the analysis reads; the numeric ones are looked up first. */
  const RequiredColumns: seq<string> := NumericColumns + ["Environment", "FunctionName"]

  /** The widest row (pandas makes the frame that wide and pads shorter rows). */
  function MaxWidth(rows: seq<seq<string>>): (w: nat)
    ensures forall i :: 0 <= i < |rows| ==> |rows[i]| <= w
    ensures |rows| > 0 ==> exists i :: 0 <= i < |rows| && |rows[i]| == w
  {
    if |rows| == 0 then 0
    else
      var w := MaxWidth(rows[1..]);
      assert forall i :: 1 <= i < |rows| ==> rows[i] == rows[1..][i - 1];
      if |rows[0]| >= w then |rows[0]| else w
  }

  /** The first required column the header lacks, if any. */
  function FirstMissing(names: seq<string>, wanted: seq<string>): (m: Option<string>)
    ensures m.None? <==> forall w :: w in wanted ==> w in names
    ensures m.Some? ==> m.value in wanted && m.value !in names
    ensures m.Some? ==> exists k :: 0 <= k < |wanted| && wanted[k] == m.value
                                    && forall j :: 0 <= j < k ==> wanted[j] in names
  {
    if |wanted| == 0 then None
    else if wanted[0] !in names then Some(wanted[0])
    else
      var m := FirstMissing(names, wanted[1..]);
      assert m.Some? ==> exists k :: 1 <= k < |wanted| && wanted[k] == m.value
                                     && forall j :: 0 <= j < k ==> wanted[j] in names by {
        if m.Some? {
          var k :| 0 <= k < |wanted[1..]| && wanted[1..][k] == m.value
                   && forall j :: 0 <= j < k ==> wanted[1..][j] in names;
          assert forall j :: 1 <= j < k + 1 ==> wanted[j] == wanted[1..][j - 1];
        }
      }
      m
  }

  /** Position of the first column with this name. */
  function IndexOf(names: seq<string>, name: string): (j: nat)
    requires name in names
    ensures j < |names| && names[j] == name
    ensures forall k :: 0 <= k < j ==> names[k] != name
  {
    if names[0] == name then 0 else 1 + IndexOf(names[1..], name)
  }

  /** The cell of a row under a named column; absent where the row is too short. */
  function Cell(names: seq<string>, row: seq<string>, name: string): Option<string>
    requires name in names
  {
    var j := IndexOf(names, name);
    if j < |row| then Some(row[j]) else None
  }

  /** `pd.to_numeric(..., errors="coerce")` on one cell, given the text-to-number parse. */
  function Numeric(cell: Option<string>, toNumeric: string -> Option<real>): Option<real>
  {
    match cell
    case None => None
    case Some(text) => toNumeric(text)
  }

  function MakeRecord(names: seq<string>, row: seq<string>, toNumeric: string -> Option<real>): Record
    requires forall w :: w in RequiredColumns ==> w in names
  {
    RequiredColumnsListed();
    Record(
      functionName := Cell(names, row, "FunctionName"),
      environment := Cell(names, row, "Environment"),
      invocationsPerMonth := Numeric(Cell(names, row, "InvocationsPerMonth"), toNumeric),
      avgDurationMs := Numeric(Cell(names, row, "AvgDurationMs"), toNumeric),
      memoryMB := Numeric(Cell(names, row, "MemoryMB"), toNumeric),
      coldStartRate := Numeric(Cell(names, row, "ColdStartRate"), toNumeric),
      provisionedConcurrency := Numeric(Cell(names, row, "ProvisionedConcurrency"), toNumeric),
      gbSeconds := Numeric(Cell(names, row, "GBSeconds"), toNumeric),
      dataTransferGB := Numeric(Cell(names, row, "DataTransferGB"), toNumeric),
      costUSD := Numeric(Cell(names, row, "CostUSD"), toNumeric))
  }

  /** Each field of a record is the cell of its row under the first column of that name,
      coerced to a number for the numeric columns; it is absent when the row is too short
      to reach that column. */
  lemma MakeRecordCells(names: seq<string>, row: seq<string>, toNumeric: string -> Option<real>, name: string)
    requires forall w :: w in RequiredColumns ==> w in names
    requires name in RequiredColumns
    ensures var j := IndexOf(names, name);
            var r := MakeRecord(names, row, toNumeric);
            var text := if j < |row| then Some(row[j]) else None;
            var number := if j < |row| then toNumeric(row[j]) else None;
            && (name == "FunctionName" ==> r.functionName == text)
            && (name == "Environment" ==> r.environment == text)
            && (name == "InvocationsPerMonth" ==> r.invocationsPerMonth == number)
            && (name == "AvgDurationMs" ==> r.avgDurationMs == number)
            && (name == "MemoryMB" ==> r.memoryMB == number)
            && (name == "ColdStartRate" ==> r.coldStartRate == number)
            && (name == "ProvisionedConcurrency" ==> r.provisionedConcurrency == number)
            && (name == "GBSeconds" ==> r.gbSeconds == number)
            && (name == "DataTransferGB" ==> r.dataTransferGB == number)
            && (name == "CostUSD" ==> r.costUSD == number)
  {
  }

  lemma RequiredColumnsListed()
    ensures "FunctionName" in RequiredColumns && "Environment" in RequiredColumns
    ensures "InvocationsPerMonth" in RequiredColumns && "AvgDurationMs" in RequiredColumns
    ensures "MemoryMB" in RequiredColumns && "ColdStartRate" in RequiredColumns
    ensures "ProvisionedConcurrency" in RequiredColumns && "GBSeconds" in RequiredColumns
    ensures "DataTransferGB" in RequiredColumns && "CostUSD" in RequiredColumns
  {
    assert RequiredColumns[9] == "FunctionName" && RequiredColumns[8] == "Environment";
    assert RequiredColumns[0] == "InvocationsPerMonth" && RequiredColumns[1] == "AvgDurationMs";
    assert RequiredColumns[2] == "MemoryMB" && RequiredColumns[3] == "ColdStartRate";
    assert RequiredColumns[4] == "ProvisionedConcurrency" && RequiredColumns[5] == "GBSeconds";
    assert RequiredColumns[6] == "DataTransferGB" && RequiredColumns[7] == "CostUSD";
  }

  /** The data frame built from the header and the rows, with its column names stripped and
      its numeric columns coerced; it fails when the rows are not as wide as the header or a
      column the analysis reads is missing. */
  function BuildTable(header: seq<string>, rows: seq<seq<string>>, toNumeric: string -> Option<real>)
    : (res: Result<seq<Record>>)
    ensures res.Err? && res.error.ColumnCountMismatch? <==> |rows| > 0 && MaxWidth(rows) != |header|
    ensures res.Ok? ==> |res.value| == |rows|
    ensures res.Ok? <==> (|rows| == 0 || MaxWidth(rows) == |header|)
                         && forall w :: w in RequiredColumns ==> w in StripAll(header)
    ensures res.Ok? ==> forall i :: 0 <= i < |rows| ==>
                          res.value[i] == MakeRecord(StripAll(header), rows[i], toNumeric)
    ensures res.Err? && res.error.MissingColumn? ==>
              res.error.name in RequiredColumns && res.error.name !in StripAll(header)
  {
    if |rows| > 0 && MaxWidth(rows) != |header| then Err(ColumnCountMismatch(|header|, MaxWidth(rows)))
    else
      var names := StripAll(header);
      match FirstMissing(names, RequiredColumns)
      case Some(name) => Err(MissingColumn(name))
      case None => Ok(seq(|rows|, i requires 0 <= i < |rows| => MakeRecord(names, rows[i], toNumeric)))
  }

  /** Stripping the column names again changes nothing: the header's fields are stripped. */
  lemma HeaderNamesAlreadyStripped(headerLine: string)
    ensures StripAll(SplitRecordLine(headerLine)) == SplitRecordLine(headerLine)
  {
    RecordLineFields(headerLine);
    StripAllFixed(SplitRecordLine(headerLine));
  }

  lemma StripAllFixed(names: seq<string>)
    requires forall i :: 0 <= i < |names| ==> IsStripped(names[i])
    ensures StripAll(names) == names
  {
    forall i | 0 <= i < |names| ensures Strip(names[i]) == names[i] {
      StrippedIsFixed(names[i]);
    }
  }

  lemma StrippedIsFixed(s: string)
    requires IsStripped(s)
    ensures Strip(s) == s
  {
    StripUnique([], s, []);
    assert [] + s + [] == s;
  }

  /** Reads the lines of the file: the first is the header, the rest are data lines. */
  method Load(lines: seq<string>, toNumeric: string -> Option<real>) returns (res: Result<seq<Record>>)
    ensures |lines| == 0 ==> res == Err(NoHeaderLine)
    ensures |lines| > 0 ==> res == BuildTable(SplitRecordLine(lines[0]), DataRows(lines[1..]), toNumeric)
  {
    if |lines| == 0 {
      return Err(NoHeaderLine);
    }
    var header := SplitRecordLine(lines[0]);
    var rows := CollectDataRows(lines[1..]);
    res := BuildTable(header, rows, toNumeric);
  }

  /** A successful load has one record per non-blank data line; an empty file has no header. */
  lemma LoadedRecordCount(lines: seq<string>, toNumeric: string -> Option<real>)
    requires |lines| > 0
    requires BuildTable(SplitRecordLine(lines[0]), DataRows(lines[1..]), toNumeric).Ok?
    ensures |BuildTable(SplitRecordLine(lines[0]), DataRows(lines[1..]), toNumeric).value|
            == CountNonBlank(lines[1..])
  {
    DataRowsCount(lines[1..]);
  }
}
