/** Loading a whole CSV file: lines, header, rows; and what a written file loads back as. */
module CsvTable {
  import opened Csv

  const MAX_BYTES := 32 * 1024 * 1024
  const MAX_ROWS := 500000
  const BOM := ['\U{EF}', '\U{BB}', '\U{BF}']

  datatype Problem =
    | TooLarge
    | NoLines
    | BadColumn(name: string)
    | MissingColumns(columns: seq<string>)
    | TooManyRows(row: nat)
    | RaggedRow(row: nat)

  datatype Table = Table(columns: seq<string>, rows: seq<seq<string>>)

  datatype Outcome = Read(table: Table) | Failed(problem: Problem)

  // --- lines and cells --------------------------------------------------------------------------

  /** The length of the first line. */
  function FirstLine(text: string): (n: nat)
    ensures n <= |text| && (n < |text| ==> text[n] == '\n')
    ensures forall i :: 0 <= i < n ==> text[i] != '\n'
  {
    if text == [] || text[0] == '\n' then 0 else 1 + FirstLine(text[1..])
  }

  function DropReturn(line: string): string {
    if line != [] && line[|line| - 1] == '\r' then line[..|line| - 1] else line
  }

  function Lines(text: string): seq<string>
    decreases |text|
  {
    if text == [] then []
    else
      var n := FirstLine(text);
      [DropReturn(text[..n])] + if n < |text| then Lines(text[n + 1..]) else []
  }

  predicate IsSpace(c: char) {
    c == ' ' || c == '\t' || c == '\n' || c == '\r' || c == '\U{0B}' || c == '\U{0C}'
  }

  function TrimLeft(s: string): string {
    if s != [] && IsSpace(s[0]) then TrimLeft(s[1..]) else s
  }

  function TrimRight(s: string): string {
    if s != [] && IsSpace(s[|s| - 1]) then TrimRight(s[..|s| - 1]) else s
  }

  function Trim(s: string): string { TrimRight(TrimLeft(s)) }

  function TrimAll(cells: seq<string>): (r: seq<string>)
    ensures |r| == |cells| && forall i :: 0 <= i < |r| ==> r[i] == Trim(cells[i])
  {
    if cells == [] then [] else [Trim(cells[0])] + TrimAll(cells[1..])
  }

  predicate Trimmed(s: string) {
    s == [] || (!IsSpace(s[0]) && !IsSpace(s[|s| - 1]))
  }

  predicate OneLine(s: string) {
    forall i :: 0 <= i < |s| ==> s[i] != '\n'
  }

  /** A cell a file can hold unchanged. */
  predicate Plain(s: string) { Trimmed(s) && OneLine(s) }

  // --- loading ------------------------------------------------------------------------------------

  function Names(header: seq<string>, i: nat, names: seq<string>): Outcome
    requires i <= |header|
    decreases |header| - i
  {
    if i == |header| then Read(Table(names, []))
    else
      var name := Trim(header[i]);
      if name == [] || name in names then Failed(BadColumn(name)) else Names(header, i + 1, names + [name])
  }

  function Missing(required: seq<string>, names: seq<string>): seq<string> {
    if required == [] then []
    else (if required[0] in names then [] else [required[0]]) + Missing(required[1..], names)
  }

  /** Reads the lines from i on; blank lines are passed over. */
  function TakeRows(names: seq<string>, lines: seq<string>, i: nat, rows: seq<seq<string>>): Outcome
    requires i <= |lines|
    decreases |lines| - i
  {
    if i == |lines| then Read(Table(names, rows))
    else if Trim(lines[i]) == [] then TakeRows(names, lines, i + 1, rows)
    else if |rows| >= MAX_ROWS then Failed(TooManyRows(i + 1))
    else if |Split(lines[i])| != |names| then Failed(RaggedRow(i + 1))
    else TakeRows(names, lines, i + 1, rows + [TrimAll(Split(lines[i]))])
  }

  function LoadLines(required: seq<string>, lines: seq<string>): Outcome {
    if lines == [] then Failed(NoLines)
    else
      match Names(Split(lines[0]), 0, [])
      case Failed(p) => Failed(p)
      case Read(t) =>
        if Missing(required, t.columns) != [] then Failed(MissingColumns(Missing(required, t.columns)))
        else TakeRows(t.columns, lines, 1, [])
  }

  function LoadText(required: seq<string>, raw: string): Outcome {
    if |raw| > MAX_BYTES then Failed(TooLarge)
    else LoadLines(required, Lines(if BOM <= raw then raw[3..] else raw))
  }

  method ReadNames(header: seq<string>) returns (r: Outcome)
    ensures r == Names(header, 0, [])
  {
    var names := [];
    for i := 0 to |header|
      invariant Names(header, i, names) == Names(header, 0, [])
    {
      var name := Trim(header[i]);
      if name == [] || name in names { return Failed(BadColumn(name)); }
      names := names + [name];
    }
    return Read(Table(names, []));
  }

  method ReadRows(names: seq<string>, lines: seq<string>) returns (r: Outcome)
    requires lines != []
    ensures r == TakeRows(names, lines, 1, [])
  {
    var rows := [];
    for i := 1 to |lines|
      invariant TakeRows(names, lines, i, rows) == TakeRows(names, lines, 1, [])
    {
      if Trim(lines[i]) != [] {
        if |rows| >= MAX_ROWS { return Failed(TooManyRows(i + 1)); }
        var cells := SplitRecord(lines[i]);
        if |cells| != |names| { return Failed(RaggedRow(i + 1)); }
        rows := rows + [TrimAll(cells)];
      }
    }
    return Read(Table(names, rows));
  }

  /** Loads a table: the size limit, the byte-order mark, the header, the required columns, then the rows. */
  method Load(required: seq<string>, raw: string) returns (r: Outcome)
    ensures r == LoadText(required, raw)
  {
    if |raw| > MAX_BYTES { return Failed(TooLarge); }
    var lines := Lines(if BOM <= raw then raw[3..] else raw);
    if lines == [] { return Failed(NoLines); }
    var header := SplitRecord(lines[0]);
    r := ReadNames(header);
    if r.Failed? { return r; }
    var missing := Missing(required, r.table.columns);
    if missing != [] { return Failed(MissingColumns(missing)); }
    r := ReadRows(r.table.columns, lines);
  }

  // --- trimming ---------------------------------------------------------------------------------------

  lemma {:induction false} TrimRightProps(s: string)
    ensures TrimRight(s) <= s
    ensures TrimRight(s) == [] || !IsSpace(TrimRight(s)[|TrimRight(s)| - 1])
  {
    if s != [] && IsSpace(s[|s| - 1]) { TrimRightProps(s[..|s| - 1]); }
  }

  lemma {:induction false} TrimLeftProps(s: string)
    ensures |TrimLeft(s)| <= |s| && TrimLeft(s) == s[|s| - |TrimLeft(s)|..]
    ensures TrimLeft(s) == [] || !IsSpace(TrimLeft(s)[0])
  {
    if s != [] && IsSpace(s[0]) { TrimLeftProps(s[1..]); }
  }

  /** Trimming leaves a trimmed part of the text, and leaves trimmed text alone. */
  lemma TrimIsTrimmed(s: string)
    ensures Trimmed(Trim(s)) && |Trim(s)| <= |s|
    ensures OneLine(s) ==> OneLine(Trim(s))
    ensures Trimmed(s) ==> Trim(s) == s
  {
    var t := TrimLeft(s);
    TrimLeftProps(s);
    TrimRightProps(t);
    if Trim(s) != [] { assert Trim(s)[0] == t[0]; }
  }

  lemma {:induction false} TrimRightKeeps(s: string, k: nat)
    requires k < |s| && !IsSpace(s[k])
    ensures TrimRight(s) != []
  {
    if IsSpace(s[|s| - 1]) { TrimRightKeeps(s[..|s| - 1], k); }
  }

  lemma {:induction false} NotBlank(s: string, k: nat)
    requires k < |s| && !IsSpace(s[k])
    ensures Trim(s) != []
  {
    if IsSpace(s[0]) {
      NotBlank(s[1..], k - 1);
    } else {
      TrimRightKeeps(s, 0);
    }
  }

  // --- what every loaded table satisfies --------------------------------------------------------------

  lemma {:induction false} ScanOneLine(line: string, cur: string, quoted: bool)
    requires OneLine(line) && OneLine(cur)
    ensures forall i :: 0 <= i < |Scan(line, cur, quoted)| ==> OneLine(Scan(line, cur, quoted)[i])
    decreases |line|
  {
    if line != [] {
      var c := line[0];
      if quoted {
        if c == '"' {
          if |line| > 1 && line[1] == '"' { ScanOneLine(line[2..], cur + ['"'], true); }
          else { ScanOneLine(line[1..], cur, false); }
        } else { ScanOneLine(line[1..], cur + [c], true); }
      } else if c == '"' { ScanOneLine(line[1..], cur, true); }
      else if c == ',' { ScanOneLine(line[1..], [], false); }
      else { ScanOneLine(line[1..], cur + [c], false); }
    }
  }

  ghost predicate AllPlain(cells: seq<string>) {
    forall i :: 0 <= i < |cells| ==> Plain(cells[i])
  }

  ghost predicate AllOneLine(lines: seq<string>) {
    forall i :: 0 <= i < |lines| ==> OneLine(lines[i])
  }

  lemma {:induction false} LinesAreOneLine(text: string)
    ensures AllOneLine(Lines(text))
    decreases |text|
  {
    if text != [] && FirstLine(text) < |text| { LinesAreOneLine(text[FirstLine(text) + 1..]); }
  }

  lemma SplitTrimmedIsPlain(line: string)
    requires OneLine(line)
    ensures AllPlain(TrimAll(Split(line)))
  {
    ScanOneLine(line, [], false);
    forall i | 0 <= i < |Split(line)| ensures Plain(TrimAll(Split(line))[i]) { TrimIsTrimmed(Split(line)[i]); }
  }

  ghost predicate GoodNames(names: seq<string>) {
    && AllPlain(names) && (forall i :: 0 <= i < |names| ==> names[i] != [])
    && forall i, j :: 0 <= i < j < |names| ==> names[i] != names[j]
  }

  lemma {:induction false} NamesAreGood(header: seq<string>, i: nat, names: seq<string>)
    requires i <= |header| && AllOneLine(header) && GoodNames(names) && |names| == i
    ensures var r := Names(header, i, names);
      r.Read? ==> GoodNames(r.table.columns) && |r.table.columns| == |header|
                    && names <= r.table.columns && r.table.rows == []
                    && forall k :: i <= k < |header| ==> r.table.columns[k] == Trim(header[k])
    decreases |header| - i
  {
    if i < |header| {
      TrimIsTrimmed(header[i]);
      if Trim(header[i]) != [] && Trim(header[i]) !in names {
        NamesAreGood(header, i + 1, names + [Trim(header[i])]);
      }
    }
  }

  ghost predicate GoodRows(width: nat, rows: seq<seq<string>>) {
    forall k :: 0 <= k < |rows| ==> |rows[k]| == width && AllPlain(rows[k])
  }

  lemma {:induction false} RowsAreGood(names: seq<string>, lines: seq<string>, i: nat, rows: seq<seq<string>>)
    requires i <= |lines| && AllOneLine(lines) && GoodRows(|names|, rows) && |rows| <= MAX_ROWS
    ensures var r := TakeRows(names, lines, i, rows);
      r.Read? ==> r.table.columns == names && GoodRows(|names|, r.table.rows) && |r.table.rows| <= MAX_ROWS
    decreases |lines| - i
  {
    if i < |lines| {
      if Trim(lines[i]) == [] {
        RowsAreGood(names, lines, i + 1, rows);
      } else if |rows| < MAX_ROWS && |Split(lines[i])| == |names| {
        SplitTrimmedIsPlain(lines[i]);
        RowsAreGood(names, lines, i + 1, rows + [TrimAll(Split(lines[i]))]);
      }
    }
  }

  lemma {:induction false} MissingNone(required: seq<string>, names: seq<string>)
    ensures Missing(required, names) == [] <==> forall i :: 0 <= i < |required| ==> required[i] in names
  {
    if required != [] { MissingNone(required[1..], names); }
  }

  /** A loaded table has distinct non-empty names, the required columns, and full rows of trimmed one-line cells. */
  lemma LoadedIsGood(required: seq<string>, raw: string)
    requires LoadText(required, raw).Read?
    ensures var t := LoadText(required, raw).table;
      && |raw| <= MAX_BYTES && t.columns != [] && GoodNames(t.columns)
      && (forall i :: 0 <= i < |required| ==> required[i] in t.columns)
      && GoodRows(|t.columns|, t.rows) && |t.rows| <= MAX_ROWS
  {
    var lines := Lines(if BOM <= raw then raw[3..] else raw);
    LinesAreOneLine(if BOM <= raw then raw[3..] else raw);
    ScanOneLine(lines[0], [], false);
    NamesAreGood(Split(lines[0]), 0, []);
    var names := Names(Split(lines[0]), 0, []).table.columns;
    MissingNone(required, names);
    RowsAreGood(names, lines, 1, []);
  }

  // --- the file of a table -------------------------------------------------------------------------------

  function Body(rows: seq<seq<string>>): string {
    if rows == [] then [] else RecordText(rows[0]) + ['\n'] + Body(rows[1..])
  }

  function FileText(header: seq<string>, rows: seq<seq<string>>): string {
    RecordText(header) + ['\n'] + Body(rows)
  }

  lemma {:induction false} DoubledOneLine(v: string)
    requires OneLine(v)
    ensures OneLine(Doubled(v))
  {
    if v != [] { DoubledOneLine(v[1..]); }
  }

  lemma {:induction false} RecordOneLine(cells: seq<string>)
    requires AllPlain(cells)
    ensures OneLine(RecordText(cells))
  {
    if cells != [] {
      assert Plain(cells[0]);
      DoubledOneLine(cells[0]);
      if |cells| > 1 {
        assert AllPlain(cells[1..]);
        RecordOneLine(cells[1..]);
      }
    }
  }

  lemma CellEnd(v: string)
    requires Plain(v) && v != []
    ensures var t := CellText(v); t != [] && t[|t| - 1] != '\r' && exists k :: 0 <= k < |t| && !IsSpace(t[k])
  {
    var t := CellText(v);
    assert !IsSpace(t[0]);
  }

  /** A written line of plain cells keeps its last character and is blank only for a single empty cell. */
  lemma {:induction false} RecordEnd(cells: seq<string>)
    requires AllPlain(cells) && cells != []
    ensures DropReturn(RecordText(cells)) == RecordText(cells)
    ensures Trim(RecordText(cells)) == [] <==> cells == [""]
  {
    assert Plain(cells[0]);
    if |cells| == 1 {
      assert cells == [cells[0]];
      if cells[0] != [] {
        CellEnd(cells[0]);
        var t := CellText(cells[0]);
        var k :| 0 <= k < |t| && !IsSpace(t[k]);
        NotBlank(t, k);
      }
    } else {
      var t, front := RecordText(cells), CellText(cells[0]);
      var tail := RecordText(cells[1..]);
      assert AllPlain(cells[1..]);
      RecordEnd(cells[1..]);
      assert t == front + [','] + tail;
      assert t[|front|] == ',';
      NotBlank(t, |front|);
      if tail != [] { assert t[|t| - 1] == tail[|tail| - 1]; }
    }
  }

  lemma {:induction false} FirstLineIs(line: string, rest: string)
    requires OneLine(line)
    ensures FirstLine(line + ['\n'] + rest) == |line|
  {
    if line != [] {
      FirstLineIs(line[1..], rest);
      assert (line + ['\n'] + rest)[1..] == line[1..] + ['\n'] + rest;
    }
  }

  lemma LinesStep(line: string, rest: string)
    requires OneLine(line)
    ensures Lines(line + ['\n'] + rest) == [DropReturn(line)] + Lines(rest)
  {
    var text := line + ['\n'] + rest;
    FirstLineIs(line, rest);
    assert text[..|line|] == line && text[|line| + 1..] == rest;
  }

  lemma {:induction false} LinesOfBody(width: nat, rows: seq<seq<string>>)
    requires width > 0 && GoodRows(width, rows)
    ensures |Lines(Body(rows))| == |rows|
    ensures forall k :: 0 <= k < |rows| ==> Lines(Body(rows))[k] == RecordText(rows[k])
  {
    if rows != [] {
      assert AllPlain(rows[0]) && |rows[0]| == width;
      RecordOneLine(rows[0]);
      RecordEnd(rows[0]);
      LinesStep(RecordText(rows[0]), Body(rows[1..]));
      LinesOfBody(width, rows[1..]);
    }
  }

  lemma PlainSplit(cells: seq<string>)
    requires AllPlain(cells) && cells != []
    ensures TrimAll(Split(RecordText(cells))) == cells
  {
    RecordRoundTrip(cells);
    forall i | 0 <= i < |cells| ensures TrimAll(cells)[i] == cells[i] {
      assert Plain(cells[i]);
      TrimIsTrimmed(cells[i]);
    }
  }

  lemma {:induction false} NamesRead(header: seq<string>, i: nat)
    requires i <= |header| && GoodNames(header)
    ensures Names(header, i, header[..i]) == Read(Table(header, []))
    decreases |header| - i
  {
    if i < |header| {
      assert Plain(header[i]);
      TrimIsTrimmed(header[i]);
      assert header[..i + 1] == header[..i] + [header[i]];
      NamesRead(header, i + 1);
    } else {
      assert header[..i] == header;
    }
  }

  /** No row is the single empty cell, which prints as a blank line. */
  ghost predicate NoneBlank(rows: seq<seq<string>>) {
    forall k :: 0 <= k < |rows| ==> rows[k] != [""]
  }

  lemma {:induction false} RowsRead(names: seq<string>, lines: seq<string>, rows: seq<seq<string>>, k: nat)
    requires names != [] && GoodRows(|names|, rows) && NoneBlank(rows) && |rows| <= MAX_ROWS
    requires k <= |rows| && |lines| == |rows| + 1
    requires forall j :: 0 <= j < |rows| ==> lines[j + 1] == RecordText(rows[j])
    ensures TakeRows(names, lines, k + 1, rows[..k]) == Read(Table(names, rows))
    decreases |rows| - k
  {
    if k < |rows| {
      assert AllPlain(rows[k]) && lines[k + 1] == RecordText(rows[k]);
      RecordEnd(rows[k]);
      PlainSplit(rows[k]);
      assert rows[..k + 1] == rows[..k] + [rows[k]];
      RowsRead(names, lines, rows, k + 1);
    } else {
      assert rows[..k] == rows;
    }
  }

  lemma {:induction false} RowsOverflow(names: seq<string>, lines: seq<string>, rows: seq<seq<string>>, k: nat)
    requires names != [] && GoodRows(|names|, rows) && NoneBlank(rows) && |rows| > MAX_ROWS
    requires k <= MAX_ROWS && |lines| == |rows| + 1
    requires forall j :: 0 <= j < |rows| ==> lines[j + 1] == RecordText(rows[j])
    ensures TakeRows(names, lines, k + 1, rows[..k]).Failed?
    decreases MAX_ROWS - k
  {
    assert AllPlain(rows[k]) && lines[k + 1] == RecordText(rows[k]);
    RecordEnd(rows[k]);
    if k < MAX_ROWS {
      PlainSplit(rows[k]);
      assert rows[..k + 1] == rows[..k] + [rows[k]];
      RowsOverflow(names, lines, rows, k + 1);
    }
  }

  lemma LinesOverflow(required: seq<string>, header: seq<string>, rows: seq<seq<string>>, lines: seq<string>)
    requires header != [] && GoodNames(header) && GoodRows(|header|, rows) && NoneBlank(rows) && |rows| > MAX_ROWS
    requires |lines| == |rows| + 1 && lines[0] == RecordText(header)
    requires forall j :: 0 <= j < |rows| ==> lines[j + 1] == RecordText(rows[j])
    ensures LoadLines(required, lines).Failed?
  {
    HeaderRead(header, lines[0]);
    RowsOverflow(header, lines, rows, 0);
    RowsFail(required, header, lines, rows[..0]);
  }

  lemma RowsFail(required: seq<string>, header: seq<string>, lines: seq<string>, none: seq<seq<string>>)
    requires lines != [] && Names(Split(lines[0]), 0, []) == Read(Table(header, []))
    requires none == [] && TakeRows(header, lines, 1, none).Failed?
    ensures LoadLines(required, lines).Failed?
  {
  }

  lemma HeaderRead(header: seq<string>, line: string)
    requires header != [] && GoodNames(header) && line == RecordText(header)
    ensures Names(Split(line), 0, []) == Read(Table(header, []))
  {
    RecordRoundTrip(header);
    assert header[..0] == [];
    NamesRead(header, 0);
  }

  /** A file with too many rows does not load. */
  lemma TooLongFails(required: seq<string>, header: seq<string>, rows: seq<seq<string>>)
    requires header != [] && GoodNames(header) && GoodRows(|header|, rows) && NoneBlank(rows)
    requires |rows| > MAX_ROWS && !(BOM <= FileText(header, rows))
    ensures LoadText(required, FileText(header, rows)).Failed?
  {
    FileLines(header, rows);
    LinesOverflow(required, header, rows, Lines(FileText(header, rows)));
  }

  /** The lines of a file of plain cells are its records. */
  lemma FileLines(header: seq<string>, rows: seq<seq<string>>)
    requires header != [] && AllPlain(header) && GoodRows(|header|, rows)
    ensures var lines := Lines(FileText(header, rows));
      && |lines| == |rows| + 1 && lines[0] == RecordText(header)
      && forall j :: 0 <= j < |rows| ==> lines[j + 1] == RecordText(rows[j])
  {
    var line, body := RecordText(header), Body(rows);
    RecordOneLine(header);
    RecordEnd(header);
    LinesStep(line, body);
    LinesOfBody(|header|, rows);
    assert Lines(FileText(header, rows)) == [line] + Lines(body);
  }

  /** What a file must be like to load back unchanged. */
  ghost predicate Storable(required: seq<string>, header: seq<string>, rows: seq<seq<string>>) {
    && header != [] && GoodNames(header)
    && (forall i :: 0 <= i < |required| ==> required[i] in header)
    && GoodRows(|header|, rows) && NoneBlank(rows) && |rows| <= MAX_ROWS
    && |FileText(header, rows)| <= MAX_BYTES && !(BOM <= FileText(header, rows))
  }

  lemma StorableLoads(required: seq<string>, header: seq<string>, rows: seq<seq<string>>)
    requires Storable(required, header, rows)
    ensures LoadText(required, FileText(header, rows)) == Read(Table(header, rows))
  {
    FileLines(header, rows);
    LinesLoad(required, header, rows, Lines(FileText(header, rows)));
  }

  lemma LinesLoad(required: seq<string>, header: seq<string>, rows: seq<seq<string>>, lines: seq<string>)
    requires header != [] && GoodNames(header) && GoodRows(|header|, rows) && NoneBlank(rows) && |rows| <= MAX_ROWS
    requires forall i :: 0 <= i < |required| ==> required[i] in header
    requires |lines| == |rows| + 1 && lines[0] == RecordText(header)
    requires forall j :: 0 <= j < |rows| ==> lines[j + 1] == RecordText(rows[j])
    ensures LoadLines(required, lines) == Read(Table(header, rows))
  {
    RecordRoundTrip(header);
    assert header[..0] == [] && rows[..0] == [];
    NamesRead(header, 0);
    MissingNone(required, header);
    RowsRead(header, lines, rows, 0);
  }

  /** Every line beyond the first gives at most one row, and a blank one gives none. */
  lemma {:induction false} BlankLosesRow(names: seq<string>, lines: seq<string>, i: nat, rows: seq<seq<string>>)
    requires i <= |lines| && TakeRows(names, lines, i, rows).Read?
    ensures var r := TakeRows(names, lines, i, rows).table.rows;
      && |r| <= |rows| + |lines| - i
      && ((exists k :: i <= k < |lines| && Trim(lines[k]) == []) ==> |r| < |rows| + |lines| - i)
    decreases |lines| - i
  {
    if i < |lines| {
      if Trim(lines[i]) == [] {
        BlankLosesRow(names, lines, i + 1, rows);
      } else {
        BlankLosesRow(names, lines, i + 1, rows + [TrimAll(Split(lines[i]))]);
      }
    }
  }

  /** A file that opens with a byte-order mark loses it from its first name. */
  lemma MarkLost(required: seq<string>, header: seq<string>, rows: seq<seq<string>>)
    requires header != [] && GoodNames(header) && GoodRows(|header|, rows)
    requires BOM <= FileText(header, rows) && LoadText(required, FileText(header, rows)).Read?
    ensures LoadText(required, FileText(header, rows)).table.columns != header
  {
    var rest := MarkInFirstName(header, rows);
    FirstNameAfterMark(header, rest);
    NamesAfterMark(required, header, rows, rest);
  }

  lemma MarkInFirstName(header: seq<string>, rows: seq<seq<string>>) returns (rest: string)
    requires header != [] && GoodNames(header) && BOM <= FileText(header, rows)
    ensures !NeedsQuote(header[0]) && |header[0]| >= 3 && |RecordText(header)| >= 3
    ensures rest == RecordText(header)[3..] && OneLine(rest)
    ensures Lines(FileText(header, rows)[3..]) == [rest] + Lines(Body(rows))
  {
    FirstCellBegins(header);
    MarkInside(header[0], RecordText(header), Body(rows));
    rest := RecordText(header)[3..];
    RecordOneLine(header);
    ReturnKept(header, rest);
    LinesPastMark(RecordText(header), Body(rows));
  }

  lemma LinesPastMark(line: string, body: string)
    requires OneLine(line) && |line| >= 3 && DropReturn(line[3..]) == line[3..]
    ensures Lines((line + ['\n'] + body)[3..]) == [line[3..]] + Lines(body)
  {
    assert (line + ['\n'] + body)[3..] == line[3..] + ['\n'] + body;
    LinesStep(line[3..], body);
  }

  lemma MarkInside(first: string, line: string, body: string)
    requires first != [] && BOM <= line + ['\n'] + body
    requires NeedsQuote(first) ==> line != [] && line[0] == '"'
    requires !NeedsQuote(first) ==> first <= line && (|line| > |first| ==> line[|first|] == ',')
    ensures !NeedsQuote(first) && |first| >= 3 && |line| >= 3
  {
    var text := line + ['\n'] + body;
    assert text[0] == '\U{EF}' && text[1] == '\U{BB}' && text[2] == '\U{BF}';
    assert text[|line|] == '\n' && forall i :: 0 <= i < |line| ==> text[i] == line[i];
  }

  lemma FirstCellBegins(cells: seq<string>)
    requires cells != [] && cells[0] != []
    ensures var line := RecordText(cells);
      && (NeedsQuote(cells[0]) ==> line != [] && line[0] == '"')
      && (!NeedsQuote(cells[0]) ==> cells[0] <= line && (|line| > |cells[0]| ==> line[|cells[0]|] == ','))
  {
  }

  lemma ReturnKept(cells: seq<string>, rest: string)
    requires cells != [] && AllPlain(cells) && |RecordText(cells)| >= 3 && rest == RecordText(cells)[3..]
    ensures DropReturn(rest) == rest
  {
    RecordEnd(cells);
  }

  lemma FirstNameAfterMark(cells: seq<string>, rest: string)
    requires cells != [] && !NeedsQuote(cells[0]) && |cells[0]| >= 3
    requires |RecordText(cells)| >= 3 && rest == RecordText(cells)[3..]
    ensures Split(rest)[0] == cells[0][3..]
  {
    var v, line := cells[0][3..], RecordText(cells);
    FirstCellBegins(cells);
    var tail := line[|cells[0]|..];
    assert rest == v + tail;
    forall i | 0 <= i < |v| ensures v[i] != '"' && v[i] != ',' { assert !IsSpecial(cells[0][i + 3]); }
    ScanPlain(v, tail, []);
    assert [] + v == v;
  }

  lemma NamesAfterMark(required: seq<string>, header: seq<string>, rows: seq<seq<string>>, rest: string)
    requires header != [] && |header[0]| >= 3 && OneLine(rest) && Split(rest)[0] == header[0][3..]
    requires BOM <= FileText(header, rows) && LoadText(required, FileText(header, rows)).Read?
    requires Lines(FileText(header, rows)[3..]) == [rest] + Lines(Body(rows))
    ensures LoadText(required, FileText(header, rows)).table.columns != header
  {
    var lines := Lines(FileText(header, rows)[3..]);
    LinesAreOneLine(FileText(header, rows)[3..]);
    ScanOneLine(rest, [], false);
    NamesAreGood(Split(rest), 0, []);
    var names := Names(Split(rest), 0, []).table.columns;
    RowsAreGood(names, lines, 1, []);
    TrimIsTrimmed(Split(rest)[0]);
    assert names[0] == Trim(header[0][3..]);
  }

  /** A written file loads back as itself exactly when it is storable. */
  lemma FileRoundTrip(required: seq<string>, header: seq<string>, rows: seq<seq<string>>)
    ensures LoadText(required, FileText(header, rows)) == Read(Table(header, rows))
        <==> Storable(required, header, rows)
  {
    if Storable(required, header, rows) {
      StorableLoads(required, header, rows);
    } else if LoadText(required, FileText(header, rows)) == Read(Table(header, rows)) {
      LoadedIsGood(required, FileText(header, rows));
      if BOM <= FileText(header, rows) {
        MarkLost(required, header, rows);
      } else {
        BlankNotRead(required, header, rows);
      }
    }
  }

  lemma BlankNotRead(required: seq<string>, header: seq<string>, rows: seq<seq<string>>)
    requires header != [] && GoodNames(header) && GoodRows(|header|, rows) && !(BOM <= FileText(header, rows))
    requires LoadText(required, FileText(header, rows)) == Read(Table(header, rows))
    ensures NoneBlank(rows)
  {
    var lines := Lines(FileText(header, rows));
    FileLines(header, rows);
    RecordRoundTrip(header);
    NamesRead(header, 0);
    BlankLosesRow(header, lines, 1, []);
    forall k | 0 <= k < |rows| ensures rows[k] != [""] {
      assert AllPlain(rows[k]) && Trim(lines[k + 1]) != [];
      RecordEnd(rows[k]);
    }
  }
}
