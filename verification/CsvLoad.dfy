/** What loading a file finds, line by line: the table it holds, or the first thing wrong with it. */
module CsvLoad {
  import opened Csv
  import opened CsvTable

  // --- lines and cells ----------------------------------------------------------------------------

  /** A blank character is one of six. */
  lemma SpaceSpelled(c: char)
    ensures IsSpace(c) <==> c in [' ', '\t', '\n', '\r', 11 as char, 12 as char]
  {
  }

  /** Trimming cuts blank characters off both ends, and no more. */
  lemma TrimSpelled(s: string) returns (i: nat, j: nat)
    ensures i <= j <= |s| && Trim(s) == s[i..j]
    ensures (forall k :: 0 <= k < i ==> IsSpace(s[k])) && (forall k :: j <= k < |s| ==> IsSpace(s[k]))
    ensures i < j ==> !IsSpace(s[i]) && !IsSpace(s[j - 1])
  {
    var t := TrimLeft(s);
    i := LeftCut(s);
    var n := RightCut(t);
    j := i + n;
    TrimRightProps(t);
    TrimLeftProps(s);
    assert forall k :: j <= k < |s| ==> s[k] == t[k - i];
  }

  lemma {:induction false} LeftCut(s: string) returns (i: nat)
    ensures i <= |s| && TrimLeft(s) == s[i..] && forall k :: 0 <= k < i ==> IsSpace(s[k])
  {
    if s != [] && IsSpace(s[0]) {
      var n := LeftCut(s[1..]);
      i := n + 1;
      assert s[1..][n..] == s[i..];
      assert forall k :: 1 <= k < i ==> s[k] == s[1..][k - 1];
    } else {
      i := 0;
    }
  }

  lemma {:induction false} RightCut(s: string) returns (n: nat)
    ensures n <= |s| && TrimRight(s) == s[..n] && forall k :: n <= k < |s| ==> IsSpace(s[k])
  {
    if s != [] && IsSpace(s[|s| - 1]) {
      n := RightCut(s[..|s| - 1]);
    } else {
      n := |s|;
    }
  }

  lemma LineEndsAt(text: string, n: nat)
    requires n <= |text| && (n < |text| ==> text[n] == '\n') && forall i :: 0 <= i < n ==> text[i] != '\n'
    ensures FirstLine(text) == n
  {
  }

  /** A line without its carriage return. */
  function Stripped(line: string): string {
    if line != "" && line[|line| - 1] == 13 as char then line[..|line| - 1] else line
  }

  lemma LineSplits(text: string, line: string, rest: string)
    requires 10 as char !in line && text == line + [10 as char] + rest
    ensures FirstLine(text) == |line| && text[..|line|] == line && text[|line| + 1..] == rest
  {
    assert forall i :: 0 <= i < |line| ==> text[i] == line[i];
    LineEndsAt(text, |line|);
  }

  /** A line ends at a line feed, with a carriage return before it left off. */
  lemma LinesSpelled(text: string, line: string, rest: string)
    requires 10 as char !in line && text == line + [10 as char] + rest
    ensures Lines(text) == [Stripped(line)] + Lines(rest)
  {
    LineSplits(text, line, rest);
  }

  /** A last line needs no line feed, and no text has no line. */
  lemma LastLineSpelled(line: string)
    requires 10 as char !in line
    ensures Lines(line) == if line == "" then [] else [Stripped(line)]
  {
    assert forall i :: 0 <= i < |line| ==> line[i] in line;
    LineEndsAt(line, |line|);
    assert line[..|line|] == line;
  }

  // --- the header ------------------------------------------------------------------------------------

  /** Name k of the header is empty or repeats an earlier one. */
  ghost predicate BadName(header: seq<string>, k: nat)
    requires k < |header|
  {
    Trim(header[k]) == "" || exists j :: 0 <= j < k && Trim(header[j]) == Trim(header[k])
  }

  ghost predicate FirstBadName(header: seq<string>, i: nat, k: nat, p: Problem)
    requires i <= k < |header|
  {
    BadName(header, k) && p == BadColumn(Trim(header[k])) && forall j :: i <= j < k ==> !BadName(header, j)
  }

  /** p reports the first bad name from i on. */
  ghost predicate NameFails(header: seq<string>, i: nat, p: Problem) {
    exists k: nat :: i <= k < |header| && FirstBadName(header, i, k, p)
  }

  lemma FailsFurther(header: seq<string>, i: nat, p: Problem)
    requires i < |header| && !BadName(header, i) && NameFails(header, i + 1, p)
    ensures NameFails(header, i, p)
  {
    var k: nat :| i + 1 <= k < |header| && FirstBadName(header, i + 1, k, p);
    assert FirstBadName(header, i, k, p);
  }

  /** The names are taken, or the first bad one is reported. */
  lemma {:induction false} NamesExact(header: seq<string>, i: nat, names: seq<string>)
    requires i <= |header| && |names| == i && forall k :: 0 <= k < i ==> names[k] == Trim(header[k])
    ensures var r := Names(header, i, names);
      && (r.Read? ==> r.table == Table(TrimAll(header), []) && forall k :: i <= k < |header| ==> !BadName(header, k))
      && (r.Failed? ==> NameFails(header, i, r.problem))
    decreases |header| - i
  {
    if i < |header| {
      var name := Trim(header[i]);
      NameIsBad(header, i, names);
      if name == [] || name in names {
        assert FirstBadName(header, i, i, BadColumn(name));
      } else {
        NamesExact(header, i + 1, names + [name]);
        var r := Names(header, i + 1, names + [name]);
        if r.Failed? { FailsFurther(header, i, r.problem); }
      }
    } else {
      assert names == TrimAll(header);
    }
  }

  lemma NameIsBad(header: seq<string>, i: nat, names: seq<string>)
    requires i < |header| && |names| == i && forall k :: 0 <= k < i ==> names[k] == Trim(header[k])
    ensures BadName(header, i) <==> Trim(header[i]) == [] || Trim(header[i]) in names
  {
  }

  // --- the rows ----------------------------------------------------------------------------------------

  ghost predicate Blank(line: string) { Trim(line) == "" }

  /** The rows of the lines from i to n: the trimmed cells of every line that is not blank. */
  ghost function RowsOf(lines: seq<string>, i: nat, n: nat): seq<seq<string>>
    requires i <= n <= |lines|
    decreases n - i
  {
    if i == n then []
    else if Blank(lines[n - 1]) then RowsOf(lines, i, n - 1)
    else RowsOf(lines, i, n - 1) + [TrimAll(Split(lines[n - 1]))]
  }

  /** No line from i to n but a blank one has another number of cells than the header. */
  ghost predicate Square(names: seq<string>, lines: seq<string>, i: nat, n: nat)
    requires i <= n <= |lines|
  {
    forall k :: i <= k < n && !Blank(lines[k]) ==> |Split(lines[k])| == |names|
  }

  /** Line k, counted from 0, is the first that stops the reading. */
  ghost predicate StopsAt(names: seq<string>, lines: seq<string>, k: nat, p: Problem)
    requires 1 <= k < |lines|
  {
    && !Blank(lines[k]) && Square(names, lines, 1, k) && |RowsOf(lines, 1, k)| <= 500000
    && ((p == TooManyRows(k + 1) && |RowsOf(lines, 1, k)| == 500000)
        || (p == RaggedRow(k + 1) && |RowsOf(lines, 1, k)| < 500000 && |Split(lines[k])| != |names|))
  }

  lemma {:induction false} RowsExact(names: seq<string>, lines: seq<string>, i: nat, rows: seq<seq<string>>)
    requires 1 <= i <= |lines| && rows == RowsOf(lines, 1, i) && Square(names, lines, 1, i) && |rows| <= 500000
    ensures var r := TakeRows(names, lines, i, rows);
      && (r.Read? ==> r.table == Table(names, RowsOf(lines, 1, |lines|)) && Square(names, lines, 1, |lines|)
                      && |r.table.rows| <= 500000)
      && (r.Failed? ==> exists k: nat :: 1 <= k < |lines| && StopsAt(names, lines, k, r.problem))
    decreases |lines| - i
  {
    if i < |lines| {
      if Blank(lines[i]) {
        RowsExact(names, lines, i + 1, rows);
      } else if |rows| >= 500000 {
        assert StopsAt(names, lines, i, TooManyRows(i + 1));
      } else if |Split(lines[i])| != |names| {
        assert StopsAt(names, lines, i, RaggedRow(i + 1));
      } else {
        RowsExact(names, lines, i + 1, rows + [TrimAll(Split(lines[i]))]);
      }
    }
  }

  // --- the file ----------------------------------------------------------------------------------------

  /** The text behind a byte-order mark. */
  function Unmarked(raw: string): string {
    if |raw| >= 3 && raw[0] == 0xEF as char && raw[1] == 0xBB as char && raw[2] == 0xBF as char then raw[3..] else raw
  }

  lemma UnmarkedSpelled(raw: string)
    ensures Unmarked(raw) == if BOM <= raw then raw[3..] else raw
  {
  }

  /** The columns of a file: the trimmed cells of its first line. */
  function Columns(lines: seq<string>): seq<string>
    requires lines != []
  {
    TrimAll(Split(lines[0]))
  }

  /** The required columns a header lacks, in the order required. */
  lemma {:induction false} MissingSpelled(required: seq<string>, names: seq<string>, more: string)
    ensures Missing(required + [more], names) == Missing(required, names) + if more in names then [] else [more]
  {
    assert (required + [more])[0] == if required == [] then more else required[0];
    if required != [] {
      MissingSpelled(required[1..], names, more);
      assert (required + [more])[1..] == required[1..] + [more];
    }
  }

  ghost predicate HeaderGood(lines: seq<string>)
    requires lines != []
  {
    forall k: nat :: k < |Split(lines[0])| ==> !BadName(Split(lines[0]), k)
  }

  /**
   * The first of these decides: more than 32 MiB, no line at all, a bad name, a missing column, and then line by line a
   * row too many or of another width. A file with none of them holds its header and the rows that are not blank.
   */
  lemma LoadExact(required: seq<string>, raw: string)
    ensures var lines := Lines(Unmarked(raw));
      var r := LoadText(required, raw);
      && (r.Read? ==>
            && |raw| <= 33554432 && lines != [] && HeaderGood(lines) && Missing(required, Columns(lines)) == []
            && r.table == Table(Columns(lines), RowsOf(lines, 1, |lines|)) && |r.table.rows| <= 500000
            && Square(r.table.columns, lines, 1, |lines|))
      && (r.Failed? ==> FailsBecause(required, raw, lines, r.problem))
  {
    UnmarkedSpelled(raw);
    var lines := Lines(Unmarked(raw));
    if |raw| <= 33554432 && lines != [] {
      NamesExact(Split(lines[0]), 0, []);
      RowsExact(Columns(lines), lines, 1, []);
    }
  }

  ghost predicate FailsBecause(required: seq<string>, raw: string, lines: seq<string>, p: Problem) {
    if |raw| > 33554432 then p == TooLarge
    else if lines == [] then p == NoLines
    else if !HeaderGood(lines) then
      NameFails(Split(lines[0]), 0, p)
    else if Missing(required, Columns(lines)) != [] then p == MissingColumns(Missing(required, Columns(lines)))
    else exists k: nat :: 1 <= k < |lines| && StopsAt(Columns(lines), lines, k, p)
  }
}
