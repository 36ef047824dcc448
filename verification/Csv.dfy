/** CSV text: writing and splitting records, and loading a whole table. */
module Csv {

  // --- one record ---------------------------------------------------------------------------

  /** The cells of the rest of a record, given the cell read so far and whether it is inside quotes. */
  function Scan(line: string, cur: string, quoted: bool): (cells: seq<string>)
    ensures cells != []
    decreases |line|
  {
    if line == [] then [cur]
    else if quoted then
      if line[0] == '"' then
        if |line| > 1 && line[1] == '"' then Scan(line[2..], cur + ['"'], true)
        else Scan(line[1..], cur, false)
      else Scan(line[1..], cur + [line[0]], true)
    else if line[0] == '"' then Scan(line[1..], cur, true)
    else if line[0] == ',' then [cur] + Scan(line[1..], [], false)
    else Scan(line[1..], cur + [line[0]], false)
  }

  function Split(line: string): (cells: seq<string>)
    ensures cells != []
  {
    Scan(line, [], false)
  }

  /** Splits one record, honouring quoted cells with doubled quotes. */
  method SplitRecord(line: string) returns (out: seq<string>)
    ensures out == Split(line)
  {
    out := [];
    var cur: string, quoted := [], false;
    var i := 0;
    while i < |line|
      invariant i <= |line|
      invariant out + Scan(line[i..], cur, quoted) == Split(line)
    {
      var c := line[i];
      var rest := line[i..];
      assert rest[1..] == line[i + 1..];
      if quoted {
        if c == '"' {
          if i + 1 < |line| && line[i + 1] == '"' {
            assert rest[2..] == line[i + 2..];
            cur := cur + ['"'];
            i := i + 1;
          } else {
            quoted := false;
          }
        } else {
          cur := cur + [c];
        }
      } else if c == '"' {
        quoted := true;
      } else if c == ',' {
        assert out + ([cur] + Scan(rest[1..], [], false)) == (out + [cur]) + Scan(rest[1..], [], false);
        out := out + [cur];
        cur := [];
      } else {
        cur := cur + [c];
      }
      i := i + 1;
    }
    out := out + [cur];
  }

  predicate IsSpecial(c: char) { c == ',' || c == '"' || c == '\n' || c == '\r' }

  predicate NeedsQuote(v: string) {
    exists i :: 0 <= i < |v| && IsSpecial(v[i])
  }

  function Doubled(v: string): string {
    if v == [] then []
    else (if v[0] == '"' then ['"', '"'] else [v[0]]) + Doubled(v[1..])
  }

  function CellText(v: string): string {
    if NeedsQuote(v) then ['"'] + Doubled(v) + ['"'] else v
  }

  /** Cells separated by commas. */
  function RecordText(cells: seq<string>): string {
    if cells == [] then []
    else if |cells| == 1 then CellText(cells[0])
    else CellText(cells[0]) + [','] + RecordText(cells[1..])
  }

  /** A leading formula character is hidden behind an apostrophe. */
  function Neutral(v: string): string {
    if v != [] && (v[0] == '=' || v[0] == '+' || v[0] == '-' || v[0] == '@') then ['\''] + v else v
  }

  function Shown(escape: bool, cells: seq<string>): (r: seq<string>)
    ensures |r| == |cells| && forall i :: 0 <= i < |cells| ==> r[i] == if escape then Neutral(cells[i]) else cells[i]
  {
    if cells == [] then []
    else [if escape then Neutral(cells[0]) else cells[0]] + Shown(escape, cells[1..])
  }

  lemma {:induction false} RecordSnoc(cells: seq<string>, v: string)
    ensures RecordText(cells + [v]) == RecordText(cells) + (if cells == [] then [] else [',']) + CellText(v)
  {
    if cells != [] {
      RecordSnoc(cells[1..], v);
      assert (cells + [v])[1..] == cells[1..] + [v];
      if |cells| > 1 {
        assert CellText(cells[0]) + [','] + (RecordText(cells[1..]) + [','] + CellText(v))
            == (CellText(cells[0]) + [','] + RecordText(cells[1..])) + [','] + CellText(v);
      } else {
        assert cells == [cells[0]];
      }
    }
  }

  lemma {:induction false} DoubledSnoc(v: string, c: char)
    ensures Doubled(v + [c]) == Doubled(v) + if c == '"' then ['"', '"'] else [c]
  {
    if v == [] {
      assert [c][1..] == [];
    } else {
      DoubledSnoc(v[1..], c);
      assert (v + [c])[1..] == v[1..] + [c];
    }
  }

  lemma Regroup(a: string, b: string, c: string, d: string)
    ensures a + b + c + d == a + (b + c + d)
  {
  }

  lemma RecordStep(start: string, cells: seq<string>, i: nat)
    requires i < |cells|
    ensures start + RecordText(cells[..i]) + (if i > 0 then [','] else []) + CellText(cells[i])
         == start + RecordText(cells[..i + 1])
  {
    RecordSnoc(cells[..i], cells[i]);
    assert cells[..i + 1] == cells[..i] + [cells[i]];
    Regroup(start, RecordText(cells[..i]), if i > 0 then [','] else [], CellText(cells[i]));
  }

  class Writer {
    const escape: bool
    var buf: string

    constructor (header: seq<string>, escape: bool)
      ensures this.escape == escape && buf == RecordText(Shown(escape, header)) + ['\n']
    {
      this.escape := escape;
      buf := [];
      new;
      Row(header);
    }

    /** Appends one record and a newline. */
    method Row(cells: seq<string>)
      modifies this`buf
      ensures buf == old(buf) + RecordText(Shown(escape, cells)) + ['\n']
    {
      ghost var start, shown := buf, Shown(escape, cells);
      for i := 0 to |cells|
        invariant buf == start + RecordText(shown[..i])
      {
        if i > 0 { buf := buf + [',']; }
        var v := cells[i];
        if escape { v := Neutral(v); }
        AppendCell(v);
        RecordStep(start, shown, i);
      }
      assert shown[..|cells|] == shown;
      buf := buf + ['\n'];
    }

    method AppendCell(v: string)
      modifies this`buf
      ensures buf == old(buf) + CellText(v)
    {
      if NeedsQuote(v) {
        ghost var start := buf;
        buf := buf + ['"'];
        for i := 0 to |v|
          invariant buf == start + (['"'] + Doubled(v[..i]))
        {
          QuotedStep(start, v, i);
          if v[i] == '"' { buf := buf + ['"']; }
          buf := buf + [v[i]];
        }
        assert v[..|v|] == v;
        Regroup(start, ['"'], Doubled(v), ['"']);
        buf := buf + ['"'];
      } else {
        buf := buf + v;
      }
    }
  }

  lemma QuotedStep(start: string, v: string, i: nat)
    requires i < |v|
    ensures start + (['"'] + Doubled(v[..i])) + (if v[i] == '"' then ['"'] else []) + [v[i]]
         == start + (['"'] + Doubled(v[..i + 1]))
  {
    DoubledSnoc(v[..i], v[i]);
    assert v[..i + 1] == v[..i] + [v[i]];
    var sep := if v[i] == '"' then ['"'] else [];
    Regroup(start, ['"'] + Doubled(v[..i]), sep, [v[i]]);
    Regroup(['"'], Doubled(v[..i]), sep, [v[i]]);
  }

  // --- a written record splits into its cells -----------------------------------------------------

  lemma {:induction false} ScanPlain(v: string, rest: string, cur: string)
    requires forall i :: 0 <= i < |v| ==> v[i] != '"' && v[i] != ','
    ensures Scan(v + rest, cur, false) == Scan(rest, cur + v, false)
  {
    if v == [] {
      assert v + rest == rest && cur + v == cur;
    } else {
      ScanPlain(v[1..], rest, cur + [v[0]]);
      assert (v + rest)[1..] == v[1..] + rest;
      assert cur + [v[0]] + v[1..] == cur + v;
    }
  }

  /** rest is the end of the record or begins the next cell. */
  predicate AtBoundary(rest: string) { rest == [] || rest[0] == ',' }

  lemma {:induction false} ScanQuoted(v: string, rest: string, cur: string)
    requires rest == [] || rest[0] != '"'
    ensures Scan(Doubled(v) + ['"'] + rest, cur, true) == Scan(rest, cur + v, false)
  {
    var text := Doubled(v) + ['"'] + rest;
    if v == [] {
      assert text == ['"'] + rest && text[1..] == rest && cur + v == cur;
    } else {
      var next := Doubled(v[1..]) + ['"'] + rest;
      ScanQuoted(v[1..], rest, cur + [v[0]]);
      assert cur + [v[0]] + v[1..] == cur + v;
      if v[0] == '"' {
        assert text == ['"', '"'] + next && text[2..] == next;
      } else {
        assert text == [v[0]] + next && text[1..] == next;
      }
    }
  }

  lemma ScanQuotedCell(v: string, rest: string)
    requires AtBoundary(rest)
    ensures Scan(['"'] + Doubled(v) + ['"'] + rest, [], false) == Scan(rest, v, false)
  {
    var text := ['"'] + Doubled(v) + ['"'] + rest;
    assert text[1..] == Doubled(v) + ['"'] + rest;
    ScanQuoted(v, rest, []);
    assert [] + v == v;
  }

  lemma ScanPlainCell(v: string, rest: string)
    requires !NeedsQuote(v)
    ensures Scan(v + rest, [], false) == Scan(rest, v, false)
  {
    forall i | 0 <= i < |v| ensures v[i] != '"' && v[i] != ',' { assert !IsSpecial(v[i]); }
    ScanPlain(v, rest, []);
    assert [] + v == v;
  }

  lemma ScanCell(v: string, rest: string)
    requires AtBoundary(rest)
    ensures Scan(CellText(v) + rest, [], false) == Scan(rest, v, false)
  {
    if NeedsQuote(v) {
      ScanQuotedCell(v, rest);
    } else {
      ScanPlainCell(v, rest);
    }
  }

  lemma SplitStep(v: string, tail: string)
    ensures Split(CellText(v) + [','] + tail) == [v] + Split(tail)
  {
    var rest := [','] + tail;
    ScanCell(v, rest);
    assert CellText(v) + [','] + tail == CellText(v) + rest;
    assert rest[1..] == tail;
  }

  lemma SplitLast(v: string)
    ensures Split(CellText(v)) == [v]
  {
    ScanCell(v, []);
    assert CellText(v) + [] == CellText(v);
  }

  /** Splitting a written record returns its cells, for any cells and any record that has one. */
  lemma {:induction false} RecordRoundTrip(cells: seq<string>)
    ensures Split(RecordText(cells)) == if cells == [] then [""] else cells
  {
    if |cells| == 1 {
      SplitLast(cells[0]);
    } else if |cells| > 1 {
      RecordRoundTrip(cells[1..]);
      SplitStep(cells[0], RecordText(cells[1..]));
    }
  }

  /** With neutralisation on, a record reads back unchanged exactly when no cell begins like a formula. */
  lemma NeutralRoundTrip(cells: seq<string>)
    requires cells != []
    ensures Split(RecordText(Shown(true, cells))) == Shown(true, cells)
    ensures Split(RecordText(Shown(true, cells))) == cells
        <==> forall i :: 0 <= i < |cells| ==> cells[i] == "" || cells[i][0] !in "=+-@"
  {
    RecordRoundTrip(Shown(true, cells));
    if forall i :: 0 <= i < |cells| ==> Neutral(cells[i]) == cells[i] {
      assert Shown(true, cells) == cells;
    }
    forall i | 0 <= i < |cells| ensures Neutral(cells[i]) == cells[i] <==> cells[i] == "" || cells[i][0] !in "=+-@" {
      NeutralSpelled(cells[i]);
    }
  }

  // --- the format in characters -------------------------------------------------------------------

  /** A cell that begins with one of four characters is shown behind an apostrophe, any other as it is. */
  lemma NeutralSpelled(v: string)
    ensures Neutral(v) == if v != "" && v[0] in "=+-@" then "'" + v else v
  {
  }

  /** A comma, a quote or a line break puts a cell in quotes, with its own quotes doubled. */
  lemma CellSpelled(v: string)
    ensures CellText(v) == if ',' in v || '"' in v || '\n' in v || '\r' in v then "\"" + Doubled(v) + "\"" else v
  {
    if NeedsQuote(v) {
      var i :| 0 <= i < |v| && IsSpecial(v[i]);
      assert v[i] in v;
    }
  }

  /** A quote becomes two, any other character stays. */
  lemma DoubledSpelled(c: char)
    ensures Doubled([c]) == if c == '"' then "\"\"" else [c]
  {
    assert [c][1..] == [];
  }

  lemma {:induction false} DoubledJoined(a: string, b: string)
    ensures Doubled(a + b) == Doubled(a) + Doubled(b)
  {
    if a == [] {
      assert a + b == b;
    } else {
      var first := if a[0] == '"' then ['"', '"'] else [a[0]];
      DoubledJoined(a[1..], b);
      assert (a + b)[1..] == a[1..] + b;
      assert Doubled(a + b) == first + (Doubled(a[1..]) + Doubled(b));
    }
  }

  /** Records are joined by a comma. */
  lemma {:induction false} RecordSpelled(a: seq<string>, b: seq<string>)
    requires a != [] && b != []
    ensures RecordText(a + b) == RecordText(a) + "," + RecordText(b)
  {
    assert (a + b)[1..] == a[1..] + b;
    if |a| == 1 {
      assert a + b == [a[0]] + b && (a + b)[1..] == b;
    } else {
      RecordSpelled(a[1..], b);
      var first := CellText(a[0]) + [','];
      assert RecordText(a + b) == first + RecordText(a[1..] + b) && RecordText(a) == first + RecordText(a[1..]);
      assert first + (RecordText(a[1..]) + "," + RecordText(b)) == first + RecordText(a[1..]) + "," + RecordText(b);
    }
  }

  /**
   * Reading any record: plain characters stand for themselves, a quoted stretch for itself with doubled quotes single,
   * a comma ends the cell, and a quote left open runs to the end.
   */
  lemma SplitSpelled(u: string, v: string, rest: string, cur: string)
    requires '"' !in u && ',' !in u
    ensures Scan(u + rest, cur, false) == Scan(rest, cur + u, false)
    ensures Scan("," + rest, cur, false) == [cur] + Scan(rest, "", false)
    ensures rest == "" || rest[0] != '"' ==>
      Scan("\"" + (Doubled(v) + "\"" + rest), cur, false) == Scan(rest, cur + v, false)
    ensures Scan("\"" + Doubled(v), cur, false) == [cur + v] && Scan("", cur, false) == [cur]
  {
    ScanPlain(u, rest, cur);
    assert ("," + rest)[1..] == rest;
    if rest == "" || rest[0] != '"' {
      ScanQuoted(v, rest, cur);
      assert ("\"" + (Doubled(v) + "\"" + rest))[1..] == Doubled(v) + "\"" + rest;
    }
    ScanOpen(v, cur);
    assert ("\"" + Doubled(v))[1..] == Doubled(v);
  }

  lemma {:induction false} ScanOpen(v: string, cur: string)
    ensures Scan(Doubled(v), cur, true) == [cur + v]
  {
    if v == [] {
      assert cur + v == cur;
    } else {
      var next := Doubled(v[1..]);
      ScanOpen(v[1..], cur + [v[0]]);
      assert cur + [v[0]] + v[1..] == cur + v;
      if v[0] == '"' {
        assert Doubled(v) == ['"', '"'] + next && Doubled(v)[2..] == next;
      } else {
        assert Doubled(v) == [v[0]] + next && Doubled(v)[1..] == next;
      }
    }
  }
}
