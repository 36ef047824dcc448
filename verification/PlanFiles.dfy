/** The plan tables as file text. */
module PlanFiles {
  import opened Model
  import opened Decimal
  import opened Calendar
  import opened Csv
  import opened CsvTable
  import opened PlanTables
  import opened Plans
  import opened Soundness
  import opened Schedule
  import opened PlanExport
  import opened PlanRoundTrip

  /** Every name a plan file mentions is one a CSV cell can hold, as every name read from a CSV cell is. */
  ghost predicate PlainNames(inst: Instance) {
    && (forall a :: 0 <= a < |inst.activities| ==> Plain(inst.activities[a].id))
    && (forall l :: 0 <= l < |inst.locations| ==> Plain(inst.locations[l].id))
    && (forall c :: 0 <= c < |inst.contracts| ==> Plain(inst.contracts[c].number))
  }

  predicate Visible(s: string) {
    forall i :: 0 <= i < |s| ==> IsDigit(s[i]) || s[i] == '-' || s[i] == 'b'
  }

  lemma VisibleIsPlain(s: string)
    requires Visible(s)
    ensures Plain(s)
  {
  }

  lemma PrintIsPlain(n: int)
    ensures Plain(Print(n)) && Plain("b" + Print(n))
  {
    VisibleIsPlain(Print(n));
    VisibleIsPlain("b" + Print(n));
  }

  lemma IsoIsPlain(days: int)
    ensures Plain(ToIso(days))
  {
    var c := CivilFromDays(days);
    PadIsVisible(c.0, 4);
    PadIsVisible(c.1, 2);
    PadIsVisible(c.2, 2);
    VisibleIsPlain(ToIso(days));
  }

  lemma PadIsVisible(n: int, width: nat)
    requires width > 0
    ensures Visible(PadSigned(n, width))
  {
  }

  lemma IdIsPlain(inst: Instance, a: nat)
    requires PlainNames(inst)
    ensures Plain(IdOf(inst, a)) && Plain(LocOf(inst, a))
  {
  }

  lemma FivePlain(names: seq<string>, a: string, b: string, c: string, d: string, e: string)
    requires names == [a, b, c, d, e] && Plain(a) && Plain(b) && Plain(c) && Plain(d) && Plain(e)
    ensures AllPlain(names)
  {
  }

  lemma FourPlain(names: seq<string>, a: string, b: string, c: string, d: string)
    requires names == [a, b, c, d] && Plain(a) && Plain(b) && Plain(c) && Plain(d)
    ensures AllPlain(names)
  {
  }

  lemma AccessCellsPlain(inst: Instance, a: Access, number: int)
    requires PlainNames(inst)
    ensures AllPlain(AccessCells(inst, a, number))
  {
    IdIsPlain(inst, a.activity);
    PrintIsPlain(number);
    PrintIsPlain(a.week);
    PrintIsPlain(a.night);
    assert Plain("1") && Plain("0");
  }

  lemma AccessRowsPlain(inst: Instance, r: seq<Access>, t: Table)
    requires PlainNames(inst) && AccessTableOf(inst, r, t)
    ensures GoodRows(5, t.rows)
  {
    forall i | 0 <= i < |t.rows| ensures |t.rows[i]| == 5 && AllPlain(t.rows[i]) {
      assert t.rows[i] == AccessCells(inst, r[i], NumberAt(inst, r, i));
      AccessCellsPlain(inst, r[i], NumberAt(inst, r, i));
    }
  }

  lemma BookingCellsPlain(inst: Instance, b: Booking)
    requires PlainNames(inst)
    ensures AllPlain(BookingCells(inst, b))
  {
    IdIsPlain(inst, b.activity);
    IdIsPlain(inst, b.location);
    PrintIsPlain(b.week);
    PrintIsPlain(b.slot);
  }

  lemma BookingRowsPlain(inst: Instance, bs: seq<Booking>, t: Table)
    requires PlainNames(inst) && OccupancyTableOf(inst, bs, t)
    ensures GoodRows(4, t.rows)
  {
    forall i | 0 <= i < |t.rows| ensures |t.rows[i]| == 4 && AllPlain(t.rows[i]) {
      assert t.rows[i] == BookingCells(inst, bs[i]);
      BookingCellsPlain(inst, bs[i]);
    }
  }

  lemma ResultRowsPlain(inst: Instance, scen: Scenario, x: Grid, t: Table)
    requires PlainNames(inst) && ResultTableOf(ResultRows(inst, scen, x, |inst.contracts|), t)
    ensures GoodRows(4, t.rows)
  {
    var rows := ResultRows(inst, scen, x, |inst.contracts|);
    ResultRowsSound(inst, scen, x, |inst.contracts|);
    forall i | 0 <= i < |t.rows| ensures |t.rows[i]| == 4 && AllPlain(t.rows[i]) {
      assert t.rows[i] == ResultCells(rows[i]) && rows[i] in rows;
      var c: nat :| c < |inst.contracts| && RowFor(inst, scen, x, rows[i], c);
      ResultCellsPlain(rows[i]);
    }
  }

  lemma ScenarioIsPlain(scen: Scenario)
    ensures Plain(ScenarioText(scen))
  {
  }

  lemma ResultCellsPlain(r: ResultRow)
    requires Plain(r.number)
    ensures AllPlain(ResultCells(r))
  {
    ScenarioIsPlain(r.scenario);
    IsoIsPlain(r.completion);
    PrintIsPlain(r.overrun);
    FourPlain(ResultCells(r), ScenarioText(r.scenario), r.number, ToIso(r.completion), Print(r.overrun));
  }

  lemma NamesPlain()
    ensures Plain("activity_id") && Plain("access_seq") && Plain("week") && Plain("eclo") && Plain("access_night")
  {
  }

  lemma OtherNamesPlain()
    ensures Plain("location_id") && Plain("co_share_group")
    ensures Plain("scenario") && Plain("contract_number") && Plain("simulated_completion_date") && Plain("overrun_days")
  {
  }

  lemma AllNamesPlain()
    ensures AllPlain(ACCESS_COLUMNS) && AllPlain(OCCUPANCY_COLUMNS) && AllPlain(RESULT_COLUMNS)
  {
    NamesPlain();
    OtherNamesPlain();
    FivePlain(ACCESS_COLUMNS, "activity_id", "access_seq", "week", "eclo", "access_night");
    FourPlain(OCCUPANCY_COLUMNS, "activity_id", "week", "location_id", "co_share_group");
    FourPlain(RESULT_COLUMNS, "scenario", "contract_number", "simulated_completion_date", "overrun_days");
  }

  lemma HeaderNames()
    ensures GoodNames(ACCESS_COLUMNS) && GoodNames(OCCUPANCY_COLUMNS) && GoodNames(RESULT_COLUMNS)
  {
    AllNamesPlain();
    HeadersIndexed();
    IndexedNames(ACCESS_COLUMNS);
    IndexedNames(OCCUPANCY_COLUMNS);
    IndexedNames(RESULT_COLUMNS);
  }

  lemma HeadersIndexed()
    ensures forall i :: 0 <= i < 5 ==> ACCESS_COLUMNS[i] != [] && IndexOf(ACCESS_COLUMNS, ACCESS_COLUMNS[i]) == i
    ensures forall i :: 0 <= i < 4 ==>
        OCCUPANCY_COLUMNS[i] != [] && IndexOf(OCCUPANCY_COLUMNS, OCCUPANCY_COLUMNS[i]) == i
    ensures forall i :: 0 <= i < 4 ==> RESULT_COLUMNS[i] != [] && IndexOf(RESULT_COLUMNS, RESULT_COLUMNS[i]) == i
  {
    AccessColumns();
    OccupancyColumns();
    ResultColumns();
  }

  lemma IndexedNames(names: seq<string>)
    requires AllPlain(names) && forall i :: 0 <= i < |names| ==> names[i] != [] && IndexOf(names, names[i]) == i
    ensures GoodNames(names)
  {
  }

  predicate WithinLimits(t: Table) {
    |t.rows| <= 500000 && |FileText(t.columns, t.rows)| <= 33554432
  }

  /** The table's text loads back as the table within the size limits, and beyond them it does not load at all. */
  ghost predicate LoadsBack(t: Table) {
    var r := LoadText(t.columns, FileText(t.columns, t.rows));
    if WithinLimits(t) then r == Outcome.Read(t) else r.Failed?
  }

  lemma TextLoads(t: Table)
    requires |t.columns| > 1 && GoodNames(t.columns) && GoodRows(|t.columns|, t.rows)
    requires t.columns[0][0] != '\U{EF}' && t.columns[0][0] != '"'
    ensures LoadsBack(t)
  {
    var text := FileText(t.columns, t.rows);
    FirstCellBegins(t.columns);
    assert text[0] != '\U{EF}';
    forall k | 0 <= k < |t.rows| ensures t.rows[k] != [""] { assert |t.rows[k]| == |t.columns|; }
    if WithinLimits(t) {
      StorableLoads(t.columns, t.columns, t.rows);
    } else if |t.rows| > MAX_ROWS {
      TooLongFails(t.columns, t.columns, t.rows);
    }
  }

  /** Each of the three written files loads back within the size limits, and does not load beyond them. */
  lemma WrittenFilesLoad(inst: Instance, scen: Scenario, s: seq<Access>, slots: Slots, bs: seq<Booking>, t: Tables)
    requires PlainNames(inst) && TablesOf(inst, scen, s, slots, bs, t)
    ensures LoadsBack(t.access) && LoadsBack(t.occupancy) && LoadsBack(t.results)
  {
    HeaderNames();
    AccessRowsPlain(inst, FileOrder(inst, s), t.access);
    BookingRowsPlain(inst, bs, t.occupancy);
    ResultRowsPlain(inst, scen, XOf(s), t.results);
    assert ACCESS_COLUMNS[0][0] == 'a' && OCCUPANCY_COLUMNS[0][0] == 'a' && RESULT_COLUMNS[0][0] == 's';
    TextLoads(t.access);
    TextLoads(t.occupancy);
    TextLoads(t.results);
  }

  // --- through the files -----------------------------------------------------------------------------

  /** Writes a table as text. */
  method Store(t: Table) returns (text: string)
    ensures text == FileText(t.columns, t.rows)
  {
    var w := new Writer(t.columns, false);
    ShownPlain(t.columns);
    assert t.rows[0..] == t.rows;
    for i := 0 to |t.rows|
      invariant !w.escape && w.buf + Body(t.rows[i..]) == FileText(t.columns, t.rows)
    {
      BodyStep(w.buf, t.rows, i);
      ShownPlain(t.rows[i]);
      w.Row(t.rows[i]);
    }
    text := w.buf;
  }

  lemma ShownPlain(cells: seq<string>)
    ensures Shown(false, cells) == cells
  {
  }

  lemma BodyStep(buf: string, rows: seq<seq<string>>, i: nat)
    requires i < |rows|
    ensures buf + RecordText(rows[i]) + ['\n'] + Body(rows[i + 1..]) == buf + Body(rows[i..])
  {
    var line, rest := RecordText(rows[i]), Body(rows[i + 1..]);
    assert rows[i..][1..] == rows[i + 1..];
    Regroup(buf, line, ['\n'], rest);
  }

  ghost predicate AllWithinLimits(t: Tables) {
    WithinLimits(t.access) && WithinLimits(t.occupancy) && WithinLimits(t.results)
  }

  /** Writes the three files and loads them; the tables come back whole, or some file is beyond the limits. */
  method ThroughFiles(t: Tables) returns (read: Option<Tables>)
    requires LoadsBack(t.access) && LoadsBack(t.occupancy) && LoadsBack(t.results)
    ensures read == if AllWithinLimits(t) then Some(t) else None
  {
    var access := StoreAndLoad(t.access);
    var occupancy := StoreAndLoad(t.occupancy);
    var results := StoreAndLoad(t.results);
    if access.None? || occupancy.None? || results.None? { return None; }
    return Some(Tables(access.value, occupancy.value, results.value));
  }

  method StoreAndLoad(t: Table) returns (read: Option<Table>)
    requires LoadsBack(t)
    ensures read == if WithinLimits(t) then Some(t) else None
  {
    var text := Store(t);
    var r := Load(t.columns, text);
    match r {
      case Read(table) => read := Some(table);
      case Failed(_) => read := None;
    }
  }
}
