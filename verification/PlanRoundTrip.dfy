/** What the written tables read back as. */
module PlanRoundTrip {
  import opened Model
  import opened Decimal
  import opened Calendar
  import opened CsvTable
  import opened PlanTables
  import opened Plans
  import opened Soundness
  import opened Schedule
  import opened PlanLoad
  import opened PlanExport

  // --- columns ---------------------------------------------------------------------------------

  lemma AccessColumns()
    ensures IndexOf(ACCESS_COLUMNS, "activity_id") == 0 && IndexOf(ACCESS_COLUMNS, "access_seq") == 1
    ensures IndexOf(ACCESS_COLUMNS, "week") == 2 && IndexOf(ACCESS_COLUMNS, "eclo") == 3
    ensures IndexOf(ACCESS_COLUMNS, "access_night") == 4
  {
    assert ACCESS_COLUMNS[0] == "activity_id" && ACCESS_COLUMNS[1] == "access_seq" && ACCESS_COLUMNS[2] == "week"
        && ACCESS_COLUMNS[3] == "eclo" && ACCESS_COLUMNS[4] == "access_night";
    assert |"activity_id"| == 11 && |"access_seq"| == 10 && |"week"| == 4 && |"eclo"| == 4 && |"access_night"| == 12;
    assert "week"[0] != "eclo"[0];
  }

  lemma OccupancyColumns()
    ensures IndexOf(OCCUPANCY_COLUMNS, "activity_id") == 0 && IndexOf(OCCUPANCY_COLUMNS, "week") == 1
    ensures IndexOf(OCCUPANCY_COLUMNS, "location_id") == 2 && IndexOf(OCCUPANCY_COLUMNS, "co_share_group") == 3
  {
    assert OCCUPANCY_COLUMNS[0] == "activity_id" && OCCUPANCY_COLUMNS[1] == "week"
        && OCCUPANCY_COLUMNS[2] == "location_id" && OCCUPANCY_COLUMNS[3] == "co_share_group";
    assert |"activity_id"| == 11 && |"week"| == 4 && |"location_id"| == 11 && |"co_share_group"| == 14;
    assert "activity_id"[0] != "location_id"[0];
  }

  lemma ResultColumns()
    ensures IndexOf(RESULT_COLUMNS, "scenario") == 0 && IndexOf(RESULT_COLUMNS, "contract_number") == 1
    ensures IndexOf(RESULT_COLUMNS, "simulated_completion_date") == 2 && IndexOf(RESULT_COLUMNS, "overrun_days") == 3
  {
    assert RESULT_COLUMNS[0] == "scenario" && RESULT_COLUMNS[1] == "contract_number"
        && RESULT_COLUMNS[2] == "simulated_completion_date" && RESULT_COLUMNS[3] == "overrun_days";
    assert |"scenario"| == 8 && |"contract_number"| == 15 && |"simulated_completion_date"| == 25
        && |"overrun_days"| == 12;
  }

  lemma ActivityFound(inst: Instance, a: nat)
    requires DistinctIds(inst) && a < |inst.activities|
    ensures ActivityById(inst, IdOf(inst, a)) == Some(a)
  {
    var found := ActivityById(inst, IdOf(inst, a));
    assert found.Some?;
  }

  lemma LocationFound(inst: Instance, l: nat)
    requires Named(inst) && l < |inst.locations|
    ensures LocationById(inst, LocOf(inst, l)) == Some(l)
  {
    var found := LocationById(inst, LocOf(inst, l));
    assert found.Some?;
  }

  // --- accesses ----------------------------------------------------------------------------------------

  /** An access as every plan file can hold it. */
  ghost predicate Writable(inst: Instance, a: Access) {
    a.activity < |inst.activities| && 1 <= a.week <= inst.weeks && 1 <= a.night <= 7
  }

  lemma EcloReadsBack(eclo: bool)
    ensures ParseInt(if eclo then "1" else "0") == Some(if eclo then 1 else 0)
  {
    ParsePrint(1);
    ParsePrint(0);
    assert Print(1) == "1" && Print(0) == "0";
  }

  lemma AccessReadsBack(inst: Instance, t: Table, r: nat, a: Access, number: int)
    requires Wellformed(inst) && Labelled(inst) && Writable(inst, a) && 1 <= number <= 100000
    requires t.columns == ACCESS_COLUMNS && r < |t.rows| && t.rows[r] == AccessCells(inst, a, number)
    ensures AccessOfRow(inst, t, r) == Some(a.(accessSeq := number))
  {
    AccessColumns();
    ActivityFound(inst, a.activity);
    ParsePrint(number);
    ParsePrint(a.week);
    ParsePrint(a.night);
    EcloReadsBack(a.eclo);
  }

  /** The accesses as written: in file order, numbered. */
  ghost function Exported(inst: Instance, s: seq<Access>): (r: seq<Access>)
    ensures |r| == |s|
    ensures forall i: nat :: i < |r| ==>
      r[i] == FileOrder(inst, s)[i].(accessSeq := NumberAt(inst, FileOrder(inst, s), i))
  {
    seq(|s|, i requires 0 <= i < |s| => FileOrder(inst, s)[i].(accessSeq := NumberAt(inst, FileOrder(inst, s), i)))
  }

  ghost predicate AllWritable(inst: Instance, s: seq<Access>) {
    Distinct(s) && forall a :: a in s ==> Writable(inst, a)
  }

  lemma AccessesReadBack(inst: Instance, s: seq<Access>, t: Table)
    requires Wellformed(inst) && Labelled(inst) && AllWritable(inst, s) && AccessTableOf(inst, FileOrder(inst, s), t)
    ensures ReadAs(|t.rows|, AccessReader(inst, t), Exported(inst, s))
  {
    var r := FileOrder(inst, s);
    OrderedKeeps(inst, s);
    forall i | 0 <= i < |r| ensures Writable(inst, r[i]) { assert r[i] in s; }
    forall i: nat | i < |r| ensures AccessReader(inst, t)(i) == Some(Exported(inst, s)[i]) {
      NumberIsPosition(inst, r, i);
      AccessReadsBack(inst, t, i, r[i], NumberAt(inst, r, i));
    }
  }

  // --- occupancy -----------------------------------------------------------------------------------------

  ghost predicate AllLabelled(inst: Instance, slots: Slots) {
    forall b :: IsBooking(slots, b) ==> InRange(inst, b) && b.slot <= INT_MAX
  }

  lemma BookingReadsBack(inst: Instance, t: Table, r: nat, b: Booking)
    requires Wellformed(inst) && Named(inst) && Labelled(inst) && InRange(inst, b) && b.slot <= INT_MAX
    requires t.columns == OCCUPANCY_COLUMNS && r < |t.rows| && t.rows[r] == BookingCells(inst, b)
    ensures BookingOfRow(inst, t, r) == Some(b)
  {
    OccupancyColumns();
    ActivityFound(inst, b.activity);
    LocationFound(inst, b.location);
    ParsePrint(b.week);
    LabelReadsBack(b.slot);
  }

  lemma BookingsReadBack(inst: Instance, slots: Slots, bs: seq<Booking>, t: Table)
    requires Wellformed(inst) && Named(inst) && Labelled(inst) && AllLabelled(inst, slots)
    requires OccupancyTableOf(inst, bs, t) && forall b :: b in bs <==> IsBooking(slots, b)
    ensures ReadAs(|t.rows|, BookingReader(inst, t), bs)
  {
    forall i: nat | i < |bs| ensures BookingReader(inst, t)(i) == Some(bs[i]) {
      assert bs[i] in bs;
      BookingReadsBack(inst, t, i, bs[i]);
    }
  }

  /** got holds only labels of slots. */
  ghost predicate PartOf(got: Slots, slots: Slots) {
    forall l: nat, w: int, a: nat :: (l, w) in got && a in got[(l, w)] ==>
      (l, w) in slots && a in slots[(l, w)] && got[(l, w)][a] == slots[(l, w)][a]
  }

  ghost predicate NoneEmptyCell(slots: Slots) {
    forall k :: k in slots ==> slots[k] != map[]
  }

  lemma BookedIsPart(got: Slots, slots: Slots, b: Booking)
    requires PartOf(got, slots) && NoneEmptyCell(got) && IsBooking(slots, b)
    ensures PartOf(Booked(got, b), slots) && NoneEmptyCell(Booked(got, b)) && IsBooking(Booked(got, b), b)
  {
    var next := Booked(got, b);
    forall k | k in next ensures next[k] != map[] {
      if k == (b.location, b.week) { assert b.activity in next[k]; }
    }
  }

  lemma BookedKeeps(got: Slots, slots: Slots, b: Booking, c: Booking)
    requires PartOf(got, slots) && IsBooking(slots, b) && IsBooking(slots, c) && IsBooking(got, c)
    ensures IsBooking(Booked(got, b), c)
  {
  }

  lemma {:induction false} RebuiltPart(slots: Slots, bs: seq<Booking>, n: nat)
    requires n <= |bs| && forall b :: b in bs <==> IsBooking(slots, b)
    ensures PartOf(SlotsAfter(bs, n), slots) && NoneEmptyCell(SlotsAfter(bs, n))
    ensures forall i :: 0 <= i < n ==> IsBooking(SlotsAfter(bs, n), bs[i])
  {
    if n > 0 {
      RebuiltPart(slots, bs, n - 1);
      assert bs[n - 1] in bs;
      BookedIsPart(SlotsAfter(bs, n - 1), slots, bs[n - 1]);
      forall i | 0 <= i < n ensures IsBooking(SlotsAfter(bs, n), bs[i]) {
        assert bs[i] in bs;
        if i < n - 1 { BookedKeeps(SlotsAfter(bs, n - 1), slots, bs[n - 1], bs[i]); }
      }
    }
  }

  /** Two slot maps with the same labels and no empty cell are equal. */
  lemma SameLabels(got: Slots, slots: Slots)
    requires PartOf(got, slots) && PartOf(slots, got) && NoneEmptyCell(got) && NoneEmptyCell(slots)
    ensures got == slots
  {
    CellsWithin(got, slots);
    CellsWithin(slots, got);
    forall k | k in slots ensures got[k] == slots[k] {
      var l, w := k.0, k.1;
      assert k == (l, w);
      assert forall a: nat :: a in got[(l, w)] <==> a in slots[(l, w)];
    }
  }

  lemma CellsWithin(got: Slots, slots: Slots)
    requires PartOf(got, slots) && NoneEmptyCell(got)
    ensures got.Keys <= slots.Keys
  {
    forall k | k in got ensures k in slots {
      var l, w := k.0, k.1;
      assert k == (l, w) && got[k].Keys != {};
      var a :| a in got[(l, w)];
    }
  }

  /** Read back in any order, the bookings rebuild the same slots. */
  lemma SlotsRebuilt(slots: Slots, bs: seq<Booking>)
    requires NoneEmptyCell(slots) && forall b :: b in bs <==> IsBooking(slots, b)
    ensures SlotsAfter(bs, |bs|) == slots
  {
    var got := SlotsAfter(bs, |bs|);
    RebuiltPart(slots, bs, |bs|);
    forall l: nat, w: int, a: nat | (l, w) in slots && a in slots[(l, w)]
      ensures (l, w) in got && a in got[(l, w)] && got[(l, w)][a] == slots[(l, w)][a]
    {
      var b := Booking(a, w, l, slots[(l, w)][a]);
      assert IsBooking(slots, b) && b in bs;
      var i :| 0 <= i < |bs| && bs[i] == b;
      assert IsBooking(got, bs[i]);
    }
    SameLabels(got, slots);
  }

  // --- results -----------------------------------------------------------------------------------------------

  /** A completion the results file can hold. */
  predicate Datable(r: ResultRow) { ShortYear(r.completion) && r.overrun <= 100000 }

  lemma ResultReadsBack(t: Table, i: nat, r: ResultRow)
    requires t.columns == RESULT_COLUMNS && i < |t.rows| && t.rows[i] == ResultCells(r)
    requires r.number != [] && 0 <= r.overrun
    ensures ResultOfRow(t, i) == if Datable(r) then Some(r) else None
  {
    ResultColumns();
    ScenarioReadsBack(r.scenario);
    IsoRoundTrip(r.completion);
    if r.overrun <= INT_MAX { ParsePrint(r.overrun); } else { TooLargeToParse(r.overrun); }
  }

  lemma ScenarioCell(rows: seq<ResultRow>, t: Table, i: nat)
    requires ResultTableOf(rows, t) && i < |rows|
    ensures Text(t, i, "scenario") == ScenarioText(rows[i].scenario)
  {
    ResultColumns();
    assert t.rows[i] == ResultCells(rows[i]);
  }

  lemma {:induction false} NamedThroughout(t: Table, name: string, n: nat)
    requires name != [] && forall i: nat :: i < n ==> Text(t, i, "scenario") == name
    ensures ScenarioNamed(t, n) == if n == 0 then [] else name
  {
    if n > 0 { NamedThroughout(t, name, n - 1); }
  }

  lemma NoneOffScenario(rows: seq<ResultRow>, t: Table, scen: Scenario)
    requires ResultTableOf(rows, t) && forall i :: 0 <= i < |rows| ==> rows[i].scenario == scen
    ensures NoneOff(t)
    ensures ParseScenario(ScenarioNamed(t, |t.rows|)) == if rows == [] then None else Some(scen)
  {
    var name := ScenarioText(scen);
    ScenarioReadsBack(scen);
    forall i: nat | i < |rows| ensures Text(t, i, "scenario") == name { ScenarioCell(rows, t, i); }
    NamedThroughout(t, name, |rows|);
    forall r: nat | r < |t.rows| ensures !OffScenario(t, r) { NamedThroughout(t, name, r); }
  }

  /** Every result row is of the scenario and names a contract; its overrun is a plain difference of days. */
  lemma ResultRowsShape(inst: Instance, scen: Scenario, x: Grid)
    requires Labelled(inst)
    ensures forall i :: 0 <= i < |ResultRows(inst, scen, x, |inst.contracts|)| ==>
      var r := ResultRows(inst, scen, x, |inst.contracts|)[i];
      r.scenario == scen && r.number != [] && 0 <= r.overrun
  {
    var rows := ResultRows(inst, scen, x, |inst.contracts|);
    ResultRowsSound(inst, scen, x, |inst.contracts|);
    forall i | 0 <= i < |rows| ensures rows[i].scenario == scen && rows[i].number != [] && 0 <= rows[i].overrun {
      assert rows[i] in rows;
      var c: nat :| c < |inst.contracts| && RowFor(inst, scen, x, rows[i], c);
    }
  }

  ghost predicate AllDatable(rows: seq<ResultRow>) {
    rows != [] && forall i: nat :: i < |rows| ==> Datable(rows[i])
  }

  /** The row of contract c. */
  ghost function RowOf(inst: Instance, scen: Scenario, x: Grid, c: nat): ResultRow
    requires c < |inst.contracts|
  {
    var sunday := SundayOfWeek(inst, ContractLastIn(inst, x, c, inst.weeks));
    ResultRow(scen, inst.contracts[c].number, sunday, Max0(sunday - inst.contracts[c].planned))
  }

  lemma {:induction false} RowListed(inst: Instance, scen: Scenario, x: Grid, n: nat, c: nat)
    requires c < n <= |inst.contracts| && ContractLastIn(inst, x, c, inst.weeks) > 0
    ensures RowOf(inst, scen, x, c) in ResultRows(inst, scen, x, n)
  {
    if c < n - 1 { RowListed(inst, scen, x, n - 1, c); }
  }

  /** The Sunday of week w is of the years 1900 to 2999 and at most 100000 days past c's planned date. */
  ghost predicate DatedWithin(inst: Instance, c: nat, w: int)
    requires c < |inst.contracts|
  {
    var sunday := inst.start + 7 * w - 1;
    1900 <= CivilFromDays(sunday).0 <= 2999 && sunday - inst.contracts[c].planned <= 100000
  }

  lemma DatableSpelled(inst: Instance, scen: Scenario, x: Grid, c: nat)
    requires c < |inst.contracts|
    ensures Datable(RowOf(inst, scen, x, c)) <==> DatedWithin(inst, c, ContractLastIn(inst, x, c, inst.weeks))
  {
    assert SundayOfWeek(inst, ContractLastIn(inst, x, c, inst.weeks))
        == inst.start + 7 * ContractLastIn(inst, x, c, inst.weeks) - 1;
  }

  lemma DatableRows(inst: Instance, scen: Scenario, x: Grid)
    requires Wellformed(inst) && InHorizon(inst, x)
    ensures AllDatable(ResultRows(inst, scen, x, |inst.contracts|)) <==>
      && x != {}
      && forall c: nat :: c < |inst.contracts| && ContractLastIn(inst, x, c, inst.weeks) > 0 ==>
          Datable(RowOf(inst, scen, x, c))
  {
    var rows := ResultRows(inst, scen, x, |inst.contracts|);
    forall c: nat | c < |inst.contracts| && ContractLastIn(inst, x, c, inst.weeks) > 0
      ensures RowOf(inst, scen, x, c) in rows
    {
      RowListed(inst, scen, x, |inst.contracts|, c);
    }
    ResultRowsSound(inst, scen, x, |inst.contracts|);
    forall i: nat | i < |rows|
      ensures exists c: nat ::
                c < |inst.contracts| && ContractLastIn(inst, x, c, inst.weeks) > 0 && rows[i] == RowOf(inst, scen, x, c)
    {
      assert rows[i] in rows;
      var c: nat :| c < |inst.contracts| && RowFor(inst, scen, x, rows[i], c);
      assert rows[i] == RowOf(inst, scen, x, c);
    }
    RowsWhenWorking(inst, scen, x);
  }

  /** The results can be read exactly when something is scheduled and every completion can be written. */
  lemma DatableMeans(inst: Instance, scen: Scenario, x: Grid)
    requires Wellformed(inst) && InHorizon(inst, x)
    ensures AllDatable(ResultRows(inst, scen, x, |inst.contracts|)) <==>
      && x != {}
      && forall c: nat :: c < |inst.contracts| && ContractLastIn(inst, x, c, inst.weeks) > 0 ==>
          DatedWithin(inst, c, ContractLastIn(inst, x, c, inst.weeks))
  {
    DatableRows(inst, scen, x);
    forall c: nat | c < |inst.contracts|
      ensures Datable(RowOf(inst, scen, x, c)) <==> DatedWithin(inst, c, ContractLastIn(inst, x, c, inst.weeks))
    {
      DatableSpelled(inst, scen, x, c);
    }
  }

  lemma RowsWhenWorking(inst: Instance, scen: Scenario, x: Grid)
    requires Wellformed(inst) && InHorizon(inst, x)
    ensures ResultRows(inst, scen, x, |inst.contracts|) == [] <==> x == {}
  {
    var rows := ResultRows(inst, scen, x, |inst.contracts|);
    if x != {} {
      var p: (nat, int) :| p in x;
      var a, w := p.0, p.1;
      assert p == (a, w) && ValidActivity(inst, inst.activities[a]);
      ContractLastInProps(inst, x, inst.activities[a].contract, inst.weeks);
      RowListed(inst, scen, x, |inst.contracts|, inst.activities[a].contract);
    }
    if rows != [] {
      ResultRowsSound(inst, scen, x, |inst.contracts|);
      assert rows[0] in rows;
      var c: nat :| c < |inst.contracts| && RowFor(inst, scen, x, rows[0], c);
      ContractLastInProps(inst, x, c, inst.weeks);
    }
  }

  lemma ResultsReadBack(rows: seq<ResultRow>, t: Table)
    requires ResultTableOf(rows, t)
    requires forall i :: 0 <= i < |rows| ==> rows[i].number != [] && 0 <= rows[i].overrun
    ensures AllRead(|t.rows|, ResultReader(t)) <==> forall i: nat :: i < |rows| ==> Datable(rows[i])
    ensures AllRead(|t.rows|, ResultReader(t)) ==> ReadAs(|t.rows|, ResultReader(t), rows)
  {
    forall i: nat | i < |rows| ensures ResultReader(t)(i) == if Datable(rows[i]) then Some(rows[i]) else None {
      ResultReadsBack(t, i, rows[i]);
    }
  }

  // --- the whole plan ------------------------------------------------------------------------------------------

  /** A plan whose tables are well formed whatever its dates are. */
  ghost predicate Tabular(inst: Instance, s: seq<Access>, slots: Slots) {
    AllWritable(inst, s) && NoneEmptyCell(slots) && AllLabelled(inst, slots)
  }

  lemma ReadIsAll<T>(n: nat, read: nat -> Option<T>, s: seq<T>)
    requires ReadAs(n, read, s)
    ensures AllRead(n, read)
  {
  }

  lemma ReadIsUnique<T>(n: nat, read: nat -> Option<T>, s: seq<T>, s': seq<T>)
    requires ReadAs(n, read, s) && ReadAs(n, read, s')
    ensures s == s'
  {
    forall i: nat | i < n ensures s[i] == s'[i] { assert read(i) == Some(s[i]) && read(i) == Some(s'[i]); }
  }

  /** The written tables can be read exactly when there is a result row and every completion is datable. */
  lemma WrittenIsReadable(inst: Instance, scen: Scenario, s: seq<Access>, slots: Slots, bs: seq<Booking>, t: Tables)
    requires Wellformed(inst) && Named(inst) && Labelled(inst) && Tabular(inst, s, slots)
    requires TablesOf(inst, scen, s, slots, bs, t)
    ensures Readable(inst, t) <==> AllDatable(ResultRows(inst, scen, XOf(s), |inst.contracts|))
  {
    var rows := ResultRows(inst, scen, XOf(s), |inst.contracts|);
    AccessesReadBack(inst, s, t.access);
    ReadIsAll(|t.access.rows|, AccessReader(inst, t.access), Exported(inst, s));
    BookingsReadBack(inst, slots, bs, t.occupancy);
    ReadIsAll(|t.occupancy.rows|, BookingReader(inst, t.occupancy), bs);
    ResultRowsShape(inst, scen, XOf(s));
    NoneOffScenario(rows, t.results, scen);
    ResultsReadBack(rows, t.results);
  }

  /** What is read back is the plan that was written, in file order, numbered, with its labels counted. */
  lemma ReadingIsWritten(inst: Instance, scen: Scenario, s: seq<Access>, slots: Slots, bs: seq<Booking>, t: Tables,
                         overrides: seq<(string, int, int)>, read: seq<Booking>, plan: Plan)
    requires Wellformed(inst) && Named(inst) && Labelled(inst) && Tabular(inst, s, slots)
    requires TablesOf(inst, scen, s, slots, bs, t)
    requires Readable(inst, t) && Reads(inst, t, overrides, read, plan)
    ensures plan.scenario == scen && plan.overrides == overrides
    ensures plan.accesses == Exported(inst, s) && plan.slots == slots
    ensures plan.slotsUsed.Keys == slots.Keys && LabelsCounted(plan)
    ensures plan.results == ResultRows(inst, scen, XOf(s), |inst.contracts|)
  {
    var rows := ResultRows(inst, scen, XOf(s), |inst.contracts|);
    AccessesReadBack(inst, s, t.access);
    ReadIsUnique(|t.access.rows|, AccessReader(inst, t.access), Exported(inst, s), plan.accesses);
    BookingsReadBack(inst, slots, bs, t.occupancy);
    ReadIsUnique(|t.occupancy.rows|, BookingReader(inst, t.occupancy), bs, read);
    SlotsRebuilt(slots, bs);
    ResultRowsShape(inst, scen, XOf(s));
    NoneOffScenario(rows, t.results, scen);
    ResultsReadBack(rows, t.results);
    ReadIsUnique(|t.results.rows|, ResultReader(t.results), rows, plan.results);
  }

  /** Numbered in file order, assigned accesses are the accesses of the plan of (x, e). */
  lemma ExportedAccesses(inst: Instance, x: Grid, e: Grid, s: seq<Access>)
    requires Wellformed(inst) && InHorizon(inst, x) && Distinct(s) && XOf(s) == x && EOf(s) == e
    requires NightsAssigned(inst, x, s)
    ensures AccessesOf(inst, x, e, Exported(inst, s))
  {
    var r, t := FileOrder(inst, s), Exported(inst, s);
    OrderedKeeps(inst, s);
    KeysKept(r, t);
    forall i | 0 <= i < |t|
      ensures (t[i].activity, t[i].week) in x && t[i].night == NightAt(inst, x, t[i].activity, t[i].week)
      ensures t[i].accessSeq == SeqOf(x, t[i].activity, t[i].week)
    {
      assert r[i] in s;
      var j :| 0 <= j < |s| && s[j] == r[i];
      assert (s[j].activity, s[j].week) in x;
      forall k | 0 <= k < |r| ensures r[k].activity < |inst.activities| { AccessIn(r, k); }
      NumberIsPosition(inst, r, i);
    }
  }

  lemma KeysKept(r: seq<Access>, t: seq<Access>)
    requires |t| == |r| && forall i :: 0 <= i < |r| ==> t[i] == r[i].(accessSeq := t[i].accessSeq)
    ensures XOf(t) == XOf(r) && EOf(t) == EOf(r) && (Distinct(r) ==> Distinct(t))
  {
    forall p | p in XOf(r) ensures p in XOf(t) {
      var i :| 0 <= i < |r| && p == (r[i].activity, r[i].week);
      assert t[i].week == r[i].week;
    }
    forall p | p in EOf(r) ensures p in EOf(t) {
      var i :| 0 <= i < |r| && r[i].eclo && p == (r[i].activity, r[i].week);
      assert t[i].week == r[i].week;
    }
  }
}
