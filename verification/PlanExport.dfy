/** Writing a plan's three tables: accesses by id and week, occupancy by id, week and location, results by contract. */
module PlanExport {
  import opened Model
  import opened Sorting
  import opened Decimal
  import opened Calendar
  import opened CsvTable
  import opened PlanTables
  import opened Plans
  import opened Soundness
  import opened Schedule
  import opened Scoring

  /** One row of cells per entry. */
  method RowsFor<T>(entries: seq<T>, cells: T -> seq<string>) returns (rows: seq<seq<string>>)
    ensures |rows| == |entries| && forall i: nat :: i < |entries| ==> rows[i] == cells(entries[i])
  {
    rows := [];
    for i := 0 to |entries|
      invariant |rows| == i && forall j: nat :: j < i ==> rows[j] == cells(entries[j])
    {
      rows := rows + [cells(entries[i])];
    }
  }

  // --- the order of the access rows --------------------------------------------------------------

  predicate AccessLe(inst: Instance, x: Access, y: Access) {
    var i, j := IdOf(inst, x.activity), IdOf(inst, y.activity);
    if i != j then StrLess(i, j) else x.week <= y.week
  }

  function AccessOrder(inst: Instance): (Access, Access) -> bool {
    (x: Access, y: Access) => AccessLe(inst, x, y)
  }

  lemma AccessLeTotal(inst: Instance, x: Access, y: Access)
    ensures AccessLe(inst, x, y) || AccessLe(inst, y, x)
  {
    StrLessTotal(IdOf(inst, x.activity), IdOf(inst, y.activity));
  }

  lemma AccessLeTransitive(inst: Instance, x: Access, y: Access, z: Access)
    requires AccessLe(inst, x, y) && AccessLe(inst, y, z)
    ensures AccessLe(inst, x, z)
  {
    var i, j, k := IdOf(inst, x.activity), IdOf(inst, y.activity), IdOf(inst, z.activity);
    if i != j && j != k {
      StrLessTransitive(i, j, k);
      StrLessIrreflexive(i);
    }
  }

  lemma AccessOrderIsTotal(inst: Instance)
    ensures TotalPreorder(AccessOrder(inst))
  {
    var le := AccessOrder(inst);
    forall x, y ensures le(x, y) || le(y, x) { AccessLeTotal(inst, x, y); }
    forall x, y, z | le(x, y) && le(y, z) ensures le(x, z) { AccessLeTransitive(inst, x, y, z); }
  }

  /** The accesses in file order. */
  function FileOrder(inst: Instance, s: seq<Access>): (r: seq<Access>)
    ensures |r| == |s|
  {
    Sorted(s, AccessOrder(inst))
  }

  /** access_seq of the i-th row: it restarts with every activity. */
  function NumberAt(inst: Instance, r: seq<Access>, i: nat): (n: nat)
    requires i < |r|
    ensures 1 <= n <= i + 1
  {
    if i > 0 && IdOf(inst, r[i - 1].activity) == IdOf(inst, r[i].activity) then NumberAt(inst, r, i - 1) + 1 else 1
  }

  function AccessCells(inst: Instance, a: Access, number: int): seq<string> {
    [IdOf(inst, a.activity), Print(number), Print(a.week), if a.eclo then "1" else "0", Print(a.night)]
  }

  ghost predicate AccessTableOf(inst: Instance, r: seq<Access>, t: Table) {
    && t.columns == ACCESS_COLUMNS && |t.rows| == |r|
    && forall i: nat :: i < |r| && i < |t.rows| ==> t.rows[i] == AccessCells(inst, r[i], NumberAt(inst, r, i))
  }

  /** The rows of the first n accesses. */
  ghost predicate AccessRows(inst: Instance, r: seq<Access>, rows: seq<seq<string>>, n: nat) {
    |rows| == n <= |r| && forall i: nat :: i < n ==> rows[i] == AccessCells(inst, r[i], NumberAt(inst, r, i))
  }

  lemma AppendAccess(inst: Instance, r: seq<Access>, rows: seq<seq<string>>, n: nat, row: seq<string>)
    requires AccessRows(inst, r, rows, n) && n < |r| && row == AccessCells(inst, r[n], NumberAt(inst, r, n))
    ensures AccessRows(inst, r, rows + [row], n + 1)
  {
  }

  /** previous and number are the activity id and access_seq of the row before row i. */
  ghost predicate NumberedBefore(inst: Instance, r: seq<Access>, i: nat, previous: string, number: nat) {
    if i == 0 then number == 0
    else i <= |r| && previous == IdOf(inst, r[i - 1].activity) && number == NumberAt(inst, r, i - 1)
  }

  lemma NextNumber(inst: Instance, r: seq<Access>, i: nat, previous: string, number: nat)
    requires i < |r| && NumberedBefore(inst, r, i, previous, number)
    ensures NumberAt(inst, r, i) == if IdOf(inst, r[i].activity) == previous then number + 1 else 1
  {
  }

  method ExportAccesses(inst: Instance, s: seq<Access>) returns (t: Table)
    ensures AccessTableOf(inst, FileOrder(inst, s), t)
  {
    var r := FileOrder(inst, s);
    var rows: seq<seq<string>> := [];
    var previous: string, number := [], 0;
    for i := 0 to |r|
      invariant AccessRows(inst, r, rows, i) && NumberedBefore(inst, r, i, previous, number)
    {
      var id := IdOf(inst, r[i].activity);
      NextNumber(inst, r, i, previous, number);
      number := if id == previous then number + 1 else 1;
      previous := id;
      var row := AccessCells(inst, r[i], number);
      AppendAccess(inst, r, rows, i, row);
      rows := rows + [row];
    }
    t := Table(ACCESS_COLUMNS, rows);
  }

  // --- what the numbering means ------------------------------------------------------------------------

  ghost predicate InFileOrder(inst: Instance, r: seq<Access>) {
    forall i, j :: 0 <= i < j < |r| ==> AccessLe(inst, r[i], r[j])
  }

  /** Sorting keeps the accesses, and their keys stay apart. */
  lemma OrderedKeeps(inst: Instance, s: seq<Access>)
    ensures InFileOrder(inst, FileOrder(inst, s))
    ensures forall a :: a in FileOrder(inst, s) <==> a in s
    ensures XOf(FileOrder(inst, s)) == XOf(s) && EOf(FileOrder(inst, s)) == EOf(s)
    ensures Distinct(s) ==> Distinct(FileOrder(inst, s))
  {
    var r, le := FileOrder(inst, s), AccessOrder(inst);
    AccessOrderIsTotal(inst);
    SortedIsSorted(s, le);
    forall i, j | 0 <= i < j < |r| ensures AccessLe(inst, r[i], r[j]) { assert le(r[i], r[j]); }
    forall a ensures a in r <==> a in s { SameMembers(s, r, a); }
    SameAccesses(s, r);
    if Distinct(s) {
      NoRepeats(s, r);
      DistinctFromMembers(s, r);
    }
  }

  lemma SameAccesses(s: seq<Access>, r: seq<Access>)
    requires forall a :: a in r <==> a in s
    ensures XOf(r) == XOf(s) && EOf(r) == EOf(s)
  {
    KeysWithin(s, r);
    KeysWithin(r, s);
  }

  lemma KeysWithin(s: seq<Access>, r: seq<Access>)
    requires forall a :: a in r ==> a in s
    ensures XOf(r) <= XOf(s) && EOf(r) <= EOf(s)
  {
    forall p | p in XOf(r) ensures p in XOf(s) {
      var i :| 0 <= i < |r| && p == (r[i].activity, r[i].week);
      assert r[i] in s;
      var j :| 0 <= j < |s| && s[j] == r[i];
    }
    forall p | p in EOf(r) ensures p in EOf(s) {
      var i :| 0 <= i < |r| && r[i].eclo && p == (r[i].activity, r[i].week);
      assert r[i] in s;
      var j :| 0 <= j < |s| && s[j] == r[i];
    }
  }

  lemma DistinctFromMembers(s: seq<Access>, r: seq<Access>)
    requires Distinct(s) && forall a :: a in r ==> a in s
    requires forall i, j :: 0 <= i < j < |r| ==> r[i] != r[j]
    ensures Distinct(r)
  {
    forall i, j | 0 <= i < j < |r| ensures r[i].activity != r[j].activity || r[i].week != r[j].week {
      assert r[i] in s && r[j] in s;
      var p :| 0 <= p < |s| && s[p] == r[i];
      var q :| 0 <= q < |s| && s[q] == r[j];
    }
  }

  lemma SameIdSameActivity(inst: Instance, a: nat, b: nat)
    requires DistinctIds(inst) && a < |inst.activities| && b < |inst.activities|
    requires IdOf(inst, a) == IdOf(inst, b)
    ensures a == b
  {
  }

  ghost predicate KnownActivities(inst: Instance, r: seq<Access>) {
    forall i :: 0 <= i < |r| ==> r[i].activity < |inst.activities|
  }

  /** Rows of one activity stand together, in week order. */
  lemma EarlierRow(inst: Instance, r: seq<Access>, j: nat, i: nat)
    requires DistinctIds(inst) && KnownActivities(inst, r) && InFileOrder(inst, r)
    requires j < i < |r| && r[j].activity == r[i].activity
    ensures r[i - 1].activity == r[i].activity && r[j].week <= r[i - 1].week <= r[i].week
  {
    var a, b := IdOf(inst, r[j].activity), IdOf(inst, r[i - 1].activity);
    assert AccessLe(inst, r[i - 1], r[i]);
    if j < i - 1 {
      assert AccessLe(inst, r[j], r[i - 1]);
      if a != b {
        StrLessTransitive(a, b, a);
        StrLessIrreflexive(a);
      }
      SameIdSameActivity(inst, r[j].activity, r[i - 1].activity);
    }
  }

  ghost function WeeksBelow(x: Grid, a: nat, w: int): Grid {
    set p | p in x && p.0 == a && p.1 < w
  }

  /** The weeks before row i: those of the row above, and that row's own, when it is of the same activity. */
  lemma WeeksAbove(inst: Instance, r: seq<Access>, i: nat)
    requires DistinctIds(inst) && KnownActivities(inst, r) && InFileOrder(inst, r) && Distinct(r) && i < |r|
    ensures var x, a, w := XOf(r), r[i].activity, r[i].week;
      WeeksBelow(x, a, w) == if i > 0 && r[i - 1].activity == a
                             then WeeksBelow(x, a, r[i - 1].week) + {(a, r[i - 1].week)} else {}
  {
    var x, a, w := XOf(r), r[i].activity, r[i].week;
    var rest := if i > 0 && r[i - 1].activity == a then WeeksBelow(x, a, r[i - 1].week) + {(a, r[i - 1].week)} else {};
    forall p | p in WeeksBelow(x, a, w) ensures p in rest {
      var j := AccessFor(r, p.0, p.1);
      assert j > i ==> AccessLe(inst, r[i], r[j]);
      EarlierRow(inst, r, j, i);
    }
    if i > 0 && r[i - 1].activity == a {
      AccessIn(r, i - 1);
      assert AccessLe(inst, r[i - 1], r[i]);
      assert r[i - 1].week < w;
    }
    assert rest <= WeeksBelow(x, a, w);
  }

  lemma PositionStep(inst: Instance, r: seq<Access>, i: nat)
    requires DistinctIds(inst) && KnownActivities(inst, r) && InFileOrder(inst, r) && Distinct(r) && 0 < i < |r|
    requires r[i - 1].activity == r[i].activity
    ensures SeqOf(XOf(r), r[i].activity, r[i].week) == SeqOf(XOf(r), r[i].activity, r[i - 1].week) + 1
    ensures r[i - 1].week < r[i].week
  {
    var x, a := XOf(r), r[i].activity;
    WeeksAbove(inst, r, i);
    var before := WeeksBelow(x, a, r[i - 1].week);
    assert (a, r[i - 1].week) !in before;
    assert |before + {(a, r[i - 1].week)}| == |before| + 1;
    assert AccessLe(inst, r[i - 1], r[i]);
  }

  lemma FirstPosition(inst: Instance, r: seq<Access>, i: nat)
    requires DistinctIds(inst) && KnownActivities(inst, r) && InFileOrder(inst, r) && Distinct(r) && i < |r|
    requires i == 0 || r[i - 1].activity != r[i].activity
    ensures SeqOf(XOf(r), r[i].activity, r[i].week) == 1
  {
    WeeksAbove(inst, r, i);
    assert WeeksBelow(XOf(r), r[i].activity, r[i].week) == {};
  }

  /** The printed access_seq is the position of the week among the activity's weeks. */
  lemma {:induction false} NumberIsPosition(inst: Instance, r: seq<Access>, i: nat)
    requires DistinctIds(inst) && KnownActivities(inst, r) && InFileOrder(inst, r) && Distinct(r) && i < |r|
    ensures NumberAt(inst, r, i) == SeqOf(XOf(r), r[i].activity, r[i].week)
    ensures (forall j :: 0 <= j <= i ==> 1 <= r[j].week) ==> NumberAt(inst, r, i) <= r[i].week
  {
    if i > 0 && IdOf(inst, r[i - 1].activity) == IdOf(inst, r[i].activity) {
      SameIdSameActivity(inst, r[i - 1].activity, r[i].activity);
      NumberIsPosition(inst, r, i - 1);
      PositionStep(inst, r, i);
    } else {
      FirstPosition(inst, r, i);
    }
  }

  // --- occupancy -----------------------------------------------------------------------------------------

  ghost predicate IsBooking(slots: Slots, b: Booking) {
    (b.location, b.week) in slots && b.activity in slots[(b.location, b.week)]
    && slots[(b.location, b.week)][b.activity] == b.slot
  }

  function LocOf(inst: Instance, l: nat): string {
    if l < |inst.locations| then inst.locations[l].id else ""
  }

  /** By activity id, then week, then location id, then label. */
  predicate BookingLe(inst: Instance, x: Booking, y: Booking) {
    var i, j := IdOf(inst, x.activity), IdOf(inst, y.activity);
    var l, m := LocOf(inst, x.location), LocOf(inst, y.location);
    if i != j then StrLess(i, j)
    else if x.week != y.week then x.week < y.week
    else if l != m then StrLess(l, m)
    else x.slot <= y.slot
  }

  function BookingOrder(inst: Instance): (Booking, Booking) -> bool {
    (x: Booking, y: Booking) => BookingLe(inst, x, y)
  }

  lemma BookingLeTotal(inst: Instance, x: Booking, y: Booking)
    ensures BookingLe(inst, x, y) || BookingLe(inst, y, x)
  {
    StrLessTotal(IdOf(inst, x.activity), IdOf(inst, y.activity));
    StrLessTotal(LocOf(inst, x.location), LocOf(inst, y.location));
  }

  lemma StrictThree(a: string, b: string, c: string)
    ensures StrLess(a, b) && StrLess(b, c) ==> StrLess(a, c) && a != c
  {
    if StrLess(a, b) && StrLess(b, c) {
      StrLessTransitive(a, b, c);
      StrLessIrreflexive(a);
    }
  }

  lemma BookingLeTransitive(inst: Instance, x: Booking, y: Booking, z: Booking)
    requires BookingLe(inst, x, y) && BookingLe(inst, y, z)
    ensures BookingLe(inst, x, z)
  {
    StrictThree(IdOf(inst, x.activity), IdOf(inst, y.activity), IdOf(inst, z.activity));
    StrictThree(LocOf(inst, x.location), LocOf(inst, y.location), LocOf(inst, z.location));
  }

  lemma BookingOrderIsTotal(inst: Instance)
    ensures TotalPreorder(BookingOrder(inst))
  {
    var le := BookingOrder(inst);
    forall x, y ensures le(x, y) || le(y, x) { BookingLeTotal(inst, x, y); }
    forall x, y, z | le(x, y) && le(y, z) ensures le(x, z) { BookingLeTransitive(inst, x, y, z); }
  }

  method BookingsAt(k: Cell, m: map<nat, int>) returns (bs: seq<Booking>)
    ensures forall b :: b in bs <==> ((b.location, b.week) == k && b.activity in m && m[b.activity] == b.slot)
  {
    bs := [];
    var todo := m.Keys;
    while todo != {}
      invariant todo <= m.Keys
      invariant forall b :: b in bs <==>
        ((b.location, b.week) == k && b.activity in m.Keys - todo && m[b.activity] == b.slot)
      decreases todo
    {
      var a: nat :| a in todo;
      todo := todo - {a};
      bs := bs + [Booking(a, k.1, k.0, m[a])];
    }
  }

  /** Every label of every location-week, in file order. */
  method ListBookings(inst: Instance, slots: Slots) returns (bs: seq<Booking>)
    ensures forall b :: b in bs <==> IsBooking(slots, b)
    ensures SortedBy(bs, BookingOrder(inst))
  {
    var all: seq<Booking> := [];
    var todo := slots.Keys;
    while todo != {}
      invariant todo <= slots.Keys
      invariant forall b :: b in all <==> ((b.location, b.week) !in todo && IsBooking(slots, b))
      decreases todo
    {
      var k: Cell :| k in todo;
      todo := todo - {k};
      var more := BookingsAt(k, slots[k]);
      all := all + more;
    }
    bs := Sorted(all, BookingOrder(inst));
    BookingOrderIsTotal(inst);
    SortedIsSorted(all, BookingOrder(inst));
    forall b ensures b in bs <==> b in all { SameMembers(all, bs, b); }
  }

  function BookingCells(inst: Instance, b: Booking): seq<string> {
    [IdOf(inst, b.activity), Print(b.week), LocOf(inst, b.location), "b" + Print(b.slot)]
  }

  ghost predicate OccupancyTableOf(inst: Instance, bs: seq<Booking>, t: Table) {
    && t.columns == OCCUPANCY_COLUMNS && |t.rows| == |bs|
    && forall i: nat :: i < |bs| && i < |t.rows| ==> t.rows[i] == BookingCells(inst, bs[i])
  }

  method ExportOccupancy(inst: Instance, slots: Slots) returns (t: Table, ghost bs: seq<Booking>)
    ensures OccupancyTableOf(inst, bs, t)
    ensures forall b :: b in bs <==> IsBooking(slots, b)
    ensures SortedBy(bs, BookingOrder(inst))
  {
    var listed := ListBookings(inst, slots);
    bs := listed;
    var rows := RowsFor(listed, (b: Booking) => BookingCells(inst, b));
    t := Table(OCCUPANCY_COLUMNS, rows);
  }

  // --- results -----------------------------------------------------------------------------------------------

  function ResultCells(r: ResultRow): seq<string> {
    [ScenarioText(r.scenario), r.number, ToIso(r.completion), Print(r.overrun)]
  }

  ghost predicate ResultTableOf(rows: seq<ResultRow>, t: Table) {
    && t.columns == RESULT_COLUMNS && |t.rows| == |rows|
    && forall i: nat :: i < |rows| && i < |t.rows| ==> t.rows[i] == ResultCells(rows[i])
  }

  /** One row per contract with scheduled work, in contract order. */
  method ListResults(inst: Instance, scen: Scenario, s: seq<Access>) returns (rows: seq<ResultRow>)
    requires KnownContracts(inst) && AccessesInRange(inst, s)
    ensures rows == ResultRows(inst, scen, XOf(s), |inst.contracts|)
  {
    var last := ContractLastWeek(inst, s);
    rows := [];
    for c := 0 to |inst.contracts|
      invariant rows == ResultRows(inst, scen, XOf(s), c)
    {
      if last[c] != 0 {
        var sunday := SundayOfWeek(inst, last[c]);
        rows := rows + [ResultRow(scen, inst.contracts[c].number, sunday, Max0(sunday - inst.contracts[c].planned))];
      }
    }
  }

  method ExportResults(inst: Instance, scen: Scenario, s: seq<Access>) returns (t: Table)
    requires KnownContracts(inst) && AccessesInRange(inst, s)
    ensures ResultTableOf(ResultRows(inst, scen, XOf(s), |inst.contracts|), t)
  {
    var results := ListResults(inst, scen, s);
    var rows := RowsFor(results, ResultCells);
    t := Table(RESULT_COLUMNS, rows);
  }

  // --- the files as text ---------------------------------------------------------------------------------

  /** Row by row: id, number, week, flag and night, ascending by id and then week. */
  ghost predicate AccessFile(inst: Instance, r: seq<Access>, t: Table) {
    && t.columns == ["activity_id", "access_seq", "week", "eclo", "access_night"]
    && |t.rows| == |r|
    && (forall i :: 0 <= i < |r| ==> AccessLine(inst, r[i], t.rows[i]))
    && (forall i, j :: 0 <= i < j < |r| ==> InRowOrder(inst, r[i], r[j]))
  }

  ghost predicate AccessLine(inst: Instance, a: Access, row: seq<string>) {
    && a.activity < |inst.activities| && |row| == 5
    && row[0] == inst.activities[a.activity].id && row[2] == Print(a.week) && row[4] == Print(a.night)
    && row[3] == if a.eclo then "1" else "0"
  }

  ghost predicate InRowOrder(inst: Instance, a: Access, b: Access) {
    && a.activity < |inst.activities| && b.activity < |inst.activities|
    && var i, j := inst.activities[a.activity].id, inst.activities[b.activity].id;
       ComesBefore(i, j) || (i == j && a.week <= b.week)
  }

  /** Row by row: id, week, location id and label, ascending in that order. */
  ghost predicate OccupancyFile(inst: Instance, bs: seq<Booking>, t: Table) {
    && t.columns == ["activity_id", "week", "location_id", "co_share_group"]
    && |t.rows| == |bs|
    && (forall i :: 0 <= i < |bs| ==>
          t.rows[i] == [IdOf(inst, bs[i].activity), Print(bs[i].week), LocOf(inst, bs[i].location),
                        "b" + Print(bs[i].slot)])
    && (forall i, j :: 0 <= i < j < |bs| ==> InBookingOrder(inst, bs[i], bs[j]))
  }

  ghost predicate InBookingOrder(inst: Instance, a: Booking, b: Booking) {
    var i, j := IdOf(inst, a.activity), IdOf(inst, b.activity);
    var l, m := LocOf(inst, a.location), LocOf(inst, b.location);
    || ComesBefore(i, j)
    || (i == j && (a.week < b.week || (a.week == b.week && (ComesBefore(l, m) || (l == m && a.slot <= b.slot)))))
  }

  /** Row by row: scenario letter, contract number, completion date and overrun days. */
  ghost predicate ResultFile(rows: seq<ResultRow>, t: Table) {
    && t.columns == ["scenario", "contract_number", "simulated_completion_date", "overrun_days"]
    && |t.rows| == |rows|
    && forall i :: 0 <= i < |rows| ==>
         t.rows[i] == [match rows[i].scenario case A => "A" case B => "B" case C => "C", rows[i].number,
                       ToIso(rows[i].completion), Print(rows[i].overrun)]
  }

  lemma AccessLineSpelled(inst: Instance, a: Access, number: int)
    requires a.activity < |inst.activities|
    ensures AccessLine(inst, a, AccessCells(inst, a, number))
  {
  }

  lemma RowOrderSpelled(inst: Instance, a: Access, b: Access)
    requires a.activity < |inst.activities| && b.activity < |inst.activities| && AccessLe(inst, a, b)
    ensures InRowOrder(inst, a, b)
  {
    StrLessExact(inst.activities[a.activity].id, inst.activities[b.activity].id);
  }

  lemma AccessFileSpelled(inst: Instance, s: seq<Access>, r: seq<Access>, t: Table)
    requires AccessesInRange(inst, s) && AccessTableOf(inst, r, t) && InFileOrder(inst, r)
    requires forall a :: a in r ==> a in s
    ensures AccessFile(inst, r, t)
  {
    forall i | 0 <= i < |r| ensures r[i].activity < |inst.activities| { assert r[i] in r; }
    forall i | 0 <= i < |r| ensures AccessLine(inst, r[i], t.rows[i]) {
      AccessLineSpelled(inst, r[i], NumberAt(inst, r, i));
    }
    forall i, j | 0 <= i < j < |r| ensures InRowOrder(inst, r[i], r[j]) { RowOrderSpelled(inst, r[i], r[j]); }
  }

  lemma OccupancyFileSpelled(inst: Instance, bs: seq<Booking>, t: Table)
    requires OccupancyTableOf(inst, bs, t) && SortedBy(bs, BookingOrder(inst))
    ensures OccupancyFile(inst, bs, t)
  {
    forall i, j | 0 <= i < j < |bs| ensures InBookingOrder(inst, bs[i], bs[j]) {
      assert BookingOrder(inst)(bs[i], bs[j]);
      StrLessExact(IdOf(inst, bs[i].activity), IdOf(inst, bs[j].activity));
      StrLessExact(LocOf(inst, bs[i].location), LocOf(inst, bs[j].location));
    }
  }

  /** The tables are those of a plan with these accesses and slots. */
  ghost predicate TablesOf(inst: Instance, scen: Scenario, s: seq<Access>, slots: Slots, bs: seq<Booking>, t: Tables) {
    && AccessTableOf(inst, FileOrder(inst, s), t.access)
    && OccupancyTableOf(inst, bs, t.occupancy) && (forall b :: b in bs <==> IsBooking(slots, b))
    && ResultTableOf(ResultRows(inst, scen, XOf(s), |inst.contracts|), t.results)
  }

  /** Writes the three tables of a plan. */
  method ExportPlan(inst: Instance, scen: Scenario, s: seq<Access>, slots: Slots)
    returns (t: Tables, ghost bs: seq<Booking>)
    requires KnownContracts(inst) && AccessesInRange(inst, s)
    ensures TablesOf(inst, scen, s, slots, bs, t) && SortedBy(bs, BookingOrder(inst))
    ensures AccessFile(inst, FileOrder(inst, s), t.access) && multiset(FileOrder(inst, s)) == multiset(s)
    ensures OccupancyFile(inst, bs, t.occupancy)
    ensures ResultFile(ResultRows(inst, scen, XOf(s), |inst.contracts|), t.results)
  {
    var access := ExportAccesses(inst, s);
    var occupancy;
    occupancy, bs := ExportOccupancy(inst, slots);
    var results := ExportResults(inst, scen, s);
    OrderedKeeps(inst, s);
    AccessFileSpelled(inst, s, FileOrder(inst, s), access);
    OccupancyFileSpelled(inst, bs, occupancy);
    t := Tables(access, occupancy, results);
  }
}
