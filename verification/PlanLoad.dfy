/** Reading a plan back from its tables, row by row. */
module PlanLoad {
  import opened Model
  import opened Calendar
  import opened Decimal
  import opened CsvTable
  import opened PlanTables
  import opened Plans

  datatype File = AccessFile | OccupancyFile | ResultsFile

  /** A row that could not be read; row 0 stands for the file as a whole. */
  datatype Flaw = Flaw(file: File, row: nat)

  function AccessOfRow(inst: Instance, t: Table, r: nat): (a: Option<Access>)
    ensures a.Some? ==> a.value.activity < |inst.activities| && 1 <= a.value.week <= inst.weeks
  {
    var id := Text(t, r, "activity_id");
    var act := ActivityById(inst, id);
    var week := IntCell(t, r, "week", 1, inst.weeks);
    var eclo := IntCell(t, r, "eclo", 0, 1);
    var night := IntCell(t, r, "access_night", 1, 7);
    var accessSeq := IntCell(t, r, "access_seq", 1, 100000);
    if id == [] || act.None? || week.None? || eclo.None? || night.None? || accessSeq.None? then None
    else Some(Access(act.value, week.value, eclo.value == 1, night.value, accessSeq.value))
  }

  function BookingOfRow(inst: Instance, t: Table, r: nat): (b: Option<Booking>)
    ensures b.Some? ==> InRange(inst, b.value)
  {
    var id, loc := Text(t, r, "activity_id"), Text(t, r, "location_id");
    var act, l := ActivityById(inst, id), LocationById(inst, loc);
    var week := IntCell(t, r, "week", 1, inst.weeks);
    var slot := LabelSlot(Text(t, r, "co_share_group"));
    if id == [] || loc == [] || act.None? || l.None? || week.None? || slot <= 0 then None
    else Some(Booking(act.value, week.value, l.value, slot))
  }

  predicate InRange(inst: Instance, b: Booking) {
    b.activity < |inst.activities| && b.location < |inst.locations| && 1 <= b.week <= inst.weeks && b.slot > 0
  }

  function ResultOfRow(t: Table, r: nat): Option<ResultRow> {
    var scen := ParseScenario(Text(t, r, "scenario"));
    var number := Text(t, r, "contract_number");
    var date := Parse(Text(t, r, "simulated_completion_date"));
    var overrun := IntCell(t, r, "overrun_days", 0, 100000);
    if scen.None? || number == [] || date.None? || overrun.None? then None
    else Some(ResultRow(scen.value, number, date.value, overrun.value))
  }

  // --- what each row must say ------------------------------------------------------------------------

  /** An access row: a known id, a week of the horizon, a flag 0 or 1, a night 1 to 7 and a number 1 to 100000. */
  lemma AccessRowExact(inst: Instance, t: Table, r: nat, a: Access)
    requires DistinctIds(inst)
    ensures AccessOfRow(inst, t, r) == Some(a) <==>
      && a.activity < |inst.activities| && inst.activities[a.activity].id == Text(t, r, "activity_id")
      && Text(t, r, "activity_id") != ""
      && ParseInt(Text(t, r, "week")) == Some(a.week) && 1 <= a.week <= inst.weeks
      && ParseInt(Text(t, r, "eclo")) == Some(if a.eclo then 1 else 0)
      && ParseInt(Text(t, r, "access_night")) == Some(a.night) && 1 <= a.night <= 7
      && ParseInt(Text(t, r, "access_seq")) == Some(a.accessSeq) && 1 <= a.accessSeq <= 100000
  {
  }

  /** An occupancy row: a known id and location id, a week of the horizon and a label that names a slot above 0. */
  lemma BookingRowExact(inst: Instance, t: Table, r: nat, b: Booking)
    requires DistinctIds(inst) && Named(inst)
    ensures BookingOfRow(inst, t, r) == Some(b) <==>
      && b.activity < |inst.activities| && inst.activities[b.activity].id == Text(t, r, "activity_id")
      && Text(t, r, "activity_id") != ""
      && b.location < |inst.locations| && inst.locations[b.location].id == Text(t, r, "location_id")
      && Text(t, r, "location_id") != ""
      && ParseInt(Text(t, r, "week")) == Some(b.week) && 1 <= b.week <= inst.weeks
      && b.slot > 0 && LabelSlot(Text(t, r, "co_share_group")) == b.slot
  {
  }

  /** A results row: a scenario letter, a number, a date and overrun days from 0 to 100000. */
  lemma ResultRowExact(t: Table, r: nat, row: ResultRow)
    ensures ResultOfRow(t, r) == Some(row) <==>
      && Text(t, r, "scenario") == (match row.scenario case A => "A" case B => "B" case C => "C")
      && row.number == Text(t, r, "contract_number") && row.number != ""
      && Parse(Text(t, r, "simulated_completion_date")) == Some(row.completion)
      && ParseInt(Text(t, r, "overrun_days")) == Some(row.overrun) && 0 <= row.overrun <= 100000
  {
  }

  // --- readers, one per file -----------------------------------------------------------------------

  function AccessReader(inst: Instance, t: Table): nat -> Option<Access> { (r: nat) => AccessOfRow(inst, t, r) }

  function BookingReader(inst: Instance, t: Table): nat -> Option<Booking> { (r: nat) => BookingOfRow(inst, t, r) }

  function ResultReader(t: Table): nat -> Option<ResultRow> { (r: nat) => ResultOfRow(t, r) }

  /** Every one of n rows can be read. */
  ghost predicate AllRead<T>(n: nat, read: nat -> Option<T>) {
    forall r: nat :: r < n ==> read(r).Some?
  }

  /** s holds what the n rows say. */
  ghost predicate ReadAs<T>(n: nat, read: nat -> Option<T>, s: seq<T>) {
    |s| == n && forall r: nat :: r < |s| ==> read(r) == Some(s[r])
  }

  /** The flaws are exactly the unreadable rows. */
  ghost predicate FlawsOf<T>(flaws: seq<Flaw>, file: File, n: nat, read: nat -> Option<T>) {
    forall f :: f in flaws <==> (f.file == file && 0 < f.row <= n && read(f.row - 1).None?)
  }

  /** Reads a file's rows in order, noting those that cannot be read. */
  method ReadFile<T>(file: File, n: nat, read: nat -> Option<T>) returns (s: seq<T>, flaws: seq<Flaw>)
    ensures FlawsOf(flaws, file, n, read)
    ensures flaws == [] ==> ReadAs(n, read, s)
    ensures forall x :: x in s ==> exists r: nat :: r < n && read(r) == Some(x)
  {
    s, flaws := [], [];
    for r := 0 to n
      invariant FlawsOf(flaws, file, r, read)
      invariant flaws == [] ==> ReadAs(r, read, s)
      invariant forall x :: x in s ==> exists j: nat :: j < r && read(j) == Some(x)
    {
      match read(r) {
        case Some(x) => s := s + [x];
        case None => flaws := flaws + [Flaw(file, r + 1)];
      }
    }
  }

  lemma NoFlaws<T>(flaws: seq<Flaw>, file: File, n: nat, read: nat -> Option<T>)
    requires FlawsOf(flaws, file, n, read)
    ensures flaws == [] <==> AllRead(n, read)
  {
    if flaws == [] {
      forall r: nat | r < n ensures read(r).Some? { assert Flaw(file, r + 1) !in flaws; }
    } else {
      assert flaws[0] in flaws;
      assert read(flaws[0].row - 1).None?;
    }
  }

  // --- the scenario, from RESULTS.csv --------------------------------------------------------------

  /** The first scenario named in the first n rows. */
  function ScenarioNamed(t: Table, n: nat): string {
    if n == 0 then []
    else
      var s := ScenarioNamed(t, n - 1);
      if s == [] then Text(t, n - 1, "scenario") else s
  }

  /** Row r names no scenario, or another one than the rows before it. */
  predicate OffScenario(t: Table, r: nat) {
    var s := Text(t, r, "scenario");
    s == [] || (ScenarioNamed(t, r) != [] && s != ScenarioNamed(t, r))
  }

  ghost predicate NoneOff(t: Table) {
    forall r: nat :: r < |t.rows| ==> !OffScenario(t, r)
  }

  /** Every row names the text. */
  ghost predicate AllName(t: Table, name: string) {
    forall r: nat :: r < |t.rows| ==> Text(t, r, "scenario") == name
  }

  /** The file is of one scenario exactly when it has a row and every row has that letter. */
  lemma ScenarioExact(t: Table, scen: Scenario)
    ensures NoneOff(t) && ParseScenario(ScenarioNamed(t, |t.rows|)) == Some(scen) <==>
      |t.rows| > 0 && AllName(t, match scen case A => "A" case B => "B" case C => "C")
  {
    var name := match scen case A => "A" case B => "B" case C => "C";
    assert forall s :: ParseScenario(s) == Some(scen) <==> s == name;
    if |t.rows| > 0 { SameName(t, name); }
  }

  lemma SameName(t: Table, name: string)
    requires |t.rows| > 0 && name != []
    ensures NoneOff(t) && ScenarioNamed(t, |t.rows|) == name <==> AllName(t, name)
  {
    if NoneOff(t) && ScenarioNamed(t, |t.rows|) == name {
      assert !OffScenario(t, 0);
      NamedByFirst(t, |t.rows|);
      forall r: nat | r < |t.rows| ensures Text(t, r, "scenario") == name {
        assert !OffScenario(t, r);
        if r > 0 { NamedByFirst(t, r); }
      }
    }
    if AllName(t, name) {
      forall r: nat | r < |t.rows| ensures !OffScenario(t, r) {
        if r > 0 { NamedByFirst(t, r); }
      }
      NamedByFirst(t, |t.rows|);
    }
  }

  /** Where the first row names a scenario, that is the one named. */
  lemma {:induction false} NamedByFirst(t: Table, n: nat)
    requires n > 0
    ensures Text(t, 0, "scenario") != [] ==> ScenarioNamed(t, n) == Text(t, 0, "scenario")
  {
    if n > 1 { NamedByFirst(t, n - 1); }
  }

  method ReadScenario(t: Table) returns (scen: Option<Scenario>, flaws: seq<Flaw>)
    ensures scen == ParseScenario(ScenarioNamed(t, |t.rows|))
    ensures forall f :: f in flaws <==> (f.file == ResultsFile && 0 < f.row <= |t.rows| && OffScenario(t, f.row - 1))
    ensures flaws == [] <==> NoneOff(t)
  {
    var named: string := [];
    flaws := [];
    for r := 0 to |t.rows|
      invariant named == ScenarioNamed(t, r)
      invariant forall f :: f in flaws <==> (f.file == ResultsFile && 0 < f.row <= r && OffScenario(t, f.row - 1))
    {
      var s := Text(t, r, "scenario");
      if s == [] {
        flaws := flaws + [Flaw(ResultsFile, r + 1)];
      }
      if named == [] {
        named := s;
      } else if s != named && s != [] {
        flaws := flaws + [Flaw(ResultsFile, r + 1)];
      }
    }
    scen := ParseScenario(named);
    if flaws == [] {
      forall r: nat | r < |t.rows| ensures !OffScenario(t, r) { assert Flaw(ResultsFile, r + 1) !in flaws; }
    } else {
      assert flaws[0] in flaws;
    }
  }

  // --- occupancy -----------------------------------------------------------------------------------------

  /** Records a booking; a later one replaces an earlier one of the same activity there. */
  function Booked(slots: Slots, b: Booking): Slots {
    var k := (b.location, b.week);
    slots[k := (if k in slots then slots[k] else map[])[b.activity := b.slot]]
  }

  /** The slots after the first n bookings. */
  function SlotsAfter(bookings: seq<Booking>, n: nat): Slots
    requires n <= |bookings|
  {
    if n == 0 then map[] else Booked(SlotsAfter(bookings, n - 1), bookings[n - 1])
  }

  method BookAll(bookings: seq<Booking>) returns (slots: Slots)
    ensures slots == SlotsAfter(bookings, |bookings|)
  {
    slots := map[];
    for i := 0 to |bookings|
      invariant slots == SlotsAfter(bookings, i)
    {
      slots := Booked(slots, bookings[i]);
    }
  }

  /** The distinct labels of one location-week. */
  method DistinctLabels(m: map<nat, int>) returns (n: nat)
    ensures n == |m.Values|
  {
    var labels: set<int> := {};
    var todo := m.Keys;
    while todo != {}
      invariant todo <= m.Keys
      invariant forall b :: b in labels <==> exists a :: a in m && a !in todo && m[a] == b
      decreases todo
    {
      var a: nat :| a in todo;
      todo := todo - {a};
      labels := labels + {m[a]};
    }
    forall b ensures b in labels <==> b in m.Values {
      if b in m.Values {
        var a :| a in m && m[a] == b;
        assert a !in todo;
      }
    }
    assert labels == m.Values;
    n := |labels|;
  }

  method CountLabels(slots: Slots) returns (used: map<Cell, int>)
    ensures used.Keys == slots.Keys && forall k :: k in slots && k in used ==> used[k] == |slots[k].Values|
  {
    used := map[];
    var todo := slots.Keys;
    while todo != {}
      invariant todo <= slots.Keys && used.Keys == slots.Keys - todo
      invariant forall k :: k in slots && k in used ==> used[k] == |slots[k].Values|
      decreases todo
    {
      var k: Cell :| k in todo;
      todo := todo - {k};
      var n := DistinctLabels(slots[k]);
      used := used[k := n];
    }
  }

  // --- the whole plan ------------------------------------------------------------------------------------

  ghost predicate Readable(inst: Instance, t: Tables) {
    && ParseScenario(ScenarioNamed(t.results, |t.results.rows|)).Some? && NoneOff(t.results)
    && AllRead(|t.results.rows|, ResultReader(t.results))
    && AllRead(|t.access.rows|, AccessReader(inst, t.access))
    && AllRead(|t.occupancy.rows|, BookingReader(inst, t.occupancy))
  }

  /** plan and bookings are what the rows say. */
  ghost predicate Reads(inst: Instance, t: Tables, overrides: seq<(string, int, int)>, bookings: seq<Booking>,
                        plan: Plan) {
    && ParseScenario(ScenarioNamed(t.results, |t.results.rows|)) == Some(plan.scenario) && plan.overrides == overrides
    && ReadAs(|t.access.rows|, AccessReader(inst, t.access), plan.accesses)
    && ReadAs(|t.results.rows|, ResultReader(t.results), plan.results)
    && ReadAs(|t.occupancy.rows|, BookingReader(inst, t.occupancy), bookings)
    && plan.slots == SlotsAfter(bookings, |bookings|)
    && plan.slotsUsed.Keys == plan.slots.Keys
    && LabelsCounted(plan)
  }

  /** Reads the three tables; a plan results exactly when no row is flawed, and it meets the checker's assumptions. */
  method LoadPlan(inst: Instance, t: Tables, overrides: seq<(string, int, int)>)
    returns (flaws: seq<Flaw>, plan: Option<Plan>, bookings: seq<Booking>)
    ensures plan.Some? <==> Readable(inst, t)
    ensures plan.Some? <==> flaws == []
    ensures plan.Some? ==> Reads(inst, t, overrides, bookings, plan.value) && Loaded(inst, plan.value)
  {
    var scen, f1 := ReadScenario(t.results);
    if scen.None? { return f1 + [Flaw(ResultsFile, 0)], None, []; }
    var rows, f2 := ReadFile(ResultsFile, |t.results.rows|, ResultReader(t.results));
    NoFlaws(f2, ResultsFile, |t.results.rows|, ResultReader(t.results));
    var accesses, f3 := ReadFile(AccessFile, |t.access.rows|, AccessReader(inst, t.access));
    NoFlaws(f3, AccessFile, |t.access.rows|, AccessReader(inst, t.access));
    var f4;
    bookings, f4 := ReadFile(OccupancyFile, |t.occupancy.rows|, BookingReader(inst, t.occupancy));
    NoFlaws(f4, OccupancyFile, |t.occupancy.rows|, BookingReader(inst, t.occupancy));
    var slots := BookAll(bookings);
    var used := CountLabels(slots);
    flaws := f1 + f2 + f3 + f4;
    if flaws == [] {
      plan := Some(Plan(scen.value, accesses, slots, used, rows, overrides));
      ReadingIsLoaded(inst, t, overrides, bookings, plan.value);
    } else {
      plan := None;
    }
  }

  ghost predicate GoodSlots(inst: Instance, slots: Slots) {
    forall k :: k in slots ==>
      k.0 < |inst.locations| && 1 <= k.1 <= inst.weeks && slots[k] != map[]
      && forall a :: a in slots[k] ==> a < |inst.activities|
  }

  lemma BookedInRange(inst: Instance, slots: Slots, b: Booking)
    requires GoodSlots(inst, slots) && InRange(inst, b)
    ensures GoodSlots(inst, Booked(slots, b))
  {
    var k0 := (b.location, b.week);
    forall k | k in Booked(slots, b)
      ensures k.0 < |inst.locations| && 1 <= k.1 <= inst.weeks && Booked(slots, b)[k] != map[]
      ensures forall a :: a in Booked(slots, b)[k] ==> a < |inst.activities|
    {
      if k == k0 { assert b.activity in Booked(slots, b)[k]; }
    }
  }

  lemma {:induction false} SlotsInRange(inst: Instance, bookings: seq<Booking>, n: nat)
    requires n <= |bookings| && forall i :: 0 <= i < n ==> InRange(inst, bookings[i])
    ensures GoodSlots(inst, SlotsAfter(bookings, n))
  {
    if n > 0 {
      SlotsInRange(inst, bookings, n - 1);
      BookedInRange(inst, SlotsAfter(bookings, n - 1), bookings[n - 1]);
    }
  }

  /** Whatever is read meets what the checker assumes of a plan. */
  lemma ReadingIsLoaded(inst: Instance, t: Tables, overrides: seq<(string, int, int)>, bookings: seq<Booking>,
                        plan: Plan)
    requires Reads(inst, t, overrides, bookings, plan)
    ensures Loaded(inst, plan)
  {
    forall i: nat | i < |bookings| ensures InRange(inst, bookings[i]) {
      assert BookingReader(inst, t.occupancy)(i) == Some(bookings[i]);
    }
    SlotsInRange(inst, bookings, |bookings|);
    forall i: nat | i < |plan.accesses|
      ensures plan.accesses[i].activity < |inst.activities| && 1 <= plan.accesses[i].week <= inst.weeks
    {
      assert AccessReader(inst, t.access)(i) == Some(plan.accesses[i]);
    }
  }
}
