/** The result rows against the completions and overruns the accesses imply. */
module ResultChecks {
  import opened Model
  import opened Plans
  import opened Checker
  import opened Soundness
  import opened Scoring
  import opened Violations
  import opened Rules

  /** The first row with the number. */
  ghost predicate FirstRow(rows: seq<ResultRow>, number: string, i: nat) {
    i < |rows| && rows[i].number == number && forall j :: 0 <= j < i ==> rows[j].number != number
  }

  ghost predicate FirstResultOk(inst: Instance, plan: Plan, c: nat)
    requires c < |inst.contracts|
  {
    var w := ContractLastIn(inst, XOf(plan.accesses), c, inst.weeks);
    var sunday := SundayOfWeek(inst, w);
    if w == 0 then !ResultFor(plan.results, inst.contracts[c].number)
    else exists i: nat :: FirstRow(plan.results, inst.contracts[c].number, i)
           && plan.results[i].completion == sunday
           && plan.results[i].overrun == Max0(sunday - inst.contracts[c].planned)
  }

  ghost predicate RowBreach(inst: Instance, plan: Plan, v: Violation) {
    match v
    case WrongScenario(i) => i < |plan.results| && plan.results[i].scenario != plan.scenario
    case RepeatedContract(i) => i < |plan.results| && ResultFor(plan.results[..i], plan.results[i].number)
    case UnknownContract(i) => i < |plan.results| && !KnownNumber(inst, plan.results[i].number)
    case _ => false
  }

  ghost predicate ResultBreach(inst: Instance, plan: Plan, v: Violation) {
    || RowBreach(inst, plan, v)
    || (v.WrongResult? && v.contract < |inst.contracts| && !FirstResultOk(inst, plan, v.contract))
  }

  ghost predicate FirstRows(results: seq<ResultRow>, n: nat, rows: map<string, nat>) {
    n <= |results| && forall k :: (k in rows <==> ResultFor(results[..n], k))
                                  && (k in rows ==> FirstRow(results, k, rows[k]) && rows[k] < n)
  }

  lemma FirstRowsStep(results: seq<ResultRow>, n: nat, rows: map<string, nat>)
    requires FirstRows(results, n, rows) && n < |results|
    ensures FirstRows(results, n + 1, if results[n].number in rows then rows else rows[results[n].number := n])
  {
    var number := results[n].number;
    forall k: string
      ensures ResultFor(results[..n + 1], k) <==> (ResultFor(results[..n], k) || k == number)
    {
      if ResultFor(results[..n], k) {
        var i :| 0 <= i < n && results[..n][i].number == k;
        assert results[..n + 1][i].number == k;
      }
      if k == number { assert results[..n + 1][n].number == k; }
      if ResultFor(results[..n + 1], k) && k != number {
        var i :| 0 <= i < n + 1 && results[..n + 1][i].number == k;
        assert results[..n][i].number == k;
      }
    }
    if number !in rows {
      forall j | 0 <= j < n ensures results[j].number != number {
        assert results[..n][j] == results[j];
      }
    }
  }

  method CheckRows(inst: Instance, plan: Plan) returns (vs: seq<Violation>, rows: map<string, nat>)
    ensures FirstRows(plan.results, |plan.results|, rows)
    ensures forall v :: v in vs <==> RowBreach(inst, plan, v)
  {
    var numbers := set c | 0 <= c < |inst.contracts| :: inst.contracts[c].number;
    vs, rows := [], map[];
    for i := 0 to |plan.results|
      invariant FirstRows(plan.results, i, rows)
      invariant forall v :: v in vs <==>
        (RowBreach(inst, plan, v) && (v.WrongScenario? || v.RepeatedContract? || v.UnknownContract?) && v.row < i)
    {
      var r := plan.results[i];
      if r.scenario != plan.scenario { vs := vs + [WrongScenario(i)]; }
      if r.number in rows { vs := vs + [RepeatedContract(i)]; }
      if r.number !in numbers { vs := vs + [UnknownContract(i)]; }
      FirstRowsStep(plan.results, i, rows);
      if r.number !in rows { rows := rows[r.number := i]; }
    }
  }

  lemma FirstRowUnique(rows: seq<ResultRow>, number: string, i: nat, j: nat)
    requires FirstRow(rows, number, i) && FirstRow(rows, number, j)
    ensures i == j
  {
  }

  lemma FirstResultVerdict(inst: Instance, plan: Plan, rows: map<string, nat>, c: nat)
    requires FirstRows(plan.results, |plan.results|, rows) && c < |inst.contracts|
    ensures var number := inst.contracts[c].number;
      var w := ContractLastIn(inst, XOf(plan.accesses), c, inst.weeks);
      var sunday := SundayOfWeek(inst, w);
      FirstResultOk(inst, plan, c) <==>
        if w == 0 then number !in rows
        else number in rows && plan.results[rows[number]].completion == sunday
             && plan.results[rows[number]].overrun == Max0(sunday - inst.contracts[c].planned)
  {
    var number := inst.contracts[c].number;
    assert plan.results[..|plan.results|] == plan.results;
    if number in rows { assert FirstRow(plan.results, number, rows[number]); }
    forall i: nat | FirstRow(plan.results, number, i) ensures number in rows && i == rows[number] {
      assert ResultFor(plan.results, number);
      FirstRowUnique(plan.results, number, i, rows[number]);
    }
  }

  /** With no contract listed twice, the first row with a number is the only one. */
  lemma OneRowVerdict(inst: Instance, plan: Plan, c: nat)
    requires c < |inst.contracts| && NoRepeats(plan.results)
    ensures ContractResultOk(inst, plan, c) <==> FirstResultOk(inst, plan, c)
  {
    var rows, number := plan.results, inst.contracts[c].number;
    forall i: nat | i < |rows| ensures FirstRow(rows, number, i) <==> rows[i].number == number {}
  }

  ghost predicate NoRepeats(rows: seq<ResultRow>) {
    forall i, j :: 0 <= i < j < |rows| ==> rows[i].number != rows[j].number
  }

  lemma RepeatVerdict(rows: seq<ResultRow>)
    ensures NoRepeats(rows) <==> forall j: nat :: j < |rows| ==> !ResultFor(rows[..j], rows[j].number)
  {
    forall j: nat | j < |rows|
      ensures ResultFor(rows[..j], rows[j].number) <==> exists i :: 0 <= i < j && rows[i].number == rows[j].number
    {
      if exists i :: 0 <= i < j && rows[i].number == rows[j].number {
        var i :| 0 <= i < j && rows[i].number == rows[j].number;
        assert rows[..j][i].number == rows[j].number;
      }
    }
    if forall j: nat :: j < |rows| ==> !ResultFor(rows[..j], rows[j].number) {
      forall i, j | 0 <= i < j < |rows| ensures rows[i].number != rows[j].number {
        assert !ResultFor(rows[..j], rows[j].number);
      }
    }
  }

  lemma NoneIsOk(inst: Instance, plan: Plan)
    requires forall v :: !ResultBreach(inst, plan, v)
    ensures ResultsOk(inst, plan)
  {
    var rows := plan.results;
    forall j: nat | j < |rows|
      ensures rows[j].scenario == plan.scenario && KnownNumber(inst, rows[j].number)
      ensures !ResultFor(rows[..j], rows[j].number)
    {
      assert !ResultBreach(inst, plan, WrongScenario(j)) && !ResultBreach(inst, plan, UnknownContract(j));
      assert !ResultBreach(inst, plan, RepeatedContract(j));
    }
    RepeatVerdict(rows);
    forall c: nat | c < |inst.contracts| ensures ContractResultOk(inst, plan, c) {
      assert !ResultBreach(inst, plan, WrongResult(c));
      OneRowVerdict(inst, plan, c);
    }
  }

  lemma OkIsNone(inst: Instance, plan: Plan, v: Violation)
    requires ResultsOk(inst, plan)
    ensures !ResultBreach(inst, plan, v)
  {
    RepeatVerdict(plan.results);
    match v
    case WrongResult(c) =>
      if c < |inst.contracts| {
        assert ContractResultOk(inst, plan, c);
        OneRowVerdict(inst, plan, c);
      }
    case _ =>
  }

  // --- the same rules over rows and fields --------------------------------------------------------

  lemma RowSpelled(inst: Instance, plan: Plan, v: Violation)
    ensures RowBreach(inst, plan, v) <==> ResultRuleBroken(inst, plan, v) && !v.WrongResult?
  {
    match v
    case RepeatedContract(i) =>
      if i < |plan.results| {
        var number := plan.results[i].number;
        assert ResultFor(plan.results[..i], number) <==> exists j :: 0 <= j < i && plan.results[j].number == number by {
          if j :| 0 <= j < i && plan.results[j].number == number { assert plan.results[..i][j].number == number; }
        }
      }
    case _ =>
  }

  lemma LastWeekSpelled(inst: Instance, s: seq<Access>, c: nat)
    requires AccessesInRange(inst, s)
    ensures var w := ContractLastIn(inst, XOf(s), c, inst.weeks);
      && (forall i :: LastRow(inst, s, i, c) ==> s[i].week == w && w > 0)
      && (w > 0 ==> exists i :: LastRow(inst, s, i, c))
      && (w == 0 <==> forall i :: 0 <= i < |s| ==> !NightRow(inst, s, i, c, s[i].week))
  {
    var x := XOf(s);
    var w := ContractLastIn(inst, x, c, inst.weeks);
    ContractLastInProps(inst, x, c, inst.weeks);
    forall i | 0 <= i < |s| && NightRow(inst, s, i, c, s[i].week) ensures 0 < s[i].week <= w { AccessIn(s, i); }
    if w > 0 {
      var a: nat :| a < |inst.activities| && inst.activities[a].contract == c && (a, w as int) in x;
      var i := AccessFor(s, a, w);
      assert NightRow(inst, s, i, c, s[i].week);
      assert LastRow(inst, s, i, c);
    }
  }

  lemma ReportSpelled(inst: Instance, rows: seq<ResultRow>, c: nat, week: int)
    requires c < |inst.contracts|
    ensures var sunday := SundayOfWeek(inst, week);
      Reported(inst, rows, c, week) <==>
        exists i: nat :: FirstRow(rows, inst.contracts[c].number, i) && rows[i].completion == sunday
                         && rows[i].overrun == Max0(sunday - inst.contracts[c].planned)
  {
    assert SundayOfWeek(inst, week) == inst.start + 7 * week - 1;
    if Reported(inst, rows, c, week) {
      var r :| 0 <= r < |rows| && rows[r].number == inst.contracts[c].number
        && (forall q :: 0 <= q < r ==> rows[q].number != inst.contracts[c].number)
        && rows[r].completion == inst.start + 7 * week - 1
        && rows[r].overrun == Max0(inst.start + 7 * week - 1 - inst.contracts[c].planned);
      assert FirstRow(rows, inst.contracts[c].number, r);
    }
  }

  lemma ResultsSpelled(inst: Instance, plan: Plan, v: Violation)
    requires AccessesInRange(inst, plan.accesses)
    ensures ResultBreach(inst, plan, v) <==> ResultRuleBroken(inst, plan, v)
  {
    RowSpelled(inst, plan, v);
    if v.WrongResult? && v.contract < |inst.contracts| {
      LastWeekSpelled(inst, plan.accesses, v.contract);
      ReportSpelled(inst, plan.results, v.contract, ContractLastIn(inst, XOf(plan.accesses), v.contract, inst.weeks));
    }
  }

  lemma ResultsVerdict(inst: Instance, plan: Plan, vs: seq<Violation>)
    requires forall v :: v in vs <==> ResultBreach(inst, plan, v)
    ensures vs == [] <==> ResultsOk(inst, plan)
  {
    if vs == [] {
      NoneIsOk(inst, plan);
    } else {
      assert vs[0] in vs;
      if ResultsOk(inst, plan) { OkIsNone(inst, plan, vs[0]); }
    }
  }

  /** The figures of every contract, against those recomputed from the accesses. */
  method CheckResults(inst: Instance, plan: Plan) returns (vs: seq<Violation>)
    requires KnownContracts(inst) && AccessesInRange(inst, plan.accesses)
    ensures forall v :: v in vs <==>
      ResultBreach(inst, plan, v)
    ensures forall v :: v in vs <==> ResultRuleBroken(inst, plan, v)
    ensures vs == [] <==> ResultsOk(inst, plan)
  {
    forall v ensures ResultBreach(inst, plan, v) <==> ResultRuleBroken(inst, plan, v) { ResultsSpelled(inst, plan, v); }
    var last := ContractLastWeek(inst, plan.accesses);
    var rows;
    vs, rows := CheckRows(inst, plan);
    assert plan.results[..|plan.results|] == plan.results;
    for c := 0 to |inst.contracts|
      invariant forall v :: v in vs <==>
        (RowBreach(inst, plan, v) || (v.WrongResult? && v.contract < c && !FirstResultOk(inst, plan, v.contract)))
    {
      var number := inst.contracts[c].number;
      var good;
      if last[c] == 0 {
        good := number !in rows;
      } else if number !in rows {
        good := false;
      } else {
        var r := plan.results[rows[number]];
        var sunday := SundayOfWeek(inst, last[c]);
        good := r.completion == sunday && r.overrun == Max(0, sunday - inst.contracts[c].planned);
      }
      FirstResultVerdict(inst, plan, rows, c);
      if !good { vs := vs + [WrongResult(c)]; }
    }
    ResultsVerdict(inst, plan, vs);
  }
}
