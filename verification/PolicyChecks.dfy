/** The checker's scenario rules: ECLO nights and planned completion dates. */
module PolicyChecks {
  import opened Model
  import opened Plans
  import opened Checker
  import opened Soundness
  import opened Scoring
  import opened Violations
  import opened Rules

  ghost predicate LatePlannedDate(inst: Instance, x: Grid, c: nat)
    requires c < |inst.contracts|
  {
    var w := ContractLastIn(inst, x, c, inst.weeks);
    w != 0 && SundayOfWeek(inst, w) > inst.contracts[c].planned
  }

  ghost predicate PolicyBreach(inst: Instance, plan: Plan, v: Violation) {
    match v
    case EcloForbidden(a, w) => plan.scenario == A && (a, w) in EOf(plan.accesses)
    case EcloSpread(line) => plan.scenario == C && !LineWindowOk(inst, plan.accesses, line)
    case PastPlannedDate(c) =>
      plan.scenario == B && c < |inst.contracts| && LatePlannedDate(inst, XOf(plan.accesses), c)
    case _ => false
  }

  /** Scenario A forbids ECLO outright. */
  method CheckNoEclo(s: seq<Access>) returns (vs: seq<Violation>)
    ensures forall v :: v in vs <==> (v.EcloForbidden? && (v.activity, v.week) in EOf(s))
  {
    vs := [];
    assert EOf(s[..0]) == {};
    for i := 0 to |s|
      invariant forall v :: v in vs <==> (v.EcloForbidden? && (v.activity, v.week) in EOf(s[..i]))
    {
      assert s[..i + 1][..i] == s[..i];
      XOfSnoc(s[..i + 1]);
      if s[i].eclo { vs := vs + [EcloForbidden(s[i].activity, s[i].week)]; }
    }
    assert s[..|s|] == s;
  }

  /** Week w holds an ECLO night that closes the line. */
  ghost predicate EcloWeek(inst: Instance, s: seq<Access>, line: string, w: int) {
    exists i :: 0 <= i < |s| && s[i].eclo && s[i].week == w && ClosesLine(inst, s[i].activity, line)
  }

  ghost predicate SpanOf(inst: Instance, s: seq<Access>, line: string, lo: int, hi: int) {
    && EcloWeek(inst, s, line, lo) && EcloWeek(inst, s, line, hi)
    && forall w :: EcloWeek(inst, s, line, w) ==> lo <= w <= hi
  }

  ghost predicate SpanRecorded(inst: Instance, s: seq<Access>, span: map<string, (int, int)>, line: string) {
    if line in span then SpanOf(inst, s, line, span[line].0, span[line].1)
    else forall w :: !EcloWeek(inst, s, line, w)
  }

  ghost predicate Spans(inst: Instance, s: seq<Access>, span: map<string, (int, int)>) {
    forall line: string :: SpanRecorded(inst, s, span, line)
  }

  lemma EcloWeekSnoc(inst: Instance, s: seq<Access>, i: nat, line: string, w: int)
    requires i < |s|
    ensures EcloWeek(inst, s[..i + 1], line, w) <==>
      (EcloWeek(inst, s[..i], line, w) || (s[i].eclo && s[i].week == w && ClosesLine(inst, s[i].activity, line)))
  {
    var t := s[..i + 1];
    if EcloWeek(inst, s[..i], line, w) {
      var j :| 0 <= j < i && s[..i][j].eclo && s[..i][j].week == w && ClosesLine(inst, s[..i][j].activity, line);
      assert t[j] == s[j];
    }
    if s[i].eclo && s[i].week == w && ClosesLine(inst, s[i].activity, line) { assert t[i] == s[i]; }
    if EcloWeek(inst, t, line, w) {
      var j :| 0 <= j < i + 1 && t[j].eclo && t[j].week == w && ClosesLine(inst, t[j].activity, line);
      if j < i { assert s[..i][j] == t[j]; }
    }
  }

  /** The lines closed by an activity. */
  method LinesOf(inst: Instance, a: nat) returns (lines: seq<string>)
    requires Wellformed(inst) && a < |inst.activities|
    ensures forall line :: line in lines <==> ClosesLine(inst, a, line)
  {
    lines := [];
    var zone := inst.activities[a].closure;
    assert ValidActivity(inst, inst.activities[a]);
    for i := 0 to |zone|
      invariant forall line :: line in lines <==>
        exists l :: l in zone[..i] && l < |inst.locations| && inst.locations[l].line == line
    {
      assert zone[i] in zone && zone[..i + 1] == zone[..i] + [zone[i]];
      var line := inst.locations[zone[i]].line;
      if line !in lines { lines := lines + [line]; }
    }
    assert zone[..|zone|] == zone;
  }

  function Widen(span: map<string, (int, int)>, line: string, w: int): map<string, (int, int)> {
    if line in span then
      span[line := (if w < span[line].0 then w else span[line].0, if w > span[line].1 then w else span[line].1)]
    else span[line := (w, w)]
  }

  /** Widens the span of every line an ECLO access closes. */
  method WidenAll(before: map<string, (int, int)>, lines: seq<string>, w: int) returns (span: map<string, (int, int)>)
    ensures forall line: string :: line !in lines ==>
              ((line in span <==> line in before) && (line in span ==> span[line] == before[line]))
    ensures forall line: string :: line in lines ==> line in span && span[line] == Widen(before, line, w)[line]
  {
    span := before;
    for i := 0 to |lines|
      invariant forall line: string :: line !in lines[..i] ==>
                  ((line in span <==> line in before) && (line in span ==> span[line] == before[line]))
      invariant forall line: string :: line in lines[..i] ==> line in span && span[line] == Widen(before, line, w)[line]
    {
      assert lines[..i + 1] == lines[..i] + [lines[i]];
      span := Widen(span, lines[i], w);
    }
    assert lines[..|lines|] == lines;
  }

  lemma SpansStep(inst: Instance, s: seq<Access>, i: nat, before: map<string, (int, int)>,
                  span: map<string, (int, int)>, line: string)
    requires i < |s| && Spans(inst, s[..i], before)
    requires if s[i].eclo && ClosesLine(inst, s[i].activity, line)
             then line in span && span[line] == Widen(before, line, s[i].week)[line]
             else (line in span <==> line in before) && (line in span ==> span[line] == before[line])
    ensures SpanRecorded(inst, s[..i + 1], span, line)
  {
    var t, mine := s[..i + 1], s[i].eclo && ClosesLine(inst, s[i].activity, line);
    forall w ensures EcloWeek(inst, t, line, w) <==> (EcloWeek(inst, s[..i], line, w) || (mine && s[i].week == w)) {
      EcloWeekSnoc(inst, s, i, line, w);
    }
    assert SpanRecorded(inst, s[..i], before, line);
    if mine { assert EcloWeek(inst, t, line, s[i].week); }
  }

  /** The first and last ECLO week of each line. */
  method CollectSpans(inst: Instance, s: seq<Access>) returns (span: map<string, (int, int)>)
    requires Wellformed(inst) && AccessesInRange(inst, s)
    ensures Spans(inst, s, span)
  {
    span := map[];
    for i := 0 to |s|
      invariant Spans(inst, s[..i], span)
    {
      var before := span;
      if s[i].eclo {
        var lines := LinesOf(inst, s[i].activity);
        span := WidenAll(span, lines, s[i].week);
      }
      ghost var t := s[..i + 1];
      forall line: string ensures SpanRecorded(inst, t, span, line) {
        SpansStep(inst, s, i, before, span, line);
      }
    }
    assert s[..|s|] == s;
  }

  function TooWide(span: map<string, (int, int)>, line: string): bool {
    line in span && span[line].1 - span[line].0 + 1 > 2
  }

  lemma WindowIsSpan(inst: Instance, s: seq<Access>, span: map<string, (int, int)>, line: string)
    requires SpanRecorded(inst, s, span, line)
    ensures !LineWindowOk(inst, s, line) <==> (line in span && span[line].1 - span[line].0 + 1 > 2)
  {
    forall i | 0 <= i < |s| && s[i].eclo && ClosesLine(inst, s[i].activity, line)
      ensures EcloWeek(inst, s, line, s[i].week)
    {
    }
    if line in span {
      var i :| 0 <= i < |s| && s[i].eclo && s[i].week == span[line].0 && ClosesLine(inst, s[i].activity, line);
      var j :| 0 <= j < |s| && s[j].eclo && s[j].week == span[line].1 && ClosesLine(inst, s[j].activity, line);
    }
  }

  method WideSpans(span: map<string, (int, int)>) returns (vs: seq<Violation>)
    ensures forall v :: v in vs <==> (v.EcloSpread? && TooWide(span, v.line))
  {
    vs := [];
    var todo := span.Keys;
    while todo != {}
      invariant todo <= span.Keys
      invariant forall v :: v in vs <==> (v.EcloSpread? && v.line !in todo && TooWide(span, v.line))
      decreases todo
    {
      var line: string :| line in todo;
      todo := todo - {line};
      if TooWide(span, line) { vs := vs + [EcloSpread(line)]; }
    }
  }

  /** Rule 10: under C the ECLO nights of each line span at most two weeks. */
  method CheckSpread(inst: Instance, s: seq<Access>) returns (vs: seq<Violation>)
    requires Wellformed(inst) && AccessesInRange(inst, s)
    ensures forall v :: v in vs <==> (v.EcloSpread? && !LineWindowOk(inst, s, v.line))
  {
    var span := CollectSpans(inst, s);
    vs := WideSpans(span);
    forall line ensures !LineWindowOk(inst, s, line) <==> TooWide(span, line) {
      assert SpanRecorded(inst, s, span, line);
      WindowIsSpan(inst, s, span, line);
    }
  }

  /** Scenario B: no contract completes after its planned date. */
  method CheckPlannedDates(inst: Instance, s: seq<Access>) returns (vs: seq<Violation>)
    requires KnownContracts(inst) && AccessesInRange(inst, s)
    ensures forall v :: v in vs <==>
      (v.PastPlannedDate? && v.contract < |inst.contracts| && LatePlannedDate(inst, XOf(s), v.contract))
  {
    var last := ContractLastWeek(inst, s);
    vs := [];
    for c := 0 to |inst.contracts|
      invariant forall v :: v in vs <==>
        (v.PastPlannedDate? && v.contract < c && LatePlannedDate(inst, XOf(s), v.contract))
    {
      if last[c] != 0 && inst.contracts[c].planned < SundayOfWeek(inst, last[c]) {
        vs := vs + [PastPlannedDate(c)];
      }
    }
  }

  // --- the same rules over rows and fields --------------------------------------------------------

  lemma SpreadSpelled(inst: Instance, s: seq<Access>, line: string)
    ensures !LineWindowOk(inst, s, line) <==> exists i, j, l: nat, m: nat :: EcloPair(inst, s, i, j, l, m, line)
  {
    if !LineWindowOk(inst, s, line) {
      var i, j :| 0 <= i < |s| && 0 <= j < |s| && s[i].eclo && s[j].eclo
        && ClosesLine(inst, s[i].activity, line) && ClosesLine(inst, s[j].activity, line)
        && s[j].week - s[i].week + 1 > 2;
      var l :| l in inst.activities[s[i].activity].closure && l < |inst.locations| && inst.locations[l].line == line;
      var m :| m in inst.activities[s[j].activity].closure && m < |inst.locations| && inst.locations[m].line == line;
      assert EcloPair(inst, s, i, j, l, m, line);
    }
  }

  lemma LateSpelled(inst: Instance, s: seq<Access>, c: nat)
    requires AccessesInRange(inst, s) && c < |inst.contracts|
    ensures LatePlannedDate(inst, XOf(s), c) <==>
      exists i :: 0 <= i < |s| && NightRow(inst, s, i, c, s[i].week)
                  && inst.start + 7 * s[i].week - 1 > inst.contracts[c].planned
  {
    var x := XOf(s);
    var w := ContractLastIn(inst, x, c, inst.weeks);
    ContractLastInProps(inst, x, c, inst.weeks);
    if w != 0 {
      var a: nat :| a < |inst.activities| && inst.activities[a].contract == c && (a, w as int) in x;
      var i := AccessFor(s, a, w);
      assert NightRow(inst, s, i, c, s[i].week);
    }
    forall i | 0 <= i < |s| && NightRow(inst, s, i, c, s[i].week) ensures 0 < s[i].week <= w { AccessIn(s, i); }
  }

  lemma PolicySpelled(inst: Instance, plan: Plan, v: Violation)
    requires AccessesInRange(inst, plan.accesses)
    ensures PolicyBreach(inst, plan, v) <==> PolicyRuleBroken(inst, plan, v)
  {
    match v
    case EcloForbidden(a, w) =>
    case EcloSpread(line) => SpreadSpelled(inst, plan.accesses, line);
    case PastPlannedDate(c) => if c < |inst.contracts| { LateSpelled(inst, plan.accesses, c); }
    case _ =>
  }

  lemma NoEcloVerdict(inst: Instance, plan: Plan, vs: seq<Violation>)
    requires plan.scenario == A && forall v :: v in vs <==> PolicyBreach(inst, plan, v)
    ensures vs == [] <==> EcloOk(inst, plan)
  {
    var s := plan.accesses;
    if vs == [] {
      forall i | 0 <= i < |s| ensures !s[i].eclo {
        AccessIn(s, i);
        assert EcloForbidden(s[i].activity, s[i].week) !in vs;
      }
    } else {
      assert vs[0] in vs;
    }
  }

  lemma PolicyVerdict(inst: Instance, plan: Plan, vs: seq<Violation>)
    requires forall v :: v in vs <==> PolicyBreach(inst, plan, v)
    ensures vs == [] <==> EcloOk(inst, plan) && PlannedDatesOk(inst, plan)
  {
    match plan.scenario
    case A =>
      NoEcloVerdict(inst, plan, vs);
    case B =>
      if vs == [] {
        forall c: nat | c < |inst.contracts|
          ensures var w := ContractLastIn(inst, XOf(plan.accesses), c, inst.weeks);
            w == 0 || SundayOfWeek(inst, w) <= inst.contracts[c].planned
        {
          assert PastPlannedDate(c) !in vs;
          assert !LatePlannedDate(inst, XOf(plan.accesses), c);
        }
      } else {
        assert vs[0] in vs;
        assert LatePlannedDate(inst, XOf(plan.accesses), vs[0].contract);
      }
    case C =>
      if vs == [] {
        forall line ensures LineWindowOk(inst, plan.accesses, line) { assert EcloSpread(line) !in vs; }
      } else {
        assert vs[0] in vs;
      }
  }

  /** The scenario's own rules: no ECLO under A, planned dates under B, the ECLO window under C. */
  method CheckPolicy(inst: Instance, plan: Plan) returns (vs: seq<Violation>)
    requires Wellformed(inst) && KnownContracts(inst) && AccessesInRange(inst, plan.accesses)
    ensures forall v :: v in vs <==> PolicyBreach(inst, plan, v)
    ensures forall v :: v in vs <==> PolicyRuleBroken(inst, plan, v)
    ensures vs == [] <==> EcloOk(inst, plan) && PlannedDatesOk(inst, plan)
  {
    forall v ensures PolicyBreach(inst, plan, v) <==> PolicyRuleBroken(inst, plan, v) { PolicySpelled(inst, plan, v); }
    if plan.scenario == A {
      vs := CheckNoEclo(plan.accesses);
    } else if plan.scenario == C {
      vs := CheckSpread(inst, plan.accesses);
    } else {
      vs := CheckPlannedDates(inst, plan.accesses);
    }
    PolicyVerdict(inst, plan, vs);
  }
}
