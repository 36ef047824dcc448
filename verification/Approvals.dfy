/** Plan versions and their approvals: the store's tables and the operations that change them. */
module Approvals {

  datatype Status = Draft | Approved | Superseded | Invalidated

  /** A row of plan_versions; ids are positions in the table. */
  datatype Version = Version(project: int, scenario: string, number: nat, feasible: bool, violations: int,
                             fallback: bool,
                             contentHash: string, validationHash: string, inputHash: string, status: Status,
                             approvedBy: int)

  /** A row of approvals. */
  datatype Approval = Approval(version: nat, approvedBy: int, contentHash: string, validationHash: string,
                               revoked: bool,
                               revokedBy: int)

  datatype Outcome = Done | Refused(reason: Reason)

  datatype Reason =
    | NoSuchVersion | Infeasible | Fallback | OutdatedInput | AlreadyApproved | ContentChanged | ValidationChanged
    | NoLongerDraft | NotApproved

  /** What a draft is made from. */
  datatype Proposal = Proposal(project: int, scenario: string, feasible: bool, violations: int, fallback: bool,
                               contentHash: string, validationHash: string, inputHash: string)

  datatype Tables = Tables(versions: seq<Version>, approvals: seq<Approval>)

  /** The same project and scenario. */
  predicate Siblings(v: Version, w: Version) { v.project == w.project && v.scenario == w.scenario }

  // --- the invariant -------------------------------------------------------------------------------

  /** Among siblings, at most one version stands approved. */
  ghost predicate OneApproved(versions: seq<Version>) {
    forall i, j ::
      (0 <= i < |versions| && 0 <= j < |versions| && Siblings(versions[i], versions[j])
       && versions[i].status == Approved && versions[j].status == Approved) ==> i == j
  }

  /** An approved version is feasible, not a fallback, and has a live approval of exactly its hashes. */
  ghost predicate Backed(versions: seq<Version>, approvals: seq<Approval>, v: nat)
    requires v < |versions|
  {
    versions[v].status == Approved ==>
      && versions[v].feasible && !versions[v].fallback
      && exists a: nat :: LiveFor(approvals, a, v)
  }

  ghost predicate LiveFor(approvals: seq<Approval>, a: nat, v: nat) {
    a < |approvals| && !approvals[a].revoked && approvals[a].version == v
  }

  /** A live approval is of a version that exists and holds that version's hashes. */
  ghost predicate LiveIsCurrent(versions: seq<Version>, approvals: seq<Approval>, a: nat, v: nat)
    requires a < |approvals|
  {
    LiveFor(approvals, a, v) ==>
      && v < |versions| && (versions[v].status == Approved || versions[v].status == Superseded)
      && approvals[a].contentHash == versions[v].contentHash
          && approvals[a].validationHash == versions[v].validationHash
      && approvals[a].approvedBy == versions[v].approvedBy
  }

  ghost predicate OneLive(approvals: seq<Approval>) {
    forall a: nat, b: nat, v: nat :: LiveFor(approvals, a, v) && LiveFor(approvals, b, v) ==> a == b
  }

  /** Within each project and scenario the numbers run 1, 2, 3, ... in table order. */
  ghost predicate Numbered(versions: seq<Version>) {
    forall i :: 0 <= i < |versions| ==> versions[i].number == SiblingsBefore(versions, i) + 1
  }

  /** The versions before row i of the same project and scenario. */
  function SiblingsBefore(versions: seq<Version>, i: nat): nat
    requires i < |versions|
  {
    CountSiblings(versions[..i], versions[i])
  }

  function CountSiblings(versions: seq<Version>, v: Version): nat {
    if versions == [] then 0
    else CountSiblings(versions[..|versions| - 1], v) + if Siblings(versions[|versions| - 1], v) then 1 else 0
  }

  ghost predicate AllBacked(versions: seq<Version>, approvals: seq<Approval>) {
    forall v: nat :: v < |versions| ==> Backed(versions, approvals, v)
  }

  ghost predicate AllCurrent(versions: seq<Version>, approvals: seq<Approval>) {
    forall a: nat, v: nat :: a < |approvals| ==> LiveIsCurrent(versions, approvals, a, v)
  }

  ghost predicate Safe(t: Tables) {
    && OneApproved(t.versions) && OneLive(t.approvals) && Numbered(t.versions)
    && AllBacked(t.versions, t.approvals) && AllCurrent(t.versions, t.approvals)
  }

  // --- numbering -----------------------------------------------------------------------------------

  /** The same version but for its status and approver. */
  ghost predicate SamePlan(v: Version, w: Version) {
    w == v.(status := w.status, approvedBy := w.approvedBy)
  }

  ghost predicate SamePlans(before: seq<Version>, after: seq<Version>) {
    |after| == |before| && forall i :: 0 <= i < |before| ==> SamePlan(before[i], after[i])
  }

  lemma {:induction false} CountSame(before: seq<Version>, after: seq<Version>, v: Version, w: Version)
    requires SamePlans(before, after) && Siblings(v, w)
    ensures CountSiblings(after, w) == CountSiblings(before, v)
  {
    if before != [] {
      var n := |before| - 1;
      assert SamePlan(before[n], after[n]);
      CountSame(before[..n], after[..n], v, w);
    }
  }

  lemma NumbersKept(before: seq<Version>, after: seq<Version>)
    requires Numbered(before) && SamePlans(before, after)
    ensures Numbered(after)
  {
    forall i | 0 <= i < |after| ensures after[i].number == SiblingsBefore(after, i) + 1 {
      assert SamePlan(before[i], after[i]);
      CountSame(before[..i], after[..i], before[i], after[i]);
    }
  }

  /** The highest number among the siblings of v. */
  function MaxNumber(versions: seq<Version>, v: Version): nat {
    if versions == [] then 0
    else
      var m, last := MaxNumber(versions[..|versions| - 1], v), versions[|versions| - 1];
      if Siblings(last, v) && last.number > m then last.number else m
  }

  /** Numbered without gaps, the highest number is the count. */
  lemma {:induction false} MaxIsCount(versions: seq<Version>, v: Version)
    requires Numbered(versions)
    ensures MaxNumber(versions, v) == CountSiblings(versions, v)
  {
    if versions != [] {
      var n := |versions| - 1;
      forall i | 0 <= i < n ensures versions[..n][i].number == SiblingsBefore(versions[..n], i) + 1 {
        assert versions[..n][..i] == versions[..i] && versions[i].number == SiblingsBefore(versions, i) + 1;
      }
      MaxIsCount(versions[..n], v);
      if Siblings(versions[n], v) { CountLike(versions[..n], versions[n], v); }
    }
  }

  lemma {:induction false} CountLike(versions: seq<Version>, v: Version, w: Version)
    requires Siblings(v, w)
    ensures CountSiblings(versions, v) == CountSiblings(versions, w)
  {
    if versions != [] { CountLike(versions[..|versions| - 1], v, w); }
  }

  // --- the operations, on the tables ------------------------------------------------------------------

  function DraftOf(p: Proposal, number: nat): Version {
    Version(p.project, p.scenario, number, p.feasible, p.violations, p.fallback, p.contentHash, p.validationHash,
            p.inputHash, Draft, 0)
  }

  function Add(t: Tables, p: Proposal): Tables {
    t.(versions := t.versions + [DraftOf(p, MaxNumber(t.versions, DraftOf(p, 0)) + 1)])
  }

  /** What stops an approval, if anything does. */
  function Objection(t: Tables, v: nat, content: string, validation: string): Outcome {
    if v >= |t.versions| then Refused(NoSuchVersion)
    else
      var pv := t.versions[v];
      if !pv.feasible then Refused(Infeasible)
      else if pv.fallback then Refused(Fallback)
      else if pv.status == Invalidated then Refused(OutdatedInput)
      else if pv.status == Approved then Refused(AlreadyApproved)
      else if content != [] && content != pv.contentHash then Refused(ContentChanged)
      else if validation != [] && validation != pv.validationHash then Refused(ValidationChanged)
      else if pv.status != Draft then Refused(NoLongerDraft)
      else Done
  }

  /** v approved, and every other approved version of its project and scenario superseded. */
  function Promoted(versions: seq<Version>, v: nat, approver: int): (r: seq<Version>)
    requires v < |versions|
    ensures |r| == |versions|
  {
    seq(|versions|, i requires 0 <= i < |versions| =>
      if i == v then versions[i].(status := Approved, approvedBy := approver)
      else if Siblings(versions[i], versions[v])
          && versions[i].status == Approved then versions[i].(status := Superseded)
      else versions[i])
  }

  function Approve(t: Tables, v: nat, approver: int): Tables
    requires v < |t.versions|
  {
    var pv := t.versions[v];
    Tables(Promoted(t.versions, v, approver),
           t.approvals + [Approval(v, approver, pv.contentHash, pv.validationHash, false, 0)])
  }

  function Withdrawn(approvals: seq<Approval>, v: nat, actor: int): (r: seq<Approval>)
    ensures |r| == |approvals|
  {
    seq(|approvals|, a requires 0 <= a < |approvals| =>
      if approvals[a].version == v && !approvals[a].revoked then approvals[a].(revoked := true, revokedBy := actor)
      else approvals[a])
  }

  function Revoke(t: Tables, v: nat, actor: int): Tables
    requires v < |t.versions|
  {
    Tables(t.versions[v := t.versions[v].(status := Draft, approvedBy := 0)], Withdrawn(t.approvals, v, actor))
  }

  /** Built from another input than the project's new one. */
  predicate Outdated(v: Version, project: int, input: string) { v.project == project && v.inputHash != input }

  predicate Falls(v: Version, project: int, input: string) {
    Outdated(v, project, input) && (v.status == Approved || v.status == Draft)
  }

  function Fallen(versions: seq<Version>, project: int, input: string): (r: seq<Version>)
    ensures |r| == |versions|
  {
    seq(|versions|, i requires 0 <= i < |versions| =>
      if Falls(versions[i], project, input) then versions[i].(status := Invalidated) else versions[i])
  }

  function CountFalling(versions: seq<Version>, project: int, input: string): nat {
    if versions == [] then 0
    else CountFalling(versions[..|versions| - 1], project, input)
         + if Falls(versions[|versions| - 1], project, input) then 1 else 0
  }

  function Lapsed(versions: seq<Version>, approvals: seq<Approval>, project: int, input: string,
                  actor: int): (r: seq<Approval>)
    ensures |r| == |approvals|
  {
    seq(|approvals|, a requires 0 <= a < |approvals| =>
      if !approvals[a].revoked && approvals[a].version < |versions|
          && Outdated(versions[approvals[a].version], project, input)
      then approvals[a].(revoked := true, revokedBy := actor) else approvals[a])
  }

  /** A new input: drafts and approvals built on another fall, and their approvals with them. */
  function Invalidate(t: Tables, project: int, input: string, actor: int): Tables {
    Tables(Fallen(t.versions, project, input),
           if CountFalling(t.versions, project, input) > 0 then Lapsed(t.versions, t.approvals, project, input, actor)
           else t.approvals)
  }

  // --- every operation keeps the tables safe --------------------------------------------------------------

  lemma CountAdd(versions: seq<Version>, w: Version, i: nat)
    requires i < |versions|
    ensures SiblingsBefore(versions + [w], i) == SiblingsBefore(versions, i)
  {
    assert (versions + [w])[..i] == versions[..i];
  }

  lemma AddKeeps(t: Tables, p: Proposal)
    requires Safe(t)
    ensures Safe(Add(t, p))
    ensures Add(t, p).versions[|t.versions|].number == CountSiblings(t.versions, DraftOf(p, 0)) + 1
  {
    var after, n := Add(t, p).versions, |t.versions|;
    var w := after[n];
    MaxIsCount(t.versions, DraftOf(p, 0));
    CountLike(t.versions, DraftOf(p, 0), w);
    assert after[..n] == t.versions;
    forall i | 0 <= i < |after| ensures after[i].number == SiblingsBefore(after, i) + 1 {
      if i < n { CountAdd(t.versions, w, i); }
    }
    forall v: nat | v < |after| ensures Backed(after, t.approvals, v) {
      if v < n { assert Backed(t.versions, t.approvals, v); }
    }
    forall a: nat, v: nat | a < |t.approvals| ensures LiveIsCurrent(after, t.approvals, a, v) {
      assert LiveIsCurrent(t.versions, t.approvals, a, v);
    }
  }

  lemma PromotedOne(versions: seq<Version>, v: nat, approver: int)
    requires v < |versions| && OneApproved(versions)
    ensures OneApproved(Promoted(versions, v, approver)) && SamePlans(versions, Promoted(versions, v, approver))
  {
  }

  lemma ApproveBacks(t: Tables, v: nat, approver: int)
    requires Safe(t) && v < |t.versions| && Objection(t, v, [], []) == Done
    ensures AllBacked(Approve(t, v, approver).versions, Approve(t, v, approver).approvals)
  {
    var after := Approve(t, v, approver);
    forall w: nat | w < |after.versions| ensures Backed(after.versions, after.approvals, w) {
      if w == v {
        assert LiveFor(after.approvals, |t.approvals|, v);
      } else if after.versions[w].status == Approved {
        assert Backed(t.versions, t.approvals, w);
        var a: nat :| LiveFor(t.approvals, a, w);
        assert LiveFor(after.approvals, a, w);
      }
    }
  }

  lemma ApproveCurrent(t: Tables, v: nat, approver: int)
    requires Safe(t) && v < |t.versions| && t.versions[v].status == Draft
    ensures var after := Approve(t, v, approver);
            AllCurrent(after.versions, after.approvals) && OneLive(after.approvals)
  {
    var after := Approve(t, v, approver);
    forall a: nat, w: nat | LiveFor(after.approvals, a, w)
      ensures (a < |t.approvals| && w != v && LiveFor(t.approvals, a, w)) || (a == |t.approvals| && w == v)
    {
      if a < |t.approvals| { assert LiveIsCurrent(t.versions, t.approvals, a, w); }
    }
    forall a: nat, w: nat | a < |after.approvals| ensures LiveIsCurrent(after.versions, after.approvals, a, w) {
      if LiveFor(after.approvals, a, w) && a < |t.approvals| { assert LiveIsCurrent(t.versions, t.approvals, a, w); }
    }
  }

  lemma ApproveKeeps(t: Tables, v: nat, approver: int)
    requires Safe(t) && v < |t.versions| && Objection(t, v, [], []) == Done
    ensures Safe(Approve(t, v, approver))
  {
    PromotedOne(t.versions, v, approver);
    NumbersKept(t.versions, Promoted(t.versions, v, approver));
    ApproveBacks(t, v, approver);
    ApproveCurrent(t, v, approver);
  }

  lemma RevokeLive(t: Tables, v: nat, actor: int, a: nat, w: nat)
    ensures LiveFor(Withdrawn(t.approvals, v, actor), a, w) <==> LiveFor(t.approvals, a, w) && w != v
  {
  }

  lemma RevokeKeeps(t: Tables, v: nat, actor: int)
    requires Safe(t) && v < |t.versions| && t.versions[v].status == Approved
    ensures Safe(Revoke(t, v, actor))
  {
    var after := Revoke(t, v, actor);
    NumbersKept(t.versions, after.versions);
    forall a: nat, w: nat
      ensures LiveFor(after.approvals, a, w) <==> LiveFor(t.approvals, a, w) && w != v
    {
      RevokeLive(t, v, actor, a, w);
    }
    forall w: nat | w < |after.versions| ensures Backed(after.versions, after.approvals, w) {
      assert Backed(t.versions, t.approvals, w);
      if after.versions[w].status == Approved {
        var a: nat :| LiveFor(t.approvals, a, w);
        assert LiveFor(after.approvals, a, w);
      }
    }
    forall a: nat, w: nat | a < |after.approvals| ensures LiveIsCurrent(after.versions, after.approvals, a, w) {
      assert LiveIsCurrent(t.versions, t.approvals, a, w);
    }
  }

  lemma {:induction false} NoneFalling(versions: seq<Version>, project: int, input: string, v: nat)
    requires v < |versions| && Falls(versions[v], project, input)
    ensures CountFalling(versions, project, input) > 0
  {
    if v < |versions| - 1 { NoneFalling(versions[..|versions| - 1], project, input, v); }
  }

  /** Live afterwards: live before, and not of a version that falls. */
  lemma InvalidateLive(t: Tables, project: int, input: string, actor: int, a: nat, v: nat)
    requires Safe(t) && LiveFor(Invalidate(t, project, input, actor).approvals, a, v)
    ensures LiveFor(t.approvals, a, v) && v < |t.versions| && !Falls(t.versions[v], project, input)
  {
    assert LiveFor(t.approvals, a, v) && LiveIsCurrent(t.versions, t.approvals, a, v);
    if Falls(t.versions[v], project, input) { NoneFalling(t.versions, project, input, v); }
  }

  lemma InvalidateBacks(t: Tables, project: int, input: string, actor: int)
    requires Safe(t)
    ensures var after := Invalidate(t, project, input, actor); AllBacked(after.versions, after.approvals)
  {
    var after := Invalidate(t, project, input, actor);
    forall v: nat | v < |after.versions| ensures Backed(after.versions, after.approvals, v) {
      assert Backed(t.versions, t.approvals, v);
      if after.versions[v].status == Approved {
        var a: nat :| LiveFor(t.approvals, a, v);
        assert LiveFor(after.approvals, a, v);
      }
    }
  }

  lemma InvalidateCurrent(t: Tables, project: int, input: string, actor: int)
    requires Safe(t)
    ensures var after := Invalidate(t, project, input, actor);
      AllCurrent(after.versions, after.approvals) && OneLive(after.approvals)
  {
    var after := Invalidate(t, project, input, actor);
    forall a: nat, v: nat | LiveFor(after.approvals, a, v) ensures LiveFor(t.approvals, a, v) {
      InvalidateLive(t, project, input, actor, a, v);
    }
    forall a: nat, v: nat | a < |after.approvals| ensures LiveIsCurrent(after.versions, after.approvals, a, v) {
      if LiveFor(after.approvals, a, v) {
        InvalidateLive(t, project, input, actor, a, v);
        assert LiveIsCurrent(t.versions, t.approvals, a, v);
      }
    }
  }

  lemma InvalidateKeeps(t: Tables, project: int, input: string, actor: int)
    requires Safe(t)
    ensures Safe(Invalidate(t, project, input, actor))
  {
    FallenNumbers(t.versions, project, input);
    InvalidateBacks(t, project, input, actor);
    InvalidateCurrent(t, project, input, actor);
  }

  lemma FallenNumbers(versions: seq<Version>, project: int, input: string)
    requires OneApproved(versions) && Numbered(versions)
    ensures OneApproved(Fallen(versions, project, input)) && Numbered(Fallen(versions, project, input))
  {
    NumbersKept(versions, Fallen(versions, project, input));
  }

  // --- runs -----------------------------------------------------------------------------------------------------

  datatype Call =
    | AddCall(proposal: Proposal)
    | ApproveCall(version: nat, approver: int, content: string, validation: string)
    | RevokeCall(version: nat, actor: int)
    | InvalidateCall(project: int, input: string, actor: int)

  function Step(t: Tables, c: Call): Tables {
    match c
    case AddCall(p) => Add(t, p)
    case ApproveCall(v, approver, content, validation) =>
      if Objection(t, v, content, validation) == Done then Approve(t, v, approver) else t
    case RevokeCall(v, actor) =>
      if v < |t.versions| && t.versions[v].status == Approved then Revoke(t, v, actor) else t
    case InvalidateCall(project, input, actor) => Invalidate(t, project, input, actor)
  }

  function Run(calls: seq<Call>): Tables {
    if calls == [] then Tables([], []) else Step(Run(calls[..|calls| - 1]), calls[|calls| - 1])
  }

  lemma StepKeeps(t: Tables, c: Call)
    requires Safe(t)
    ensures Safe(Step(t, c))
  {
    match c
    case AddCall(p) => AddKeeps(t, p);
    case ApproveCall(v, approver, content, validation) =>
      if Objection(t, v, content, validation) == Done { ApproveKeeps(t, v, approver); }
    case RevokeCall(v, actor) =>
      if v < |t.versions| && t.versions[v].status == Approved { RevokeKeeps(t, v, actor); }
    case InvalidateCall(project, input, actor) => InvalidateKeeps(t, project, input, actor);
  }

  /** After any calls whatever, in any order, the tables are safe. */
  lemma {:induction false} EveryRunIsSafe(calls: seq<Call>)
    ensures Safe(Run(calls))
  {
    if calls != [] {
      EveryRunIsSafe(calls[..|calls| - 1]);
      StepKeeps(Run(calls[..|calls| - 1]), calls[|calls| - 1]);
    }
  }

  /** The one live approval of an approved version. */
  ghost predicate OnlyLive(t: Tables, a: nat, v: nat)
    requires v < |t.versions|
  {
    && LiveFor(t.approvals, a, v) && t.approvals[a].approvedBy == t.versions[v].approvedBy
    && t.approvals[a].contentHash == t.versions[v].contentHash
    && t.approvals[a].validationHash == t.versions[v].validationHash
    && forall b: nat :: LiveFor(t.approvals, b, v) ==> b == a
  }

  /** After any run: an approved version has exactly one live approval, its own; a draft or invalidated one has none. */
  lemma ApprovalsAreExact(calls: seq<Call>, v: nat)
    requires v < |Run(calls).versions|
    ensures var t := Run(calls); var status := t.versions[v].status;
      && (status == Approved ==>
            t.versions[v].feasible && !t.versions[v].fallback && exists a: nat :: OnlyLive(t, a, v))
      && (status == Draft || status == Invalidated ==> forall a: nat :: !LiveFor(t.approvals, a, v))
  {
    EveryRunIsSafe(calls);
    var t := Run(calls);
    forall a: nat | LiveFor(t.approvals, a, v) ensures LiveIsCurrent(t.versions, t.approvals, a, v) {}
    if t.versions[v].status == Approved {
      assert Backed(t.versions, t.approvals, v);
      var a: nat :| LiveFor(t.approvals, a, v);
      assert OnlyLive(t, a, v);
    }
  }

  /**
   * After any run: of two versions of one project and scenario one at most is approved, and the later has the larger
   * number.
   */
  lemma ApprovalIsUnique(calls: seq<Call>, i: nat, j: nat)
    requires var vs := Run(calls).versions;
      i < j < |vs| && vs[i].project == vs[j].project && vs[i].scenario == vs[j].scenario
    ensures var vs := Run(calls).versions;
      !(vs[i].status == Approved && vs[j].status == Approved) && 1 <= vs[i].number < vs[j].number
  {
    EveryRunIsSafe(calls);
    var vs := Run(calls).versions;
    assert Siblings(vs[i], vs[j]);
    CountLike(vs[..i], vs[i], vs[j]);
    CountGrows(vs[..j], i, vs[j]);
    assert vs[..j][..i] == vs[..i];
  }

  lemma {:induction false} CountGrows(versions: seq<Version>, i: nat, v: Version)
    requires i < |versions| && Siblings(versions[i], v)
    ensures CountSiblings(versions[..i], v) < CountSiblings(versions, v)
  {
    var n := |versions| - 1;
    if i < n {
      assert versions[..n][..i] == versions[..i];
      CountGrows(versions[..n], i, v);
    }
  }

  lemma {:induction false} FallingCounted(versions: seq<Version>, project: int, input: string)
    ensures CountFalling(versions, project, input) == |FallingRows(versions, project, input)|
  {
    if versions != [] {
      var n := |versions| - 1;
      FallingCounted(versions[..n], project, input);
      var before, last: int := FallingRows(versions[..n], project, input), n;
      if Falls(versions[n], project, input) {
        assert FallingRows(versions, project, input) == before + {last};
      } else {
        assert FallingRows(versions, project, input) == before;
      }
    }
  }

  /** The drafts and approved versions of the project that were built from another input. */
  ghost function FallingRows(versions: seq<Version>, project: int, input: string): set<int> {
    set i | 0 <= i < |versions| && versions[i].project == project && versions[i].inputHash != input
            && (versions[i].status == Draft || versions[i].status == Approved)
  }

  lemma {:induction false} HighestNumber(versions: seq<Version>, v: Version)
    ensures forall i :: 0 <= i < |versions| && Siblings(versions[i], v) ==> versions[i].number <= MaxNumber(versions, v)
    ensures MaxNumber(versions, v) == 0
            || exists i :: 0 <= i < |versions| && Siblings(versions[i], v)
                && versions[i].number == MaxNumber(versions, v)
  {
    if versions != [] {
      var n := |versions| - 1;
      HighestNumber(versions[..n], v);
      var m := MaxNumber(versions[..n], v);
      if i :| 0 <= i < n && Siblings(versions[..n][i], v) && versions[..n][i].number == m {
        assert versions[i] == versions[..n][i];
      }
    }
  }

  /** Superseded and invalidated versions stay so; nothing but status and approver ever changes; rows are never lost. */
  lemma StepIsTerminal(t: Tables, c: Call, v: nat)
    requires v < |t.versions|
    ensures v < |Step(t, c).versions| && SamePlan(t.versions[v], Step(t, c).versions[v])
    ensures t.versions[v].status == Superseded || t.versions[v].status == Invalidated ==>
      Step(t, c).versions[v] == t.versions[v]
  {
  }

  lemma {:induction false} TerminalForever(calls: seq<Call>, n: nat, v: nat)
    requires n <= |calls| && v < |Run(calls[..n]).versions|
    requires Run(calls[..n]).versions[v].status == Superseded || Run(calls[..n]).versions[v].status == Invalidated
    ensures v < |Run(calls).versions| && Run(calls).versions[v] == Run(calls[..n]).versions[v]
    decreases |calls|
  {
    if n == |calls| {
      assert calls[..n] == calls;
    } else {
      var before := calls[..|calls| - 1];
      assert before[..n] == calls[..n];
      TerminalForever(before, n, v);
      StepIsTerminal(Run(before), calls[|calls| - 1], v);
    }
  }

  // --- the store ------------------------------------------------------------------------------------------------

  class Store {
    var versions: seq<Version>
    var approvals: seq<Approval>

    function Now(): Tables
      reads this
    {
      Tables(versions, approvals)
    }

    constructor ()
      ensures Now() == Run([])
    {
      versions, approvals := [], [];
    }

    /** Inserts a draft under the next number of its project and scenario. */
    method AddPlanVersion(p: Proposal) returns (id: nat)
      modifies this`versions
      ensures Now() == Add(old(Now()), p) && id == |old(versions)|
      ensures |versions| == id + 1 && versions[..id] == old(versions)
      ensures var number := versions[id].number;
        && versions[id] == Version(p.project, p.scenario, number, p.feasible, p.violations, p.fallback, p.contentHash,
                                   p.validationHash, p.inputHash, Draft, 0)
        && (forall i :: 0 <= i < id && versions[i].project == p.project && versions[i].scenario == p.scenario ==>
              versions[i].number < number)
        && (number == 1 || exists i :: 0 <= i < id && versions[i].project == p.project
                                       && versions[i].scenario == p.scenario && versions[i].number + 1 == number)
    {
      HighestNumber(versions, DraftOf(p, 0));
      var probe, highest := DraftOf(p, 0), 0;
      for i := 0 to |versions|
        invariant highest == MaxNumber(versions[..i], probe)
      {
        assert versions[..i + 1][..i] == versions[..i];
        if Siblings(versions[i], probe) && versions[i].number > highest { highest := versions[i].number; }
      }
      assert versions[..|versions|] == versions;
      id := |versions|;
      versions := versions + [DraftOf(p, highest + 1)];
    }

    /** Approves a draft exactly as displayed, and supersedes whatever stood approved beside it. */
    method ApprovePlan(v: nat, approver: int, content: string, validation: string) returns (r: Outcome)
      modifies this
      ensures r == Objection(old(Now()), v, content, validation)
      ensures Now() == Step(old(Now()), ApproveCall(v, approver, content, validation))
      ensures r == Refused(NoSuchVersion) <==> v >= |old(versions)|
      ensures v < |old(versions)| ==>
        var pv := old(versions)[v];
        && (r == Refused(Infeasible) <==> !pv.feasible)
        && (r == Refused(Fallback) <==> pv.feasible && pv.fallback)
        && (r == Refused(OutdatedInput) <==> pv.feasible && !pv.fallback && pv.status == Invalidated)
        && (r == Refused(AlreadyApproved) <==> pv.feasible && !pv.fallback && pv.status == Approved)
        && (pv.feasible && !pv.fallback && (pv.status == Draft || pv.status == Superseded) ==>
              && (r == Refused(ContentChanged) <==> content != "" && content != pv.contentHash)
              && (r == Refused(ValidationChanged) <==>
                    (content == "" || content == pv.contentHash) && validation != "" && validation != pv.validationHash)
              && (r == Refused(NoLongerDraft) <==>
                    (content == "" || content == pv.contentHash)
                    && (validation == "" || validation == pv.validationHash) && pv.status == Superseded))
        && (r == Done <==>
              pv.feasible && !pv.fallback && pv.status == Draft && (content == "" || content == pv.contentHash)
              && (validation == "" || validation == pv.validationHash))
      ensures r != Done ==> versions == old(versions) && approvals == old(approvals)
      ensures r == Done ==>
        var pv := old(versions)[v];
        && approvals == old(approvals) + [Approval(v, approver, pv.contentHash, pv.validationHash, false, 0)]
        && |versions| == |old(versions)| && versions[v] == pv.(status := Approved, approvedBy := approver)
        && forall i :: 0 <= i < |versions| && i != v ==>
             versions[i] == if old(versions)[i].project == pv.project && old(versions)[i].scenario == pv.scenario
                               && old(versions)[i].status == Approved
                            then old(versions)[i].(status := Superseded) else old(versions)[i]
    {
      if v >= |versions| { return Refused(NoSuchVersion); }
      var pv := versions[v];
      if !pv.feasible { return Refused(Infeasible); }
      if pv.fallback { return Refused(Fallback); }
      if pv.status == Invalidated { return Refused(OutdatedInput); }
      if pv.status == Approved { return Refused(AlreadyApproved); }
      if content != [] && content != pv.contentHash { return Refused(ContentChanged); }
      if validation != [] && validation != pv.validationHash { return Refused(ValidationChanged); }
      if pv.status != Draft { return Refused(NoLongerDraft); }
      ghost var before := versions;
      versions := versions[v := pv.(status := Approved, approvedBy := approver)];
      approvals := approvals + [Approval(v, approver, pv.contentHash, pv.validationHash, false, 0)];
      for i := 0 to |versions|
        invariant |versions| == |before| && approvals == Approve(Tables(before, old(approvals)), v, approver).approvals
        invariant forall j :: 0 <= j < i ==> versions[j] == Promoted(before, v, approver)[j]
        invariant forall j :: i <= j < |before| ==>
                    versions[j] == if j == v then Promoted(before, v, approver)[j] else before[j]
      {
        if Siblings(versions[i], pv) && i != v && versions[i].status == Approved {
          versions := versions[i := versions[i].(status := Superseded)];
        }
      }
      assert versions == Promoted(before, v, approver);
      r := Done;
    }

    /** Takes an approval back: the version is a draft again and its approval is revoked. */
    method RevokeApproval(v: nat, actor: int) returns (r: Outcome)
      modifies this
      ensures r == if v >= |old(versions)| then Refused(NoSuchVersion)
                   else if old(versions)[v].status != Approved then Refused(NotApproved) else Done
      ensures Now() == Step(old(Now()), RevokeCall(v, actor))
      ensures r != Done ==> versions == old(versions) && approvals == old(approvals)
      ensures r == Done ==>
        && versions == old(versions)[v := old(versions)[v].(status := Draft, approvedBy := 0)]
        && |approvals| == |old(approvals)|
        && forall a :: 0 <= a < |approvals| ==>
             approvals[a] == if old(approvals)[a].version == v && !old(approvals)[a].revoked
                             then old(approvals)[a].(revoked := true, revokedBy := actor) else old(approvals)[a]
    {
      if v >= |versions| { return Refused(NoSuchVersion); }
      if versions[v].status != Approved { return Refused(NotApproved); }
      versions := versions[v := versions[v].(status := Draft, approvedBy := 0)];
      for a := 0 to |approvals|
        invariant |approvals| == |old(approvals)| && versions == Revoke(old(Now()), v, actor).versions
        invariant forall b :: 0 <= b < a ==> approvals[b] == Withdrawn(old(approvals), v, actor)[b]
        invariant forall b :: a <= b < |approvals| ==> approvals[b] == old(approvals)[b]
      {
        if approvals[a].version == v && !approvals[a].revoked {
          approvals := approvals[a := approvals[a].(revoked := true, revokedBy := actor)];
        }
      }
      assert approvals == Withdrawn(old(approvals), v, actor);
      r := Done;
    }

    /** Invalidates what was built on another input; reports how many versions fell. */
    method InvalidateApprovals(project: int, input: string, actor: int) returns (n: nat)
      modifies this
      ensures n == CountFalling(old(versions), project, input)
      ensures Now() == Step(old(Now()), InvalidateCall(project, input, actor))
      ensures n == |FallingRows(old(versions), project, input)|
      ensures |versions| == |old(versions)| && |approvals| == |old(approvals)|
      ensures forall i :: 0 <= i < |versions| ==>
        versions[i] == if i in FallingRows(old(versions), project, input)
                       then old(versions)[i].(status := Invalidated) else old(versions)[i]
      ensures forall a :: 0 <= a < |approvals| ==>
        approvals[a] == if n > 0 && !old(approvals)[a].revoked && old(approvals)[a].version < |versions|
                           && old(versions)[old(approvals)[a].version].project == project
                           && old(versions)[old(approvals)[a].version].inputHash != input
                        then old(approvals)[a].(revoked := true, revokedBy := actor) else old(approvals)[a]
    {
      FallingCounted(versions, project, input);
      ghost var before := versions;
      n := 0;
      for i := 0 to |versions|
        invariant |versions| == |before| && approvals == old(approvals)
        invariant n == CountFalling(before[..i], project, input)
        invariant forall j :: 0 <= j < i ==> versions[j] == Fallen(before, project, input)[j]
        invariant forall j :: i <= j < |before| ==> versions[j] == before[j]
      {
        assert before[..i + 1][..i] == before[..i];
        if Falls(versions[i], project, input) {
          versions := versions[i := versions[i].(status := Invalidated)];
          n := n + 1;
        }
      }
      assert before[..|before|] == before && versions == Fallen(before, project, input);
      if n > 0 { LapseApprovals(before, project, input, actor); }
    }

    /** Revokes the live approvals of every version of the project built on another input. */
    method LapseApprovals(ghost before: seq<Version>, project: int, input: string, actor: int)
      requires versions == Fallen(before, project, input)
      modifies this`approvals
      ensures approvals == Lapsed(before, old(approvals), project, input, actor)
    {
      for a := 0 to |approvals|
        invariant |approvals| == |old(approvals)|
        invariant forall b :: 0 <= b < a ==> approvals[b] == Lapsed(before, old(approvals), project, input, actor)[b]
        invariant forall b :: a <= b < |approvals| ==> approvals[b] == old(approvals)[b]
      {
        var v := approvals[a].version;
        if !approvals[a].revoked && v < |versions| && Outdated(versions[v], project, input) {
          approvals := approvals[a := approvals[a].(revoked := true, revokedBy := actor)];
        }
      }
    }
  }
}
