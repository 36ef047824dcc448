# Possession scheduling: a model and its proofs

The repository plans track possessions: activities of contracts need access-nights at locations of a rail network.
A constraint solver chooses, for every activity and week, whether an access is taken and whether that night is an
ECLO night (early closure, late opening). Code around it packs activities into co-share slots, puts them on nights,
scores the plan and writes three tables. An independent checker reads the tables back and decides whether any hard
rule is broken, with other data structures and without the solver's conflict pairs.

The project models both sides and proves that they agree, and models the parts they stand on: the network geometry,
the calendar, CSV and decimal text, SHA-256, the predecessor check, the approval store with its audit chain, and the
client's request layer. Code that changes state step by step is modelled by methods and classes proved against
specification functions; the laws are lemmas about those functions.

## How it is laid out

- **Domain.** `Model`, `Counting`, `Sorting`, `Arithmetic`, `Decimal`.
- **Solver.** `Solver` states the constraint system (`Satisfies`) and the linear objective (`Objective`) over the
  decision variables; the search is an oracle that returns a satisfying or a minimal assignment. `Packing` and
  `Nights` hold the counting behind the capacity and allocation rows, `Supplies` the two readings of disruptions.
- **Plan.** `Plans` states the plan that activity-weeks determine (`PlanOf`) and its score; `Schedule` builds it in
  place; `Placement` says where by the order of ids; `Scoring` scores it.
- **Checker.** `Rules` spells every rule out over rows and fields, in numbers and without the model's own functions;
  `Checker` states them in the form the proofs use (`Accepts`). `AccessChecks`, `Numbering`, `OccupancyChecks`,
  `ResultChecks`, `SlotChecks`, `NightChecks`, `PolicyChecks` and `Validator` are its loops, one tagged `Violations`
  entry a breach, and prove that the two forms agree.
- **Agreement.** `Soundness` (solutions become accepted plans), `Completeness` (accepted plans become solutions that
  cost no more), `Optimum` (the optimum is the least score of an accepted plan), `Pipeline` (through the files).
- **Repair.** `Changes`, `Reports`, `Disruptions`, `Repair`, `Promise`, `Counterexamples`.
- **Network.** `Topology`, `Zones`, `Surroundings` (the zones location by location), `Conflicts`, `Predecessors`.
- **Files.** `Calendar`, `Csv`, `CsvTable`, `CsvLoad`, `PlanTables`, `PlanExport`, `PlanLoad`, `PlanRoundTrip`,
  `PlanFiles`.
- **Service and client.** `Sha256`, `Sha256Constants`, `Sha256Example`, `AuditChain`, `Approvals`, `RequestLayer`.

`dafny verify dfyconfig.toml` checks everything.

## What the proofs found

- **Overrides named twice.** The constraints read the last override of a location-week (src/solver/solver.cpp:157),
  the score and the checker the first (src/core/schedule.cpp:217-221). The two agree wherever no group of a
  location's users could feel the difference (`Supplies.AlikeExact`). Under B acceptance never depends on it; under A
  and C a solution's plan is accepted exactly when every occupied location-week fits the recorded supply
  (`Soundness.AcceptanceExact`), and `Counterexamples.DisagreementIsRefused` is a solution whose plan is refused.
- **Repair.** The second pass locks the score reported by the first (src/solver/solver.cpp:398), which is computed
  before the disruption is recorded in the plan (src/cli/main.cpp:496-498), so it leaves out what the disruption
  costs. The comment above promises the scenario's optimum and, within it, the fewest changes. When supply is cut the
  lock can be below every plan's cost and the second pass finds nothing (`Counterexamples.CutDefeatsRepair`); when it
  is raised the lock can admit a dearer plan with the same report, which then replaces an optimum
  (`Counterexamples.RaiseDefeatsRepair`). `Repair.RepairSolve` states what comes out in every case, and
  `Promise.PromiseExact` says, for every scenario, disruption and hypothesis, exactly when the promise is kept whatever
  the baseline and the answers. `Disruptions.ReportsAll`, a condition on the inputs alone, always suffices, and holds
  exactly when no plan's report leaves anything out (`Disruptions.ReportExact`).
- **Empty activities.** An activity that needs no access and whose planned date lies before the horizon is charged by
  the solver's objective under A and C (src/solver/solver.cpp:233-240) and makes B infeasible, while the score and
  the checker pass over it (src/core/schedule.cpp:112). The theorems carry the charge (`Optimum.EmptyChargeExact`).
- **The workload cap.** The comment at src/solver/solver.cpp:90-94 says the cap forbids no legal combination of
  nights. It forbids, for example, two ECLO nights for a need of two accesses. Nothing is lost: dropping a night or
  downgrading an ECLO night always ends within the cap at no higher cost (`Completeness.Trim`).
- **Touching zones.** Pairs whose buffer zones only touch never enter the no-overlap set
  (src/core/instance.cpp:306), although the checker would flag them in that mode (`Conflicts.TouchingIsMissed`).
- **Plan files.** A written plan cannot be read back when nothing is scheduled, when a completion falls outside the
  years 1900 to 2999, or when an overrun is out of range (`PlanRoundTrip.DatableMeans`).
- **Audit chain.** Rows cut off the end are not noticed (`AuditChain.PrefixVerifies`); any change that keeps the last
  hash is, unless two different texts in the two logs have the same hash (`AuditChain.TamperingShows`).

## Model

| member | source | states |
|---|---|---|
| `Packing.PackingOptimal` | src/core/schedule.cpp:25-46 | the greedy labels of any set of activities are legal slots, use exactly the counted number, and no legal labelling of the same activities uses fewer |
| `Packing.LeastSlots` | src/solver/solver.cpp:143-187 | a number of slots meets the two capacity inequalities exactly when some legal labelling uses no more |
| `Solver.FitsIsNeeded` | src/solver/solver.cpp:171-186 | the two inequalities say exactly that the packer needs no more slots than supply and excess allow |
| `Supplies.SupplyAgreement` | src/core/schedule.cpp:217-221 | first-match and last-match overrides give the same supply everywhere exactly when repeated overrides are consistent |
| `Supplies.SolverSupplyIsLast` | src/solver/solver.cpp:155-162 | the supply in the constraints is that of the last override naming the location-week, else the location's own |
| `Supplies.EffectiveSupplyIsFirst` | src/core/schedule.cpp:217-221 | the supply in score and checker is that of the first |
| `Supplies.CoversExact` | src/solver/solver.cpp:171-186 | one supply is at least another, or serves all users of the location at once, exactly when every group of its users that fits the second fits the first |
| `Supplies.AlikeExact` | src/core/schedule.cpp:121-127 | two supplies cover each other exactly when no group of the location's users exceeds them by different amounts |
| `Nights.NightsMinimal` | src/core/schedule.cpp:50-80 | the greedy fill of a contract-week uses no more nights than any assignment within the workfronts |
| `Schedule.PackSlots` | src/core/schedule.cpp:25-46 | every activity is placed once: PM in slots of their own, each PC in the next with up to three C, the other C four to a slot; the slot count is the least |
| `Schedule.WorkingPlan.Extract` | src/solver/solver.cpp:352-363 | the accesses are one per true variable, by activity and week, with their ECLO flags |
| `Optimum.ExtractionExact` | src/solver/solver.cpp:352-363 | the extracted accesses have exactly the solution's activity-weeks and ECLO nights, none twice |
| `Optimum.SolutionsFillWorkload` | src/solver/solver.cpp:83-96 | in every solution ten per night and five more per ECLO night reach ten times the accesses needed and exceed it by nine at most |
| `Optimum.SolutionsCountDays` | src/solver/solver.cpp:224-245 | no solution works before an activity's first week or counts fewer days than from the planned date to the Sunday of any of its nights; under B there are none |
| `Optimum.SolutionsStayTogether` | src/solver/solver.cpp:204-221 | under C no solution has ECLO nights two or more weeks apart whose closures hold locations of one line |
| `Schedule.WorkingPlan.AssignAccessNights` | src/core/schedule.cpp:50-80 | changes nights only; succeeds exactly when some assignment keeps allowance and workfronts, and then its own does so with the fewest nights in every contract-week, each night the one that follows from how many ids come before in that week |
| `Schedule.WorkingPlan.ComputeOccupancy` | src/core/schedule.cpp:9-48 | every occupied location-week, and no other, holds the packing of exactly the activities present, with the least slot count; every label is the one that follows from type and from how many ids of that type come before |
| `Schedule.AssignNights` | src/core/schedule.cpp:50-80 | the same for an access list: success, legality, fewest nights, and each night from the order of ids |
| `Model.StrLessExact` | src/core/schedule.cpp:20-22 | one id sorts before another exactly when they agree up to a place where the first ends or has the smaller character |
| `Placement.NightsSpelled` | src/core/schedule.cpp:69-77 | an activity with n ids before it in its contract-week is on the night whose workfronts hold the n-th: (night - 1) times workfronts is at most n, and n is below night times workfronts |
| `Placement.LabelsSpelled` | src/core/schedule.cpp:19-46 | PM are labelled from 1 in id order, PC after the PM, C three to a PC and then four to a slot after the PC |
| `Schedule.AssignableExact` | src/solver/solver.cpp:121-141 | legal nights exist exactly when every contract-week's load is at most nights times workfronts |
| `Scoring.ActivityLastWeek` | src/core/schedule.cpp:82-86 | the last week of every activity, or 0 |
| `Scoring.ContractLastWeek` | src/core/schedule.cpp:88-95 | the last week in which any activity of the contract works, or 0 |
| `Scoring.ComputeScore` | src/core/schedule.cpp:97-139 | the objective in tenths under A, B and C: for the nine pairs of priorities a day late costs 1300, 1200, 1000, 130, 120, 100, 13, 12 or 10, a night above supply 70 and an ECLO night 50; days run from the planned date to the Sunday of the last week |
| `Plans.WeightsSpelled` | src/core/model.h:192-206 | the weighted days of any plan are the days of each pair of priorities times those nine numbers |
| `Scoring.OverrunSpelled` | src/core/schedule.cpp:109-119 | the days counted for an activity are those from its planned date to the Sunday of its last night, none before it |
| `Scoring.ExcessSpelled` | src/core/schedule.cpp:121-127 | a location-week is charged the nights above its supply |
| `Plans.SupplySpelled` | src/core/schedule.cpp:217-221 | that supply is what the first override naming the location-week gives, else the location's own |
| `Solver.ObjectiveSpelled` | src/solver/solver.cpp:224-266 | the linear objective has the same numbers |
| `Plans.MapSumIsGridSum` | src/solver/solver.cpp:254-260 | a sum over the entries of a map is the sum over locations and weeks whenever every entry lies there |
| `Soundness.PrecedenceHolds` | src/validator/validator.cpp:70-82 | the solver's first and last variables make every week of an activity later than every week of its predecessor |
| `Soundness.SequenceHoldsFor` | src/validator/validator.cpp:108-136 | numbers given by week order run 1, 2, 3 when the checker sorts them by week |
| `Soundness.ResultsHold` | src/validator/validator.cpp:138-177 | the exported result rows are those the checker recomputes, one per scheduled contract |
| `Soundness.NightsHold` | src/validator/validator.cpp:224-258 | nights assigned under the weekly allocation keep allowance, range and workfronts |
| `Soundness.ClosureVerdict` | src/validator/validator.cpp:260-351 | for two activities that book exactly their spans in a week, under any labels, a closure breach is raised exactly when the pair is exclusive |
| `Soundness.AcceptanceExact` | src/validator/validator.cpp:30-402 | the plan of any solution is accepted exactly when each occupied location-week fits the recorded supply within the policy; every other rule always holds |
| `Soundness.SolutionsAreAccepted` | src/solver/solver.cpp:64-222 | under B whatever the overrides, else when the recorded supply covers the constraints', every solution's plan breaks no rule |
| `Completeness.FewerNights` | src/solver/solver.cpp:64-222 | dropping or downgrading nights keeps every rule but the workload |
| `Completeness.Trim` | src/solver/solver.cpp:83-96 | any nights that reach every need can be dropped or downgraded until every need is met within the cap |
| `Completeness.CheapestSatisfies` | src/solver/solver.cpp:98-112 | nights that keep the rules extend to a full assignment with least auxiliary variables; B's excess bound never binds |
| `Completeness.AcceptedPlansAreSolutions` | src/validator/validator.cpp:30-402 | an accepted plan can be trimmed to a solution, under B whatever the overrides, whose cost is no larger where the constraints' supply covers the recorded one |
| `Optimum.ScoreIsLowerBound` | src/solver/solver.cpp:224-266 | no solution over a plan's nights has an objective below its score plus the empty charge |
| `Optimum.ScoreIsAttained` | src/solver/solver.cpp:224-266 | some solution over the same nights attains it |
| `Optimum.FeasibilityAgrees` | src/solver/solver.cpp:340-344 | a solution exists exactly when an accepted plan exists and, under B, no late activity is empty |
| `Optimum.OptimumAgrees` | src/solver/solver.cpp:224-266 | where disagreeing overrides cannot be felt, an optimal solution's plan is accepted, no accepted plan scores less, and the optimum is its score plus the empty charge |
| `Optimum.EmptyChargeExact` | src/solver/solver.cpp:233-240 | the charge is never negative, and zero exactly under B or when no activity without accesses is late |
| `AccessChecks.CheckAccesses` | src/validator/validator.cpp:40-82 | a violation is raised for exactly the double accesses, the workloads below ten times the need in tens and fifteens, the early starts, the precedence breaches and the misnumbered sequences |
| `AccessChecks.CheckSequence` | src/validator/validator.cpp:108-136 | exactly the activities whose numbers, sorted by week, do not run 1, 2, 3 |
| `Numbering.NumberingSpelled` | src/validator/validator.cpp:108-136 | they are the activities with a row whose number is not one more than the count of rows before it, or with two rows of the same week and number |
| `Numbering.InOrderExact` | src/validator/validator.cpp:108-136 | sorted pairs are numbered 1, 2, 3 exactly when none repeats and each is numbered one more than the pairs below it |
| `OccupancyChecks.CheckOccupancy` | src/validator/validator.cpp:84-106 | exactly the accesses that do not book their span and nothing else, and the bookings without an access |
| `OccupancyChecks.CheckClosures` | src/validator/validator.cpp:260-351 | exactly the pairs present in a week at no common location of which one's closure, or between two with buffers one's buffer zone, holds a location of the other's worksite outside its owner's own |
| `ResultChecks.CheckResults` | src/validator/validator.cpp:138-177 | no violation exactly when the rows are those recomputed; exactly the rows of another scenario, repeated or unknown, and the contracts whose first row is missing, uncalled for or not the last Sunday with its days past the planned date |
| `SlotChecks.CheckCapacity` | src/validator/validator.cpp:179-200 | exactly the location-weeks with more distinct labels than supply, by more than one under C, by more than 2^30 under B |
| `SlotChecks.CheckMix` | src/validator/validator.cpp:202-222 | exactly the slots of more than four activities, of two PC, or of a PM that is not alone |
| `NightChecks.CheckNights` | src/validator/validator.cpp:224-258 | exactly the contract-weeks with too many nights, the nights out of range and the nights with too many activities |
| `PolicyChecks.CheckPolicy` | src/validator/validator.cpp:353-396 | exactly the ECLO nights under A; under C the lines with locations in the closures of two ECLO nights two or more weeks apart; under B the contracts with a night whose Sunday is past the planned date |
| `PolicyChecks.SpreadSpelled` | src/validator/validator.cpp:353-384 | the span of a line's ECLO weeks is over two exactly when two such nights exist |
| `Validator.Validate` | src/validator/validator.cpp:30-402 | the list holds exactly the breaches of the rules as `Rules.Broken` spells them out over rows and fields, and is empty exactly when the plan is accepted |
| `Pipeline.Publish` | src/solver/solver.cpp:353-368 | the tables are those of a plan with the solution's activity-weeks, packed and placed on nights |
| `Pipeline.SolveAndCheck` | src/core/schedule.cpp:141-334 | a solution goes to text and back: reading succeeds exactly when completions are datable and files within the limits; the plan read is the solution's; the verdict is exact, and an optimal solution gives the best accepted plan |
| `Changes.ChurnIsDifference` | src/solver/solver.cpp:276-286 | the expression the second pass minimises is the number of activity-weeks only one plan takes, up to those outside the model |
| `Changes.ReportChurn` | src/solver/solver.cpp:373-381 | the reported churn is that number |
| `Reports.ReportedScore` | src/solver/solver.cpp:353-371 | the score a solve reports is that of its plan at nominal supply |
| `Reports.CostSplits` | src/solver/solver.cpp:224-266 | a plan's least objective is its reported score plus what the report leaves out |
| `Disruptions.UnfeltExact` | src/solver/solver.cpp:156-163 | a disruption's supplies are alike the nominal ones everywhere exactly when no choice of activity-weeks is charged differently anywhere |
| `Disruptions.BalancedSums` | src/solver/solver.cpp:254-260 | charged the same total in every single week, any choice of activity-weeks is charged the same in all |
| `Disruptions.BalancedOneWay` | src/cli/main.cpp:470-498 | a disruption no group of users feels is balanced; for one that only cuts, or only raises, no other is |
| `Disruptions.ReportExact` | src/cli/main.cpp:470-498 | for every disruption, no plan's report leaves anything out exactly when supply is balanced or not scored and no empty activity is charged |
| `Disruptions.CutsLeaveOut` | src/cli/main.cpp:470-498 | under A, or when supply is only cut, no report is above the plan's cost |
| `Repair.SecondPassExact` | src/solver/solver.cpp:287-289 | the second pass has anything to search exactly when the first report leaves out nothing or less |
| `Repair.OutcomeExact` | src/solver/solver.cpp:395-408 | for every disruption, hypothesis, baseline and pair of exact answers: there is a second answer exactly when the first report leaves out nothing or less; an answer taken keeps the promise exactly when it leaves out as much as the first, and otherwise the first keeps it exactly when no best plan changes less |
| `Repair.RepairSolve` | src/solver/solver.cpp:395-408 | the second answer is taken exactly when it reports the first's score; the result's cost exceeds the optimum by exactly the difference of what the reports leave out; it is a best plan of least change whenever the condition on the inputs holds |
| `Repair.AnswersSpelled` | src/solver/solver.cpp:189-193 | an answer satisfies the constraints, takes every required activity-week of the model and no forbidden one |
| `Repair.CutsKeepOptimum` | src/solver/solver.cpp:395-408 | under A, or when supply is only cut, the result is never dearer than the optimum |
| `Promise.PromiseExact` | src/solver/solver.cpp:269-275 | for every scenario, disruption and hypothesis: every baseline and every pair of exact answers give a best plan of least change exactly when best plans with a rival hide no cost, no dearer plan the lock admits reports a best plan's score, and whatever else the lock admits is one step from every best plan with a rival |
| `Promise.CutsPromiseExact` | src/solver/solver.cpp:269-275 | under A, or when supply is only cut, that is exactly when best plans that differ report their full cost |
| `Promise.HiddenCostBreaks` | src/solver/solver.cpp:395-408 | a best plan that hides a cost, with another best plan as baseline, breaks the promise |
| `Promise.HiddenSavingBreaks` | src/solver/solver.cpp:395-408 | a dearer plan that hides a saving behind the best plan's report, as baseline, breaks the promise |
| `Counterexamples.CutDefeatsRepair` | src/solver/solver.cpp:395-408 | a cut of one site's supply after which the result changes two activity-weeks though a plan as cheap changes none; the promise is not kept |
| `Counterexamples.RaiseDefeatsRepair` | src/solver/solver.cpp:395-408 | a raise after which the result is dearer than the optimum the first pass proved; the promise is not kept |
| `Counterexamples.DisagreementIsRefused` | src/core/schedule.cpp:217-221 | under A, a location-week named twice and a solution whose plan the checker refuses |
| `Topology.BuildChains` | src/core/instance.cpp:159-174 | every location stands at its own position of its line and bound, in input order of position, and chains hold nothing else |
| `Topology.ExpandSpan` | src/core/instance.cpp:176-213 | a span is the chain interval between its two sectors widened by one at each end, or the first reason it is bad |
| `Topology.GrowDown` | src/core/instance.cpp:239-267 | adds exactly the positions below with fewer than n sectors strictly between |
| `Topology.GrowUp` | src/core/instance.cpp:239-267 | adds exactly the positions above with fewer than n sectors strictly between |
| `Surroundings.BuildZones` | src/core/instance.cpp:218-284 | location by location: the closure is the worksite, where the rule says so every location of the same kind, line and body on the other bound, and for live work the interchange peers of these and nothing else; the buffer zone adds what lies below or above all of them on a line and bound with fewer than n sectors between |
| `Surroundings.ZonesSpelled` | src/core/instance.cpp:218-284 | `Zones.Closure` and `Zones.BufferZone` are those sets |
| `Surroundings.BufferSpelled` | src/core/instance.cpp:239-267 | growth along a chain reaches a location exactly when it is beyond all of the footprint on its line and bound with fewer than n sectors up to it |
| `Surroundings.WorksiteSpelled` | src/core/instance.cpp:202-210 | a worksite is every location of the line and bound from one position before its first sector to one after its last |
| `Zones.ZonesNest` | src/core/instance.cpp:215-284 | worksite within closure within buffer zone |
| `Zones.GrowthIsMonotone` | src/core/instance.cpp:239-267 | zones grow with the number of sectors |
| `Zones.WiderBuffer` | src/core/instance.cpp:215-284 | a rule of more sectors gives a wider buffer zone and the same closure |
| `Zones.MirrorTwice` | src/core/instance.cpp:226-237 | mirroring to the opposite bound a second time adds nothing |
| `Zones.WorksiteIsExpansion` | tools/derive/crosscheck.py:50-60 | on an alternating chain the widened interval is the sectors of the span with all their platforms |
| `Zones.BufferOnAlternating` | tools/derive/crosscheck.py:50-60 | on an alternating chain n sectors of buffer are the 2n - 1 positions beyond each end |
| `Conflicts.Intersects` | src/core/instance.cpp:286-340 | the merge walk finds a common entry of two ascending lists exactly when there is one |
| `Conflicts.ConflictPairs` | src/core/instance.cpp:286-340 | each of the three sets holds exactly the pairs of its reading, told by shared entries of the lists |
| `Conflicts.ReadingsSpelled` | src/core/instance.cpp:286-340 | adopted: a zone holds a location of the other's worksite and no worksite location is shared; strict: it holds one outside its owner's own; no overlap: strict, or touching buffer zones as well |
| `Conflicts.ReadingsNest` | src/core/instance.cpp:286-340 | adopted pairs are the strict pairs without a shared location; strict pairs are no-overlap pairs |
| `Conflicts.PairSetsNest` | src/core/instance.cpp:286-340 | the three recorded sets nest |
| `Conflicts.TouchingIsMissed` | src/core/instance.cpp:306 | a remark on `ConflictPairs`: of the pairs whose buffer zones touch, its no-overlap set holds exactly those that also reach a worksite |
| `Conflicts.BuildTopology` | src/core/instance.cpp:143-341 | fails exactly on a bad span; else every activity has the worksite and zones spelled out above, the pairs are exactly those kept apart, and a loadable instance becomes a valid one |
| `Conflicts.BuiltIsValid` | src/core/instance.cpp:344-648 | what the loader checks, with the topology built, gives every assumption the scheduling theorems make |
| `Predecessors.FindCycle` | src/core/instance.cpp:625-644 | reports an activity on a cycle, or a rank that every predecessor link lowers; none exactly when the links have no cycle |
| `Predecessors.RankedHasNoCycle` | src/core/instance.cpp:625-644 | links that all lower a rank have no cycle |
| `Calendar.CivilRoundTrip` | src/core/instance.cpp:19-41 | every date is recovered from its day number |
| `Calendar.DaysRoundTrip` | src/core/instance.cpp:19-41 | every day number names a date that exists, and is recovered from it |
| `Calendar.NextDateIsNextDay` | src/core/instance.cpp:19-49 | the calendar's next date is one day later |
| `Calendar.IsoRoundTrip` | src/core/instance.cpp:51-76 | a printed day parses back exactly in the years 1900 to 2999, and to nothing otherwise |
| `Calendar.ParsedPrints` | src/core/instance.cpp:51-76 | whatever parses is what printing its day gives |
| `Calendar.IsoSpelled` | src/core/instance.cpp:70-76 | the day of a date of a four-digit year is printed as the digits of year, month and day between hyphens |
| `Calendar.EpochIsDayZero` | src/core/instance.cpp:19-27 | days count from 1 January 1970 |
| `Calendar.ParseDate` | src/core/instance.cpp:51-68 | reads ten characters as year, month and day, and accepts exactly the dates of those years |
| `Calendar.WeekContainsDay` | src/core/instance.cpp:78-87 | within the clamp, a day is in week w exactly when it is one of the seven days up to that week's Sunday |
| `Calendar.WeeksAscend` | src/core/instance.cpp:78-83 | weeks ascend with days and stay within the clamp |
| `Decimal.ParsePrint` | src/core/csv.cpp:235-253 | every 32-bit integer is read back from its decimal text |
| `Decimal.ParseExact` | src/core/csv.cpp:235-253 | what is read is exactly the digits, perhaps with leading zeros and a minus sign, of a number of 32 bits |
| `Decimal.PrintSpelled` | src/core/schedule.cpp:141-160 | a number prints as its decimal digits, a minus sign in front |
| `Csv.SplitRecord` | src/core/csv.cpp:17-41 | the loop computes the splitting of a record with quoted cells and doubled quotes |
| `Csv.SplitSpelled` | src/core/csv.cpp:17-41 | on any record: plain characters stand for themselves, a quoted stretch for its characters with doubled quotes single, a comma ends a cell, an open quote runs to the end |
| `Csv.CellSpelled` | src/core/csv.cpp:281-288 | a cell is quoted, its quotes doubled, exactly when it holds a comma, a quote or a line break |
| `Csv.Writer.Row` | src/core/csv.cpp:273-291 | appends exactly one record, neutralised when asked, and a newline |
| `Csv.RecordRoundTrip` | src/core/csv.cpp:17-41 | splitting a written record returns its cells, for any non-empty list of any cells |
| `Csv.NeutralRoundTrip` | src/core/csv.cpp:273-291 | with neutralisation a record reads back unchanged exactly when no cell begins with =, +, - or @ |
| `CsvTable.Load` | src/core/csv.cpp:159-219 | size limit, byte-order mark, header, required columns and rows, with the first problem met |
| `CsvLoad.LoadExact` | src/core/csv.cpp:159-219 | in this order: over 32 MiB, no line, an empty or repeated name, a missing column, then line by line row 500001 or a row of another width; else the table is the header's names and the trimmed cells of every line that is not blank |
| `CsvLoad.LinesSpelled` | src/core/csv.cpp:176-179 | a line ends at a line feed, and a carriage return before it is dropped |
| `CsvLoad.LastLineSpelled` | src/core/csv.cpp:176-179 | a last line needs no line feed, and the empty text has no line |
| `CsvLoad.TrimSpelled` | src/core/csv.cpp:43-48 | trimming cuts blank characters off both ends and no more |
| `CsvTable.LoadedIsGood` | src/core/csv.cpp:159-219 | a loaded table has distinct names, the required columns, and full rows of trimmed one-line cells |
| `CsvTable.FileRoundTrip` | src/core/csv.cpp:159-219 | a written file loads back as itself exactly when it is storable: good names, the required columns, plain full rows, none blank, within limits, no mark in front |
| `CsvTable.TooLongFails` | src/core/csv.cpp:159-219 | a written file with too many rows does not load |
| `PlanExport.ExportPlan` | src/core/schedule.cpp:141-214 | under their headers, row by row: the accesses ascending by id and week with number, flag and night; the bookings ascending by id, week, location and label; one result per scheduled contract with scenario, date and overrun |
| `PlanExport.NumberIsPosition` | src/core/schedule.cpp:148-160 | the printed number is the week's position among the activity's weeks |
| `PlanLoad.LoadPlan` | src/core/schedule.cpp:223-334 | a plan results exactly when no row is flawed; it is what the rows say and meets the checker's assumptions |
| `PlanLoad.AccessRowExact` | src/core/schedule.cpp:284-298 | an access row is read exactly when its id is known, its week in the horizon, its flag 0 or 1, its night 1 to 7 and its number 1 to 100000 |
| `PlanLoad.BookingRowExact` | src/core/schedule.cpp:302-321 | an occupancy row exactly when both ids are known, the week in the horizon and the label names a slot above 0 |
| `PlanTables.LabelExact` | src/core/schedule.cpp:314-319 | the labels naming slot n are a b, spaces, perhaps a plus sign, the digits of n perhaps with leading zeros, and anything that does not go on with a digit |
| `PlanLoad.ResultRowExact` | src/core/schedule.cpp:250-257 | a results row exactly when it has a scenario letter, a number, a date, and overrun days from 0 to 100000 |
| `PlanLoad.ScenarioExact` | src/core/schedule.cpp:237-247 | the plan is of a scenario exactly when there is a results row and every one names it |
| `PlanRoundTrip.WrittenIsReadable` | src/core/schedule.cpp:223-334 | written tables are readable exactly when every completion is datable |
| `PlanRoundTrip.DatableMeans` | src/core/schedule.cpp:223-334 | that is, exactly when something is scheduled and the Sunday of every contract's last week is of the years 1900 to 2999 and at most 100000 days past its planned date |
| `PlanRoundTrip.ReadingIsWritten` | src/core/schedule.cpp:223-334 | reading recovers scenario, accesses with their numbers, slot map, label counts and results |
| `PlanRoundTrip.SlotsRebuilt` | src/core/schedule.cpp:282-322 | the bookings of a slot map rebuild it |
| `PlanFiles.WrittenFilesLoad` | src/core/schedule.cpp:141-214 | each written file loads back when it has at most 500000 rows and 32 MiB, and does not load beyond that |
| `PlanFiles.ThroughFiles` | src/core/schedule.cpp:141-334 | the three tables come back from their text whole, or a file is beyond the limits |
| `Sha256.Sha256Hex` | src/core/csv.cpp:130-152 | below 2^64 bits the text is the digest of the padded message (sections 5.1.1 and 6.2 of FIPS 180-4), which `Sha256Example.TextOfAbc` shows in digits |
| `Sha256.Context.Update` | src/core/csv.cpp:118-128 | what is held depends only on the bytes fed in all, however split |
| `Sha256.SplitsDoNotMatter` | src/core/csv.cpp:118-128 | two contexts fed the same bytes hold the same state |
| `Sha256.Block` | src/core/csv.cpp:95-116 | one block's rounds are the compression function |
| `Sha256Example.TextOfAbc` | src/core/csv.cpp:95-152 | the text for "abc" is the published ba7816bf 8f01cfea 414140de 5dae2223 b00361a3 96177a9c b410ff61 f20015ad |
| `Sha256Example.RoundsOfMessage` | src/core/csv.cpp:105-114 | the 64 rounds on its block give the published working variables |
| `Sha256Example.ScheduleIsExample` | src/core/csv.cpp:96-104 | the 64 words of its schedule are the published ones |
| `Sha256.ChooseBits` | src/core/csv.cpp:104-112 | the choice is its second argument where the first has a 1 and the third where it has a 0 |
| `Sha256.MajorityBits` | src/core/csv.cpp:104-112 | the majority agrees with any two arguments that agree |
| `Sha256.PadZeros` | src/core/csv.cpp:130-152 | the padding loop ends after exactly the zeros that leave eight bytes of the block |
| `Sha256.PaddingIsLeast` | src/core/csv.cpp:130-152 | the padding is the least that leaves 64 bits of the last block |
| `Sha256.DigestTells` | src/core/csv.cpp:145-152 | digests with the same text are the same |
| `Sha256Constants.RoundWordsAreRoots` | src/core/csv.cpp:80-93 | the 64 round words are the fractions of the cube roots of the first 64 primes, in order (section 4.2.2 of FIPS 180-4) |
| `Sha256Constants.InitialWordsAreRoots` | src/core/csv.cpp:75-79 | the initial words are the fractions of the square roots of the first eight primes (section 5.3.3) |
| `Sha256Constants.PrimesExact` | src/core/csv.cpp:80-93 | the list is the primes below 312, 64 of them, ascending |
| `Sha256Constants.WordDetermined` | src/core/csv.cpp:80-93 | no other word is the fraction of the same cube root |
| `AuditChain.EncodeTells` | src/service/store.cpp:92-103 | length-prefixed fields that encode alike are alike |
| `AuditChain.EncodeSpelled` | src/service/store.cpp:92-103 | a field is encoded as its length, a colon and itself, and a list field after field |
| `AuditChain.AuditLog.Audit` | src/service/store.cpp:784-803 | appends one row: it names the hash of the nearest row before it that has one, its own hash covers previous hash, time, actor, action, object type, object id, result, correlation id and detail in this order, and the chain still verifies |
| `AuditChain.AuditLog.VerifyAuditChain` | src/service/store.cpp:830-848 | true exactly when every row with a hash names the nearest one before it and carries the hash of those nine fields |
| `AuditChain.ChainExact` | src/service/store.cpp:830-848 | the chain links exactly when every row does |
| `AuditChain.LastHashDecides` | src/service/store.cpp:830-848 | for any hash: two verifying chains of hashed rows with the same last hash are equal row for row, or two different texts in them have the same hash |
| `AuditChain.TamperingShows` | src/service/store.cpp:830-848 | for any hash: a change to the covered rows that keeps the last hash fails verification, or is a collision of the hash |
| `AuditChain.InjectiveNotices` | src/service/store.cpp:830-848 | with a hash that never repeats, every such change fails verification |
| `AuditChain.EveryRunVerifies` | src/service/store.cpp:784-803 | after any calls on an empty log, with a hash that is never empty, every row is covered and the log verifies |
| `AuditChain.Sha256RunVerifies` | src/service/store.cpp:92-103 | so it is with the SHA-256 text the log uses |
| `AuditChain.PrefixVerifies` | src/service/store.cpp:830-848 | every prefix of a verifying chain verifies |
| `Approvals.Store.AddPlanVersion` | src/service/store.cpp:604-626 | the new version is a draft with the proposal's fields, numbered above all its siblings and one above some or 1; nothing else changes |
| `Approvals.Store.ApprovePlan` | src/service/store.cpp:648-717 | each refusal has its exact condition; otherwise this version is approved, its approved siblings are superseded and one approval with its hashes is added, nothing else |
| `Approvals.Store.RevokeApproval` | src/service/store.cpp:719-738 | only an approved version falls back to draft, exactly its live approvals are revoked, and nothing else changes |
| `Approvals.Store.InvalidateApprovals` | src/service/store.cpp:763-781 | exactly the project's drafts and approved versions of another input fall, their number is returned, and if there is one exactly the live approvals of the project's versions of another input are revoked |
| `Approvals.EveryRunIsSafe` | src/service/store.cpp:604-781 | after any calls: one approved version at most per project and scenario, each backed by a live approval, none for drafts and invalidated ones, numbers 1 to n |
| `Approvals.ApprovalIsUnique` | src/service/store.cpp:604-781 | after any calls two versions of one project and scenario are not both approved, and the later has the larger number |
| `Approvals.ApprovalsAreExact` | src/service/store.cpp:648-781 | an approved version is feasible, no fallback, and has exactly one live approval, with its hashes; draft and invalidated versions have none |
| `Approvals.TerminalForever` | src/service/store.cpp:648-781 | a superseded or invalidated version never changes again |
| `RequestLayer.EveryRunIsSound` | client/src/lib/api.js:2-100 | in every interleaving: slots held are counted and at most four, all taken while anyone waits, no waiter granted and cancelled, at most 64 cached values, each from a request of this session under its key |
| `RequestLayer.LimitsHold` | client/src/lib/api.js:2-33 | after any events at most 4 requests hold a slot, exactly 4 while any waits, and at most 64 values are cached |
| `RequestLayer.QueueInArrivalOrder` | client/src/lib/api.js:19-33 | the queue stands in the order in which its requests were made, so its head has waited longest |
| `RequestLayer.AnswerIsDelivered` | client/src/lib/api.js:45-97 | the answer to a running request of this session that was not aborted is returned, then delivered, and cached under its key |
| `RequestLayer.CachedIsHit` | client/src/lib/api.js:80-89 | a cached value answers every caller of its key whose signal has not fired |
| `RequestLayer.PutSpelled` | client/src/lib/api.js:92-95 | a value takes the place of one under its key, or the last place |
| `RequestLayer.DroppedSpelled` | client/src/lib/api.js:40-42 | clearing a prefix drops exactly the values whose keys begin with it |
| `RequestLayer.FinishedIsNotShared` | client/src/lib/api.js:97-98 | a finished request is shared under no key once it has cleaned up, and no other is touched |
| `RequestLayer.RepliesAreCurrent` | client/src/lib/api.js:80-100 | a value returned at once, or a request joined, belongs to the session of the caller |
| `RequestLayer.DeliveryIsCurrent` | client/src/lib/api.js:45-79 | a request delivers only what it was answered, once, in the session in which it began |
| `RequestLayer.SessionEnds` | client/src/lib/api.js:34-38 | a new token empties queue, cache and shared requests and aborts what runs |
| `RequestLayer.TokenSpelled` | client/src/lib/api.js:34-38 | every field after a new token: waiting requests are aborted and fail, running ones are aborted, finished ones stay |
| `RequestLayer.AbortedNeverReturns` | client/src/lib/api.js:45-79 | a request aborted while running can only fail |
| `RequestLayer.Layer.Acquire` | client/src/lib/api.js:19-28 | below four slots in use it takes one at once, else it joins the queue at the end |
| `RequestLayer.Layer.Release` | client/src/lib/api.js:29-33 | the slot goes to the head of the queue, which leaves it, or is freed when nobody waits; no other request changes |
| `RequestLayer.Layer.Ask` | client/src/lib/api.js:80-100 | a fired signal is rejected, else a value cached under the key is handed over, else a request of this session under the name is joined, else a new one begins and is shared under it |
| `RequestLayer.Layer.Finish` | client/src/lib/api.js:62-78 | a request that was not queued returns its response in its own session if not aborted, and fails otherwise |
| `RequestLayer.Layer.Settle` | client/src/lib/api.js:90-97 | a returned value is delivered in its own session, and with a key cached in place of one under it or at the end, of 64 values the oldest being dropped; in any other session it is refused and nothing is cached |
| `RequestLayer.Layer.SetToken` | client/src/lib/api.js:34-38 | the module's fields after a change of token, nothing when the token is the same |

## Left out

- The CP-SAT search, its time limits, worker threads, random seed, progress and cancellation: answers are given by an oracle, and a timeout has no counterpart.
- The `relax` bits and `soft_scenario_policy`: diagnostic modes of the solver with other constraints and prices.
- `strict_buffers` and `no_zone_overlap` as modes of solver and checker: only the three pair sets and their nesting are modelled; the checker enforces the adopted reading in every mode (src/validator/validator.cpp:307-309).
- `require` and `forbid` outside repair: `Repair` carries them as hypotheses, the agreement theorems are about the unconstrained problem.
- Figures reported beside the score that are not part of it: total overrun and earliness days, overrun by priority, hotspots.
- Violation messages and the JSON report: violations are tagged records. The order of violations within one rule follows no map order of the original.
- Splitting a location id into its parts: kind, line, body and bound are fields, and the ends of a span are given as looked-up indices.
- The tables of an instance, their columns and error messages, and the construction of interchange peers: `Conflicts.Loadable` states what loading guarantees.
- LoadPlan: the error list is kept at the granularity of one flaw a row, and the values a flawed row falls back to are not modelled.
- The text scan of PROVENANCE.json: recorded overrides are passed through.
- Files, directories, fsync and rename, and the hash of the input directory: files are strings.
- The SQLite engine, prepared statements and failed statements: tables are sequences and each store call is one step. A job that ends after a new upload can still add a draft of the old input.
- Password hashing, sessions, login throttling, the HTTP service, its job queue and forked solver, and the user interface.
- C++ integer overflow, except in SHA-256: other arithmetic is on mathematical integers, with 32-bit limits where text is parsed.
- AssignNights: modelled for access lists without a repeated activity-week, which is all its only caller gives it.
- That collisions of SHA-256 are hard to find: `AuditChain` names the collision a missed change would be.
- Request headers, error texts and timers of the client, and the microtask between a promise settling and its caller resuming, which is the step `Settle`.
