/** Detecting predecessor cycles by a colouring walk. */
module Predecessors {
  import opened Model

  type Links = seq<Option<nat>>

  /** Every link names an activity. */
  ghost predicate Closed(links: Links) {
    forall a :: 0 <= a < |links| && links[a].Some? ==> links[a].value < |links|
  }

  /** The activity k links before a, if the chain is that long. */
  ghost function Follow(links: Links, a: nat, k: nat): Option<nat>
    decreases k
  {
    if k == 0 then Some(a)
    else if a < |links| && links[a].Some? then Follow(links, links[a].value, k - 1)
    else None
  }

  ghost predicate OnCycle(links: Links, a: nat) {
    exists k: nat :: k > 0 && Follow(links, a, k) == Some(a)
  }

  /** Every link lowers the rank. */
  ghost predicate Ranked(links: Links, rank: seq<nat>) {
    |rank| == |links| && forall a :: 0 <= a < |links| && links[a].Some? && links[a].value < |rank| ==>
      rank[links[a].value] < rank[a]
  }

  /** A chain of links strictly descends in rank. */
  lemma {:induction false} FollowDescends(links: Links, rank: seq<nat>, a: nat, k: nat)
    requires Closed(links) && Ranked(links, rank) && a < |links| && Follow(links, a, k).Some?
    ensures var b := Follow(links, a, k).value; b < |links| && rank[b] + k <= rank[a]
    decreases k
  {
    if k > 0 { FollowDescends(links, rank, links[a].value, k - 1); }
  }

  /** A rank leaves no room for a cycle. */
  lemma RankedHasNoCycle(links: Links, rank: seq<nat>, a: nat)
    requires Closed(links) && Ranked(links, rank) && a < |links|
    ensures !OnCycle(links, a)
  {
    if OnCycle(links, a) {
      var k: nat :| k > 0 && Follow(links, a, k) == Some(a);
      FollowDescends(links, rank, a, k);
    }
  }

  // --- the walk --------------------------------------------------------------------------------

  /** The stack is a path of links ending before cur. */
  ghost predicate Path(links: Links, stack: seq<nat>, cur: Option<nat>) {
    && (forall i :: 0 <= i < |stack| ==> stack[i] < |links|)
    && (forall i :: 0 <= i < |stack| - 1 ==> links[stack[i]] == Some(stack[i + 1]))
    && (stack != [] ==> links[stack[|stack| - 1]] == cur)
  }

  lemma {:induction false} FollowPath(links: Links, stack: seq<nat>, cur: nat, i: nat)
    requires Path(links, stack, Some(cur)) && i < |stack|
    ensures Follow(links, stack[i], |stack| - i) == Some(cur)
    decreases |stack| - i
  {
    if i < |stack| - 1 { FollowPath(links, stack, cur, i + 1); }
  }

  ghost function Unvisited(state: seq<int>): set<nat> {
    set a | 0 <= a < |state| && state[a] == 0
  }

  /** Finished activities link only to finished ones of lower rank. */
  ghost predicate DoneRanked(links: Links, state: seq<int>, rank: seq<nat>) {
    && |state| == |links| && |rank| == |links|
    && forall a :: 0 <= a < |links| && state[a] == 2 && links[a].Some? && links[a].value < |links| ==>
         state[links[a].value] == 2 && rank[links[a].value] < rank[a]
  }

  /** Exactly the stack is marked as being on it. */
  ghost predicate Marked(state: seq<int>, stack: seq<nat>) {
    && (forall a: nat :: a < |state| ==> (state[a] == 1 <==> a in stack))
    && (forall i, j :: 0 <= i < j < |stack| ==> stack[i] != stack[j])
    && forall a :: 0 <= a < |state| ==> 0 <= state[a] <= 2
  }

  lemma PushKeeps(links: Links, state: seq<int>, stack: seq<nat>, a: nat, rank: seq<nat>)
    requires DoneRanked(links, state, rank) && Marked(state, stack) && Path(links, stack, Some(a))
    requires a < |links| && state[a] == 0
    ensures DoneRanked(links, state[a := 1], rank) && Marked(state[a := 1], stack + [a])
    ensures Path(links, stack + [a], links[a]) && |Unvisited(state[a := 1])| < |Unvisited(state)|
  {
    assert a !in stack;
    assert Unvisited(state[a := 1]) == Unvisited(state) - {a} && a in Unvisited(state);
  }

  /** Follows links from s through unvisited activities. */
  method Walk(links: Links, before: seq<int>, s: nat, ghost rank: seq<nat>)
    returns (state: seq<int>, stack: seq<nat>, cur: Option<nat>)
    requires Closed(links) && s < |links| && DoneRanked(links, before, rank) && Marked(before, [])
    ensures DoneRanked(links, state, rank) && Marked(state, stack) && Path(links, stack, cur)
    ensures cur.Some? ==> cur.value < |links| && state[cur.value] != 0
    ensures forall a :: 0 <= a < |links| && before[a] == 2 ==> state[a] == 2
    ensures before[s] == 2 || s in stack
    ensures before[s] == 2 ==> stack == [] && state == before
  {
    state, stack, cur := before, [], Some(s);
    while cur.Some? && state[cur.value] == 0
      invariant DoneRanked(links, state, rank) && Marked(state, stack) && Path(links, stack, cur)
      invariant cur.Some? ==> cur.value < |links|
      invariant forall a :: 0 <= a < |links| && before[a] == 2 ==> state[a] == 2
      invariant stack == [] ==> state == before && cur == Some(s)
      invariant stack != [] ==> stack[0] == s && before[s] == 0
      decreases |Unvisited(state)|
    {
      var a := cur.value;
      PushKeeps(links, state, stack, a, rank);
      state := state[a := 1];
      stack := stack + [a];
      cur := links[a];
    }
  }

  /** Marks the whole stack as finished. */
  method Finish(before: seq<int>, stack: seq<nat>) returns (state: seq<int>)
    requires forall i :: 0 <= i < |stack| ==> stack[i] < |before|
    ensures |state| == |before|
    ensures forall a: nat :: a < |state| ==> state[a] == if a in stack then 2 else before[a]
  {
    state := before;
    for i := 0 to |stack|
      invariant |state| == |before|
      invariant forall a: nat :: a < |state| ==> state[a] == if a in stack[..i] then 2 else before[a]
    {
      assert stack[..i + 1] == stack[..i] + [stack[i]];
      state := state[stack[i] := 2];
    }
    assert stack[..|stack|] == stack;
  }

  /** Ranks for a finished stack: each activity one above the next. */
  ghost function Lifted(rank: seq<nat>, stack: seq<nat>, floor: nat): (r: seq<nat>)
    ensures |r| == |rank|
  {
    seq(|rank|, a requires 0 <= a < |rank| => if a in stack then floor + HeightOf(stack, a) else rank[a])
  }

  /** The distance of a from the end of the stack. */
  ghost function HeightOf(stack: seq<nat>, a: nat): nat {
    if stack == [] then 0 else if stack[0] == a then |stack| - 1 else HeightOf(stack[1..], a)
  }

  lemma {:induction false} HeightAt(stack: seq<nat>, i: nat)
    requires i < |stack| && forall i, j :: 0 <= i < j < |stack| ==> stack[i] != stack[j]
    ensures HeightOf(stack, stack[i]) == |stack| - 1 - i
  {
    if i > 0 {
      HeightAt(stack[1..], i - 1);
      assert stack[1..][i - 1] == stack[i];
    }
  }

  lemma FinishedIsRanked(links: Links, state: seq<int>, stack: seq<nat>, cur: Option<nat>, rank: seq<nat>,
                         after: seq<int>)
    requires Closed(links) && DoneRanked(links, state, rank) && Marked(state, stack) && Path(links, stack, cur)
    requires cur.Some? ==> cur.value < |links| && state[cur.value] == 2
    requires |after| == |state| && forall a: nat :: a < |after| ==> after[a] == if a in stack then 2 else state[a]
    ensures var floor := if cur.Some? then rank[cur.value] + 1 else 0;
      DoneRanked(links, after, Lifted(rank, stack, floor)) && Marked(after, [])
  {
    var floor: nat := if cur.Some? then rank[cur.value] + 1 else 0;
    var lifted := Lifted(rank, stack, floor);
    forall a: nat | a < |links| && after[a] == 2 && links[a].Some? && links[a].value < |links|
      ensures after[links[a].value] == 2 && lifted[links[a].value] < lifted[a]
    {
      if a in stack {
        var i :| 0 <= i < |stack| && stack[i] == a;
        HeightAt(stack, i);
        if i < |stack| - 1 {
          HeightAt(stack, i + 1);
          assert stack[i + 1] in stack;
        }
      } else {
        assert state[a] == 2;
      }
    }
  }

  ghost predicate Acyclic(links: Links) {
    forall a: nat :: a < |links| ==> !OnCycle(links, a)
  }

  /** Coming back to the stack closes a cycle. */
  lemma BackOnStack(links: Links, state: seq<int>, stack: seq<nat>, cur: nat)
    requires Marked(state, stack) && Path(links, stack, Some(cur)) && cur < |state| && state[cur] == 1
    ensures OnCycle(links, cur)
  {
    var j :| 0 <= j < |stack| && stack[j] == cur;
    FollowPath(links, stack, cur, j);
  }

  ghost predicate FinishedBelow(state: seq<int>, n: nat) {
    n <= |state| && forall a :: 0 <= a < n ==> state[a] == 2
  }

  lemma AllFinished(links: Links, state: seq<int>, rank: seq<nat>)
    requires Closed(links) && DoneRanked(links, state, rank) && FinishedBelow(state, |links|)
    ensures Ranked(links, rank) && Acyclic(links)
  {
    forall a: nat | a < |links| ensures !OnCycle(links, a) { RankedHasNoCycle(links, rank, a); }
  }

  /** Walks from s and finishes the walk, unless it ran into its own stack. */
  method Visit(links: Links, before: seq<int>, s: nat, ghost rank: seq<nat>)
    returns (cycle: Option<nat>, state: seq<int>, ghost lifted: seq<nat>)
    requires Closed(links) && s < |links| && DoneRanked(links, before, rank) && Marked(before, [])
    requires FinishedBelow(before, s)
    ensures cycle.Some? ==> cycle.value < |links| && OnCycle(links, cycle.value)
    ensures cycle.None? ==> DoneRanked(links, state, lifted) && Marked(state, []) && FinishedBelow(state, s + 1)
  {
    var stack, cur;
    state, stack, cur := Walk(links, before, s, rank);
    lifted := rank;
    if cur.Some? && state[cur.value] == 1 {
      BackOnStack(links, state, stack, cur.value);
      return cur, state, rank;
    }
    ghost var walked := state;
    state := Finish(state, stack);
    FinishedIsRanked(links, walked, stack, cur, rank, state);
    lifted := Lifted(rank, stack, if cur.Some? then rank[cur.value] + 1 else 0);
    cycle := None;
  }

  /** An activity on a predecessor cycle, if there is one; otherwise a rank that every link lowers. */
  method FindCycle(links: Links) returns (cycle: Option<nat>, ghost rank: seq<nat>)
    requires Closed(links)
    ensures cycle.Some? ==> cycle.value < |links| && OnCycle(links, cycle.value)
    ensures cycle.None? ==> Ranked(links, rank)
    ensures cycle.None? <==> Acyclic(links)
  {
    var state := seq(|links|, _ => 0);
    rank := seq(|links|, _ => 0);
    for s := 0 to |links|
      invariant DoneRanked(links, state, rank) && Marked(state, []) && FinishedBelow(state, s)
    {
      cycle, state, rank := Visit(links, state, s, rank);
      if cycle.Some? { return; }
    }
    cycle := None;
    AllFinished(links, state, rank);
  }
}
