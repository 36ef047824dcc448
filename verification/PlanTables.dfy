/** The three plan tables as rows of cells, and the readers of single cells. */
module PlanTables {
  import opened Model
  import opened Decimal
  import opened CsvTable
  import opened CsvLoad

  const ACCESS_COLUMNS: seq<string> := ["activity_id", "access_seq", "week", "eclo", "access_night"]
  const OCCUPANCY_COLUMNS: seq<string> := ["activity_id", "week", "location_id", "co_share_group"]
  const RESULT_COLUMNS: seq<string> := ["scenario", "contract_number", "simulated_completion_date", "overrun_days"]

  datatype Tables = Tables(access: Table, occupancy: Table, results: Table)

  /** One row of the occupancy table. */
  datatype Booking = Booking(activity: nat, week: int, location: nat, slot: int)

  function IndexOf(names: seq<string>, name: string): (i: nat)
    ensures i <= |names|
    ensures i < |names| ==> names[i] == name
    ensures forall j :: 0 <= j < i ==> names[j] != name
  {
    if names == [] || names[0] == name then 0 else 1 + IndexOf(names[1..], name)
  }

  /** The text of a cell; empty when there is no such cell. */
  function Text(t: Table, r: nat, column: string): string {
    var i := IndexOf(t.columns, column);
    if r < |t.rows| && i < |t.rows[r]| then t.rows[r][i] else []
  }

  /** An integer cell within bounds. */
  function IntCell(t: Table, r: nat, column: string, lo: int, hi: int): (n: Option<int>)
    ensures n.Some? ==> lo <= n.value <= hi
  {
    var n := ParseInt(Text(t, r, column));
    if n.Some? && lo <= n.value <= hi then n else None
  }

  function ScenarioText(scen: Scenario): string {
    match scen case A => "A" case B => "B" case C => "C"
  }

  function ParseScenario(s: string): Option<Scenario> {
    if s == "A" then Some(A) else if s == "B" then Some(B) else if s == "C" then Some(C) else None
  }

  lemma ScenarioReadsBack(scen: Scenario)
    ensures ParseScenario(ScenarioText(scen)) == Some(scen) && ScenarioText(scen) != []
  {
  }

  // --- looking up ids --------------------------------------------------------------------------

  function FindActivity(inst: Instance, id: string, n: nat): (a: Option<nat>)
    requires n <= |inst.activities|
    ensures a.Some? ==> a.value < n && inst.activities[a.value].id == id
    ensures a.None? ==> forall b :: 0 <= b < n ==> inst.activities[b].id != id
  {
    if n == 0 then None
    else if inst.activities[n - 1].id == id then Some(n - 1)
    else FindActivity(inst, id, n - 1)
  }

  function ActivityById(inst: Instance, id: string): (a: Option<nat>)
    ensures a.Some? ==> a.value < |inst.activities| && inst.activities[a.value].id == id
    ensures a.None? ==> forall b :: 0 <= b < |inst.activities| ==> inst.activities[b].id != id
  {
    FindActivity(inst, id, |inst.activities|)
  }

  function FindLocation(inst: Instance, id: string, n: nat): (l: Option<nat>)
    requires n <= |inst.locations|
    ensures l.Some? ==> l.value < n && inst.locations[l.value].id == id
    ensures l.None? ==> forall m :: 0 <= m < n ==> inst.locations[m].id != id
  {
    if n == 0 then None
    else if inst.locations[n - 1].id == id then Some(n - 1)
    else FindLocation(inst, id, n - 1)
  }

  function LocationById(inst: Instance, id: string): (l: Option<nat>)
    ensures l.Some? ==> l.value < |inst.locations| && inst.locations[l.value].id == id
    ensures l.None? ==> forall m :: 0 <= m < |inst.locations| ==> inst.locations[m].id != id
  {
    FindLocation(inst, id, |inst.locations|)
  }

  /** Every name a plan file mentions is non-empty. */
  ghost predicate Labelled(inst: Instance) {
    && (forall a :: 0 <= a < |inst.activities| ==> inst.activities[a].id != [])
    && (forall l :: 0 <= l < |inst.locations| ==> inst.locations[l].id != [])
    && (forall c :: 0 <= c < |inst.contracts| ==> inst.contracts[c].number != [])
  }

  // --- slot labels -----------------------------------------------------------------------------------

  /** The longest digit prefix. */
  function DigitPrefix(s: string): (p: string)
    ensures p <= s && AllDigits(p)
  {
    if s != [] && IsDigit(s[0]) then [s[0]] + DigitPrefix(s[1..]) else []
  }

  /** An optional sign, then digits; the rest is ignored. */
  function SignedNumber(s: string): Option<int> {
    var signed := s != [] && (s[0] == '-' || s[0] == '+');
    var digits := DigitPrefix(if signed then s[1..] else s);
    var v: int := if signed && s[0] == '-' then -(Value(digits) as int) else Value(digits);
    if digits == [] || v < -INT_MAX - 1 || v > INT_MAX then None else Some(v)
  }

  /** stoi: leading space is skipped. */
  function Stoi(text: string): Option<int> { SignedNumber(TrimLeft(text)) }

  /** The slot a label names, or 0. */
  function LabelSlot(g: string): int {
    if |g| >= 2 && g[0] == 'b' && Stoi(g[1..]).Some? then Stoi(g[1..]).value else 0
  }

  lemma {:induction false} DigitPrefixOfDigits(s: string)
    requires AllDigits(s)
    ensures DigitPrefix(s) == s
  {
    if s != [] { DigitPrefixOfDigits(s[1..]); }
  }

  lemma LabelReadsBack(slot: nat)
    requires slot <= INT_MAX
    ensures LabelSlot("b" + Print(slot)) == slot && "b" + Print(slot) != []
  {
    var s := Print(slot);
    assert ("b" + s)[1..] == s;
    assert IsDigit(s[0]);
    DigitPrefixOfDigits(s);
    ValueOfDigits(slot);
  }

  // --- what a label may look like --------------------------------------------------------------------

  ghost predicate AllSpace(s: string) {
    forall i :: 0 <= i < |s| ==> IsSpace(s[i])
  }

  /** The digits of n, perhaps with leading zeros, before the end or what is no digit. */
  ghost predicate NumberThen(n: nat, digits: string, rest: string) {
    digits != "" && digits == Pad(n, |digits|) && n <= 2147483647 && (rest == "" || !IsDigit(rest[0]))
  }

  /** A b, spaces, perhaps a plus sign, the digits of n and anything that does not go on with a digit. */
  ghost predicate NamesSlot(g: string, n: nat, space: string, sign: string, digits: string, rest: string) {
    && g == "b" + (space + (sign + (digits + rest)))
    && AllSpace(space) && (sign == "" || sign == "+") && NumberThen(n, digits, rest)
  }

  lemma {:induction false} TrimSpaces(space: string, t: string)
    requires AllSpace(space) && t != "" && !IsSpace(t[0])
    ensures TrimLeft(space + t) == t
  {
    if space == "" {
      assert space + t == t;
    } else {
      assert (space + t)[1..] == space[1..] + t;
      TrimSpaces(space[1..], t);
    }
  }

  lemma {:induction false} DigitsThen(digits: string, rest: string)
    requires AllDigits(digits) && (rest == "" || !IsDigit(rest[0]))
    ensures DigitPrefix(digits + rest) == digits
  {
    if digits == "" {
      assert digits + rest == rest;
    } else {
      assert (digits + rest)[1..] == digits[1..] + rest;
      DigitsThen(digits[1..], rest);
    }
  }

  lemma {:induction false} DigitPrefixStops(s: string)
    ensures var k := |DigitPrefix(s)|; k <= |s| && (k == |s| || !IsDigit(s[k]))
  {
    if s != [] && IsDigit(s[0]) { DigitPrefixStops(s[1..]); }
  }

  lemma UnsignedRead(digits: string, rest: string, n: nat)
    requires NumberThen(n, digits, rest)
    ensures var u := digits + rest; u != "" && IsDigit(u[0]) && DigitPrefix(u) == digits && Value(digits) == n
  {
    PadOnly(digits, n);
    DigitsThen(digits, rest);
    assert (digits + rest)[0] == digits[0];
  }

  lemma SignedRead(t: string, sign: string, u: string, n: nat)
    requires t == sign + u && (sign == "" || sign == "+")
    requires u != "" && IsDigit(u[0]) && Value(DigitPrefix(u)) == n && n <= 2147483647
    ensures t != "" && !IsSpace(t[0]) && SignedNumber(t) == Some(n as int)
  {
    if sign == "" {
      assert t == u;
    } else {
      PlusRead(t, u, n);
    }
  }

  lemma PlusRead(t: string, u: string, n: nat)
    requires t == "+" + u && u != "" && IsDigit(u[0]) && Value(DigitPrefix(u)) == n && n <= 2147483647
    ensures t[0] == '+' && SignedNumber(t) == Some(n as int)
  {
    assert t[0] == '+' && t[1..] == u;
  }

  lemma NamedIsRead(g: string, n: nat, space: string, sign: string, digits: string, rest: string)
    requires n > 0 && NamesSlot(g, n, space, sign, digits, rest)
    ensures LabelSlot(g) == n
  {
    var t := sign + (digits + rest);
    UnsignedRead(digits, rest, n);
    SignedRead(t, sign, digits + rest, n);
    TrimSpaces(space, t);
    assert g[1..] == space + t;
  }

  lemma UnsignedParts(u: string, n: nat) returns (digits: string, rest: string)
    requires DigitPrefix(u) != "" && Value(DigitPrefix(u)) == n && n <= 2147483647
    ensures u == digits + rest && NumberThen(n, digits, rest)
  {
    digits := DigitPrefix(u);
    rest := u[|digits|..];
    DigitPrefixStops(u);
    PadOfValue(digits);
  }

  ghost predicate BeginsWith(u: string, n: nat) {
    DigitPrefix(u) != "" && Value(DigitPrefix(u)) == n && n <= 2147483647
  }

  lemma SignedMeans(t: string, n: nat)
    requires n > 0 && SignedNumber(t) == Some(n as int)
    ensures t != "" && BeginsWith(if t[0] == '+' then t[1..] else t, n)
  {
  }

  lemma SignedParts(t: string, n: nat) returns (sign: string, digits: string, rest: string)
    requires n > 0 && SignedNumber(t) == Some(n as int)
    ensures t == sign + (digits + rest) && (sign == "" || sign == "+") && NumberThen(n, digits, rest)
  {
    SignedMeans(t, n);
    sign := if t[0] == '+' then "+" else "";
    digits, rest := UnsignedParts(if t[0] == '+' then t[1..] else t, n);
  }

  lemma ReadIsNamed(g: string, n: nat, space: string, t: string)
    requires n > 0 && g == "b" + (space + t) && AllSpace(space) && SignedNumber(t) == Some(n as int)
    ensures exists space, sign, digits, rest :: NamesSlot(g, n, space, sign, digits, rest)
  {
    var sign, digits, rest := SignedParts(t, n);
    assert NamesSlot(g, n, space, sign, digits, rest);
  }

  /** The labels that name slot n above 0 are exactly those. */
  lemma LabelExact(g: string, n: nat)
    requires n > 0
    ensures LabelSlot(g) == n <==> exists space, sign, digits, rest :: NamesSlot(g, n, space, sign, digits, rest)
  {
    if space, sign, digits, rest :| NamesSlot(g, n, space, sign, digits, rest) {
      NamedIsRead(g, n, space, sign, digits, rest);
    }
    if LabelSlot(g) == n {
      var s := g[1..];
      var cut := LeftCut(s);
      assert g == "b" + s && s == s[..cut] + s[cut..];
      ReadIsNamed(g, n, s[..cut], s[cut..]);
    }
  }
}
