/** Civil dates as day numbers, and the weeks of the planning horizon. */
module Calendar {
  import opened Arithmetic
  import opened Model
  import opened Decimal

  /** Division truncating toward zero. */
  function TDiv(a: int, b: int): int
    requires b > 0
  {
    if a >= 0 then a / b else -((-a) / b)
  }

  predicate IsLeap(y: int) {
    (y % 4 == 0 && y % 100 != 0) || y % 400 == 0
  }

  function DaysInMonth(y: int, m: int): int
    requires 1 <= m <= 12
  {
    if m == 2 && IsLeap(y) then 29
    else [31, 28, 31, 30, 31, 30, 31, 31, 30, 31, 30, 31][m - 1]
  }

  /** A date that exists. */
  predicate IsDate(y: int, m: int, d: int) {
    1 <= m <= 12 && 1 <= d <= DaysInMonth(y, m)
  }

  function DaysFromCivil(year: int, m: int, d: int): int {
    var y := if m <= 2 then year - 1 else year;
    var era := TDiv(if y >= 0 then y else y - 399, 400);
    var yoe := y - era * 400;
    var doy := (153 * (m + if m > 2 then -3 else 9) + 2) / 5 + d - 1;
    var doe := yoe * 365 + yoe / 4 - yoe / 100 + doy;
    era * 146097 + doe - 719468
  }

  /** The date of day doe of an era. */
  function CivilInEra(era: int, doe: int): (int, int, int) {
    var yoe := (doe - doe / 1460 + doe / 36524 - doe / 146096) / 365;
    CivilInYear(yoe + era * 400, doe - YearStart(yoe))
  }

  /** The date of day doy of the year that begins in March of yy. */
  function CivilInYear(yy: int, doy: int): (int, int, int) {
    var mp := (5 * doy + 2) / 153;
    var d := doy - (153 * mp + 2) / 5 + 1;
    var m := mp + if mp < 10 then 3 else -9;
    (yy + if m <= 2 then 1 else 0, m, d)
  }

  function CivilFromDays(days: int): (int, int, int) {
    var z := days + 719468;
    var era := TDiv(if z >= 0 then z else z - 146096, 146097);
    CivilInEra(era, z - era * 146097)
  }

  // --- eras, years and months counted from March ------------------------------------------------

  /** The truncating division of the shifted value is a floor. */
  lemma EraIsFloor(y: int, n: int)
    requires n > 0
    ensures TDiv(if y >= 0 then y else y - (n - 1), n) == y / n
  {
    if y < 0 { NegativeFloor(y, n); }
  }

  lemma NegativeFloor(y: int, n: int)
    requires n > 0 && y < 0
    ensures -((-y + n - 1) / n) == y / n
  {
    var q, r := y / n, y % n;
    assert y == q * n + r && -y + n - 1 == (-q) * n + (n - 1 - r);
    QuotientIs(-y + n - 1, n, -q, n - 1 - r);
  }

  /** Days before year yoe of the era. */
  function YearStart(yoe: int): int { 365 * yoe + yoe / 4 - yoe / 100 }

  /** The year beginning in March of yoe ends in a February of 29 days. */
  predicate LeapEnd(yoe: int) { yoe % 4 == 3 && (yoe % 100 != 99 || yoe == 399) }

  predicate InYear(yoe: int, doy: int) {
    0 <= yoe < 400 && 0 <= doy < 365 + if LeapEnd(yoe) then 1 else 0
  }

  /** The year formula finds the year of every day of the era. */
  lemma YearOfDay(yoe: int, doy: int)
    requires InYear(yoe, doy)
    ensures var doe := YearStart(yoe) + doy;
      (doe - doe / 1460 + doe / 36524 - doe / 146096) / 365 == yoe && 0 <= doe < 146097
  {
    var c, q, s := YearParts(yoe);
    var doe := YearStart(yoe) + doy;
    Quarters(c, q, s, doy, doe);
    Centuries(c, q, s, doy, doe);
    var g := doe - doe / 1460 + doe / 36524 - doe / 146096;
    QuotientIs(g, 365, yoe, g - yoe * 365);
  }

  /** Centuries, quadrennia and years of a year of the era. */
  lemma YearParts(yoe: int) returns (c: int, q: int, s: int)
    requires 0 <= yoe < 400
    ensures 0 <= c < 4 && 0 <= q < 25 && 0 <= s < 4 && yoe == 100 * c + 4 * q + s
    ensures YearStart(yoe) == 36524 * c + 1461 * q + 365 * s
    ensures LeapEnd(yoe) <==> s == 3 && (q != 24 || c == 3)
  {
    c, q, s := yoe / 100, yoe % 100 / 4, yoe % 4;
    assert yoe / 4 == 25 * c + q;
  }

  lemma Quarters(c: int, q: int, s: int, doy: int, doe: int)
    requires 0 <= c < 4 && 0 <= q < 25 && 0 <= s < 4 && 0 <= doy <= 365
    requires doe == 36524 * c + 1461 * q + 365 * s + doy
    ensures doe / 1460 == 25 * c + q + if 24 * c + q + 365 * s + doy >= 1460 then 1 else 0
  {
  }

  lemma Centuries(c: int, q: int, s: int, doy: int, doe: int)
    requires 0 <= c < 4 && 0 <= q < 25 && 0 <= s < 4 && 0 <= doy <= 365
    requires doy == 365 ==> s == 3 && (q != 24 || c == 3)
    requires doe == 36524 * c + 1461 * q + 365 * s + doy
    ensures doe / 36524 == c + if doe == 146096 then 1 else 0
    ensures doe / 146096 == if doe == 146096 then 1 else 0
    ensures doe <= 146096
  {
  }

  /** Every day of the era lies in a year. */
  lemma DayHasYear(doe: int) returns (yoe: int, doy: int)
    requires 0 <= doe < 146097
    ensures InYear(yoe, doy) && doe == YearStart(yoe) + doy
  {
    var c := if doe == 146096 then 3 else doe / 36524;
    var inCentury := doe - 36524 * c;
    assert 0 <= inCentury <= 36524 && (inCentury == 36524 ==> c == 3);
    var q := if inCentury == 36524 then 24 else inCentury / 1461;
    var inQuarter := inCentury - 1461 * q;
    var s := if inQuarter == 1460 then 3 else inQuarter / 365;
    yoe, doy := 100 * c + 4 * q + s, inQuarter - 365 * s;
    assert yoe / 4 == 25 * c + q && yoe % 4 == s && yoe / 100 == c && yoe % 100 == 4 * q + s;
  }

  function MonthStart(mp: int): int { (153 * mp + 2) / 5 }

  /** The days of month mp, counted from March, in a year whose February may be leap. */
  function MonthLength(mp: int, leap: bool): int
    requires 0 <= mp < 12
  {
    if mp == 11 then (if leap then 29 else 28)
    else if mp == 1 || mp == 3 || mp == 6 || mp == 8 then 30 else 31
  }

  lemma MonthOfDay(mp: int, d: int)
    requires 0 <= mp < 12 && 1 <= d <= MonthLength(mp, true)
    ensures (5 * (MonthStart(mp) + d - 1) + 2) / 153 == mp
    ensures MonthStart(mp) + d - 1 <= 365
    ensures d <= MonthLength(mp, false) ==> MonthStart(mp) + d - 1 < 365
  {
  }

  lemma DayHasMonth(doy: int, leap: bool) returns (mp: int, d: int)
    requires 0 <= doy < 365 + if leap then 1 else 0
    ensures 0 <= mp < 12 && 1 <= d <= MonthLength(mp, leap) && doy == MonthStart(mp) + d - 1
  {
    mp := (5 * doy + 2) / 153;
    d := doy - MonthStart(mp) + 1;
  }

  /** A date by era, year of era, month from March, and day. */
  predicate IsShifted(yoe: int, mp: int, d: int) {
    0 <= yoe < 400 && 0 <= mp < 12 && 1 <= d <= MonthLength(mp, LeapEnd(yoe))
  }

  function CivilOf(era: int, yoe: int, mp: int, d: int): (int, int, int) {
    var m := mp + if mp < 10 then 3 else -9;
    (yoe + 400 * era + if m <= 2 then 1 else 0, m, d)
  }

  function DayOf(era: int, yoe: int, mp: int, d: int): int {
    era * 146097 + YearStart(yoe) + MonthStart(mp) + d - 1 - 719468
  }

  lemma LeapShifts(era: int, yoe: int)
    requires 0 <= yoe < 400
    ensures IsLeap(yoe + 400 * era + 1) <==> LeapEnd(yoe)
  {
    ModShift(yoe + 1, 4, 100 * era);
    ModShift(yoe + 1, 100, 4 * era);
    ModShift(yoe + 1, 400, era);
  }

  lemma DaysOfShifted(era: int, yoe: int, mp: int, d: int)
    requires IsShifted(yoe, mp, d)
    ensures var c := CivilOf(era, yoe, mp, d);
      IsDate(c.0, c.1, c.2) && DaysFromCivil(c.0, c.1, c.2) == DayOf(era, yoe, mp, d)
  {
    var y := yoe + 400 * era;
    EraIsFloor(y, 400);
    QuotientIs(y, 400, era, yoe);
    LeapShifts(era, yoe);
  }

  lemma InEraOfShifted(era: int, yoe: int, mp: int, d: int)
    requires IsShifted(yoe, mp, d)
    ensures var doe := YearStart(yoe) + MonthStart(mp) + d - 1;
      0 <= doe < 146097 && CivilInEra(era, doe) == CivilOf(era, yoe, mp, d)
  {
    MonthOfDay(mp, d);
    YearOfDay(yoe, MonthStart(mp) + d - 1);
    InYearOfShifted(yoe + era * 400, mp, d);
  }

  lemma InYearOfShifted(yy: int, mp: int, d: int)
    requires 0 <= mp < 12 && 1 <= d <= MonthLength(mp, true)
    ensures CivilInYear(yy, MonthStart(mp) + d - 1) == CivilOf(0, yy, mp, d)
  {
    MonthOfDay(mp, d);
  }

  lemma CivilOfShifted(era: int, yoe: int, mp: int, d: int)
    requires IsShifted(yoe, mp, d)
    ensures CivilFromDays(DayOf(era, yoe, mp, d)) == CivilOf(era, yoe, mp, d)
  {
    var doe := YearStart(yoe) + MonthStart(mp) + d - 1;
    var z := DayOf(era, yoe, mp, d) + 719468;
    InEraOfShifted(era, yoe, mp, d);
    EraIsFloor(z, 146097);
    QuotientIs(z, 146097, era, doe);
  }

  lemma DateIsShifted(y: int, m: int, d: int) returns (era: int, yoe: int, mp: int)
    requires IsDate(y, m, d)
    ensures IsShifted(yoe, mp, d) && CivilOf(era, yoe, mp, d) == (y, m, d)
  {
    mp := if m > 2 then m - 3 else m + 9;
    var s := if m <= 2 then y - 1 else y;
    era, yoe := s / 400, s % 400;
    LeapShifts(era, yoe);
  }

  lemma DayIsShifted(days: int) returns (era: int, yoe: int, mp: int, d: int)
    ensures IsShifted(yoe, mp, d) && DayOf(era, yoe, mp, d) == days
  {
    var z := days + 719468;
    era := z / 146097;
    var doy;
    yoe, doy := DayHasYear(z % 146097);
    mp, d := DayHasMonth(doy, LeapEnd(yoe));
  }

  // --- the bijection ----------------------------------------------------------------------------

  /** Every date that exists is recovered from its day number. */
  lemma CivilRoundTrip(y: int, m: int, d: int)
    requires IsDate(y, m, d)
    ensures CivilFromDays(DaysFromCivil(y, m, d)) == (y, m, d)
  {
    var era, yoe, mp := DateIsShifted(y, m, d);
    DaysOfShifted(era, yoe, mp, d);
    CivilOfShifted(era, yoe, mp, d);
  }

  /** Every day number names a date that exists, and is recovered from it. */
  lemma DaysRoundTrip(days: int)
    ensures var c := CivilFromDays(days);
      IsDate(c.0, c.1, c.2) && DaysFromCivil(c.0, c.1, c.2) == days
  {
    var era, yoe, mp, d := DayIsShifted(days);
    DaysOfShifted(era, yoe, mp, d);
    CivilOfShifted(era, yoe, mp, d);
  }

  /** The calendar's next date. */
  function NextDate(y: int, m: int, d: int): (int, int, int)
    requires IsDate(y, m, d)
  {
    if d < DaysInMonth(y, m) then (y, m, d + 1)
    else if m < 12 then (y, m + 1, 1)
    else (y + 1, 1, 1)
  }

  /** The next day, in shifted form. */
  function NextShifted(era: int, yoe: int, mp: int, d: int): (int, int, int, int)
    requires IsShifted(yoe, mp, d)
  {
    if d < MonthLength(mp, LeapEnd(yoe)) then (era, yoe, mp, d + 1)
    else if mp < 11 then (era, yoe, mp + 1, 1)
    else if yoe < 399 then (era, yoe + 1, 0, 1)
    else (era + 1, 0, 0, 1)
  }

  lemma NextShiftedIsNext(era: int, yoe: int, mp: int, d: int)
    requires IsShifted(yoe, mp, d)
    ensures var n := NextShifted(era, yoe, mp, d);
      IsShifted(n.1, n.2, n.3) && DayOf(n.0, n.1, n.2, n.3) == DayOf(era, yoe, mp, d) + 1
  {
    var n := NextShifted(era, yoe, mp, d);
    if n.2 == 0 && n.3 == 1 { YearStep(era, yoe, n.0, n.1); }
  }

  lemma NextCivil(era: int, yoe: int, mp: int, d: int)
    requires IsShifted(yoe, mp, d)
    requires var c := CivilOf(era, yoe, mp, d); IsDate(c.0, c.1, c.2)
    ensures var c, n := CivilOf(era, yoe, mp, d), NextShifted(era, yoe, mp, d);
      NextDate(c.0, c.1, c.2) == CivilOf(n.0, n.1, n.2, n.3)
  {
    LeapShifts(era, yoe);
  }

  /** Stepping to the next date adds exactly one day. */
  lemma NextDateIsNextDay(y: int, m: int, d: int)
    requires IsDate(y, m, d)
    ensures var n := NextDate(y, m, d);
      IsDate(n.0, n.1, n.2) && DaysFromCivil(n.0, n.1, n.2) == DaysFromCivil(y, m, d) + 1
  {
    var era, yoe, mp := DateIsShifted(y, m, d);
    var n := NextShifted(era, yoe, mp, d);
    NextShiftedIsNext(era, yoe, mp, d);
    NextCivil(era, yoe, mp, d);
    DaysOfShifted(era, yoe, mp, d);
    DaysOfShifted(n.0, n.1, n.2, n.3);
  }

  lemma YearStep(era: int, yoe: int, era': int, yoe': int)
    requires 0 <= yoe < 400 && 0 <= yoe' < 400 && yoe' + 400 * era' == yoe + 400 * era + 1
    ensures era' * 146097 + YearStart(yoe') == era * 146097 + YearStart(yoe) + 365 + if LeapEnd(yoe) then 1 else 0
  {
    if yoe < 399 {
      assert era' == era && yoe' == yoe + 1;
      NextYearStart(yoe);
    } else {
      assert era' == era + 1 && yoe' == 0;
    }
  }

  lemma NextYearStart(yoe: int)
    requires 0 <= yoe < 399
    ensures YearStart(yoe + 1) == YearStart(yoe) + 365 + if LeapEnd(yoe) then 1 else 0
  {
    StepQuotient(yoe, 4);
    StepQuotient(yoe, 100);
    assert yoe % 100 == 99 ==> yoe % 4 == 3;
  }

  lemma StepQuotient(x: int, n: int)
    requires n > 1
    ensures (x + 1) / n == x / n + if x % n == n - 1 then 1 else 0
  {
    var q, r := x / n, x % n;
    assert x == q * n + r;
    if r == n - 1 { QuotientIs(x + 1, n, q + 1, 0); } else { QuotientIs(x + 1, n, q, r + 1); }
  }

  // --- ISO text ----------------------------------------------------------------------------------

  /** A field padded to a width; a negative value spends one place on its sign. */
  function PadSigned(n: int, width: nat): string
    requires width > 0
  {
    if n >= 0 then Pad(n, width) else "-" + Pad(-n, width - 1)
  }

  function IsoOf(y: int, m: int, d: int): string {
    PadSigned(y, 4) + "-" + PadSigned(m, 2) + "-" + PadSigned(d, 2)
  }

  function ToIso(days: int): string {
    var c := CivilFromDays(days);
    IsoOf(c.0, c.1, c.2)
  }

  /** The digits of one field of a date. */
  function Field(s: string, off: nat, len: nat): Option<nat>
    requires off + len <= |s|
  {
    if AllDigits(s[off..off + len]) then Some(Value(s[off..off + len])) else None
  }

  /** The date a text names, if it is one of the years 1900 to 2999. */
  function ParseCivil(s: string): Option<(int, int, int)> {
    if |s| != 10 || s[4] != '-' || s[7] != '-' then None
    else
      var y, m, d := Field(s, 0, 4), Field(s, 5, 2), Field(s, 8, 2);
      if y.None? || m.None? || d.None? then None
      else if m.value < 1 || m.value > 12 || y.value < 1900 || y.value > 2999 then None
      else if d.value < 1 || d.value > DaysInMonth(y.value, m.value) then None
      else Some((y.value, m.value, d.value))
  }

  function Parse(s: string): Option<int> {
    match ParseCivil(s)
    case Some((y, m, d)) => Some(DaysFromCivil(y, m, d))
    case None => None
  }

  lemma FieldChar(s: string, off: nat, len: nat, i: nat)
    requires off + len <= |s| && i < len
    ensures s[off..off + len][i] == s[off + i]
  {
  }

  lemma ReadDigit(s: string, off: nat, i: nat)
    requires off + i < |s| && AllDigits(s[off..off + i]) && IsDigit(s[off + i])
    ensures AllDigits(s[off..off + i + 1])
    ensures Value(s[off..off + i + 1]) == 10 * Value(s[off..off + i]) + ValueOf(s[off + i])
  {
    var t := s[off..off + i + 1];
    assert t == s[off..off + i] + [s[off + i]];
    assert t[..|t| - 1] == s[off..off + i] && t[|t| - 1] == s[off + i];
  }

  /** Reads len digits at off by accumulation; fails at the first other character. */
  method ReadField(s: string, off: nat, len: nat) returns (r: Option<nat>)
    requires off + len <= |s|
    ensures r == Field(s, off, len)
  {
    var v := 0;
    assert s[off..off] == [];
    ghost var field := s[off..off + len];
    for i := 0 to len
      invariant AllDigits(s[off..off + i]) && v == Value(s[off..off + i])
    {
      var c := s[off + i];
      FieldChar(s, off, len, i);
      if !IsDigit(c) {
        NotAllDigits(field, i);
        return None;
      }
      ReadDigit(s, off, i);
      v := v * 10 + ValueOf(c);
    }
    return Some(v);
  }

  method ParseDate(s: string) returns (r: Option<int>)
    ensures r == Parse(s)
  {
    if |s| != 10 || s[4] != '-' || s[7] != '-' { return None; }
    var y := ReadField(s, 0, 4);
    var m := ReadField(s, 5, 2);
    var d := ReadField(s, 8, 2);
    if y.None? || m.None? || d.None? { return None; }
    if m.value < 1 || m.value > 12 || y.value < 1900 || y.value > 2999 { return None; }
    if d.value < 1 || d.value > DaysInMonth(y.value, m.value) { return None; }
    return Some(DaysFromCivil(y.value, m.value, d.value));
  }

  predicate ShortYear(days: int) {
    1900 <= CivilFromDays(days).0 <= 2999
  }

  lemma IsoShape(y: int, m: int, d: int)
    requires 0 <= y < 10000 && IsDate(y, m, d)
    ensures var s := IsoOf(y, m, d);
      && |s| == 10 && s[4] == '-' && s[7] == '-'
      && s[0..4] == Pad(y, 4) && s[5..7] == Pad(m, 2) && s[8..10] == Pad(d, 2)
  {
    PadLength(y, 4);
    PadLength(m, 2);
    PadLength(d, 2);
  }

  lemma OtherYearsFail(y: int, m: int, d: int)
    requires IsDate(y, m, d) && !(1900 <= y <= 2999)
    ensures ParseCivil(IsoOf(y, m, d)) == None
  {
    var s := IsoOf(y, m, d);
    PadLength(m, 2);
    PadLength(d, 2);
    if y < 0 {
      if |s| == 10 { assert s[0..4][0] == '-'; }
    } else if y < 10000 {
      IsoShape(y, m, d);
      PadValue(y, 4);
    } else {
      PadLength(y, 4);
    }
  }

  lemma CivilReadsBack(y: int, m: int, d: int)
    requires IsDate(y, m, d) && 1900 <= y <= 2999
    ensures ParseCivil(IsoOf(y, m, d)) == Some((y, m, d))
  {
    IsoShape(y, m, d);
    ShapeReadsBack(IsoOf(y, m, d), y, m, d);
  }

  lemma ShapeReadsBack(s: string, y: int, m: int, d: int)
    requires IsDate(y, m, d) && 1900 <= y <= 2999
    requires |s| == 10 && s[4] == '-' && s[7] == '-'
    requires s[0..4] == Pad(y, 4) && s[5..7] == Pad(m, 2) && s[8..10] == Pad(d, 2)
    ensures ParseCivil(s) == Some((y, m, d))
  {
    FieldOfPad(s, 0, 4, y);
    FieldOfPad(s, 5, 2, m);
    FieldOfPad(s, 8, 2, d);
  }

  lemma FieldOfPad(s: string, off: nat, len: nat, n: nat)
    requires off + len <= |s| && s[off..off + len] == Pad(n, len)
    ensures Field(s, off, len) == Some(n)
  {
    PadValue(n, len);
  }

  /** A printed date reads back as itself exactly when its year is one the parser accepts. */
  lemma IsoRoundTrip(days: int)
    ensures Parse(ToIso(days)) == if 1900 <= CivilFromDays(days).0 <= 2999 then Some(days) else None
  {
    var c := CivilFromDays(days);
    DaysRoundTrip(days);
    if ShortYear(days) { CivilReadsBack(c.0, c.1, c.2); } else { OtherYearsFail(c.0, c.1, c.2); }
  }

  lemma CivilPrints(s: string)
    requires ParseCivil(s).Some?
    ensures var (y, m, d) := ParseCivil(s).value;
      IsDate(y, m, d) && 1900 <= y <= 2999 && IsoOf(y, m, d) == s
  {
    PadOfValue(s[0..4]);
    PadOfValue(s[5..7]);
    PadOfValue(s[8..10]);
    assert s == s[0..4] + "-" + s[5..7] + "-" + s[8..10];
  }

  /** Whatever parses is a date that exists, and prints as the text that was read. */
  lemma ParsedPrints(s: string)
    requires Parse(s).Some?
    ensures 1900 <= CivilFromDays(Parse(s).value).0 <= 2999 && ToIso(Parse(s).value) == s
  {
    var (y, m, d) := ParseCivil(s).value;
    CivilPrints(s);
    CivilRoundTrip(y, m, d);
  }

  const NUMERALS := "0123456789"

  lemma LastDigit(n: nat)
    ensures n >= 10 ==> Digits(n) == Digits(n / 10) + [NUMERALS[n % 10]]
  {
  }

  lemma TwoDigits(n: nat)
    requires n < 100
    ensures Pad(n, 2) == [NUMERALS[n / 10], NUMERALS[n % 10]]
  {
    if n < 10 {
      assert Zeros(1) == Zeros(0) + ['0'];
    } else {
      assert Digits(n) == Digits(n / 10) + [Digit(n % 10)];
    }
  }

  lemma FourDigits(n: nat)
    requires 1000 <= n < 10000
    ensures Pad(n, 4) == [NUMERALS[n / 1000], NUMERALS[n / 100 % 10], NUMERALS[n / 10 % 10], NUMERALS[n % 10]]
  {
    var t, h := n / 10, n / 100;
    LastDigit(h);
    LastDigit(t);
    LastDigit(n);
    assert h / 10 == n / 1000 && t / 10 == h;
    assert Digits(h / 10) == [NUMERALS[h / 10]];
  }

  /** Days are counted from 1 January 1970. */
  lemma EpochIsDayZero()
    ensures DaysFromCivil(1970, 1, 1) == 0
  {
  }

  /** The day of a date is printed as the four digits of the year and two each of month and day, between hyphens. */
  lemma IsoSpelled(y: int, m: int, d: int)
    requires IsDate(y, m, d) && 1000 <= y < 10000
    ensures ToIso(DaysFromCivil(y, m, d)) ==
      [NUMERALS[y / 1000], NUMERALS[y / 100 % 10], NUMERALS[y / 10 % 10], NUMERALS[y % 10], '-',
       NUMERALS[m / 10], NUMERALS[m % 10], '-', NUMERALS[d / 10], NUMERALS[d % 10]]
  {
    CivilRoundTrip(y, m, d);
    FourDigits(y);
    TwoDigits(m);
    TwoDigits(d);
  }

  // --- weeks ------------------------------------------------------------------------------------------

  function Clamp(w: int, lo: int, hi: int): int {
    if w < lo then lo else if w > hi then hi else w
  }

  function WeekOf(start: int, days: int): int {
    var off := days - start;
    Clamp((if off >= 0 then TDiv(off, 7) else TDiv(off - 6, 7)) + 1, -100000, 100000)
  }

  /** A day is in week w exactly when it is one of the seven ending on that week's Sunday. */
  lemma WeekContainsDay(inst: Instance, days: int, w: int)
    requires -100000 < w < 100000
    ensures WeekOf(inst.start, days) == w <==> SundayOfWeek(inst, w) - 6 <= days <= SundayOfWeek(inst, w)
  {
    EraIsFloor(days - inst.start, 7);
  }

  /** Later days are never in earlier weeks, and weeks beyond the clamp are held at it. */
  lemma WeeksAscend(start: int, d: int, d': int)
    requires d <= d'
    ensures -100000 <= WeekOf(start, d) <= WeekOf(start, d') <= 100000
  {
    EraIsFloor(d - start, 7);
    EraIsFloor(d' - start, 7);
  }
}
