/** The audit log: each event's hash covers its fields and the hash before it. */
module AuditChain {
  import opened Decimal
  import opened Sha256

  /** A row of the audit table, in id order; an empty hash marks a row from before chaining. */
  datatype Event = Event(ts: string, actor: int, action: string, objectType: string, objectId: string,
                         result: string, correlationId: string, detail: string, previous: string, hash: string)

  // --- the field encoding ------------------------------------------------------------------------

  /** A field preceded by its length. */
  function Field(v: string): string { Print(|v|) + ":" + v }

  function Encode(fields: seq<string>): string {
    if fields == [] then [] else Field(fields[0]) + Encode(fields[1..])
  }

  lemma Associate(a: string, b: string, c: string)
    ensures a + (b + c) == a + b + c
  {
  }

  lemma EncodePrepend(v: string, rest: seq<string>)
    ensures Encode([v] + rest) == Field(v) + Encode(rest)
  {
    assert ([v] + rest)[1..] == rest;
  }

  lemma {:induction false} EncodeJoined(a: seq<string>, b: seq<string>)
    ensures Encode(a + b) == Encode(a) + Encode(b)
  {
    if a == [] {
      assert a + b == b;
    } else {
      var first, tail := a[0], a[1..];
      EncodeJoined(tail, b);
      assert a == [first] + tail && a + b == [first] + (tail + b);
      EncodeGrown(first, tail, b);
    }
  }

  lemma EncodeGrown(first: string, tail: seq<string>, b: seq<string>)
    requires Encode(tail + b) == Encode(tail) + Encode(b)
    ensures Encode([first] + (tail + b)) == Encode([first] + tail) + Encode(b)
  {
    EncodePrepend(first, tail);
    EncodePrepend(first, tail + b);
    Associate(Field(first), Encode(tail), Encode(b));
  }

  /** One field is encoded as its length, a colon and itself; lists are encoded field after field. */
  lemma EncodeSpelled(a: seq<string>, b: seq<string>, v: string)
    ensures Encode([v]) == Print(|v|) + ":" + v
    ensures Encode(a + b) == Encode(a) + Encode(b) && Encode([]) == ""
  {
    assert [v][1..] == [];
    EncodeJoined(a, b);
  }

  lemma FirstCharacter(n: int)
    ensures Print(n) != [] && (n < 0 <==> Print(n)[0] == '-')
  {
  }

  /** A number in decimal has one reading. */
  lemma PrintTells(m: int, n: int)
    requires Print(m) == Print(n)
    ensures m == n
  {
    FirstCharacter(m);
    FirstCharacter(n);
    if m >= 0 && n >= 0 {
      ValueOfDigits(m);
      ValueOfDigits(n);
    } else if m < 0 && n < 0 {
      assert Print(m)[1..] == Digits(-m) && Print(n)[1..] == Digits(-n);
      ValueOfDigits(-m);
      ValueOfDigits(-n);
    }
  }

  /** Digits before a colon end where the colon is. */
  lemma ColonTells(d: string, e: string, x: string, y: string)
    requires AllDigits(d) && AllDigits(e) && d + ":" + x == e + ":" + y
    ensures d == e && x == y
  {
    var s, t := d + ":" + x, e + ":" + y;
    assert s[|d|] == ':' && t[|e|] == ':';
    assert forall i :: 0 <= i < |d| ==> s[i] == d[i] && IsDigit(s[i]);
    assert forall i :: 0 <= i < |e| ==> t[i] == e[i] && IsDigit(t[i]);
    assert d == s[..|d|] && e == t[..|e|];
    assert x == s[|d| + 1..] && y == t[|e| + 1..];
  }

  /** A field can be told from whatever follows it. */
  lemma FieldTells(v: string, w: string, x: string, y: string)
    requires Field(v) + x == Field(w) + y
    ensures v == w && x == y
  {
    assert Field(v) + x == Print(|v|) + ":" + (v + x);
    assert Field(w) + y == Print(|w|) + ":" + (w + y);
    ColonTells(Print(|v|), Print(|w|), v + x, w + y);
    PrintTells(|v|, |w|);
    assert v == (v + x)[..|v|] && w == (w + y)[..|w|];
    assert x == (v + x)[|v|..] && y == (w + y)[|w|..];
  }

  /** The encoding of a list of fields has one reading, whatever the fields contain. */
  lemma {:induction false} EncodeTells(a: seq<string>, b: seq<string>)
    requires Encode(a) == Encode(b)
    ensures a == b
  {
    assert (a == [] || |Encode(a)| > 0) && (b == [] || |Encode(b)| > 0);
    if a != [] && b != [] {
      FieldTells(a[0], b[0], Encode(a[1..]), Encode(b[1..]));
      EncodeTells(a[1..], b[1..]);
      assert a == [a[0]] + a[1..] && b == [b[0]] + b[1..];
    }
  }

  // --- the chain --------------------------------------------------------------------------------------

  function FieldsOf(previous: string, e: Event): seq<string> {
    [previous, e.ts, Print(e.actor), e.action, e.objectType, e.objectId, e.result, e.correlationId, e.detail]
  }

  function AuditHash(hash: string -> string, previous: string, e: Event): string {
    hash(Encode(FieldsOf(previous, e)))
  }

  /** The rows that take part in the chain. */
  function Covered(rows: seq<Event>): (r: seq<Event>)
    ensures forall i :: 0 <= i < |r| ==> r[i].hash != []
  {
    if rows == [] then []
    else if rows[|rows| - 1].hash == [] then Covered(rows[..|rows| - 1])
    else Covered(rows[..|rows| - 1]) + [rows[|rows| - 1]]
  }

  function LastHash(chain: seq<Event>): string {
    if chain == [] then [] else chain[|chain| - 1].hash
  }

  /** Every event names the hash before it and carries the hash of its fields. */
  predicate Linked(hash: string -> string, chain: seq<Event>) {
    if chain == [] then true
    else
      var e, before := chain[|chain| - 1], chain[..|chain| - 1];
      Linked(hash, before) && Links(hash, LastHash(before), e)
  }

  predicate Links(hash: string -> string, previous: string, e: Event) {
    e.previous == previous && e.hash == AuditHash(hash, e.previous, e)
  }

  lemma LinkedSnoc(hash: string -> string, before: seq<Event>, e: Event)
    ensures Linked(hash, before + [e]) <==> Linked(hash, before) && Links(hash, LastHash(before), e)
  {
    var chain := before + [e];
    assert chain[..|chain| - 1] == before && chain[|chain| - 1] == e;
  }

  ghost predicate Injective(hash: string -> string) {
    forall x, y :: hash(x) == hash(y) ==> x == y
  }

  ghost predicate NeverEmpty(hash: string -> string) {
    forall x :: hash(x) != []
  }

  /** What a caller of Audit hands over, with the time it is stamped with. */
  datatype Entry = Entry(ts: string, actor: int, action: string, objectType: string, objectId: string,
                         result: string, correlationId: string, detail: string)

  function EventFor(hash: string -> string, previous: string, n: Entry): Event {
    var e := Event(n.ts, n.actor, n.action, n.objectType, n.objectId, n.result, n.correlationId, n.detail, previous,
                   []);
    e.(hash := AuditHash(hash, previous, e))
  }

  function Appended(hash: string -> string, rows: seq<Event>, n: Entry): seq<Event> {
    rows + [EventFor(hash, LastHash(Covered(rows)), n)]
  }

  // --- the chain over the rows --------------------------------------------------------------------------

  /** The hash of a row covers these nine fields in this order. */
  ghost predicate Hashed(hash: string -> string, e: Event) {
    e.hash == hash(Encode([e.previous, e.ts, Print(e.actor), e.action, e.objectType, e.objectId, e.result,
                           e.correlationId, e.detail]))
  }

  /** Row i names the hash of the nearest row before it that has one, or none if there is no such row. */
  ghost predicate NamesPrevious(rows: seq<Event>, i: nat)
    requires i < |rows|
  {
    || (rows[i].previous == "" && forall j :: 0 <= j < i ==> rows[j].hash == "")
    || exists j :: 0 <= j < i && rows[j].hash != "" && rows[i].previous == rows[j].hash
         && forall k :: j < k < i ==> rows[k].hash == ""
  }

  lemma {:induction false} LastHashExact(rows: seq<Event>)
    ensures var last := LastHash(Covered(rows));
      || (last == "" && forall j :: 0 <= j < |rows| ==> rows[j].hash == "")
      || exists j :: 0 <= j < |rows| && rows[j].hash != "" && last == rows[j].hash
           && forall k :: j < k < |rows| ==> rows[k].hash == ""
  {
    if rows != [] {
      var n := |rows| - 1;
      LastHashExact(rows[..n]);
      CoveredStep(rows, n);
      assert rows[..n + 1] == rows;
      assert forall j :: 0 <= j < n ==> rows[..n][j] == rows[j];
    }
  }

  lemma PreviousExact(rows: seq<Event>, i: nat)
    requires i < |rows|
    ensures rows[i].previous == LastHash(Covered(rows[..i])) <==> NamesPrevious(rows, i)
  {
    LastHashExact(rows[..i]);
    assert forall j :: 0 <= j < i ==> rows[..i][j] == rows[j];
  }

  /** Row i, if it has a hash, names the one before it and carries the hash of its fields. */
  ghost predicate RowLinks(hash: string -> string, rows: seq<Event>, i: nat)
    requires i < |rows|
  {
    rows[i].hash != "" ==> NamesPrevious(rows, i) && Hashed(hash, rows[i])
  }

  ghost predicate RowsLink(hash: string -> string, rows: seq<Event>, n: nat)
    requires n <= |rows|
  {
    forall i: nat :: i < n ==> RowLinks(hash, rows, i)
  }

  lemma RowLinksExact(hash: string -> string, rows: seq<Event>, i: nat)
    requires i < |rows|
    ensures RowLinks(hash, rows, i) <==> rows[i].hash == [] || Links(hash, LastHash(Covered(rows[..i])), rows[i])
  {
    PreviousExact(rows, i);
  }

  lemma RowsLinkStep(hash: string -> string, rows: seq<Event>, n: nat, linked: bool, before: bool, now: bool)
    requires n < |rows| && linked == RowLinks(hash, rows, n)
    requires before == RowsLink(hash, rows, n) && now == RowsLink(hash, rows, n + 1)
    ensures now == (before && linked)
  {
    if before && linked {
      forall i: nat | i < n + 1 ensures RowLinks(hash, rows, i) {}
    }
    if now {
      assert RowLinks(hash, rows, n);
      forall i: nat | i < n ensures RowLinks(hash, rows, i) {}
    }
  }

  lemma ChainStep(hash: string -> string, rows: seq<Event>, n: nat)
    requires n < |rows| && (Linked(hash, Covered(rows[..n])) <==> RowsLink(hash, rows, n))
    ensures Linked(hash, Covered(rows[..n + 1])) <==> RowsLink(hash, rows, n + 1)
  {
    LinkedStep(hash, rows, n);
    RowLinksExact(hash, rows, n);
    RowsLinkStep(hash, rows, n, RowLinks(hash, rows, n), RowsLink(hash, rows, n), RowsLink(hash, rows, n + 1));
  }

  lemma {:induction false} ChainUpTo(hash: string -> string, rows: seq<Event>, n: nat)
    requires n <= |rows|
    ensures Linked(hash, Covered(rows[..n])) <==> RowsLink(hash, rows, n)
    decreases n
  {
    if n > 0 {
      ChainUpTo(hash, rows, n - 1);
      ChainStep(hash, rows, n - 1);
    } else {
      assert Covered(rows[..0]) == [];
    }
  }

  /** The chain verifies exactly when every row links. */
  lemma ChainExact(hash: string -> string, rows: seq<Event>)
    ensures Linked(hash, Covered(rows)) <==> RowsLink(hash, rows, |rows|)
  {
    ChainUpTo(hash, rows, |rows|);
    assert rows[..|rows|] == rows;
  }

  class AuditLog {
    const hash: string -> string
    var rows: seq<Event>

    constructor (hash: string -> string)
      ensures rows == [] && this.hash == hash
    {
      this.hash, rows := hash, [];
    }

    /** Appends an event chained to the last covered one. */
    method Audit(ts: string, actor: int, action: string, objectType: string, objectId: string, result: string,
                 correlationId: string, detail: string)
      modifies this`rows
      ensures rows == Appended(hash, old(rows), Entry(ts, actor, action, objectType, objectId, result, correlationId,
                                                      detail))
      ensures |rows| == |old(rows)| + 1 && rows[..|old(rows)|] == old(rows)
      ensures var e := rows[|rows| - 1];
        && e == Event(ts, actor, action, objectType, objectId, result, correlationId, detail,
                      LastHash(Covered(old(rows))), e.hash)
        && Hashed(hash, e) && NamesPrevious(rows, |old(rows)|)
      ensures Linked(hash, Covered(rows)) <==> Linked(hash, Covered(old(rows)))
    {
      var previous := FindLast();
      var e := Event(ts, actor, action, objectType, objectId, result, correlationId, detail, previous, []);
      var event := e.(hash := AuditHash(hash, previous, e));
      assert FieldsOf(previous, e) == FieldsOf(previous, event);
      ChainGrows(hash, rows, event);
      rows := rows + [event];
      PreviousExact(rows, |rows| - 1);
      assert rows[..|rows| - 1] == old(rows);
    }

    /** The hash of the newest row that has one. */
    method FindLast() returns (previous: string)
      ensures previous == LastHash(Covered(rows))
    {
      var i := |rows|;
      assert rows[..i] == rows;
      while i > 0
        invariant 0 <= i <= |rows| && LastHash(Covered(rows)) == LastHash(Covered(rows[..i]))
      {
        CoveredStep(rows, i - 1);
        if rows[i - 1].hash != [] { return rows[i - 1].hash; }
        i := i - 1;
      }
      return [];
    }

    /** Walks the covered rows in order; stops at the first that does not link. */
    method VerifyAuditChain() returns (ok: bool)
      ensures ok <==> Linked(hash, Covered(rows))
      ensures ok <==> RowsLink(hash, rows, |rows|)
    {
      ChainExact(hash, rows);
      var expected: string := [];
      for i := 0 to |rows|
        invariant Linked(hash, Covered(rows[..i])) && expected == LastHash(Covered(rows[..i]))
      {
        var e := rows[i];
        CoveredStep(rows, i);
        LinkedStep(hash, rows, i);
        if e.hash != [] {
          if e.previous != expected || e.hash != AuditHash(hash, e.previous, e) {
            BrokenStays(hash, rows, i + 1);
            return false;
          }
          expected := e.hash;
        }
      }
      assert rows[..|rows|] == rows;
      return true;
    }
  }

  lemma CoveredSnoc(rows: seq<Event>, e: Event)
    ensures Covered(rows + [e]) == if e.hash == [] then Covered(rows) else Covered(rows) + [e]
  {
    var all := rows + [e];
    assert all[..|all| - 1] == rows && all[|all| - 1] == e;
  }

  lemma CoveredStep(rows: seq<Event>, i: nat)
    requires i < |rows|
    ensures Covered(rows[..i + 1]) == if rows[i].hash == [] then Covered(rows[..i]) else Covered(rows[..i]) + [rows[i]]
  {
    assert rows[..i + 1] == rows[..i] + [rows[i]];
    CoveredSnoc(rows[..i], rows[i]);
  }

  /** One more row keeps the chain linked exactly when it links to it or takes no part in it. */
  lemma LinkedStep(hash: string -> string, rows: seq<Event>, i: nat)
    requires i < |rows|
    ensures Linked(hash, Covered(rows[..i + 1])) <==>
      Linked(hash, Covered(rows[..i])) && (rows[i].hash == [] || Links(hash, LastHash(Covered(rows[..i])), rows[i]))
  {
    CoveredStep(rows, i);
    LinkedSnoc(hash, Covered(rows[..i]), rows[i]);
  }

  lemma ChainGrows(hash: string -> string, rows: seq<Event>, e: Event)
    requires Links(hash, LastHash(Covered(rows)), e)
    ensures Linked(hash, Covered(rows + [e])) <==> Linked(hash, Covered(rows))
  {
    CoveredSnoc(rows, e);
    LinkedSnoc(hash, Covered(rows), e);
  }

  /** A chain broken somewhere is broken. */
  lemma {:induction false} BrokenStays(hash: string -> string, rows: seq<Event>, n: nat)
    requires n <= |rows| && !Linked(hash, Covered(rows[..n]))
    ensures !Linked(hash, Covered(rows))
    decreases |rows| - n
  {
    if n == |rows| {
      assert rows[..n] == rows;
    } else {
      LinkedStep(hash, rows, n);
      BrokenStays(hash, rows, n + 1);
    }
  }

  // --- what a verifying chain proves ---------------------------------------------------------------------

  ghost predicate Computed(hash: string -> string, e: Event) {
    e.hash == AuditHash(hash, e.previous, e)
  }

  /** Two different texts, both hashed for these events, have the same hash. */
  ghost predicate Collide(hash: string -> string, d: Event, e: Event) {
    && Encode(FieldsOf(d.previous, d)) != Encode(FieldsOf(e.previous, e))
    && AuditHash(hash, d.previous, d) == AuditHash(hash, e.previous, e)
  }

  /** Somewhere in the two chains, two different texts have the same hash. */
  ghost predicate Collision(hash: string -> string, a: seq<Event>, b: seq<Event>) {
    exists d, e :: d in a && e in b && Collide(hash, d, e)
  }

  /** The same hash was computed from the same fields, or from two texts that collide. */
  lemma SameHashSameFields(hash: string -> string, d: Event, e: Event)
    requires d.hash == e.hash && Computed(hash, d) && Computed(hash, e)
    ensures d == e || Collide(hash, d, e)
  {
    var f, g := FieldsOf(d.previous, d), FieldsOf(e.previous, e);
    if Encode(f) == Encode(g) {
      EncodeTells(f, g);
      assert f[0] == g[0] && f[1] == g[1] && f[2] == g[2] && f[3] == g[3] && f[4] == g[4];
      assert f[5] == g[5] && f[6] == g[6] && f[7] == g[7] && f[8] == g[8];
      PrintTells(d.actor, e.actor);
    }
  }

  ghost predicate AllHashed(chain: seq<Event>) {
    forall i :: 0 <= i < |chain| ==> chain[i].hash != []
  }

  /** Chains ending in the same hash end in the same event, or their last events collide. */
  lemma SameLastEvent(hash: string -> string, a: seq<Event>, b: seq<Event>)
    requires a != [] && b != [] && Linked(hash, a) && Linked(hash, b) && LastHash(a) == LastHash(b)
    ensures Linked(hash, a[..|a| - 1]) && Linked(hash, b[..|b| - 1])
    ensures Collide(hash, a[|a| - 1], b[|b| - 1])
         || (a[|a| - 1] == b[|b| - 1] && LastHash(a[..|a| - 1]) == LastHash(b[..|b| - 1]))
  {
    SameHashSameFields(hash, a[|a| - 1], b[|b| - 1]);
  }

  lemma HashedEnds(chain: seq<Event>)
    requires AllHashed(chain)
    ensures LastHash(chain) == [] <==> chain == []
  {
  }

  lemma Rejoin(a: seq<Event>, b: seq<Event>)
    requires a != [] && b != [] && a[..|a| - 1] == b[..|b| - 1] && a[|a| - 1] == b[|b| - 1]
    ensures a == b
  {
    assert a == a[..|a| - 1] + [a[|a| - 1]] && b == b[..|b| - 1] + [b[|b| - 1]];
  }

  lemma HashedPrefix(chain: seq<Event>)
    requires AllHashed(chain) && chain != []
    ensures AllHashed(chain[..|chain| - 1])
  {
  }

  lemma CollisionBefore(hash: string -> string, a: seq<Event>, b: seq<Event>)
    requires a != [] && b != [] && Collision(hash, a[..|a| - 1], b[..|b| - 1])
    ensures Collision(hash, a, b)
  {
    var d, e :| d in a[..|a| - 1] && e in b[..|b| - 1] && Collide(hash, d, e);
    assert d in a && e in b;
  }

  /**
   * For any hash at all: two verifying chains that end in the same hash are the same chain, event for event, or the
   * chains themselves exhibit two different texts with the same hash.
   */
  lemma {:induction false} LastHashDecides(hash: string -> string, a: seq<Event>, b: seq<Event>)
    requires AllHashed(a) && AllHashed(b)
    requires Linked(hash, a) && Linked(hash, b) && LastHash(a) == LastHash(b)
    ensures a == b || Collision(hash, a, b)
    decreases |a|
  {
    HashedEnds(a);
    HashedEnds(b);
    if a != [] {
      SameLastEvent(hash, a, b);
      if Collide(hash, a[|a| - 1], b[|b| - 1]) {
        assert a[|a| - 1] in a && b[|b| - 1] in b;
      } else {
        HashedPrefix(a);
        HashedPrefix(b);
        LastHashDecides(hash, a[..|a| - 1], b[..|b| - 1]);
        if Collision(hash, a[..|a| - 1], b[..|b| - 1]) { CollisionBefore(hash, a, b); } else { Rejoin(a, b); }
      }
    }
  }

  /** A change to the covered rows that keeps the last hash is noticed, or is a collision of the hash. */
  lemma TamperingShows(hash: string -> string, rows: seq<Event>, changed: seq<Event>)
    requires Linked(hash, Covered(rows))
    requires LastHash(Covered(changed)) == LastHash(Covered(rows)) && Covered(changed) != Covered(rows)
    ensures !Linked(hash, Covered(changed)) || Collision(hash, Covered(rows), Covered(changed))
  {
    if Linked(hash, Covered(changed)) { LastHashDecides(hash, Covered(rows), Covered(changed)); }
  }

  /** With a hash that never repeats there is no collision, so every such change is noticed. */
  lemma InjectiveNotices(hash: string -> string, rows: seq<Event>, changed: seq<Event>)
    requires Injective(hash) && Linked(hash, Covered(rows))
    requires LastHash(Covered(changed)) == LastHash(Covered(rows)) && Covered(changed) != Covered(rows)
    ensures !Linked(hash, Covered(changed))
  {
    TamperingShows(hash, rows, changed);
    assert !Collision(hash, Covered(rows), Covered(changed));
  }

  /** Every prefix of a chain that verifies verifies too: rows cut off the end are not missed. */
  lemma {:induction false} PrefixVerifies(hash: string -> string, chain: seq<Event>, n: nat)
    requires Linked(hash, chain) && n <= |chain|
    ensures Linked(hash, chain[..n])
    decreases |chain|
  {
    if n == |chain| {
      assert chain[..n] == chain;
    } else {
      PrefixVerifies(hash, chain[..|chain| - 1], n);
      assert chain[..|chain| - 1][..n] == chain[..n];
    }
  }

  // --- runs ------------------------------------------------------------------------------------------------

  /** The rows after a series of calls of Audit on an empty log. */
  function Run(hash: string -> string, entries: seq<Entry>): seq<Event> {
    if entries == [] then []
    else Appended(hash, Run(hash, entries[..|entries| - 1]), entries[|entries| - 1])
  }

  /** After any calls of Audit on an empty log every row is covered, and the log verifies. */
  lemma {:induction false} EveryRunVerifies(hash: string -> string, entries: seq<Entry>)
    requires NeverEmpty(hash)
    ensures Covered(Run(hash, entries)) == Run(hash, entries) && Linked(hash, Run(hash, entries))
    ensures |Run(hash, entries)| == |entries|
  {
    if entries != [] {
      var before, n := Run(hash, entries[..|entries| - 1]), entries[|entries| - 1];
      EveryRunVerifies(hash, entries[..|entries| - 1]);
      var e := EventFor(hash, LastHash(before), n);
      ComputedFor(hash, LastHash(before), n);
      CoveredSnoc(before, e);
      LinkedSnoc(hash, before, e);
    }
  }

  lemma ComputedFor(hash: string -> string, previous: string, n: Entry)
    requires NeverEmpty(hash)
    ensures Links(hash, previous, EventFor(hash, previous, n)) && EventFor(hash, previous, n).hash != []
  {
    var e := EventFor(hash, previous, n);
    var x := Encode(FieldsOf(previous, e));
    assert FieldsOf(previous, e) == FieldsOf(previous, e.(hash := []));
    assert hash(x) != [];
  }

  // --- the hash the log uses ---------------------------------------------------------------------------------

  /** The text's characters as bytes. */
  function Bytes(s: string): (b: seq<Byte>)
    ensures |b| == |s|
  {
    seq(|s|, i requires 0 <= i < |s| => (s[i] as int % 256) as Byte)
  }

  function Sha256Text(s: string): (t: string)
    ensures |t| == 64
  {
    HexOf(Hash(Bytes(s)))
  }

  /** A digest's text is never empty, so a log that uses it is covered and verifies after any calls. */
  lemma Sha256RunVerifies(entries: seq<Entry>)
    ensures Covered(Run(Sha256Text, entries)) == Run(Sha256Text, entries)
        && Linked(Sha256Text, Run(Sha256Text, entries))
  {
    forall x ensures Sha256Text(x) != [] { assert |Sha256Text(x)| == 64; }
    EveryRunVerifies(Sha256Text, entries);
  }
}
