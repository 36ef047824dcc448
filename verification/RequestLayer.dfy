/** The client's request layer: bounded concurrency, a wait queue, a bounded cache and session epochs. */
module RequestLayer {
  import opened Counting
  import opened Model

  const MAX_CONCURRENT := 4
  const MAX_CACHE := 64

  /** Where a request stands. Returned has given its slot back but not yet reached its caller. */
  datatype Phase = Waiting | Holding | Returned(value: string) | Delivered(value: string) | Failed

  /** scope is the epoch in which the request began; key names it among those that may be shared. */
  datatype Request = Request(scope: nat, cacheKey: Option<string>, key: Option<(nat, string)>, aborted: bool,
                             phase: Phase)

  /** A cached value and the request it came from. */
  datatype Cached = Cached(key: string, value: string, from: nat)

  datatype State = State(active: nat, waiting: seq<nat>, listeners: set<nat>, cache: seq<Cached>,
                         inflight: map<(nat, string), nat>, token: string, epoch: nat, requests: seq<Request>,
                         granted: set<nat>, cancelled: set<nat>)

  const EMPTY := State(0, [], {}, [], map[], "", 0, [], {}, {})

  // --- slots ------------------------------------------------------------------------------------------

  function Phased(s: State, r: nat, p: Phase): State {
    if r < |s.requests| then s.(requests := s.requests[r := s.requests[r].(phase := p)]) else s
  }

  /** A request takes a slot if one is free, else joins the queue and listens for cancellation. */
  function Acquired(s: State, q: Request): State {
    var r := |s.requests|;
    if s.active < MAX_CONCURRENT then
      s.(active := s.active + 1, requests := s.requests + [q.(phase := Holding)])
    else
      s.(waiting := s.waiting + [r], listeners := s.listeners + {r}, requests := s.requests + [q.(phase := Waiting)])
  }

  /** A slot is given back, and at once granted to the request that has waited longest. */
  function Released(s: State): State
    requires s.active > 0
  {
    if s.waiting == [] then s.(active := s.active - 1)
    else
      var next := s.waiting[0];
      Phased(s, next, Holding).(waiting := s.waiting[1..], listeners := s.listeners - {next},
                                granted := s.granted + {next})
  }

  function Without(waiting: seq<nat>, r: nat): (w: seq<nat>)
    ensures forall i :: 0 <= i < |w| ==> w[i] != r && w[i] in waiting
  {
    if waiting == [] then []
    else (if waiting[0] == r then [] else [waiting[0]]) + Without(waiting[1..], r)
  }

  /** A waiting request is taken out of the queue and rejected. */
  function Cancelled(s: State, r: nat): State {
    Phased(s, r, Failed).(waiting := Without(s.waiting, r), listeners := s.listeners - {r},
                          cancelled := s.cancelled + {r})
  }

  // --- the steps ----------------------------------------------------------------------------------------

  /** What a caller is told at once: a rejection, a cached value, another request to share, or its own request. */
  datatype Reply = Rejected | Hit(value: string) | Joined(request: nat) | Began(request: nat)

  /**
   * signalAborted: the caller's signal has fired already; name: the key's own part, for requests that may be shared.
   */
  datatype Options = Options(signalAborted: bool, cacheKey: Option<string>, name: Option<string>)

  function Lookup(cache: seq<Cached>, key: string): (c: Option<Cached>)
    ensures c.Some? ==> c.value in cache && c.value.key == key
    ensures c.None? <==> forall i :: 0 <= i < |cache| ==> cache[i].key != key
  {
    if cache == [] then None else if cache[0].key == key then Some(cache[0]) else Lookup(cache[1..], key)
  }

  function KeyFor(s: State, o: Options): Option<(nat, string)> {
    match o.name case Some(n) => Some((s.epoch, n)) case None => None
  }

  function Asked(s: State, o: Options): (State, Reply) {
    var hit := if o.cacheKey.Some? then Lookup(s.cache, o.cacheKey.value) else None;
    var key := KeyFor(s, o);
    if o.signalAborted then (s, Rejected)
    else if hit.Some? then (s, Hit(hit.value.value))
    else if key.Some? && key.value in s.inflight then (s, Joined(s.inflight[key.value]))
    else
      var r := |s.requests|;
      var after := Acquired(s, Request(s.epoch, o.cacheKey, key, false, Waiting));
      (if key.Some? then after.(inflight := after.inflight[key.value := r]) else after, Began(r))
  }

  /** The request's controller aborts: its caller's signal fired or it timed out. */
  function Aborted(s: State, r: nat): State {
    if r >= |s.requests| then s
    else
      var after := s.(requests := s.requests[r := s.requests[r].(aborted := true)]);
      match s.requests[r].phase
      case Holding => after
      case Waiting => if r in s.listeners then Cancelled(after, r) else after
      case _ => s
  }

  /** A request that holds a slot ends without a value. */
  function Broken(s: State, r: nat): State {
    if r < |s.requests| && s.requests[r].phase.Holding? && s.active > 0 then Released(Phased(s, r, Failed)) else s
  }

  /** A response has been read: it counts only in the request's own epoch and when not aborted. */
  function Answered(s: State, r: nat, value: string): State {
    if r < |s.requests| && s.requests[r].phase.Holding? && s.active > 0 then
      var q := s.requests[r];
      Released(Phased(s, r, if q.scope != s.epoch || q.aborted then Failed else Returned(value)))
    else s
  }

  function Evicted(cache: seq<Cached>): seq<Cached> {
    if |cache| >= MAX_CACHE then cache[1..] else cache
  }

  /** Sets a key where it stands, or at the end. */
  function Put(cache: seq<Cached>, c: Cached): (r: seq<Cached>)
    ensures |r| <= |cache| + 1
    ensures forall x :: x in r ==> x == c || x in cache
  {
    if cache == [] then [c]
    else if cache[0].key == c.key then [c] + cache[1..]
    else [cache[0]] + Put(cache[1..], c)
  }

  /** The value reaches the caller, and the cache if it is cacheable: again only in the request's own epoch. */
  function Settled(s: State, r: nat): State {
    if r < |s.requests| && s.requests[r].phase.Returned? then
      var q := s.requests[r];
      if q.scope != s.epoch then Phased(s, r, Failed)
      else
        var after := Phased(s, r, Delivered(q.phase.value));
        if q.cacheKey.Some? then after.(cache := Put(Evicted(s.cache), Cached(q.cacheKey.value, q.phase.value, r)))
            else after
    else s
  }

  /** A finished request stops being shared. */
  function CleanedUp(s: State, r: nat): State {
    if r < |s.requests| && s.requests[r].key.Some? && (s.requests[r].phase.Delivered? || s.requests[r].phase.Failed?)
       && s.requests[r].key.value in s.inflight && s.inflight[s.requests[r].key.value] == r
    then s.(inflight := s.inflight - {s.requests[r].key.value}) else s
  }

  /** What the end of a session does to one request. */
  function Ended(q: Request): Request {
    match q.phase
    case Waiting => q.(aborted := true, phase := Failed)
    case Holding => q.(aborted := true)
    case _ => q
  }

  function AllEnded(requests: seq<Request>): (r: seq<Request>)
    ensures |r| == |requests| && forall i :: 0 <= i < |r| ==> r[i] == Ended(requests[i])
  {
    if requests == [] then [] else [Ended(requests[0])] + AllEnded(requests[1..])
  }

  /**
   * A new token ends the session: everything waiting is cancelled, everything running aborted, everything kept
   * dropped.
   */
  function TokenSet(s: State, token: string): State {
    if token == s.token then s
    else
      s.(token := token, epoch := s.epoch + 1, waiting := [], listeners := {}, cache := [], inflight := map[],
         requests := AllEnded(s.requests), cancelled := s.cancelled + set r | r in s.waiting)
  }

  function Dropped(cache: seq<Cached>, prefix: string): (r: seq<Cached>)
    ensures |r| <= |cache| && forall i :: 0 <= i < |r| ==> r[i] in cache && !(prefix <= r[i].key)
  {
    if cache == [] then []
    else (if prefix <= cache[0].key then [] else [cache[0]]) + Dropped(cache[1..], prefix)
  }

  datatype Event =
    | Ask(options: Options)
    | Abort(request: nat)
    | Break(request: nat)
    | Answer(request: nat, value: string)
    | Settle(request: nat)
    | CleanUp(request: nat)
    | SetToken(token: string)
    | ClearCache(prefix: string)

  function Step(s: State, e: Event): State {
    match e
    case Ask(o) => Asked(s, o).0
    case Abort(r) => Aborted(s, r)
    case Break(r) => Broken(s, r)
    case Answer(r, v) => Answered(s, r, v)
    case Settle(r) => Settled(s, r)
    case CleanUp(r) => CleanedUp(s, r)
    case SetToken(t) => TokenSet(s, t)
    case ClearCache(p) => s.(cache := Dropped(s.cache, p))
  }

  function Run(events: seq<Event>): State {
    if events == [] then EMPTY else Step(Run(events[..|events| - 1]), events[|events| - 1])
  }

  // --- the invariant ---------------------------------------------------------------------------------------

  ghost function Holders(requests: seq<Request>): set<nat> {
    set r | 0 <= r < |requests| && requests[r].phase.Holding?
  }

  /** Slots held are counted, bounded, and all taken while anyone waits. */
  ghost predicate SlotsCounted(s: State) {
    && s.active == |Holders(s.requests)| && s.active <= MAX_CONCURRENT
    && (s.waiting != [] ==> s.active == MAX_CONCURRENT)
  }

  /** The queue lists each waiting request once, all of this session, and each is listening. */
  ghost predicate QueueExact(s: State) {
    && (forall i, j :: 0 <= i < j < |s.waiting| ==> s.waiting[i] != s.waiting[j])
    && (forall r: nat :: r in s.waiting <==> r < |s.requests| && s.requests[r].phase.Waiting?)
    && (forall r: nat :: r in s.listeners <==> r in s.waiting)
    && (forall r: nat :: r in s.waiting && r < |s.requests| ==>
        s.requests[r].scope == s.epoch && !s.requests[r].aborted)
  }

  /** A queued request is granted or cancelled, never both, and neither while it waits. */
  ghost predicate VerdictsApart(s: State) {
    && (forall r: nat :: r in s.granted ==> r !in s.cancelled && r !in s.waiting && r < |s.requests|)
    && (forall r: nat :: r in s.cancelled ==> r < |s.requests| && s.requests[r].phase == Failed)
  }

  /** No request is from the future, and one from an ended session that still holds a slot is aborted. */
  ghost predicate ScopesKept(s: State) {
    forall r :: 0 <= r < |s.requests| ==>
      s.requests[r].scope <= s.epoch
      && (s.requests[r].phase.Holding? && s.requests[r].scope < s.epoch ==> s.requests[r].aborted)
  }

  /** What is cached was delivered by a request of this session under that key. */
  ghost predicate Genuine(s: State, c: Cached) {
    c.from < |s.requests| && s.requests[c.from].scope == s.epoch && s.requests[c.from].cacheKey == Some(c.key)
    && s.requests[c.from].phase == Delivered(c.value)
  }

  ghost predicate KeysApart(cache: seq<Cached>) {
    forall i, j :: 0 <= i < j < |cache| ==> cache[i].key != cache[j].key
  }

  ghost predicate CacheExact(s: State) {
    |s.cache| <= MAX_CACHE && KeysApart(s.cache) && forall c :: c in s.cache ==> Genuine(s, c)
  }

  /** Shared requests are of this session, under their own key. */
  ghost predicate SharedExact(s: State) {
    forall k :: k in s.inflight ==>
      s.inflight[k] < |s.requests| && s.requests[s.inflight[k]].key == Some(k)
      && s.requests[s.inflight[k]].scope == s.epoch && k.0 == s.epoch
  }

  ghost predicate Sound(s: State) {
    SlotsCounted(s) && QueueExact(s) && VerdictsApart(s) && ScopesKept(s) && CacheExact(s) && SharedExact(s)
  }

  // --- every step keeps it ------------------------------------------------------------------------------------

  lemma HoldersSet(requests: seq<Request>, r: nat, q: Request)
    requires r < |requests|
    ensures Holders(requests[r := q]) == if q.phase.Holding? then Holders(requests) + {r} else Holders(requests) - {r}
  {
  }

  lemma HoldersSnoc(requests: seq<Request>, q: Request)
    ensures Holders(requests + [q]) == if q.phase.Holding? then Holders(requests) + {|requests|} else Holders(requests)
  {
  }

  /** Requests after which nothing cached or shared is disturbed: what was delivered stays as it was. */
  ghost predicate KeepsDelivered(before: State, after: State) {
    && after.epoch == before.epoch && |after.requests| >= |before.requests|
    && forall r :: 0 <= r < |before.requests| ==>
         && after.requests[r].scope == before.requests[r].scope && after.requests[r].key == before.requests[r].key
         && after.requests[r].cacheKey == before.requests[r].cacheKey
         && (before.requests[r].phase.Delivered? ==> after.requests[r].phase == before.requests[r].phase)
  }

  lemma CacheKept(before: State, after: State)
    requires CacheExact(before) && KeepsDelivered(before, after) && after.cache == before.cache
    ensures CacheExact(after)
  {
    forall c | c in after.cache ensures Genuine(after, c) { assert Genuine(before, c); }
  }

  lemma SharedKept(before: State, after: State)
    requires SharedExact(before) && KeepsDelivered(before, after) && after.inflight == before.inflight
    ensures SharedExact(after)
  {
  }

  lemma AcquiredQueue(s: State, q: Request)
    requires QueueExact(s) && VerdictsApart(s) && q.scope == s.epoch && !q.aborted
    ensures QueueExact(Acquired(s, q)) && VerdictsApart(Acquired(s, q))
  {
  }

  lemma AcquiredSlots(s: State, q: Request)
    requires SlotsCounted(s)
    ensures SlotsCounted(Acquired(s, q))
  {
    HoldersSnoc(s.requests, q.(phase := Holding));
    HoldersSnoc(s.requests, q.(phase := Waiting));
    assert |s.requests| !in Holders(s.requests);
  }

  lemma AcquiredKeeps(s: State, q: Request)
    requires Sound(s) && q.scope == s.epoch && !q.aborted && q.phase.Waiting?
    ensures Sound(Acquired(s, q)) && KeepsDelivered(s, Acquired(s, q))
  {
    AcquiredQueue(s, q);
    AcquiredSlots(s, q);
    CacheKept(s, Acquired(s, q));
    SharedKept(s, Acquired(s, q));
  }

  lemma AskedKeeps(s: State, o: Options)
    requires Sound(s)
    ensures Sound(Asked(s, o).0)
  {
    var key := KeyFor(s, o);
    var q := Request(s.epoch, o.cacheKey, key, false, Waiting);
    AcquiredKeeps(s, q);
    var after := Acquired(s, q);
    if key.Some? { SharedAdd(after, key.value, |s.requests|); }
  }

  lemma SharedAdd(s: State, k: (nat, string), r: nat)
    requires Sound(s) && r < |s.requests| && s.requests[r].key == Some(k) && s.requests[r].scope == s.epoch
        && k.0 == s.epoch
    ensures Sound(s.(inflight := s.inflight[k := r]))
  {
    var after := s.(inflight := s.inflight[k := r]);
    CacheKept(s, after);
  }

  /** The state in the middle of a release: one request has just let its slot go. */
  ghost predicate OneTooMany(s: State) {
    && s.active == |Holders(s.requests)| + 1 && s.active <= MAX_CONCURRENT
    && (s.waiting != [] ==> s.active == MAX_CONCURRENT)
    && QueueExact(s) && VerdictsApart(s) && ScopesKept(s) && CacheExact(s) && SharedExact(s)
  }

  lemma LetGo(s: State, r: nat, p: Phase)
    requires Sound(s) && r < |s.requests| && s.requests[r].phase.Holding? && (p == Failed || p.Returned?)
    ensures OneTooMany(Phased(s, r, p)) && KeepsDelivered(s, Phased(s, r, p))
  {
    var after := Phased(s, r, p);
    HoldersSet(s.requests, r, s.requests[r].(phase := p));
    assert r in Holders(s.requests);
    CacheKept(s, after);
    SharedKept(s, after);
  }

  lemma ReleasedKeeps(s: State)
    requires OneTooMany(s)
    ensures Sound(Released(s)) && KeepsDelivered(s, Released(s))
  {
    var after := Released(s);
    if s.waiting != [] {
      var next := s.waiting[0];
      assert next in s.waiting && next !in Holders(s.requests);
      HoldersSet(s.requests, next, s.requests[next].(phase := Holding));
      QueueAdvances(s);
      VerdictGranted(s);
    }
    CacheKept(s, after);
    SharedKept(s, after);
  }

  lemma QueueAdvances(s: State)
    requires QueueExact(s) && s.waiting != [] && s.active > 0
    ensures QueueExact(Released(s))
  {
    var next := s.waiting[0];
    assert next in s.waiting;
    assert forall r: nat :: r in s.waiting[1..] <==> r in s.waiting && r != next;
  }

  lemma VerdictGranted(s: State)
    requires QueueExact(s) && VerdictsApart(s) && s.waiting != [] && s.active > 0
    ensures VerdictsApart(Released(s))
  {
    var next := s.waiting[0];
    assert next in s.waiting && next !in s.cancelled;
    assert forall r: nat :: r in s.waiting[1..] <==> r in s.waiting && r != next;
  }

  lemma BrokenKeeps(s: State, r: nat)
    requires Sound(s)
    ensures Sound(Broken(s, r))
  {
    if r < |s.requests| && s.requests[r].phase.Holding? && s.active > 0 {
      LetGo(s, r, Failed);
      ReleasedKeeps(Phased(s, r, Failed));
    }
  }

  lemma AnsweredKeeps(s: State, r: nat, value: string)
    requires Sound(s)
    ensures Sound(Answered(s, r, value))
  {
    if r < |s.requests| && s.requests[r].phase.Holding? && s.active > 0 {
      var p := if s.requests[r].scope != s.epoch || s.requests[r].aborted then Failed else Returned(value);
      LetGo(s, r, p);
      ReleasedKeeps(Phased(s, r, p));
    }
  }

  lemma {:induction false} WithoutExact(waiting: seq<nat>, r: nat)
    requires forall i, j :: 0 <= i < j < |waiting| ==> waiting[i] != waiting[j]
    ensures forall x :: x in Without(waiting, r) <==> x in waiting && x != r
    ensures forall i, j :: 0 <= i < j < |Without(waiting, r)| ==> Without(waiting, r)[i] != Without(waiting, r)[j]
  {
    if waiting != [] { WithoutExact(waiting[1..], r); }
  }

  /** q may stand for request r: neither was nor is waiting, and a slot is neither taken nor given. */
  ghost predicate Swappable(s: State, r: nat, q: Request) {
    r < |s.requests| && var p := s.requests[r];
    && q.scope == p.scope && q.key == p.key && q.cacheKey == p.cacheKey
    && !p.phase.Waiting? && !q.phase.Waiting? && (q.phase.Holding? <==> p.phase.Holding?)
    && (p.phase.Delivered? || p.phase == Failed ==> q.phase == p.phase) && (p.aborted ==> q.aborted)
  }

  lemma SwappedQueue(s: State, r: nat, q: Request)
    requires QueueExact(s) && Swappable(s, r, q)
    ensures QueueExact(s.(requests := s.requests[r := q]))
  {
  }

  lemma SwappedRest(s: State, r: nat, q: Request)
    requires VerdictsApart(s) && ScopesKept(s) && Swappable(s, r, q)
    ensures VerdictsApart(s.(requests := s.requests[r := q])) && ScopesKept(s.(requests := s.requests[r := q]))
  {
  }

  lemma SwappedSlots(s: State, r: nat, q: Request)
    requires SlotsCounted(s) && Swappable(s, r, q)
    ensures SlotsCounted(s.(requests := s.requests[r := q]))
  {
    HoldersSet(s.requests, r, q);
    assert Holders(s.requests[r := q]) == Holders(s.requests);
  }

  lemma SwappedKeeps(s: State, r: nat, q: Request)
    requires Sound(s) && Swappable(s, r, q)
    ensures Sound(s.(requests := s.requests[r := q]))
  {
    var after := s.(requests := s.requests[r := q]);
    SwappedQueue(s, r, q);
    SwappedRest(s, r, q);
    SwappedSlots(s, r, q);
    CacheKept(s, after);
    SharedKept(s, after);
  }

  lemma CancelledQueue(s: State, r: nat, q: Request)
    requires QueueExact(s) && r in s.waiting && r < |s.requests| && q.phase == Failed
    ensures QueueExact(AfterCancel(s, r, q))
  {
    WithoutExact(s.waiting, r);
  }

  lemma CancelledVerdicts(s: State, r: nat, q: Request)
    requires QueueExact(s) && VerdictsApart(s) && r in s.waiting && r < |s.requests| && q.phase == Failed
    ensures VerdictsApart(AfterCancel(s, r, q))
  {
    WithoutExact(s.waiting, r);
  }

  lemma CancelledKeeps(s: State, r: nat, flagged: State)
    requires Sound(s) && r in s.waiting && r < |s.requests|
    requires flagged == s.(requests := s.requests[r := s.requests[r].(aborted := true)])
    ensures Sound(Cancelled(flagged, r))
  {
    var q := s.requests[r].(aborted := true, phase := Failed);
    CancelledIs(s, r, flagged, q);
    CancelledQueue(s, r, q);
    CancelledVerdicts(s, r, q);
    CancelledRest(s, r, q);
  }

  /** The state after one waiting request is cancelled. */
  ghost function AfterCancel(s: State, r: nat, q: Request): State
    requires r < |s.requests|
  {
    s.(requests := s.requests[r := q], waiting := Without(s.waiting, r), listeners := s.listeners - {r},
       cancelled := s.cancelled + {r})
  }

  lemma CancelledIs(s: State, r: nat, flagged: State, q: Request)
    requires r < |s.requests| && q == s.requests[r].(aborted := true, phase := Failed)
    requires flagged == s.(requests := s.requests[r := s.requests[r].(aborted := true)])
    ensures Cancelled(flagged, r) == AfterCancel(s, r, q)
  {
  }

  lemma CancelledRest(s: State, r: nat, q: Request)
    requires Sound(s) && r in s.waiting && r < |s.requests| && q == s.requests[r].(aborted := true, phase := Failed)
    ensures var after := AfterCancel(s, r, q);
      SlotsCounted(after) && ScopesKept(after) && CacheExact(after) && SharedExact(after)
  {
    var after := AfterCancel(s, r, q);
    HoldersSet(s.requests, r, q);
    assert Holders(after.requests) == Holders(s.requests);
    CacheKept(s, after);
    SharedKept(s, after);
  }

  lemma AbortedKeeps(s: State, r: nat)
    requires Sound(s)
    ensures Sound(Aborted(s, r))
  {
    if r < |s.requests| {
      match s.requests[r].phase
      case Holding => SwappedKeeps(s, r, s.requests[r].(aborted := true));
      case Waiting =>
        assert r in s.waiting;
        CancelledKeeps(s, r, s.(requests := s.requests[r := s.requests[r].(aborted := true)]));
      case _ =>
    }
  }

  // --- the cache ------------------------------------------------------------------------------------------------

  lemma {:induction false} PutApart(cache: seq<Cached>, c: Cached)
    requires KeysApart(cache)
    ensures KeysApart(Put(cache, c))
    ensures forall x :: x in Put(cache, c) ==> x == c || (x in cache && x.key != c.key)
  {
    if cache != [] && cache[0].key != c.key {
      PutApart(cache[1..], c);
      forall x | x in Put(cache[1..], c) ensures x.key != cache[0].key {
        if x != c { assert x in cache[1..]; }
      }
    }
  }

  lemma SettledKeeps(s: State, r: nat)
    requires Sound(s)
    ensures Sound(Settled(s, r))
  {
    if r < |s.requests| && s.requests[r].phase.Returned? {
      var q := s.requests[r];
      var p := if q.scope != s.epoch then Failed else Delivered(q.phase.value);
      var after := Phased(s, r, p);
      SwappedKeeps(s, r, q.(phase := p));
      if p.Delivered? && q.cacheKey.Some? {
        StoredKeeps(after, Cached(q.cacheKey.value, q.phase.value, r));
      }
    }
  }

  lemma StoredKeeps(s: State, c: Cached)
    requires Sound(s) && Genuine(s, c)
    ensures Sound(s.(cache := Put(Evicted(s.cache), c)))
  {
    var kept := Evicted(s.cache);
    var after := s.(cache := Put(kept, c));
    assert forall x :: x in kept ==> x in s.cache;
    PutApart(kept, c);
    forall x | x in after.cache ensures Genuine(after, x) {
      assert Genuine(s, x);
    }
    SharedKept(s, after);
  }

  lemma {:induction false} DroppedApart(cache: seq<Cached>, prefix: string)
    requires KeysApart(cache)
    ensures KeysApart(Dropped(cache, prefix))
  {
    if cache != [] {
      DroppedApart(cache[1..], prefix);
      forall x | x in Dropped(cache[1..], prefix) ensures x.key != cache[0].key { assert x in cache[1..]; }
    }
  }

  lemma ClearedKeeps(s: State, prefix: string)
    requires Sound(s)
    ensures Sound(s.(cache := Dropped(s.cache, prefix)))
  {
    var after := s.(cache := Dropped(s.cache, prefix));
    DroppedApart(s.cache, prefix);
    forall x | x in after.cache ensures Genuine(after, x) { assert Genuine(s, x); }
    SharedKept(s, after);
  }

  lemma CleanedKeeps(s: State, r: nat)
    requires Sound(s)
    ensures Sound(CleanedUp(s, r))
  {
    var after := CleanedUp(s, r);
    CacheKept(s, after);
  }

  lemma TokenKeeps(s: State, token: string)
    requires Sound(s)
    ensures Sound(TokenSet(s, token))
  {
    if token != s.token {
      var after := TokenSet(s, token);
      assert Holders(after.requests) == Holders(s.requests);
      forall r: nat | r in after.cancelled ensures r < |after.requests| && after.requests[r].phase == Failed {
        if r in s.waiting { assert s.requests[r].phase.Waiting?; }
      }
    }
  }

  lemma StepKeeps(s: State, e: Event)
    requires Sound(s)
    ensures Sound(Step(s, e))
  {
    match e
    case Ask(o) => AskedKeeps(s, o);
    case Abort(r) => AbortedKeeps(s, r);
    case Break(r) => BrokenKeeps(s, r);
    case Answer(r, v) => AnsweredKeeps(s, r, v);
    case Settle(r) => SettledKeeps(s, r);
    case CleanUp(r) => CleanedKeeps(s, r);
    case SetToken(t) => TokenKeeps(s, t);
    case ClearCache(p) => ClearedKeeps(s, p);
  }

  lemma EmptyIsSound()
    ensures Sound(EMPTY)
  {
    CardPositive(Holders([]));
  }

  /** Whatever happens, in whatever order. */
  lemma {:induction false} EveryRunIsSound(events: seq<Event>)
    ensures Sound(Run(events))
  {
    if events == [] {
      EmptyIsSound();
    } else {
      EveryRunIsSound(events[..|events| - 1]);
      StepKeeps(Run(events[..|events| - 1]), events[|events| - 1]);
    }
  }

  // --- what callers are given -------------------------------------------------------------------------------------

  /** A value handed over at once, or a request shared, belongs to the session in which the caller asks. */
  lemma RepliesAreCurrent(s: State, o: Options)
    requires Sound(s)
    ensures match Asked(s, o).1
      case Hit(v) => exists c :: c in s.cache && c.value == v && Genuine(s, c)
      case Joined(r) => r < |s.requests| && s.requests[r].scope == s.epoch
      case Began(r) => r < |Asked(s, o).0.requests| && Asked(s, o).0.requests[r].scope == s.epoch
      case Rejected => Asked(s, o).0 == s
  {
    if o.cacheKey.Some? && Lookup(s.cache, o.cacheKey.value).Some? {
      var c := Lookup(s.cache, o.cacheKey.value).value;
      assert c in s.cache && Genuine(s, c);
    }
  }

  lemma ReleaseDeliversNone(s: State, r: nat)
    requires s.active > 0 && r < |s.requests|
    ensures |Released(s).requests| == |s.requests|
    ensures Released(s).requests[r].phase.Delivered? ==> Released(s).requests[r].phase == s.requests[r].phase
  {
  }

  lemma FreedDeliversNone(s: State, q: nat, p: Phase, r: nat)
    requires s.active > 0 && q < |s.requests| && s.requests[q].phase.Holding? && (p == Failed || p.Returned?)
        && r < |s.requests|
    ensures var after := Released(Phased(s, q, p));
      |after.requests| == |s.requests|
      && (after.requests[r].phase.Delivered? ==> after.requests[r].phase == s.requests[r].phase)
  {
    ReleaseDeliversNone(Phased(s, q, p), r);
  }

  /** A request delivers only in the session in which it began, only what it was answered, and only once. */
  lemma DeliveryIsCurrent(s: State, e: Event, r: nat, v: string)
    requires r < |Step(s, e).requests| && Step(s, e).requests[r].phase == Delivered(v)
    ensures r < |s.requests|
    ensures s.requests[r].phase == Delivered(v)
         || (e == Settle(r) && s.requests[r].phase == Returned(v) && s.requests[r].scope == s.epoch)
  {
    match e
    case Answer(q, value) =>
      if q < |s.requests| && s.requests[q].phase.Holding? && s.active > 0 && r < |s.requests| {
        FreedDeliversNone(s, q, if s.requests[q].scope != s.epoch || s.requests[q].aborted then Failed
                          else Returned(value), r);
      }
    case Break(q) =>
      if q < |s.requests| && s.requests[q].phase.Holding? && s.active > 0 && r < |s.requests| {
        FreedDeliversNone(s, q, Failed, r);
      }
    case Ask(o) => AskDeliversNone(s, o, r);
    case Abort(q) => AbortDeliversNone(s, q, r);
    case _ =>
  }

  lemma AskDeliversNone(s: State, o: Options, r: nat)
    requires r < |Asked(s, o).0.requests| && Asked(s, o).0.requests[r].phase.Delivered?
    ensures r < |s.requests| && s.requests[r] == Asked(s, o).0.requests[r]
  {
  }

  lemma AbortDeliversNone(s: State, q: nat, r: nat)
    requires r < |Aborted(s, q).requests| && Aborted(s, q).requests[r].phase.Delivered?
    ensures r < |s.requests| && s.requests[r] == Aborted(s, q).requests[r]
  {
  }

  /** Ending a session leaves nothing waiting, cached or shared, and every running request of it aborted. */
  lemma SessionEnds(s: State, token: string)
    requires Sound(s) && token != s.token
    ensures var after := TokenSet(s, token);
      && after.waiting == [] && after.cache == [] && after.inflight == map[] && after.active == s.active
      && forall r :: 0 <= r < |after.requests| && after.requests[r].phase.Holding? ==> after.requests[r].aborted
  {
  }

  /** What a new token does to every field: waiting requests are aborted and fail, running ones are aborted. */
  lemma TokenSpelled(s: State, token: string)
    requires token != s.token
    ensures var after := TokenSet(s, token);
      && after.token == token && after.epoch == s.epoch + 1 && after.active == s.active
      && after.waiting == [] && after.listeners == {} && after.cache == [] && after.inflight == map[]
      && |after.requests| == |s.requests|
      && forall r :: 0 <= r < |s.requests| ==> after.requests[r] == match s.requests[r].phase
           case Waiting => s.requests[r].(aborted := true, phase := Failed)
           case Holding => s.requests[r].(aborted := true)
           case _ => s.requests[r]
  {
  }

  /** A request aborted while running can only fail. */
  lemma AbortedNeverReturns(s: State, r: nat, value: string)
    requires Sound(s) && r < |s.requests| && s.requests[r].phase.Holding? && s.requests[r].aborted
    ensures Answered(s, r, value).requests[r].phase == Failed
  {
    assert r in Holders(s.requests);
    if s.active == 0 { CardPositive(Holders(s.requests)); }
    if s.waiting != [] { assert s.waiting[0] in s.waiting; }
  }

  // --- limits and order ---------------------------------------------------------------------------------------------

  /** In every run at most four requests hold a slot, exactly four while any waits, and at most 64 values are cached. */
  lemma LimitsHold(events: seq<Event>)
    ensures var s := Run(events);
      var holding := set r | 0 <= r < |s.requests| && s.requests[r].phase.Holding?;
      |holding| <= 4 && (s.waiting != [] ==> |holding| == 4) && |s.cache| <= 64
  {
    EveryRunIsSound(events);
    var s := Run(events);
    assert Holders(s.requests) == set r | 0 <= r < |s.requests| && s.requests[r].phase.Holding?;
  }

  ghost predicate InArrivalOrder(s: State) {
    Ascending(s.waiting) && forall i :: 0 <= i < |s.waiting| ==> s.waiting[i] < |s.requests|
  }

  lemma PrependAscends(first: nat, rest: seq<nat>)
    requires Ascending(rest) && forall k :: 0 <= k < |rest| ==> first < rest[k]
    ensures Ascending([first] + rest)
  {
  }

  lemma TailAscends(s: seq<nat>)
    requires Ascending(s) && s != []
    ensures Ascending(s[1..]) && forall n :: n in s[1..] ==> s[0] < n
  {
  }

  lemma {:induction false} WithoutAscends(waiting: seq<nat>, r: nat)
    requires Ascending(waiting)
    ensures Ascending(Without(waiting, r))
  {
    if waiting != [] {
      var tail := waiting[1..];
      var rest := Without(tail, r);
      TailAscends(waiting);
      WithoutAscends(tail, r);
      PrependAscends(waiting[0], rest);
      assert Without(waiting, r) == if waiting[0] == r then rest else [waiting[0]] + rest;
    }
  }

  lemma ReleaseKeepsOrder(s: State, r: nat, p: Phase)
    requires InArrivalOrder(s) && s.active > 0
    ensures InArrivalOrder(Released(Phased(s, r, p)))
  {
    var after := Released(Phased(s, r, p));
    assert |after.requests| == |s.requests|;
    assert s.waiting != [] ==> after.waiting == s.waiting[1..];
  }

  lemma AskKeepsOrder(s: State, o: Options)
    requires InArrivalOrder(s)
    ensures InArrivalOrder(Asked(s, o).0)
  {
  }

  lemma AbortKeepsOrder(s: State, r: nat)
    requires InArrivalOrder(s)
    ensures InArrivalOrder(Aborted(s, r))
  {
    WithoutAscends(s.waiting, r);
    var after := Aborted(s, r);
    assert |after.requests| == |s.requests|;
    assert after.waiting == s.waiting || after.waiting == Without(s.waiting, r);
    forall i | 0 <= i < |after.waiting|
      ensures after.waiting[i] < |s.requests| { assert after.waiting[i] in s.waiting; }
  }

  lemma StepKeepsOrder(s: State, e: Event)
    requires InArrivalOrder(s)
    ensures InArrivalOrder(Step(s, e))
  {
    match e
    case Ask(o) => AskKeepsOrder(s, o);
    case Abort(r) => AbortKeepsOrder(s, r);
    case Break(r) => if s.active > 0 { ReleaseKeepsOrder(s, r, Failed); }
    case Answer(r, v) =>
      if s.active > 0 {
        ReleaseKeepsOrder(s, r, Failed);
        ReleaseKeepsOrder(s, r, Returned(v));
      }
    case _ => assert Step(s, e).waiting == s.waiting || Step(s, e).waiting == [];
  }

  /** In every run the queue stands in the order in which its requests were made: its head has waited longest. */
  lemma {:induction false} QueueInArrivalOrder(events: seq<Event>)
    ensures var w := Run(events).waiting; forall i, j :: 0 <= i < j < |w| ==> w[i] < w[j]
    ensures InArrivalOrder(Run(events))
  {
    if events != [] {
      QueueInArrivalOrder(events[..|events| - 1]);
      StepKeepsOrder(Run(events[..|events| - 1]), events[|events| - 1]);
    }
  }

  // --- answers reach their callers -------------------------------------------------------------------------------

  /**
   * The answer to a running request of this session that was not aborted is returned, delivered and, with a key,
   * cached.
   */
  lemma AnswerIsDelivered(s: State, r: nat, value: string)
    requires Sound(s) && r < |s.requests| && s.requests[r].phase.Holding?
    requires !s.requests[r].aborted && s.requests[r].scope == s.epoch
    ensures var returned := Step(s, Answer(r, value));
      && r < |returned.requests| && returned.requests[r].phase == Returned(value)
      && var settled := Step(returned, Settle(r));
         && r < |settled.requests| && settled.requests[r].phase == Delivered(value)
         && (s.requests[r].cacheKey.Some? ==> Cached(s.requests[r].cacheKey.value, value, r) in settled.cache)
  {
    assert r in Holders(s.requests);
    if s.active == 0 { CardPositive(Holders(s.requests)); }
    if s.waiting != [] { assert s.waiting[0] in s.waiting; }
    var returned := Step(s, Answer(r, value));
    if s.requests[r].cacheKey.Some? {
      PutSpelled(Evicted(returned.cache), Cached(s.requests[r].cacheKey.value, value, r));
    }
  }

  /** Entry i is the first under the key. */
  ghost predicate FirstUnder(cache: seq<Cached>, i: int, key: string)
    requires 0 <= i < |cache|
  {
    cache[i].key == key && forall j :: 0 <= j < i ==> cache[j].key != key
  }

  /** A value takes the place of one under its key, or the last place. */
  lemma {:induction false} PutSpelled(cache: seq<Cached>, c: Cached)
    ensures (forall i :: 0 <= i < |cache| ==> cache[i].key != c.key) ==> Put(cache, c) == cache + [c]
    ensures forall i :: 0 <= i < |cache| && FirstUnder(cache, i, c.key) ==> Put(cache, c) == cache[i := c]
    ensures c in Put(cache, c)
  {
    if cache != [] && cache[0].key != c.key {
      PutSpelled(cache[1..], c);
      forall i | 0 < i < |cache| && FirstUnder(cache, i, c.key) ensures FirstUnder(cache[1..], i - 1, c.key) {}
    }
  }

  /** A cached value answers every later caller of its key. */
  lemma CachedIsHit(s: State, o: Options, c: Cached)
    requires Sound(s) && c in s.cache && o.cacheKey == Some(c.key) && !o.signalAborted
    ensures Asked(s, o) == (s, Hit(c.value))
  {
    var hit := Lookup(s.cache, c.key);
    var i :| 0 <= i < |s.cache| && s.cache[i] == c;
    assert hit.Some? && hit.value == c;
  }

  /** A dropped prefix takes exactly the values whose keys begin with it. */
  lemma {:induction false} DroppedSpelled(cache: seq<Cached>, prefix: string, c: Cached)
    ensures c in Dropped(cache, prefix) <==> c in cache && !(|prefix| <= |c.key| && c.key[..|prefix|] == prefix)
  {
    if cache != [] { DroppedSpelled(cache[1..], prefix, c); }
  }

  /** A finished request is shared no longer once it has cleaned up. */
  lemma FinishedIsNotShared(s: State, r: nat)
    requires Sound(s) && r < |s.requests| && (s.requests[r].phase == Failed || s.requests[r].phase.Delivered?)
    ensures forall k :: k in CleanedUp(s, r).inflight <==> k in s.inflight && s.inflight[k] != r
    ensures forall k :: k in CleanedUp(s, r).inflight ==> CleanedUp(s, r).inflight[k] == s.inflight[k]
  {
    assert SharedExact(s);
    forall k: (nat, string) | k in s.inflight && s.inflight[k] == r ensures s.requests[r].key == Some(k) {
      var scope, name := k.0, k.1;
      assert k == (scope, name) && s.requests[s.inflight[(scope, name)]].key == Some((scope, name));
    }
  }

  // --- the module's state, changed in place ----------------------------------------------------------------

  /** The value stands where the first one under its key stood, or at the end. */
  ghost predicate Stored(kept: seq<Cached>, c: Cached, after: seq<Cached>) {
    && ((forall i :: 0 <= i < |kept| ==> kept[i].key != c.key) ==> after == kept + [c])
    && forall i :: 0 <= i < |kept| && FirstUnder(kept, i, c.key) ==> after == kept[i := c]
  }

  /** The entry answers the caller. */
  ghost predicate HitAt(c: Cached, o: Options, reply: Reply) { o.cacheKey == Some(c.key) && reply == Hit(c.value) }

  class Layer {
    var active: nat
    var waiting: seq<nat>
    var listeners: set<nat>
    var cache: seq<Cached>
    var inflight: map<(nat, string), nat>
    var token: string
    var epoch: nat
    var requests: seq<Request>
    var granted: set<nat>
    var cancelled: set<nat>

    function Now(): State
      reads this
    {
      State(active, waiting, listeners, cache, inflight, token, epoch, requests, granted, cancelled)
    }

    constructor ()
      ensures Now() == EMPTY
    {
      active, waiting, listeners, cache, inflight := 0, [], {}, [], map[];
      token, epoch, requests, granted, cancelled := "", 0, [], {}, {};
    }

    /** Starts a request and takes a slot for it, or queues it. */
    method Acquire(q: Request) returns (r: nat)
      modifies this
      ensures Now() == Acquired(old(Now()), q) && r == |old(requests)|
      ensures old(active) < 4 ==>
        active == old(active) + 1 && requests == old(requests) + [q.(phase := Holding)] && waiting == old(waiting)
      ensures old(active) >= 4 ==>
        active == old(active) && requests == old(requests) + [q.(phase := Waiting)] && waiting == old(waiting) + [r]
    {
      r := |requests|;
      if active < MAX_CONCURRENT {
        active := active + 1;
        requests := requests + [q.(phase := Holding)];
      } else {
        requests := requests + [q.(phase := Waiting)];
        listeners := listeners + {r};
        waiting := waiting + [r];
      }
    }

    /** Gives a slot back and hands it to the head of the queue. */
    method Release()
      requires active > 0
      modifies this
      ensures Now() == Released(old(Now()))
      ensures old(waiting) == [] ==>
        active == old(active) - 1 && waiting == [] && requests == old(requests)
      ensures old(waiting) != [] ==>
        var next := old(waiting)[0];
        && active == old(active) && waiting == old(waiting)[1..] && |requests| == |old(requests)|
        && forall r :: 0 <= r < |requests| ==>
             requests[r] == if r == next then old(requests)[r].(phase := Holding) else old(requests)[r]
    {
      active := active - 1;
      if waiting != [] {
        var next := waiting[0];
        waiting := waiting[1..];
        listeners := listeners - {next};
        active := active + 1;
        granted := granted + {next};
        if next < |requests| { requests := requests[next := requests[next].(phase := Holding)]; }
      }
    }

    /** Removes a waiting request from the queue and rejects it. */
    method Cancel(r: nat)
      modifies this
      ensures Now() == Cancelled(old(Now()), r)
    {
      var kept: seq<nat> := [];
      var i := |waiting|;
      while i > 0
        invariant 0 <= i <= |waiting| && kept == Without(waiting[i..], r)
        invariant Now() == old(Now())
      {
        i := i - 1;
        assert waiting[i..][1..] == waiting[i + 1..];
        if waiting[i] != r { kept := [waiting[i]] + kept; }
      }
      assert waiting[0..] == waiting;
      waiting := kept;
      listeners := listeners - {r};
      cancelled := cancelled + {r};
      if r < |requests| { requests := requests[r := requests[r].(phase := Failed)]; }
    }

    /** A caller asks: an aborted caller is turned away, a cached value handed over, a shared request joined. */
    method Ask(o: Options) returns (reply: Reply)
      modifies this
      ensures (Now(), reply) == Asked(old(Now()), o)
      ensures reply == Rejected <==> o.signalAborted
      ensures reply.Rejected? || reply.Hit? || reply.Joined? ==> Now() == old(Now())
      ensures reply.Hit? ==> exists i :: 0 <= i < |cache| && HitAt(cache[i], o, reply)
      ensures reply.Joined? ==>
        o.name.Some? && (epoch, o.name.value) in inflight && inflight[(epoch, o.name.value)] == reply.request
      ensures reply.Began? ==>
        && (forall i :: 0 <= i < |cache| ==> o.cacheKey != Some(cache[i].key))
        && (o.name.Some? ==> (epoch, o.name.value) !in old(inflight)
                             && inflight == old(inflight)[(epoch, o.name.value) := reply.request])
        && reply.request == |old(requests)| && |requests| == |old(requests)| + 1
        && requests[reply.request].scope == epoch && !requests[reply.request].aborted
        && requests[reply.request].cacheKey == o.cacheKey
    {
      if o.signalAborted { return Rejected; }
      var key := KeyFor(Now(), o);
      if o.cacheKey.Some? {
        var hit := Lookup(cache, o.cacheKey.value);
        if hit.Some? { return Hit(hit.value.value); }
      }
      if key.Some? && key.value in inflight { return Joined(inflight[key.value]); }
      var r := Acquire(Request(epoch, o.cacheKey, key, false, Waiting));
      if key.Some? { inflight := inflight[key.value := r]; }
      reply := Began(r);
    }

    /** The caller's signal fires or the request times out. */
    method Abort(r: nat)
      modifies this
      ensures Now() == Aborted(old(Now()), r)
    {
      if r < |requests| {
        match requests[r].phase {
          case Holding => requests := requests[r := requests[r].(aborted := true)];
          case Waiting =>
            requests := requests[r := requests[r].(aborted := true)];
            if r in listeners { Cancel(r); }
          case _ =>
        }
      }
    }

    /** A running request fails, or its response arrives. */
    method Finish(r: nat, response: Option<string>)
      requires r < |requests| && requests[r].phase.Holding? && active > 0
      modifies this
      ensures Now() == match response case Some(v) => Answered(old(Now()), r, v) case None => Broken(old(Now()), r)
      ensures r !in old(waiting) && response.Some? && !old(requests[r].aborted) && old(requests[r].scope) == epoch ==>
        requests[r].phase == Returned(response.value)
      ensures r !in old(waiting) && (response.None? || old(requests[r].aborted) || old(requests[r].scope) != epoch) ==>
        requests[r].phase == Failed
    {
      var good := response.Some? && requests[r].scope == epoch && !requests[r].aborted;
      requests := requests[r := requests[r].(phase := if good then Returned(response.value) else Failed)];
      Release();
    }

    /** The value of a returned request reaches its caller and the cache. */
    method Settle(r: nat)
      requires r < |requests| && requests[r].phase.Returned?
      modifies this
      ensures Now() == Settled(old(Now()), r)
      ensures requests[r].phase ==
              if old(requests[r].scope) == epoch then Delivered(old(requests[r].phase.value)) else Failed
      ensures old(requests[r].scope) != epoch || old(requests[r].cacheKey).None? ==> cache == old(cache)
      ensures old(requests[r].scope) == epoch && old(requests[r].cacheKey).Some? ==>
        Stored(if |old(cache)| < 64 then old(cache) else old(cache)[1..],
               Cached(old(requests[r].cacheKey).value, old(requests[r].phase.value), r), cache)
    {
      var q := requests[r];
      var value := q.phase.value;
      if q.scope != epoch {
        requests := requests[r := q.(phase := Failed)];
      } else {
        requests := requests[r := q.(phase := Delivered(value))];
        if q.cacheKey.Some? {
          if |cache| >= MAX_CACHE { cache := cache[1..]; }
          PutSpelled(cache, Cached(q.cacheKey.value, value, r));
          cache := Put(cache, Cached(q.cacheKey.value, value, r));
        }
      }
    }

    /** A new token ends the session; the same token changes nothing. */
    method SetToken(t: string)
      modifies this
      ensures Now() == TokenSet(old(Now()), t)
      ensures t == old(token) ==> Now() == old(Now())
    {
      if t == token { return; }
      token := t;
      epoch := epoch + 1;
      cancelled := cancelled + set r | r in waiting;
      waiting, listeners := [], {};
      requests := AllEnded(requests);
      cache, inflight := [], map[];
    }
  }
}
