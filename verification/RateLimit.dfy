/** The fixed-window limiter.  INCR and EXPIRE are separate steps, so requests interleave between
    them, EXPIREs are delayed or lost, and an expired key may linger before it goes. */
module RateLimit {
  import opened Common

  // ----- One key, one request at a time -----

  datatype Key = Absent | Present(count: nat, deadline: Option<nat>)

  function Incr(k: Key): Key {
    Present(if k.Absent? then 1 else k.count + 1, if k.Absent? then None else k.deadline)
  }

  function Expire(k: Key, deadline: nat): Key {
    if k.Absent? then Absent else k.(deadline := Some(deadline))
  }

  class Counter {
    var key: Key

    ghost predicate Valid()
      reads this
    {
      key.Present? ==> key.count > 0
    }

    constructor ()
      ensures Valid() && key == Absent
    {
      key := Absent;
    }

    /** `hit` run without interruption. */
    method Hit(limit: nat, window: nat, now: nat) returns (within: bool)
      requires Valid()
      modifies this
      ensures Valid()
      ensures within <==> (if old(key).Absent? then 0 else old(key).count) < limit
      ensures key == AfterHit(old(key), window, now)
    {
      key := Incr(key);
      var count := key.count;
      if count == 1 {
        key := Expire(key, now + window);
      }
      return count <= limit;
    }
  }

  /** A key after one more hit. */
  function AfterHit(key: Key, window: nat, now: nat): Key {
    if key.Absent? then Present(1, Some(now + window)) else Present(key.count + 1, key.deadline)
  }

  datatype Budget = WithinBudget | AddressExceeded | IpExceeded

  /** Both counters take the hit before either is judged, so a request refused for one budget has
      still used up the other; the address is judged first. */
  method EnforceAttestLimits(address: Counter, ip: Counter, addressLimit: nat, ipLimit: nat, now: nat) returns (b: Budget)
    requires address != ip && address.Valid() && ip.Valid()
    modifies address, ip
    ensures address.Valid() && ip.Valid()
    ensures address.key == AfterHit(old(address.key), 24 * 60 * 60, now) && ip.key == AfterHit(old(ip.key), 60 * 60, now)
    ensures b == AddressExceeded <==> address.key.count > addressLimit
    ensures b == IpExceeded <==> address.key.count <= addressLimit && ip.key.count > ipLimit
  {
    var withinAddress := address.Hit(addressLimit, 24 * 60 * 60, now);
    var withinIp := ip.Hit(ipLimit, 60 * 60, now);
    if !withinAddress { return AddressExceeded; }
    if !withinIp { return IpExceeded; }
    return WithinBudget;
  }

  // ----- All interleavings -----

  /** One admission decision: when, in which lifetime of the key, and its INCR result. */
  datatype Hit = Hit(time: nat, life: nat, ordinal: nat)

  /** `births[k]` is when lifetime `k` began; `owing` are the requests that still have to send the
      EXPIRE of the lifetime they began. */
  datatype System = System(now: nat, key: Key, births: seq<nat>, owing: set<nat>, hits: seq<Hit>)

  datatype Step =
    | Tick(delta: nat)
    | DoIncr(request: nat)
    | DoExpire(request: nat)
    | LoseExpire(request: nat)
    | Evict

  function Next(window: nat, s: System, step: Step): System {
    match step
    case Tick(delta) => s.(now := s.now + delta)
    case DoIncr(request) =>
      if s.key.Absent? then
        s.(key := Incr(s.key), births := s.births + [s.now], owing := s.owing + {request}, hits := s.hits + [Hit(s.now, |s.births|, 1)])
      else if |s.births| == 0 then s
      else s.(key := Incr(s.key), hits := s.hits + [Hit(s.now, |s.births| - 1, s.key.count + 1)])
    case DoExpire(request) =>
      if request !in s.owing then s
      else s.(key := Expire(s.key, s.now + window), owing := s.owing - {request})
    case LoseExpire(request) => s.(owing := s.owing - {request})
    case Evict =>
      if s.key.Present? && s.key.deadline.Some? && s.key.deadline.value <= s.now then s.(key := Absent) else s
  }

  function Run(window: nat, steps: seq<Step>): System {
    if steps == [] then System(0, Absent, [], {}, [])
    else Next(window, Run(window, steps[..|steps| - 1]), steps[|steps| - 1])
  }

  // ----- Counting admissions -----

  function Admitted(h: Hit, limit: nat): bool {
    h.ordinal <= limit
  }

  /** Admitted hits of one lifetime, all of them or without the one that began it. */
  function OfLife(hits: seq<Hit>, limit: nat, life: nat): nat {
    if hits == [] then 0
    else
      var h := hits[|hits| - 1];
      OfLife(hits[..|hits| - 1], limit, life) + if Admitted(h, limit) && h.life == life then 1 else 0
  }

  function LaterOfLife(hits: seq<Hit>, limit: nat, life: nat): nat {
    if hits == [] then 0
    else
      var h := hits[|hits| - 1];
      LaterOfLife(hits[..|hits| - 1], limit, life) + if Admitted(h, limit) && h.life == life && h.ordinal > 1 then 1 else 0
  }

  /** Admitted hits in the half-open span `[from, from + window)`. */
  function InSpan(hits: seq<Hit>, limit: nat, from: nat, window: nat): nat {
    if hits == [] then 0
    else
      var h := hits[|hits| - 1];
      InSpan(hits[..|hits| - 1], limit, from, window) + if Admitted(h, limit) && from <= h.time < from + window then 1 else 0
  }

  // ----- The invariant -----

  ghost predicate KeyOk(window: nat, s: System) {
    && (s.key.Present? ==> s.key.count > 0 && |s.births| > 0 && s.births[|s.births| - 1] <= s.now)
    && (s.key.Present? && s.key.deadline.Some? ==> s.key.deadline.value >= s.births[|s.births| - 1] + window)
    && (s.owing != {} ==> s.key.Present? && s.key.deadline.None?)
    && (forall r, q :: r in s.owing && q in s.owing ==> r == q)
    && (s.key.Absent? && |s.births| > 0 ==> s.births[|s.births| - 1] + window <= s.now)
  }

  /** A hit falls in its lifetime, and the first of a lifetime at its birth. */
  ghost predicate HitOk(births: seq<nat>, now: nat, h: Hit) {
    && h.life < |births| && births[h.life] <= h.time <= now
    && (h.life + 1 < |births| ==> h.time <= births[h.life + 1])
    && (h.ordinal <= 1 ==> h.time == births[h.life])
  }

  ghost predicate HitsOk(window: nat, s: System) {
    && (forall k :: 0 <= k < |s.births| - 1 ==> s.births[k] + window <= s.births[k + 1])
    && (forall i :: 0 <= i < |s.hits| ==> HitOk(s.births, s.now, s.hits[i]))
  }

  ghost predicate CountsOk(limit: nat, s: System) {
    && (forall k :: OfLife(s.hits, limit, k) <= limit)
    && (forall k :: LaterOfLife(s.hits, limit, k) <= if limit == 0 then 0 else limit - 1)
    && (s.key.Present? && |s.births| > 0 ==> OfLife(s.hits, limit, |s.births| - 1) <= s.key.count)
    && (s.key.Present? && |s.births| > 0 ==> LaterOfLife(s.hits, limit, |s.births| - 1) <= s.key.count - 1)
  }

  ghost predicate Inv(window: nat, limit: nat, s: System) {
    KeyOk(window, s) && HitsOk(window, s) && CountsOk(limit, s)
  }

  lemma {:induction false} NoHitsOfFutureLife(hits: seq<Hit>, limit: nat, life: nat)
    requires forall i :: 0 <= i < |hits| ==> hits[i].life < life
    ensures OfLife(hits, limit, life) == 0 && LaterOfLife(hits, limit, life) == 0
  {
    if hits != [] {
      NoHitsOfFutureLife(hits[..|hits| - 1], limit, life);
    }
  }

  lemma CountsAfterHit(hits: seq<Hit>, limit: nat, h: Hit, k: nat)
    ensures OfLife(hits + [h], limit, k) == OfLife(hits, limit, k) + if Admitted(h, limit) && h.life == k then 1 else 0
    ensures LaterOfLife(hits + [h], limit, k) == LaterOfLife(hits, limit, k) + if Admitted(h, limit) && h.life == k && h.ordinal > 1 then 1 else 0
  {
    assert (hits + [h])[..|hits|] == hits;
  }

  /** The hit with INCR result `n` in lifetime `life`, when `n - 1` hits came before it. */
  lemma HitKeepsCounts(hits: seq<Hit>, limit: nat, h: Hit, k: nat)
    requires OfLife(hits, limit, k) <= limit && LaterOfLife(hits, limit, k) <= if limit == 0 then 0 else limit - 1
    requires h.ordinal > 0
    requires k == h.life ==> OfLife(hits, limit, k) <= h.ordinal - 1
    requires k == h.life ==> LaterOfLife(hits, limit, k) <= if h.ordinal == 1 then 0 else h.ordinal - 2
    ensures OfLife(hits + [h], limit, k) <= limit && LaterOfLife(hits + [h], limit, k) <= if limit == 0 then 0 else limit - 1
    ensures k == h.life ==> OfLife(hits + [h], limit, k) <= h.ordinal && LaterOfLife(hits + [h], limit, k) <= h.ordinal - 1
  {
    CountsAfterHit(hits, limit, h, k);
  }

  lemma IncrKeepsCounts(window: nat, limit: nat, s: System, request: nat)
    requires Inv(window, limit, s)
    ensures CountsOk(limit, Next(window, s, DoIncr(request)))
  {
    var s' := Next(window, s, DoIncr(request));
    var h := if s.key.Absent? then Hit(s.now, |s.births|, 1) else Hit(s.now, |s.births| - 1, s.key.count + 1);
    if s.key.Absent? {
      forall i | 0 <= i < |s.hits| ensures s.hits[i].life < |s.births| {
        assert HitOk(s.births, s.now, s.hits[i]);
      }
      NoHitsOfFutureLife(s.hits, limit, |s.births|);
    }
    assert s'.hits == s.hits + [h];
    forall k
      ensures OfLife(s'.hits, limit, k) <= limit
      ensures LaterOfLife(s'.hits, limit, k) <= if limit == 0 then 0 else limit - 1
      ensures k == h.life ==> OfLife(s'.hits, limit, k) <= h.ordinal && LaterOfLife(s'.hits, limit, k) <= h.ordinal - 1
    {
      assert OfLife(s.hits, limit, k) <= limit;
      assert LaterOfLife(s.hits, limit, k) <= if limit == 0 then 0 else limit - 1;
      HitKeepsCounts(s.hits, limit, h, k);
    }
  }

  lemma IncrKeepsHits(window: nat, limit: nat, s: System, request: nat)
    requires Inv(window, limit, s)
    ensures HitsOk(window, Next(window, s, DoIncr(request)))
  {
    var s' := Next(window, s, DoIncr(request));
    forall i | 0 <= i < |s'.hits| ensures HitOk(s'.births, s'.now, s'.hits[i]) {
      if i < |s.hits| {
        assert HitOk(s.births, s.now, s.hits[i]);
      }
    }
  }

  lemma IncrKeepsInv(window: nat, limit: nat, s: System, request: nat)
    requires Inv(window, limit, s)
    ensures Inv(window, limit, Next(window, s, DoIncr(request)))
  {
    IncrKeepsCounts(window, limit, s, request);
    IncrKeepsHits(window, limit, s, request);
    IncrKeepsKey(window, s, request);
  }

  lemma IncrKeepsKey(window: nat, s: System, request: nat)
    requires KeyOk(window, s)
    ensures KeyOk(window, Next(window, s, DoIncr(request)))
  {
  }

  lemma TickKeepsInv(window: nat, limit: nat, s: System, delta: nat)
    requires Inv(window, limit, s)
    ensures Inv(window, limit, Next(window, s, Tick(delta)))
  {
    var s' := Next(window, s, Tick(delta));
    forall i | 0 <= i < |s'.hits| ensures HitOk(s'.births, s'.now, s'.hits[i]) {
      assert HitOk(s.births, s.now, s.hits[i]);
    }
  }

  lemma KeyStepKeepsInv(window: nat, limit: nat, s: System, step: Step)
    requires Inv(window, limit, s) && (step.DoExpire? || step.LoseExpire? || step.Evict?)
    ensures Inv(window, limit, Next(window, s, step))
  {
    var s' := Next(window, s, step);
    assert s'.hits == s.hits && s'.births == s.births && s'.now == s.now;
    assert HitsOk(window, s');
    assert KeyOk(window, s');
  }

  lemma NextKeepsInv(window: nat, limit: nat, s: System, step: Step)
    requires Inv(window, limit, s)
    ensures Inv(window, limit, Next(window, s, step))
  {
    match step
    case DoIncr(request) => IncrKeepsInv(window, limit, s, request);
    case Tick(delta) => TickKeepsInv(window, limit, s, delta);
    case _ => KeyStepKeepsInv(window, limit, s, step);
  }

  lemma {:induction false} RunKeepsInv(window: nat, limit: nat, steps: seq<Step>)
    ensures Inv(window, limit, Run(window, steps))
  {
    if steps != [] {
      RunKeepsInv(window, limit, steps[..|steps| - 1]);
      NextKeepsInv(window, limit, Run(window, steps[..|steps| - 1]), steps[|steps| - 1]);
    }
  }

  // ----- The bounds -----

  /** At most `limit` hits are admitted in one lifetime of the key.  After a lost EXPIRE that lifetime
      never ends, so the bound is then for ever. */
  lemma PerLifetime(window: nat, limit: nat, steps: seq<Step>, life: nat)
    ensures OfLife(Run(window, steps).hits, limit, life) <= limit
  {
    RunKeepsInv(window, limit, steps);
  }

  /** A lifetime nobody owes an EXPIRE to and without a deadline is the last one. */
  lemma {:induction false} LostExpireIsForever(window: nat, s: System, steps: seq<Step>)
    requires s.key.Present? && s.key.deadline.None? && s.owing == {} && |s.births| > 0
    ensures var s' := RunFrom(window, s, steps);
            s'.births == s.births && s'.key.Present? && s'.key.deadline.None? && s'.owing == {}
  {
    if steps != [] {
      LostExpireIsForever(window, s, steps[..|steps| - 1]);
    }
  }

  function RunFrom(window: nat, s: System, steps: seq<Step>): System {
    if steps == [] then s else Next(window, RunFrom(window, s, steps[..|steps| - 1]), steps[|steps| - 1])
  }

  lemma {:induction false} RunJoins(window: nat, first: seq<Step>, more: seq<Step>)
    ensures RunFrom(window, Run(window, first), more) == Run(window, first + more)
  {
    if more == [] {
      assert first + more == first;
    } else {
      RunJoins(window, first, more[..|more| - 1]);
      assert (first + more)[..|first + more| - 1] == first + more[..|more| - 1];
    }
  }

  lemma FromStart(window: nat, steps: seq<Step>)
    ensures Run(window, steps) == RunFrom(window, Run(window, []), steps)
  {
    RunJoins(window, [], steps);
    assert [] + steps == steps;
  }

  lemma TwoSteps(window: nat, s: System, a: Step, b: Step)
    ensures RunFrom(window, s, [a, b]) == Next(window, Next(window, s, a), b)
  {
    assert [a, b][..1] == [a] && [a][..0] == [];
    assert RunFrom(window, s, [a]) == Next(window, RunFrom(window, s, []), a);
  }

  lemma ThreeSteps(window: nat, s: System, a: Step, b: Step, c: Step)
    ensures RunFrom(window, s, [a, b, c]) == Next(window, Next(window, Next(window, s, a), b), c)
  {
    TwoSteps(window, s, a, b);
    assert [a, b, c][..2] == [a, b];
  }

  /** An uninterrupted hit is INCR and, for the request that began the lifetime, its EXPIRE: it leaves the
      key as `AfterHit` says, records one decision with that count, and owes nothing. */
  lemma HitIsTwoSteps(window: nat, limit: nat, s: System, request: nat)
    requires KeyOk(window, s) && s.owing == {}
    ensures var s' := RunFrom(window, s, [DoIncr(request), DoExpire(request)]);
            && s'.key == AfterHit(s.key, window, s.now) && s'.owing == {} && s'.now == s.now
            && |s'.hits| == |s.hits| + 1 && s'.hits[..|s.hits|] == s.hits
            && s'.hits[|s.hits|].time == s.now && s'.hits[|s.hits|].ordinal == s'.key.count
            && (Admitted(s'.hits[|s.hits|], limit) <==> (if s.key.Absent? then 0 else s.key.count) < limit)
  {
    TwoSteps(window, s, DoIncr(request), DoExpire(request));
  }

  /** Uninterrupted hits on a key without a deadline passing: the first sets it, the later ones only count. */
  function AfterHits(key: Key, window: nat, times: seq<nat>): Key {
    if times == [] then key else AfterHit(AfterHits(key, window, times[..|times| - 1]), window, times[|times| - 1])
  }

  /** However many hits, the count is theirs and the deadline the first one's. */
  lemma {:induction false} FirstHitSetsDeadline(window: nat, times: seq<nat>)
    requires times != []
    ensures AfterHits(Absent, window, times) == Present(|times|, Some(times[0] + window))
  {
    if |times| > 1 {
      FirstHitSetsDeadline(window, times[..|times| - 1]);
    }
  }

  /** The steps that end a lifetime which has a deadline, or an EXPIRE still to come. */
  lemma LifetimeCanEnd(window: nat, s: System) returns (more: seq<Step>)
    requires s.key.Present? && (s.key.deadline.Some? || s.owing != {})
    ensures RunFrom(window, s, more).key.Absent?
  {
    if s.owing != {} {
      var r :| r in s.owing;
      more := [DoExpire(r), Tick(window), Evict];
      ThreeSteps(window, s, DoExpire(r), Tick(window), Evict);
    } else {
      more := [Tick(s.key.deadline.value), Evict];
      TwoSteps(window, s, Tick(s.key.deadline.value), Evict);
    }
  }

  /** In every reachable state, a lifetime can still end exactly when it has a deadline or somebody
      owes it an EXPIRE. */
  lemma LifetimeEndsIff(window: nat, steps: seq<Step>)
    requires Run(window, steps).key.Present?
    ensures var s := Run(window, steps);
            (exists more :: RunFrom(window, s, more).key.Absent?) <==> s.key.deadline.Some? || s.owing != {}
  {
    var s := Run(window, steps);
    RunKeepsInv(window, 0, steps);
    if s.key.deadline.Some? || s.owing != {} {
      var more := LifetimeCanEnd(window, s);
    } else {
      forall more ensures RunFrom(window, s, more).key.Present? {
        LostExpireIsForever(window, s, more);
      }
    }
  }

  /** One INCR whose EXPIRE is lost: from then on the key never goes, and whatever follows, all hits
      share one lifetime and at most `limit` are ever admitted. */
  lemma OneLostExpireSpendsTheBudget(window: nat, limit: nat, request: nat, more: seq<Step>)
    ensures var s := Run(window, [DoIncr(request), LoseExpire(request)] + more);
            && s.key.Present? && s.key.deadline.None?
            && (forall i :: 0 <= i < |s.hits| ==> s.hits[i].life == 0)
            && OfLife(s.hits, limit, 0) <= limit
  {
    var lost := [DoIncr(request), LoseExpire(request)];
    FromStart(window, lost);
    TwoSteps(window, Run(window, []), DoIncr(request), LoseExpire(request));
    LostExpireIsForever(window, Run(window, lost), more);
    RunJoins(window, lost, more);
    RunKeepsInv(window, limit, lost + more);
    var s := Run(window, lost + more);
    forall i | 0 <= i < |s.hits| ensures s.hits[i].life == 0 {
      assert HitOk(s.births, s.now, s.hits[i]);
    }
  }

  ghost predicate SpanHit(h: Hit, limit: nat, from: nat, window: nat) {
    Admitted(h, limit) && from <= h.time < from + window
  }

  /** The oldest lifetime with an admitted hit in the span, if there is one. */
  lemma {:induction false} OldestLife(hits: seq<Hit>, limit: nat, from: nat, window: nat) returns (k: nat)
    ensures InSpan(hits, limit, from, window) > 0 ==> exists i :: 0 <= i < |hits| && SpanHit(hits[i], limit, from, window) && hits[i].life == k
    ensures forall i :: 0 <= i < |hits| && SpanHit(hits[i], limit, from, window) ==> InSpan(hits, limit, from, window) > 0 && k <= hits[i].life
  {
    k := 0;
    if hits != [] {
      var front, h := hits[..|hits| - 1], hits[|hits| - 1];
      k := OldestLife(front, limit, from, window);
      if InSpan(front, limit, from, window) > 0 {
        var i :| 0 <= i < |front| && SpanHit(front[i], limit, from, window) && front[i].life == k;
        assert hits[i] == front[i];
      }
      if SpanHit(h, limit, from, window) && (InSpan(front, limit, from, window) == 0 || h.life < k) {
        k := h.life;
      }
      forall i | 0 <= i < |hits| && SpanHit(hits[i], limit, from, window) ensures InSpan(hits, limit, from, window) > 0 && k <= hits[i].life {
        if i < |front| {
          assert front[i] == hits[i];
        }
      }
    }
  }

  /** When all span hits are in lifetime `k` or `k + 1`, and those of `k` did not begin it, they are
      at most that many. */
  lemma {:induction false} SpanWithinTwoLives(hits: seq<Hit>, limit: nat, from: nat, window: nat, k: nat)
    requires forall i :: 0 <= i < |hits| && SpanHit(hits[i], limit, from, window) ==>
      (hits[i].life == k && hits[i].ordinal > 1) || hits[i].life == k + 1
    ensures InSpan(hits, limit, from, window) <= LaterOfLife(hits, limit, k) + OfLife(hits, limit, k + 1)
  {
    if hits != [] {
      var front := hits[..|hits| - 1];
      assert forall i :: 0 <= i < |front| ==> front[i] == hits[i];
      SpanWithinTwoLives(front, limit, from, window, k);
    }
  }

  lemma {:induction false} SpanWithinOneLife(hits: seq<Hit>, limit: nat, from: nat, window: nat, k: nat)
    requires forall i :: 0 <= i < |hits| && SpanHit(hits[i], limit, from, window) ==> hits[i].life == k
    ensures InSpan(hits, limit, from, window) <= OfLife(hits, limit, k)
  {
    if hits != [] {
      var front := hits[..|hits| - 1];
      assert forall i :: 0 <= i < |front| ==> front[i] == hits[i];
      SpanWithinOneLife(front, limit, from, window, k);
    }
  }

  lemma {:induction false} BirthsSpread(window: nat, s: System, i: nat, j: nat)
    requires HitsOk(window, s) && i < j < |s.births|
    ensures s.births[i] + window <= s.births[j]
    decreases j
  {
    if i < j - 1 {
      BirthsSpread(window, s, i, j - 1);
    }
  }

  /** In any half-open span of the window's length at most `2 * limit - 1` hits are admitted: two
      lifetimes can meet in it, but then the older one began before it. */
  lemma PerSpan(window: nat, limit: nat, steps: seq<Step>, from: nat)
    ensures InSpan(Run(window, steps).hits, limit, from, window) <= if limit == 0 then 0 else 2 * limit - 1
  {
    var s := Run(window, steps);
    RunKeepsInv(window, limit, steps);
    var k := OldestLife(s.hits, limit, from, window);
    if InSpan(s.hits, limit, from, window) > 0 {
      var o :| 0 <= o < |s.hits| && SpanHit(s.hits[o], limit, from, window) && s.hits[o].life == k;
      if forall i :: 0 <= i < |s.hits| && SpanHit(s.hits[i], limit, from, window) ==> s.hits[i].life == k {
        SpanWithinOneLife(s.hits, limit, from, window, k);
        assert OfLife(s.hits, limit, k) <= limit;
      } else {
        var y :| 0 <= y < |s.hits| && SpanHit(s.hits[y], limit, from, window) && s.hits[y].life != k;
        TwoLivesMeet(window, limit, s, from, k, o, y);
        SpanWithinTwoLives(s.hits, limit, from, window, k);
        assert LaterOfLife(s.hits, limit, k) <= limit - 1 && OfLife(s.hits, limit, k + 1) <= limit;
      }
    }
  }

  lemma TwoLivesMeet(window: nat, limit: nat, s: System, from: nat, k: nat, o: nat, y: nat)
    requires HitsOk(window, s)
    requires forall i :: 0 <= i < |s.hits| && SpanHit(s.hits[i], limit, from, window) ==> k <= s.hits[i].life
    requires o < |s.hits| && SpanHit(s.hits[o], limit, from, window) && s.hits[o].life == k
    requires y < |s.hits| && SpanHit(s.hits[y], limit, from, window) && s.hits[y].life != k
    ensures forall i :: 0 <= i < |s.hits| && SpanHit(s.hits[i], limit, from, window) ==>
      (s.hits[i].life == k && s.hits[i].ordinal > 1) || s.hits[i].life == k + 1
  {
    assert HitOk(s.births, s.now, s.hits[o]) && HitOk(s.births, s.now, s.hits[y]);
    BirthsSpread(window, s, k, s.hits[y].life);
    forall i | 0 <= i < |s.hits| && SpanHit(s.hits[i], limit, from, window)
      ensures (s.hits[i].life == k && s.hits[i].ordinal > 1) || s.hits[i].life == k + 1
    {
      assert HitOk(s.births, s.now, s.hits[i]);
      if s.hits[i].life > k + 1 {
        BirthsSpread(window, s, k + 1, s.hits[i].life);
      }
    }
  }

  lemma SpanMore(hits: seq<Hit>, limit: nat, from: nat, window: nat, h: Hit)
    ensures InSpan(hits + [h], limit, from, window) == InSpan(hits, limit, from, window) + if SpanHit(h, limit, from, window) then 1 else 0
  {
    assert (hits + [h])[..|hits|] == hits;
  }

  function Burst(request: nat, m: nat): (steps: seq<Step>)
    ensures |steps| == m
  {
    if m == 0 then [] else Burst(request, m - 1) + [DoIncr(request)]
  }

  /** `after` is `before` with `m` more hits on the key, all admitted in the span. */
  ghost predicate Gained(before: System, after: System, limit: nat, from: nat, window: nat, m: nat) {
    && before.key.Present? && after.key == before.key.(count := before.key.count + m)
    && after.now == before.now && after.births == before.births && after.owing == before.owing
    && InSpan(after.hits, limit, from, window) == InSpan(before.hits, limit, from, window) + m
  }

  lemma OneMoreGained(window: nat, limit: nat, before: System, s: System, request: nat, m: nat, from: nat)
    requires Gained(before, s, limit, from, window, m) && before.births != []
    requires before.key.count + m < limit && from <= before.now < from + window
    ensures Gained(before, Next(window, s, DoIncr(request)), limit, from, window, m + 1)
  {
    SpanMore(s.hits, limit, from, window, Hit(s.now, |s.births| - 1, s.key.count + 1));
  }

  /** `m` hits in a row on a present key, all within the budget and the span, add `m` admissions. */
  lemma {:induction false} BurstAdmits(window: nat, limit: nat, s: System, request: nat, m: nat, from: nat)
    requires s.key.Present? && s.births != [] && s.key.count + m <= limit && from <= s.now < from + window
    ensures Gained(s, RunFrom(window, s, Burst(request, m)), limit, from, window, m)
  {
    if m > 0 {
      BurstAdmits(window, limit, s, request, m - 1, from);
      assert Burst(request, m)[..m - 1] == Burst(request, m - 1);
      OneMoreGained(window, limit, s, RunFrom(window, s, Burst(request, m - 1)), request, m - 1, from);
    }
  }

  /** The first lifetime, with its deadline set, seen at a later time. */
  lemma FirstHit(window: nat, limit: nat, from: nat)
    requires from >= 1
    ensures var s := Run(window, [DoIncr(0), DoExpire(0), Tick(from)]);
            && s.now == from && s.key == Present(1, Some(window)) && s.births == [0] && s.owing == {}
            && InSpan(s.hits, limit, from, window) == 0
  {
    FromStart(window, [DoIncr(0), DoExpire(0), Tick(from)]);
    ThreeSteps(window, Run(window, []), DoIncr(0), DoExpire(0), Tick(from));
    SpanMore([], limit, from, window, Hit(0, 0, 1));
    assert [] + [Hit(0, 0, 1)] == [Hit(0, 0, 1)];
  }

  /** The key goes at its deadline and the next hit begins a new lifetime. */
  lemma NextLifetime(window: nat, limit: nat, s: System, from: nat)
    requires s.key.Present? && s.key.deadline == Some(window) && s.now == from <= window < from + window && limit >= 1
    ensures var s' := RunFrom(window, s, [Tick(window - from), Evict, DoIncr(2)]);
            && s'.key == Present(1, None) && s'.now == window && s'.births == s.births + [window]
            && InSpan(s'.hits, limit, from, window) == InSpan(s.hits, limit, from, window) + 1
  {
    ThreeSteps(window, s, Tick(window - from), Evict, DoIncr(2));
    SpanMore(s.hits, limit, from, window, Hit(window, |s.births|, 1));
  }

  /** The bound is met for every limit and window: all but the first hit of one lifetime late in it,
      and all hits of the next at its start. */
  lemma SpanBoundIsMet(window: nat, limit: nat) returns (steps: seq<Step>, from: nat)
    requires window >= 1 && limit >= 1
    ensures InSpan(Run(window, steps).hits, limit, from, window) == 2 * limit - 1
  {
    from := if window >= 2 then window - 1 else window;
    var idle, turn := [DoIncr(0), DoExpire(0), Tick(from)], [Tick(window - from), Evict, DoIncr(2)];
    FirstHit(window, limit, from);
    BurstAdmits(window, limit, Run(window, idle), 1, limit - 1, from);
    RunJoins(window, idle, Burst(1, limit - 1));
    var late := idle + Burst(1, limit - 1);
    NextLifetime(window, limit, Run(window, late), from);
    RunJoins(window, late, turn);
    BurstAdmits(window, limit, Run(window, late + turn), 3, limit - 1, from);
    RunJoins(window, late + turn, Burst(3, limit - 1));
    steps := late + turn + Burst(3, limit - 1);
  }
}
