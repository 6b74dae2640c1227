/** Whole runs of the throttle: the pruned lists in an expiring cache decide exactly as a full
    log of admissions would, no window ever holds more than its rate allows, and a reported
    wait is exact. */
module ThrottleRuns {
  import opened Common
  import opened Rates
  import opened Throttling

  datatype Admission = Admission(scope: string, ident: string, time: real)

  /** Every admission ever made, newest first, never pruned and never expired. */
  type Log = seq<Admission>

  datatype State = State(cache: Cache, log: Log)

  function Step(config: map<string, Setting>, s: State, req: Request): State {
    var (decision, cache) := Decide(config, s.cache, req);
    State(cache, if decision == Admitted then [Admission(req.Scope(), req.ident, req.now)] + s.log else s.log)
  }

  function Exec(config: map<string, Setting>, reqs: seq<Request>): State {
    if reqs == [] then State(map[], [])
    else Step(config, Exec(config, reqs[..|reqs| - 1]), reqs[|reqs| - 1])
  }

  // ---------- the reference: counting in the full log ----------

  datatype Verdict = Pass | Admit | Deny | Error(failure: Failure)

  function VerdictOf(d: Decision): Verdict {
    match d
    case Unlimited => Pass
    case Admitted => Admit
    case Denied(_) => Deny
    case Failed(e) => Error(e)
  }

  function CountIn(log: Log, scope: string, ident: string, lo: real, hi: real): nat {
    if log == [] then 0
    else (if log[0].scope == scope && log[0].ident == ident && lo < log[0].time <= hi then 1 else 0)
         + CountIn(log[1..], scope, ident, lo, hi)
  }

  predicate Full(log: Log, req: Request, rate: Rate) {
    CountIn(log, req.Scope(), req.ident, req.now - rate.Duration(), req.now) >= rate.num
  }

  function ReferenceVerdict(config: map<string, Setting>, log: Log, req: Request): Verdict {
    match ActiveRates(config, req)
    case Err(e) => Error(e)
    case Ok(rates) =>
      if rates == [] then Pass
      else if exists rate | rate in rates :: Full(log, req, rate) then Deny
      else Admit
  }

  function ReferenceLog(config: map<string, Setting>, reqs: seq<Request>): Log {
    if reqs == [] then []
    else
      var log := ReferenceLog(config, reqs[..|reqs| - 1]);
      var req := reqs[|reqs| - 1];
      if ReferenceVerdict(config, log, req) == Admit
      then [Admission(req.Scope(), req.ident, req.now)] + log
      else log
  }

  // ---------- what the cache holds for one scope, ident and rate ----------

  /** The admission times of one scope and ident, newest first. */
  function Times(log: Log, scope: string, ident: string): seq<real> {
    if log == [] then []
    else (if log[0].scope == scope && log[0].ident == ident then [log[0].time] else [])
         + Times(log[1..], scope, ident)
  }

  /** The leading part after `cutoff`. */
  function Recent(times: seq<real>, cutoff: real): seq<real> {
    if times == [] || times[0] <= cutoff then [] else [times[0]] + Recent(times[1..], cutoff)
  }

  lemma RecentFacts(times: seq<real>, cutoff: real)
    ensures var n := |Recent(times, cutoff)|;
            && Recent(times, cutoff) <= times
            && (forall i | 0 <= i < n :: cutoff < times[i])
            && (n < |times| ==> times[n] <= cutoff)
  {
  }

  ghost predicate Desc(times: seq<real>, top: real) {
    && (forall i | 0 <= i < |times| :: times[i] <= top)
    && (forall i, j | 0 <= i < j < |times| :: times[j] <= times[i])
  }

  /** The stored list is the newest part of the times, at least back to one duration before
      the newest, and the entry dies exactly when its newest time leaves the window. */
  ghost predicate Holds(cache: Cache, key: string, times: seq<real>, duration: real) {
    if times == [] then key !in cache
    else
      && key in cache
      && cache[key].expires == times[0] + duration
      && 1 <= |cache[key].history|
      && cache[key].history <= times
      && forall k | |cache[key].history| <= k < |times| :: times[k] <= times[0] - duration
  }

  /** Admissions `num` apart are at least `duration` apart in time. */
  ghost predicate Spaced(times: seq<real>, num: int, duration: real) {
    if num <= 0 then times == []
    else forall i | 0 <= i < |times| - num :: times[i] - times[i + num] >= duration
  }

  function RatesOf(config: map<string, Setting>, scope: string): seq<Rate> {
    match GetRates(config, scope)
    case Err(_) => []
    case Ok(rates) => if AllParsed(rates) then Values(rates) else []
  }

  ghost predicate RateInv(s: State, scope: string, ident: string, rate: Rate) {
    && Holds(s.cache, CacheKey(scope, rate.name, ident), Times(s.log, scope, ident), rate.Duration())
    && Spaced(Times(s.log, scope, ident), rate.num, rate.Duration())
  }

  ghost predicate PairInv(config: map<string, Setting>, s: State, scope: string, ident: string) {
    forall rate | rate in RatesOf(config, scope) :: RateInv(s, scope, ident, rate)
  }

  /** Newest first, nothing after `top`. */
  ghost predicate LogUpTo(log: Log, top: real) {
    log == [] || (log[0].time <= top && LogUpTo(log[1..], log[0].time))
  }

  ghost predicate Inv(config: map<string, Setting>, s: State, top: real) {
    && LogUpTo(s.log, top)
    && forall scope, ident | NoUnderscore(scope) && NoUnderscore(ident) :: PairInv(config, s, scope, ident)
  }

  /** Requests as one process sees them: the clock does not run backwards, and idents are
      decimal ids or client addresses, which have no underscore. */
  ghost predicate Ordered(reqs: seq<Request>) {
    && (forall i | 0 <= i < |reqs| :: NoUnderscore(reqs[i].ident))
    && (forall i, j | 0 <= i < j < |reqs| :: reqs[i].now <= reqs[j].now)
  }

  // ---------- keys ----------

  lemma {:induction false} SplitFirst(a: string, b: string, a': string, b': string)
    requires a + "_" + b == a' + "_" + b'
    requires NoUnderscore(a) && NoUnderscore(a')
    ensures a == a' && b == b'
  {
    var s := a + "_" + b;
    assert s[0] == if a == "" then '_' else a[0];
    assert s[0] == if a' == "" then '_' else a'[0];
    if a != "" && a' != "" {
      assert s[1..] == a[1..] + "_" + b == a'[1..] + "_" + b';
      SplitFirst(a[1..], b, a'[1..], b');
    } else {
      assert s[1..] == b == b';
    }
  }

  lemma {:induction false} SplitLast(a: string, b: string, a': string, b': string)
    requires a + "_" + b == a' + "_" + b'
    requires NoUnderscore(b) && NoUnderscore(b')
    ensures a == a' && b == b'
  {
    var s := a + "_" + b;
    var n := |s| - 1;
    assert s[n] == if b == "" then '_' else b[|b| - 1];
    assert s[n] == if b' == "" then '_' else b'[|b'| - 1];
    if b != "" && b' != "" {
      assert s[..n] == a + "_" + b[..|b| - 1] == a' + "_" + b'[..|b'| - 1];
      SplitLast(a, b[..|b| - 1], a', b'[..|b'| - 1]);
    } else {
      assert s[..n] == a == a';
    }
  }

  /** Three parts, two underscores that belong to neither end: whatever the rate texts are,
      the key determines all three. */
  lemma KeyInjective(scope: string, rate: string, ident: string, scope': string, rate': string, ident': string)
    requires NoUnderscore(scope) && NoUnderscore(scope')
    requires NoUnderscore(ident) && NoUnderscore(ident')
    requires CacheKey(scope, rate, ident) == CacheKey(scope', rate', ident')
    ensures scope == scope' && rate == rate' && ident == ident'
  {
    var k := CacheKey(scope, rate, ident);
    assert k[9..] == scope + "_" + (rate + "_" + ident);
    assert k[9..] == scope' + "_" + (rate' + "_" + ident');
    SplitFirst(scope, rate + "_" + ident, scope', rate' + "_" + ident');
    SplitLast(rate, ident, rate', ident');
  }

  /** The underscore-free ident is needed: otherwise two clients can share one list. */
  lemma KeyCollision()
    ensures CacheKey("anon-read", "1/m", "x_5") == CacheKey("anon-read", "1/m_x", "5")
  {
    assert CacheKey("anon-read", "1/m", "x_5") == "throttle_anon-read_1/m_x_5";
    assert CacheKey("anon-read", "1/m_x", "5") == "throttle_anon-read_1/m_x_5";
  }

  ghost predicate WellNamed(rates: seq<Rate>) {
    forall r, r' | r in rates && r' in rates && r.name == r'.name :: r == r'
  }

  lemma SameNameSameRate(config: map<string, Setting>, scope: string, r: Rate, r': Rate)
    requires r in RatesOf(config, scope) && r' in RatesOf(config, scope)
    requires r.name == r'.name
    ensures r == r'
  {
    var rates := GetRates(config, scope).value;
    var i :| 0 <= i < |rates| && Values(rates)[i] == r;
    var j :| 0 <= j < |rates| && Values(rates)[j] == r';
    var items := match config[scope]
                 case Text(text) => [Some(text)]
                 case List(items) => items
                 case _ => [];
    assert rates[i] in rates && rates[j] in rates;
    ParsedByName(items, rates, i);
    ParsedByName(items, rates, j);
  }

  lemma RatesWellNamed(config: map<string, Setting>, scope: string)
    ensures WellNamed(RatesOf(config, scope))
  {
    var rates := RatesOf(config, scope);
    forall r, r' | r in rates && r' in rates && r.name == r'.name ensures r == r' {
      SameNameSameRate(config, scope, r, r');
    }
  }

  // ---------- one list ----------

  lemma {:induction false} TimesDesc(log: Log, scope: string, ident: string, top: real)
    requires LogUpTo(log, top)
    ensures Desc(Times(log, scope, ident), top)
  {
    if log != [] {
      TimesDesc(log[1..], scope, ident, log[0].time);
    }
  }

  lemma {:induction false} PruneIsRecent(history: seq<real>, cutoff: real, top: real)
    requires Desc(history, top)
    ensures Prune(history, cutoff) == Recent(history, cutoff)
  {
    var n := |history|;
    RecentFacts(history, cutoff);
    if n != 0 && history[n - 1] <= cutoff {
      PruneIsRecent(history[..n - 1], cutoff, top);
      RecentOfPrefix(history, n - 1, cutoff);
    } else {
      assert forall k | 0 <= k < n - 1 :: history[n - 1] <= history[k];
    }
  }

  lemma {:induction false} RecentOfPrefix(times: seq<real>, m: nat, cutoff: real)
    requires m <= |times|
    requires forall k | m <= k < |times| :: times[k] <= cutoff
    ensures Recent(times[..m], cutoff) == Recent(times, cutoff)
  {
    if m != 0 && times[0] > cutoff {
      assert times[..m][1..] == times[1..][..m - 1];
      RecentOfPrefix(times[1..], m - 1, cutoff);
    }
  }

  lemma PruneOfNewest(history: seq<real>, times: seq<real>, cutoff: real, top: real)
    requires history <= times && Desc(times, top)
    requires forall k | |history| <= k < |times| :: times[k] <= cutoff
    ensures Prune(history, cutoff) == Recent(times, cutoff)
  {
    assert history == times[..|history|];
    PruneIsRecent(history, cutoff, top);
    RecentOfPrefix(times, |history|, cutoff);
  }

  /** Pruning the cached list, or finding it expired, leaves exactly the recent times. */
  lemma WindowIsRecent(cache: Cache, scope: string, ident: string, rate: Rate, times: seq<real>, now: real)
    requires Holds(cache, CacheKey(scope, rate.name, ident), times, rate.Duration())
    requires Desc(times, now)
    ensures Window(cache, scope, ident, rate, now) == Recent(times, now - rate.Duration())
  {
    var key := CacheKey(scope, rate.name, ident);
    PruneOfNewest(CacheGet(cache, key, now), times, now - rate.Duration(), now);
  }

  lemma WindowOfState(s: State, scope: string, ident: string, rate: Rate, now: real)
    requires LogUpTo(s.log, now) && RateInv(s, scope, ident, rate)
    ensures Window(s.cache, scope, ident, rate, now) == Recent(Times(s.log, scope, ident), now - rate.Duration())
  {
    TimesDesc(s.log, scope, ident, now);
    WindowIsRecent(s.cache, scope, ident, rate, Times(s.log, scope, ident), now);
  }

  lemma {:induction false} CountIsRecent(log: Log, scope: string, ident: string, lo: real, hi: real)
    requires LogUpTo(log, hi)
    ensures CountIn(log, scope, ident, lo, hi) == |Recent(Times(log, scope, ident), lo)|
  {
    if log != [] {
      var rest := Times(log[1..], scope, ident);
      CountIsRecent(log[1..], scope, ident, lo, hi);
      if log[0].scope == scope && log[0].ident == ident {
        assert Times(log, scope, ident)[1..] == rest;
        if log[0].time <= lo {
          TimesDesc(log[1..], scope, ident, log[0].time);
        }
      } else {
        assert Times(log, scope, ident) == rest;
      }
    }
  }

  /** Whether a rate blocks a request depends only on the num-th newest admission. */
  lemma BlockedIff(times: seq<real>, num: int, cutoff: real, top: real)
    requires Desc(times, top) && 1 <= num
    ensures |Recent(times, cutoff)| >= num <==> |times| >= num && times[num - 1] > cutoff
  {
    RecentFacts(times, cutoff);
    var r := |Recent(times, cutoff)|;
    if r < num <= |times| {
      assert times[num - 1] <= times[r];
    }
  }

  // ---------- the loops over the rates ----------

  lemma {:induction false} WaitsExactly(cache: Cache, scope: string, ident: string, rates: seq<Rate>, now: real, w: real)
    ensures w in Waits(cache, scope, ident, rates, now)
       <==> exists rate | rate in rates :: var window := Window(cache, scope, ident, rate, now);
                                           |window| >= rate.num && w == WaitTime(window, rate, now)
  {
    if rates != [] {
      var n := |rates| - 1;
      WaitsExactly(cache, scope, ident, rates[..n], now, w);
      assert rates == rates[..n] + [rates[n]];
    }
  }

  lemma WaitsEmptyIff(cache: Cache, scope: string, ident: string, rates: seq<Rate>, now: real)
    ensures Waits(cache, scope, ident, rates, now) == []
       <==> forall rate | rate in rates :: |Window(cache, scope, ident, rate, now)| < rate.num
  {
    var waits := Waits(cache, scope, ident, rates, now);
    if waits != [] {
      WaitsExactly(cache, scope, ident, rates, now, waits[0]);
      assert waits[0] in waits;
    } else {
      forall rate | rate in rates ensures |Window(cache, scope, ident, rate, now)| < rate.num {
        WaitsExactly(cache, scope, ident, rates, now, WaitTime(Window(cache, scope, ident, rate, now), rate, now));
      }
    }
  }

  lemma StoredNext(cache: Cache, scope: string, ident: string, rates: seq<Rate>, now: real)
    requires rates != []
    ensures var last := rates[|rates| - 1];
            StoreAll(cache, Writes(cache, scope, ident, rates, now), now)
            == StoreAll(cache, Writes(cache, scope, ident, rates[..|rates| - 1], now), now)
               [CacheKey(scope, last.name, ident)
                  := Entry([now] + Window(cache, scope, ident, last, now), now + last.Duration())]
  {
    var last := rates[|rates| - 1];
    var key := CacheKey(scope, last.name, ident);
    StoreLast(cache, Writes(cache, scope, ident, rates[..|rates| - 1], now),
              HistoryWrite(key, Window(cache, scope, ident, last, now), last.Duration()), now);
  }

  lemma StoreLast(cache: Cache, writes: seq<HistoryWrite>, w: HistoryWrite, now: real)
    ensures StoreAll(cache, writes + [w], now)
         == StoreAll(cache, writes, now)[w.key := Entry([now] + w.history, now + w.duration)]
  {
    assert (writes + [w])[..|writes|] == writes;
  }

  lemma KeysDiffer(scope: string, ident: string, name: string, name': string)
    requires NoUnderscore(scope) && NoUnderscore(ident) && name != name'
    ensures CacheKey(scope, name, ident) != CacheKey(scope, name', ident)
  {
    if CacheKey(scope, name, ident) == CacheKey(scope, name', ident) {
      KeyInjective(scope, name, ident, scope, name', ident);
      assert false;
    }
  }

  lemma {:induction false} StoredAt(cache: Cache, scope: string, ident: string, rates: seq<Rate>, now: real, rate: Rate)
    requires NoUnderscore(scope) && NoUnderscore(ident)
    requires rate in rates && WellNamed(rates)
    ensures var stored := StoreAll(cache, Writes(cache, scope, ident, rates, now), now);
            var key := CacheKey(scope, rate.name, ident);
            key in stored
            && stored[key] == Entry([now] + Window(cache, scope, ident, rate, now), now + rate.Duration())
  {
    var n := |rates| - 1;
    assert rates == rates[..n] + [rates[n]];
    StoredNext(cache, scope, ident, rates, now);
    if rate != rates[n] {
      KeysDiffer(scope, ident, rate.name, rates[n].name);
      StoredAt(cache, scope, ident, rates[..n], now, rate);
    }
  }

  lemma {:induction false} StoredElsewhere(cache: Cache, scope: string, ident: string, rates: seq<Rate>, now: real, key: string)
    requires forall rate | rate in rates :: CacheKey(scope, rate.name, ident) != key
    ensures var stored := StoreAll(cache, Writes(cache, scope, ident, rates, now), now);
            (key in stored <==> key in cache) && (key in cache ==> stored[key] == cache[key])
  {
    if rates != [] {
      StoredNext(cache, scope, ident, rates, now);
      StoredElsewhere(cache, scope, ident, rates[..|rates| - 1], now, key);
    }
  }

  // ---------- one step keeps the invariant ----------

  lemma SpacedAfterAdmission(times: seq<real>, num: int, duration: real, now: real)
    requires Desc(times, now) && Spaced(times, num, duration)
    requires |Recent(times, now - duration)| < num
    ensures Spaced([now] + times, num, duration)
  {
    var times' := [now] + times;
    forall i | 0 <= i < |times'| - num ensures times'[i] - times'[i + num] >= duration {
      if i == 0 {
        BlockedIff(times, num, now - duration, now);
        assert times'[num] == times[num - 1];
      } else {
        assert times'[i] == times[i - 1] && times'[i + num] == times[i - 1 + num];
      }
    }
  }

  lemma HoldsAfterAdmission(cache: Cache, key: string, times: seq<real>, duration: real, now: real)
    requires Desc(times, now) && duration > 0.0
    requires key in cache && cache[key] == Entry([now] + Recent(times, now - duration), now + duration)
    ensures Holds(cache, key, [now] + times, duration)
  {
    var times' := [now] + times;
    RecentFacts(times, now - duration);
    var r := |Recent(times, now - duration)|;
    assert cache[key].history <= times';
    forall k | r + 1 <= k < |times'| ensures times'[k] <= now - duration {
      assert times'[k] == times[k - 1] <= times[r];
    }
  }

  lemma ListAfterAdmission(cache: Cache, key: string, times: seq<real>, rate: Rate, now: real)
    requires Desc(times, now) && Spaced(times, rate.num, rate.Duration())
    requires |Recent(times, now - rate.Duration())| < rate.num
    requires key in cache
    requires cache[key] == Entry([now] + Recent(times, now - rate.Duration()), now + rate.Duration())
    ensures Spaced([now] + times, rate.num, rate.Duration()) && Holds(cache, key, [now] + times, rate.Duration())
  {
    SpacedAfterAdmission(times, rate.num, rate.Duration(), now);
    HoldsAfterAdmission(cache, key, times, rate.Duration(), now);
  }

  lemma AdmittedRate(s: State, scope: string, ident: string, rates: seq<Rate>, now: real, rate: Rate)
    requires NoUnderscore(scope) && NoUnderscore(ident) && LogUpTo(s.log, now)
    requires rate in rates && WellNamed(rates) && RateInv(s, scope, ident, rate)
    requires |Window(s.cache, scope, ident, rate, now)| < rate.num
    requires Desc(Times(s.log, scope, ident), now)
    ensures RateInv(State(StoreAll(s.cache, Writes(s.cache, scope, ident, rates, now), now),
                          [Admission(scope, ident, now)] + s.log), scope, ident, rate)
  {
    var times := Times(s.log, scope, ident);
    var log' := [Admission(scope, ident, now)] + s.log;
    var cache' := StoreAll(s.cache, Writes(s.cache, scope, ident, rates, now), now);
    assert Times(log', scope, ident) == [now] + times by { assert log'[1..] == s.log; }
    WindowOfState(s, scope, ident, rate, now);
    StoredAt(s.cache, scope, ident, rates, now, rate);
    ListAfterAdmission(cache', CacheKey(scope, rate.name, ident), times, rate, now);
  }

  /** What an admission says, without the bookkeeping of the configuration. */
  lemma AdmittedMeans(config: map<string, Setting>, cache: Cache, req: Request)
    requires Decide(config, cache, req).0 == Admitted
    ensures var rates := RatesOf(config, req.Scope());
            && (forall rate | rate in rates :: |Window(cache, req.Scope(), req.ident, rate, req.now)| < rate.num)
            && Decide(config, cache, req).1
               == StoreAll(cache, Writes(cache, req.Scope(), req.ident, rates, req.now), req.now)
  {
    WaitsEmptyIff(cache, req.Scope(), req.ident, RatesOf(config, req.Scope()), req.now);
  }

  lemma OwnPair(config: map<string, Setting>, s: State, req: Request)
    requires LogUpTo(s.log, req.now) && PairInv(config, s, req.Scope(), req.ident) && NoUnderscore(req.ident)
    ensures PairInv(config, Step(config, s, req), req.Scope(), req.ident)
  {
    if Decide(config, s.cache, req).0 == Admitted {
      AdmittedMeans(config, s.cache, req);
      RatesWellNamed(config, req.Scope());
      var rates := RatesOf(config, req.Scope());
      forall rate | rate in rates ensures RateInv(Step(config, s, req), req.Scope(), req.ident, rate) {
        TimesDesc(s.log, req.Scope(), req.ident, req.now);
        AdmittedRate(s, req.Scope(), req.ident, rates, req.now, rate);
      }
    }
  }

  lemma OtherPair(config: map<string, Setting>, s: State, req: Request, scope: string, ident: string)
    requires PairInv(config, s, scope, ident) && NoUnderscore(req.ident)
    requires NoUnderscore(scope) && NoUnderscore(ident)
    requires (scope, ident) != (req.Scope(), req.ident)
    ensures PairInv(config, Step(config, s, req), scope, ident)
  {
    var s' := Step(config, s, req);
    if Decide(config, s.cache, req).0 == Admitted {
      AdmittedMeans(config, s.cache, req);
      assert s'.log[1..] == s.log;
      var rates := RatesOf(config, req.Scope());
      forall rate | rate in RatesOf(config, scope) ensures RateInv(s', scope, ident, rate) {
        forall r | r in rates
          ensures CacheKey(req.Scope(), r.name, req.ident) != CacheKey(scope, rate.name, ident)
        {
          if CacheKey(req.Scope(), r.name, req.ident) == CacheKey(scope, rate.name, ident) {
            KeyInjective(req.Scope(), r.name, req.ident, scope, rate.name, ident);
          }
        }
        StoredElsewhere(s.cache, req.Scope(), req.ident, rates, req.now, CacheKey(scope, rate.name, ident));
      }
    }
  }

  lemma StepInv(config: map<string, Setting>, s: State, req: Request, top: real)
    requires Inv(config, s, top) && top <= req.now && NoUnderscore(req.ident)
    ensures Inv(config, Step(config, s, req), req.now)
  {
    forall scope, ident | NoUnderscore(scope) && NoUnderscore(ident)
      ensures PairInv(config, Step(config, s, req), scope, ident)
    {
      assert PairInv(config, s, scope, ident);
      if (scope, ident) == (req.Scope(), req.ident) {
        OwnPair(config, s, req);
      } else {
        OtherPair(config, s, req, scope, ident);
      }
    }
  }

  function LastTime(reqs: seq<Request>, default: real): real {
    if reqs == [] then default else reqs[|reqs| - 1].now
  }

  lemma {:induction false} ExecInv(config: map<string, Setting>, reqs: seq<Request>, start: real)
    requires Ordered(reqs)
    ensures Inv(config, Exec(config, reqs), LastTime(reqs, start))
  {
    var n := |reqs| - 1;
    if reqs != [] {
      ExecInv(config, reqs[..n], reqs[n].now);
      StepInv(config, Exec(config, reqs[..n]), reqs[n], LastTime(reqs[..n], reqs[n].now));
    }
  }

  // ---------- main results ----------

  lemma CountIsWindow(s: State, scope: string, ident: string, rate: Rate, now: real, lo: real)
    requires LogUpTo(s.log, now) && RateInv(s, scope, ident, rate)
    requires lo == now - rate.Duration()
    ensures CountIn(s.log, scope, ident, lo, now) == |Window(s.cache, scope, ident, rate, now)|
  {
    WindowOfState(s, scope, ident, rate, now);
    CountIsRecent(s.log, scope, ident, lo, now);
  }

  lemma FullIffWindow(s: State, req: Request, rate: Rate)
    requires LogUpTo(s.log, req.now) && RateInv(s, req.Scope(), req.ident, rate)
    ensures Full(s.log, req, rate) <==> |Window(s.cache, req.Scope(), req.ident, rate, req.now)| >= rate.num
  {
    CountIsWindow(s, req.Scope(), req.ident, rate, req.now, req.now - rate.Duration());
  }

  lemma VerdictAgrees(config: map<string, Setting>, s: State, req: Request)
    requires LogUpTo(s.log, req.now) && PairInv(config, s, req.Scope(), req.ident)
    ensures VerdictOf(Decide(config, s.cache, req).0) == ReferenceVerdict(config, s.log, req)
  {
    var active := ActiveRates(config, req);
    if active.Ok? && active.value != [] {
      assert active.value == RatesOf(config, req.Scope());
      forall rate | rate in active.value
        ensures Full(s.log, req, rate) <==> |Window(s.cache, req.Scope(), req.ident, rate, req.now)| >= rate.num
      {
        assert RateInv(s, req.Scope(), req.ident, rate);
        FullIffWindow(s, req, rate);
      }
      WaitsEmptyIff(s.cache, req.Scope(), req.ident, active.value, req.now);
    }
  }

  /** Refinement: on every run the pruned, expiring lists admit exactly the requests that
      counting in the full log admits. */
  lemma {:induction false} CacheRefinesFullLog(config: map<string, Setting>, reqs: seq<Request>, req: Request)
    requires Ordered(reqs + [req])
    ensures Exec(config, reqs).log == ReferenceLog(config, reqs)
    ensures VerdictOf(Decide(config, Exec(config, reqs).cache, req).0)
         == ReferenceVerdict(config, ReferenceLog(config, reqs), req)
  {
    var all := reqs + [req];
    assert forall i | 0 <= i < |reqs| :: reqs[i] == all[i];
    assert req == all[|reqs|];
    if reqs != [] {
      var n := |reqs| - 1;
      assert reqs[..n] + [reqs[n]] == reqs;
      CacheRefinesFullLog(config, reqs[..n], reqs[n]);
    }
    ExecInv(config, reqs, req.now);
    assert PairInv(config, Exec(config, reqs), req.Scope(), req.ident);
    VerdictAgrees(config, Exec(config, reqs), req);
  }

  lemma RecentAtMost(times: seq<real>, num: int, duration: real, lo: real)
    requires Spaced(times, num, duration)
    requires times != [] ==> times[0] <= lo + duration
    ensures |Recent(times, lo)| <= if num <= 0 then 0 else num
  {
    RecentFacts(times, lo);
    assert 0 < num < |times| ==> times[0] - times[0 + num] >= duration;
  }

  lemma SpacedCountTop(log: Log, scope: string, ident: string, num: int, lo: real, hi: real)
    requires LogUpTo(log, hi) && Spaced(Times(log, scope, ident), num, hi - lo)
    ensures CountIn(log, scope, ident, lo, hi) <= if num <= 0 then 0 else num
  {
    var times := Times(log, scope, ident);
    assert times != [] ==> times[0] <= hi by { TimesDesc(log, scope, ident, hi); }
    RecentAtMost(times, num, hi - lo, lo);
    CountIsRecent(log, scope, ident, lo, hi);
  }

  lemma {:induction false} SpacedCount(log: Log, scope: string, ident: string, num: int, lo: real, hi: real, top: real)
    requires LogUpTo(log, top) && Spaced(Times(log, scope, ident), num, hi - lo)
    ensures CountIn(log, scope, ident, lo, hi) <= if num <= 0 then 0 else num
  {
    if log == [] || log[0].time <= hi {
      SpacedCountTop(log, scope, ident, num, lo, hi);
    } else {
      var times, rest := Times(log, scope, ident), Times(log[1..], scope, ident);
      assert rest == times || rest == times[1..];
      SpacedCount(log[1..], scope, ident, num, lo, hi, top);
    }
  }

  /** On every run and for every rate num per d of every scope at once: admissions of one
      client num apart are at least d apart, and no window (lo, lo + d] holds more than num. */
  lemma WindowBound(config: map<string, Setting>, reqs: seq<Request>, scope: string, ident: string, rate: Rate, lo: real, hi: real)
    requires Ordered(reqs) && NoUnderscore(scope) && NoUnderscore(ident)
    requires rate in RatesOf(config, scope) && hi == lo + rate.Duration()
    ensures Spaced(Times(Exec(config, reqs).log, scope, ident), rate.num, rate.Duration())
    ensures CountIn(Exec(config, reqs).log, scope, ident, lo, hi) <= if rate.num <= 0 then 0 else rate.num
  {
    var s := Exec(config, reqs);
    assert LogUpTo(s.log, LastTime(reqs, 0.0)) && RateInv(s, scope, ident, rate) by {
      ExecInv(config, reqs, 0.0);
      assert PairInv(config, s, scope, ident);
    }
    SpacedCount(s.log, scope, ident, rate.num, lo, hi, LastTime(reqs, 0.0));
  }

  /** The setting of a scope names this text, alone or in its list. */
  ghost predicate Configures(setting: Setting, text: string) {
    setting == Text(text) || (setting.List? && Some(text) in setting.items)
  }

  /** A configured text is one of the rates its scope is held to, with the literal length of its
      period; every other setting of the scope must parse. */
  lemma ConfiguredRate(config: map<string, Setting>, scope: string, num: int, letter: char, word: string)
    returns (rate: Rate)
    requires letter in {'s', 'm', 'h', 'd'} && '/' !in word
    requires scope in config && Configures(config[scope], PrintInt(num) + "/" + [letter] + word)
    requires GetRates(config, scope).Ok? && AllParsed(GetRates(config, scope).value)
    ensures rate in RatesOf(config, scope) && rate.num == num
    ensures rate.Duration() == if letter == 's' then 1.0 else if letter == 'm' then 60.0 else if letter == 'h' then 3600.0
                               else 86400.0
  {
    var text := PrintInt(num) + "/" + [letter] + word;
    ParseRateRoundTrip(num, UnitOf(letter).value, letter, word);
    rate := ParseRate(text).value;
    PeriodLengths(rate);
    var items := if config[scope].Text? then [Some(text)] else config[scope].items;
    ItemRates(items);
    var i :| 0 <= i < |items| && items[i] == Some(text);
    assert GetRates(config, scope).value[i] == Some(rate);
    assert Values(GetRates(config, scope).value)[i] == rate;
  }

  /** The window bound read off the configuration: on every run at most n requests of one client
      are admitted in any second, minute, hour or day, for every configured text "n/c...". */
  lemma ConfiguredBound(config: map<string, Setting>, reqs: seq<Request>, scope: string, ident: string, num: int,
                        letter: char, word: string, lo: real, hi: real)
    requires Ordered(reqs) && NoUnderscore(scope) && NoUnderscore(ident)
    requires letter in {'s', 'm', 'h', 'd'} && '/' !in word
    requires scope in config && Configures(config[scope], PrintInt(num) + "/" + [letter] + word)
    requires GetRates(config, scope).Ok? && AllParsed(GetRates(config, scope).value)
    requires hi == lo + if letter == 's' then 1.0 else if letter == 'm' then 60.0 else if letter == 'h' then 3600.0
                        else 86400.0
    ensures CountIn(Exec(config, reqs).log, scope, ident, lo, hi) <= if num <= 0 then 0 else num
  {
    var rate := ConfiguredRate(config, scope, num, letter, word);
    WindowBound(config, reqs, scope, ident, rate, lo, hi);
  }

  /** A request passes unrecorded exactly when its scope's setting can be read and it is
      whitelisted or held to no rate; a setting that cannot be read fails even a whitelisted one. */
  lemma UnlimitedIff(config: map<string, Setting>, cache: Cache, req: Request)
    ensures var (decision, cache') := Decide(config, cache, req);
            && (decision == Unlimited <==>
                  GetRates(config, req.Scope()).Ok? && (req.whitelisted || GetRates(config, req.Scope()).value == []))
            && (decision == Unlimited ==> cache' == cache)
            && (GetRates(config, req.Scope()).Err? ==> decision == Failed(GetRates(config, req.Scope()).error))
            && (decision == Failed(BadRate) && GetRates(config, req.Scope()).Ok? ==> !req.whitelisted)
  {
  }

  // ---------- the reported wait ----------

  /** Blocked until the num-th newest admission leaves the window. */
  ghost predicate Blocked(times: seq<real>, rate: Rate, now: real) {
    |times| >= rate.num >= 1 && now < times[rate.num - 1] + rate.Duration()
  }

  lemma ReleaseOfTimes(times: seq<real>, num: int, lo: real, now: real)
    requires Desc(times, now) && Spaced(times, num, now - lo) && num >= 1
    ensures |Recent(times, lo)| >= num <==> |times| >= num && lo < times[num - 1]
    ensures |Recent(times, lo)| >= num ==> |Recent(times, lo)| == num && Recent(times, lo)[num - 1] == times[num - 1]
  {
    BlockedIff(times, num, lo, now);
    RecentAtMost(times, num, now - lo, lo);
    RecentFacts(times, lo);
  }

  lemma BlockedIffRecent(times: seq<real>, rate: Rate, now: real, window: seq<real>)
    requires Desc(times, now) && Spaced(times, rate.num, rate.Duration()) && rate.num >= 1
    requires window == Recent(times, now - rate.Duration())
    ensures |window| >= rate.num <==> Blocked(times, rate, now)
    ensures Blocked(times, rate, now) ==>
              WaitTime(window, rate, now) == times[rate.num - 1] + rate.Duration() - now
  {
    ReleaseOfTimes(times, rate.num, now - rate.Duration(), now);
  }

  lemma BlockedIffFull(s: State, scope: string, ident: string, rate: Rate, now: real)
    requires LogUpTo(s.log, now) && RateInv(s, scope, ident, rate) && rate.num >= 1
    ensures var times := Times(s.log, scope, ident);
            var window := Window(s.cache, scope, ident, rate, now);
            && (|window| >= rate.num <==> Blocked(times, rate, now))
            && (Blocked(times, rate, now) ==>
                WaitTime(window, rate, now) == times[rate.num - 1] + rate.Duration() - now)
  {
    var times := Times(s.log, scope, ident);
    var window := Window(s.cache, scope, ident, rate, now);
    assert Desc(times, now) by { TimesDesc(s.log, scope, ident, now); }
    assert window == Recent(times, now - rate.Duration()) by { WindowOfState(s, scope, ident, rate, now); }
    BlockedIffRecent(times, rate, now, window);
  }

  ghost predicate AllPositive(rates: seq<Rate>) {
    forall rate | rate in rates :: rate.num >= 1
  }

  lemma DeniedIffBlocked(config: map<string, Setting>, s: State, req: Request)
    requires LogUpTo(s.log, req.now) && PairInv(config, s, req.Scope(), req.ident)
    requires ActiveRates(config, req).Ok? && ActiveRates(config, req).value != []
    requires AllPositive(RatesOf(config, req.Scope()))
    ensures var decision := Decide(config, s.cache, req).0;
            && (decision.Denied? || decision.Admitted?)
            && (decision.Denied? <==> exists rate | rate in RatesOf(config, req.Scope()) ::
                Blocked(Times(s.log, req.Scope(), req.ident), rate, req.now))
  {
    var rates := RatesOf(config, req.Scope());
    forall rate | rate in rates
      ensures Blocked(Times(s.log, req.Scope(), req.ident), rate, req.now)
         <==> |Window(s.cache, req.Scope(), req.ident, rate, req.now)| >= rate.num
    {
      assert RateInv(s, req.Scope(), req.ident, rate);
      BlockedIffFull(s, req.Scope(), req.ident, rate, req.now);
    }
    WaitsEmptyIff(s.cache, req.Scope(), req.ident, rates, req.now);
  }

  /** The wait runs until the last blocking rate is released. */
  lemma WaitIsLastRelease(config: map<string, Setting>, s: State, req: Request, other: Rate) returns (last: Rate)
    requires LogUpTo(s.log, req.now) && PairInv(config, s, req.Scope(), req.ident)
    requires AllPositive(RatesOf(config, req.Scope())) && Decide(config, s.cache, req).0.Denied?
    ensures var times := Times(s.log, req.Scope(), req.ident);
            var wait := Decide(config, s.cache, req).0.wait;
            && last in RatesOf(config, req.Scope()) && Blocked(times, last, req.now)
            && req.now + wait == times[last.num - 1] + last.Duration()
            && (other in RatesOf(config, req.Scope()) && Blocked(times, other, req.now)
                ==> times[other.num - 1] + other.Duration() <= req.now + wait)
  {
    var scope, ident, now := req.Scope(), req.ident, req.now;
    var rates := RatesOf(config, scope);
    var waits := Waits(s.cache, scope, ident, rates, now);
    var wait := MaxOf(waits);
    WaitsExactly(s.cache, scope, ident, rates, now, wait);
    last :| last in rates && |Window(s.cache, scope, ident, last, now)| >= last.num
            && wait == WaitTime(Window(s.cache, scope, ident, last, now), last, now);
    BlockedIffFull(s, scope, ident, last, now);
    if other in rates && Blocked(Times(s.log, scope, ident), other, now) {
      BlockedIffFull(s, scope, ident, other, now);
      WaitsExactly(s.cache, scope, ident, rates, now, WaitTime(Window(s.cache, scope, ident, other, now), other, now));
    }
  }

  lemma WaitSeparates(config: map<string, Setting>, s: State, req: Request, s': State, retry: Request)
    requires LogUpTo(s.log, req.now) && PairInv(config, s, req.Scope(), req.ident)
    requires LogUpTo(s'.log, retry.now) && PairInv(config, s', req.Scope(), req.ident)
    requires AllPositive(RatesOf(config, req.Scope())) && Decide(config, s.cache, req).0.Denied?
    requires retry.Scope() == req.Scope() && retry.ident == req.ident && !retry.whitelisted
    requires req.now <= retry.now
    requires Times(s'.log, req.Scope(), req.ident) == Times(s.log, req.Scope(), req.ident)
    ensures var decision := Decide(config, s'.cache, retry).0;
            && (retry.now < req.now + Decide(config, s.cache, req).0.wait <==> decision.Denied?)
            && (decision.Denied? || decision.Admitted?)
  {
    DeniedIffBlocked(config, s', retry);
    var times := Times(s.log, req.Scope(), req.ident);
    var last := WaitIsLastRelease(config, s, req, Rate("", 1, Second));
    forall other | other in RatesOf(config, req.Scope()) && Blocked(times, other, retry.now)
      ensures retry.now < req.now + Decide(config, s.cache, req).0.wait
    {
      var _ := WaitIsLastRelease(config, s, req, other);
    }
    assert retry.now < req.now + Decide(config, s.cache, req).0.wait ==> Blocked(times, last, retry.now);
  }

  lemma ExecPair(config: map<string, Setting>, reqs: seq<Request>, req: Request)
    requires Ordered(reqs + [req])
    ensures LogUpTo(Exec(config, reqs).log, req.now)
    ensures PairInv(config, Exec(config, reqs), req.Scope(), req.ident)
  {
    var all := reqs + [req];
    assert forall i | 0 <= i < |reqs| :: reqs[i] == all[i];
    assert req == all[|reqs|];
    ExecInv(config, reqs, req.now);
  }

  lemma RetryOrdered(reqs: seq<Request>, req: Request, later: seq<Request>, retry: Request)
    requires reqs + [req] <= later && Ordered(later + [retry])
    ensures Ordered(reqs + [req]) && req.now <= retry.now && NoUnderscore(req.ident)
  {
    var all := later + [retry];
    assert forall i | 0 <= i < |reqs| + 1 :: (reqs + [req])[i] == later[i] == all[i];
    assert all[|reqs|] == req && all[|later|] == retry;
  }

  /** Exact wait: after a denial at `now`, with every configured count positive and nothing
      recorded for that client in between, a retry is denied before now + wait and admitted
      from then on, whatever other clients did meanwhile. */
  lemma ExactWait(config: map<string, Setting>, reqs: seq<Request>, req: Request, later: seq<Request>, retry: Request)
    requires reqs + [req] <= later && Ordered(later + [retry])
    requires AllPositive(RatesOf(config, req.Scope()))
    requires Decide(config, Exec(config, reqs).cache, req).0.Denied?
    requires retry.Scope() == req.Scope() && retry.ident == req.ident && !retry.whitelisted
    requires Times(Exec(config, later).log, req.Scope(), req.ident)
          == Times(Exec(config, reqs).log, req.Scope(), req.ident)
    ensures var wait := Decide(config, Exec(config, reqs).cache, req).0.wait;
            var decision := Decide(config, Exec(config, later).cache, retry).0;
            if retry.now < req.now + wait then decision.Denied? else decision.Admitted?
  {
    RetryOrdered(reqs, req, later, retry);
    ExecPair(config, later, retry);
    ExecPair(config, reqs, req);
    WaitSeparates(config, Exec(config, reqs), req, Exec(config, later), retry);
  }

  lemma EmptyWindows(config: map<string, Setting>, s: State, scope: string, ident: string, now: real, rate: Rate)
    requires LogUpTo(s.log, now) && PairInv(config, s, scope, ident)
    requires rate in RatesOf(config, scope) && Times(s.log, scope, ident) == []
    ensures Window(s.cache, scope, ident, rate, now) == []
  {
    assert RateInv(s, scope, ident, rate);
    WindowOfState(s, scope, ident, rate, now);
  }

  lemma EmptyWait(rate: Rate, now: real)
    requires rate.num <= 0
    ensures WaitTime([], rate, now) == rate.Duration()
  {
  }

  /** Positive counts are needed: on every run a rate with a count of zero or less denies every
      request, and the wait reported is the longest duration of such a rate, after which the
      retry is denied again. */
  lemma NeverAdmitted(config: map<string, Setting>, reqs: seq<Request>, req: Request, rate: Rate)
    requires Ordered(reqs + [req])
    requires rate in RatesOf(config, req.Scope()) && rate.num <= 0 && !req.whitelisted
    ensures var decision := Decide(config, Exec(config, reqs).cache, req).0;
            && decision.Denied? && decision.wait >= rate.Duration()
            && exists r | r in RatesOf(config, req.Scope()) :: r.num <= 0 && decision.wait == r.Duration()
  {
    var s, rates := Exec(config, reqs), RatesOf(config, req.Scope());
    ExecPair(config, reqs, req);
    assert RateInv(s, req.Scope(), req.ident, rate);
    forall r | r in rates ensures Window(s.cache, req.Scope(), req.ident, r, req.now) == [] {
      EmptyWindows(config, s, req.Scope(), req.ident, req.now, r);
    }
    EmptyWait(rate, req.now);
    DeniedByEmpty(s.cache, req.Scope(), req.ident, rates, req.now, rate);
  }

  lemma DeniedByEmpty(cache: Cache, scope: string, ident: string, rates: seq<Rate>, now: real, rate: Rate)
    requires rate in rates && rate.num <= 0
    requires forall r | r in rates :: Window(cache, scope, ident, r, now) == []
    ensures var waits := Waits(cache, scope, ident, rates, now);
            && waits != [] && MaxOf(waits) >= rate.Duration()
            && exists r | r in rates :: r.num <= 0 && MaxOf(waits) == r.Duration()
  {
    var waits := Waits(cache, scope, ident, rates, now);
    EmptyWait(rate, now);
    WaitsExactly(cache, scope, ident, rates, now, rate.Duration());
    WaitsExactly(cache, scope, ident, rates, now, MaxOf(waits));
    var r :| r in rates && |Window(cache, scope, ident, r, now)| >= r.num
             && MaxOf(waits) == WaitTime(Window(cache, scope, ident, r, now), r, now);
    EmptyWait(r, now);
  }

  // ---------- clients do not affect one another ----------

  function Only(reqs: seq<Request>, scope: string, ident: string): seq<Request> {
    if reqs == [] then []
    else
      var last := reqs[|reqs| - 1];
      Only(reqs[..|reqs| - 1], scope, ident) + if last.Scope() == scope && last.ident == ident then [last] else []
  }

  lemma {:induction false} OnlyFrom(reqs: seq<Request>, scope: string, ident: string, req: Request)
    requires req in Only(reqs, scope, ident)
    ensures req in reqs
  {
    var n := |reqs| - 1;
    assert reqs == reqs[..n] + [reqs[n]];
    if req in Only(reqs[..n], scope, ident) {
      OnlyFrom(reqs[..n], scope, ident, req);
    }
  }

  lemma OrderedSnoc(reqs: seq<Request>, last: Request)
    requires Ordered(reqs) && NoUnderscore(last.ident) && forall req | req in reqs :: req.now <= last.now
    ensures Ordered(reqs + [last])
  {
    forall i | 0 <= i < |reqs| ensures reqs[i].now <= last.now {
      assert reqs[i] in reqs;
    }
  }

  lemma OrderedPrefix(reqs: seq<Request>, n: nat)
    requires Ordered(reqs) && n < |reqs|
    ensures Ordered(reqs[..n]) && NoUnderscore(reqs[n].ident)
    ensures forall req | req in reqs[..n] :: req.now <= reqs[n].now
  {
  }

  lemma OnlyBefore(reqs: seq<Request>, n: nat, scope: string, ident: string)
    requires Ordered(reqs) && n < |reqs|
    ensures forall req | req in Only(reqs[..n], scope, ident) :: req.now <= reqs[n].now
  {
    forall req | req in Only(reqs[..n], scope, ident) ensures req.now <= reqs[n].now {
      OnlyFrom(reqs[..n], scope, ident, req);
      OrderedPrefix(reqs, n);
    }
  }

  lemma {:induction false} OnlyOrdered(reqs: seq<Request>, scope: string, ident: string)
    requires Ordered(reqs)
    ensures Ordered(Only(reqs, scope, ident))
  {
    if reqs != [] {
      var n := |reqs| - 1;
      OrderedPrefix(reqs, n);
      OnlyOrdered(reqs[..n], scope, ident);
      OnlyBefore(reqs, n, scope, ident);
      OrderedSnoc(Only(reqs[..n], scope, ident), reqs[n]);
    }
  }

  lemma {:induction false} SameWaits(cache: Cache, cache': Cache, scope: string, ident: string, rates: seq<Rate>, now: real)
    requires forall rate | rate in rates ::
      Window(cache, scope, ident, rate, now) == Window(cache', scope, ident, rate, now)
    ensures Waits(cache, scope, ident, rates, now) == Waits(cache', scope, ident, rates, now)
  {
    if rates != [] {
      SameWaits(cache, cache', scope, ident, rates[..|rates| - 1], now);
    }
  }

  lemma SameTimesSameWaits(config: map<string, Setting>, s: State, s': State, scope: string, ident: string, now: real)
    requires LogUpTo(s.log, now) && PairInv(config, s, scope, ident)
    requires LogUpTo(s'.log, now) && PairInv(config, s', scope, ident)
    requires Times(s.log, scope, ident) == Times(s'.log, scope, ident)
    ensures Waits(s.cache, scope, ident, RatesOf(config, scope), now)
         == Waits(s'.cache, scope, ident, RatesOf(config, scope), now)
  {
    forall rate | rate in RatesOf(config, scope)
      ensures Window(s.cache, scope, ident, rate, now) == Window(s'.cache, scope, ident, rate, now)
    {
      WindowOfState(s, scope, ident, rate, now);
      WindowOfState(s', scope, ident, rate, now);
    }
    SameWaits(s.cache, s'.cache, scope, ident, RatesOf(config, scope), now);
  }

  lemma SameWaitsSameDecision(config: map<string, Setting>, cache: Cache, cache': Cache, req: Request)
    requires Waits(cache, req.Scope(), req.ident, RatesOf(config, req.Scope()), req.now)
          == Waits(cache', req.Scope(), req.ident, RatesOf(config, req.Scope()), req.now)
    ensures Decide(config, cache, req).0 == Decide(config, cache', req).0
  {
  }

  lemma SameTimesSameDecision(config: map<string, Setting>, reqs: seq<Request>, alone: seq<Request>, req: Request)
    requires Ordered(reqs + [req]) && Ordered(alone + [req])
    requires Times(Exec(config, reqs).log, req.Scope(), req.ident) == Times(Exec(config, alone).log, req.Scope(), req.ident)
    ensures Decide(config, Exec(config, reqs).cache, req).0 == Decide(config, Exec(config, alone).cache, req).0
  {
    ExecPair(config, reqs, req);
    ExecPair(config, alone, req);
    SameTimesSameWaits(config, Exec(config, reqs), Exec(config, alone), req.Scope(), req.ident, req.now);
    SameWaitsSameDecision(config, Exec(config, reqs).cache, Exec(config, alone).cache, req);
  }

  lemma OnlyThenOrdered(reqs: seq<Request>, req: Request)
    requires Ordered(reqs + [req])
    ensures Ordered(Only(reqs, req.Scope(), req.ident) + [req])
  {
    OnlyOrdered(reqs + [req], req.Scope(), req.ident);
    assert (reqs + [req])[..|reqs|] == reqs;
  }

  lemma OnlyLast(reqs: seq<Request>, last: Request, scope: string, ident: string)
    ensures Only(reqs + [last], scope, ident)
         == Only(reqs, scope, ident) + if last.Scope() == scope && last.ident == ident then [last] else []
  {
    assert (reqs + [last])[..|reqs|] == reqs;
  }

  lemma ExecLast(config: map<string, Setting>, reqs: seq<Request>, last: Request)
    ensures Exec(config, reqs + [last]) == Step(config, Exec(config, reqs), last)
  {
    assert (reqs + [last])[..|reqs|] == reqs;
  }

  lemma {:induction false} IsolatedTimes(config: map<string, Setting>, reqs: seq<Request>, req: Request)
    requires Ordered(reqs + [req])
    ensures Times(Exec(config, reqs).log, req.Scope(), req.ident)
         == Times(Exec(config, Only(reqs, req.Scope(), req.ident)).log, req.Scope(), req.ident)
    decreases |reqs|
  {
    if reqs != [] {
      var before, last := reqs[..|reqs| - 1], reqs[|reqs| - 1];
      assert before + [last] == reqs;
      DroppedOrdered(before, last, req);
      IsolatedTimes(config, before, req);
      ExecLast(config, before, last);
      OnlyLast(before, last, req.Scope(), req.ident);
      var alone := Only(before, req.Scope(), req.ident);
      if last.Scope() == req.Scope() && last.ident == req.ident {
        OnlyThenOrdered(before, last);
        ExecLast(config, alone, last);
        SameTimesSameDecision(config, before, alone, last);
        SameStepTimes(config, Exec(config, before), Exec(config, alone), last);
      } else {
        OtherStepTimes(config, Exec(config, before), last, req);
        assert Only(reqs, req.Scope(), req.ident) == alone;
      }
    }
  }

  /** Isolation: a client gets the same decision, wait included, and has its admissions recorded
      as if no other scope or ident had ever sent a request. */
  lemma Isolation(config: map<string, Setting>, reqs: seq<Request>, req: Request)
    requires Ordered(reqs + [req])
    ensures var alone := Only(reqs, req.Scope(), req.ident);
            && Times(Exec(config, reqs).log, req.Scope(), req.ident)
               == Times(Exec(config, alone).log, req.Scope(), req.ident)
            && Decide(config, Exec(config, reqs).cache, req).0 == Decide(config, Exec(config, alone).cache, req).0
  {
    IsolatedTimes(config, reqs, req);
    OnlyThenOrdered(reqs, req);
    SameTimesSameDecision(config, reqs, Only(reqs, req.Scope(), req.ident), req);
  }

  lemma OtherStepTimes(config: map<string, Setting>, s: State, other: Request, req: Request)
    requires (other.Scope(), other.ident) != (req.Scope(), req.ident)
    ensures Times(Step(config, s, other).log, req.Scope(), req.ident) == Times(s.log, req.Scope(), req.ident)
  {
    if Decide(config, s.cache, other).0 == Admitted {
      assert Step(config, s, other).log[1..] == s.log;
    }
  }

  lemma SameStepTimes(config: map<string, Setting>, s: State, s': State, req: Request)
    requires Times(s.log, req.Scope(), req.ident) == Times(s'.log, req.Scope(), req.ident)
    requires Decide(config, s.cache, req).0 == Decide(config, s'.cache, req).0
    ensures Times(Step(config, s, req).log, req.Scope(), req.ident)
         == Times(Step(config, s', req).log, req.Scope(), req.ident)
  {
    if Decide(config, s.cache, req).0 == Admitted {
      assert Step(config, s, req).log[1..] == s.log;
      assert Step(config, s', req).log[1..] == s'.log;
    }
  }

  lemma DroppedOrdered(before: seq<Request>, last: Request, req: Request)
    requires Ordered(before + [last] + [req])
    ensures Ordered(before + [req]) && Ordered(before + [last])
  {
    var all := before + [last] + [req];
    assert all[|before|] == last && all[|before| + 1] == req;
    assert forall i | 0 <= i < |before| :: (before + [req])[i] == (before + [last])[i] == all[i];
  }
}
