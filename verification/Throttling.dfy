/** The multi-rate sliding-window throttle: one request handled against the cache. */
module Throttling {
  import opened Common
  import opened Rates

  /** What the throttle reads from a request; `now` is the clock reading of its one atomic
      step, and `ident` the formatted user id or client address. */
  datatype Request = Request(authenticated: bool, httpMethod: string, ident: string,
                             whitelisted: bool, now: real)
  {
    function Scope(): string {
      GetScope(authenticated, httpMethod)
    }
  }

  /** `Unlimited` is a request let through without being recorded. */
  datatype Decision = Unlimited | Admitted | Denied(wait: real) | Failed(failure: Failure)

  /** A cached list, newest admission first, and the instant from which it reads as absent. */
  datatype Entry = Entry(history: seq<real>, expires: real)

  type Cache = map<string, Entry>

  datatype HistoryWrite = HistoryWrite(key: string, history: seq<real>, duration: real)

  function CacheKey(scope: string, rate: string, ident: string): string {
    "throttle_" + scope + "_" + rate + "_" + ident
  }

  function CacheGet(cache: Cache, key: string, now: real): seq<real> {
    if key in cache && now < cache[key].expires then cache[key].history else []
  }

  /** Pops from the old end everything at or before `cutoff`. */
  function Prune(history: seq<real>, cutoff: real): seq<real> {
    if history != [] && history[|history| - 1] <= cutoff
    then Prune(history[..|history| - 1], cutoff)
    else history
  }

  function WaitTime(history: seq<real>, rate: Rate, now: real): real {
    var remaining := if history != [] then rate.Duration() - (now - history[|history| - 1])
                     else rate.Duration();
    var available := rate.num - |history| + 1;
    if available <= 0 then remaining else remaining / available as real
  }

  function MaxOf(waits: seq<real>): (m: real)
    requires waits != []
    ensures m in waits
    ensures forall w | w in waits :: w <= m
  {
    if |waits| == 1 then waits[0]
    else
      var rest := MaxOf(waits[1..]);
      assert waits == [waits[0]] + waits[1..];
      if rest < waits[0] then waits[0] else rest
  }

  function Window(cache: Cache, scope: string, ident: string, rate: Rate, now: real): seq<real> {
    Prune(CacheGet(cache, CacheKey(scope, rate.name, ident), now), now - rate.Duration())
  }

  /** The waits appended by the loop over the rates. */
  function Waits(cache: Cache, scope: string, ident: string, rates: seq<Rate>, now: real): seq<real> {
    if rates == [] then []
    else
      var rate := rates[|rates| - 1];
      var window := Window(cache, scope, ident, rate, now);
      Waits(cache, scope, ident, rates[..|rates| - 1], now)
      + if |window| >= rate.num then [WaitTime(window, rate, now)] else []
  }

  /** The writes queued by the loop over the rates. */
  function Writes(cache: Cache, scope: string, ident: string, rates: seq<Rate>, now: real): seq<HistoryWrite> {
    if rates == [] then []
    else
      var rate := rates[|rates| - 1];
      Writes(cache, scope, ident, rates[..|rates| - 1], now)
      + [HistoryWrite(CacheKey(scope, rate.name, ident), Window(cache, scope, ident, rate, now), rate.Duration())]
  }

  /** The cache after the queued writes, each list with `now` inserted at its new end. */
  function StoreAll(cache: Cache, writes: seq<HistoryWrite>, now: real): Cache {
    if writes == [] then cache
    else
      var w := writes[|writes| - 1];
      StoreAll(cache, writes[..|writes| - 1], now)[w.key := Entry([now] + w.history, now + w.duration)]
  }

  predicate AllParsed(rates: seq<Option<Rate>>) {
    forall r | r in rates :: r.Some?
  }

  function Values(rates: seq<Option<Rate>>): (values: seq<Rate>)
    requires AllParsed(rates)
    ensures |values| == |rates|
    ensures forall i | 0 <= i < |rates| :: values[i] == rates[i].value
  {
    seq(|rates|, i requires 0 <= i < |rates| => rates[i].value)
  }

  /** The rates a request is held to; none when it is let through unrecorded. */
  function ActiveRates(config: map<string, Setting>, req: Request): Result<seq<Rate>, Failure> {
    match GetRates(config, req.Scope())
    case Err(e) => Err(e)
    case Ok(rates) =>
      if req.whitelisted then Ok([])
      else if AllParsed(rates) then Ok(Values(rates))
      else Err(BadRate)
  }

  function Decide(config: map<string, Setting>, cache: Cache, req: Request): (Decision, Cache) {
    match ActiveRates(config, req)
    case Err(e) => (Failed(e), cache)
    case Ok(rates) =>
      if rates == [] then (Unlimited, cache)
      else
        var waits := Waits(cache, req.Scope(), req.ident, rates, req.now);
        if waits != [] then (Denied(MaxOf(waits)), cache)
        else (Admitted, StoreAll(cache, Writes(cache, req.Scope(), req.ident, rates, req.now), req.now))
  }

  function Answer(decision: Decision): Result<bool, Failure> {
    match decision
    case Failed(e) => Err(e)
    case Denied(_) => Ok(false)
    case _ => Ok(true)
  }

  lemma CheckedNext(cache: Cache, scope: string, ident: string, rates: seq<Option<Rate>>, i: nat, now: real)
    requires i < |rates| && AllParsed(rates[..i]) && rates[i].Some?
    ensures AllParsed(rates[..i + 1])
    ensures var window := Window(cache, scope, ident, rates[i].value, now);
            && Waits(cache, scope, ident, Values(rates[..i + 1]), now)
               == Waits(cache, scope, ident, Values(rates[..i]), now)
                  + (if |window| >= rates[i].value.num then [WaitTime(window, rates[i].value, now)] else [])
            && Writes(cache, scope, ident, Values(rates[..i + 1]), now)
               == Writes(cache, scope, ident, Values(rates[..i]), now)
                  + [HistoryWrite(CacheKey(scope, rates[i].value.name, ident), window, rates[i].value.Duration())]
  {
    assert rates[..i + 1] == rates[..i] + [rates[i]];
    assert Values(rates[..i + 1])[..i] == Values(rates[..i]);
  }

  /** The inner loop: pops from the old end until the last time is after `cutoff`. */
  method PopExpired(cached: seq<real>, cutoff: real) returns (history: seq<real>)
    ensures history == Prune(cached, cutoff)
    ensures history <= cached && (history != [] ==> cutoff < history[|history| - 1])
  {
    history := cached;
    while history != [] && history[|history| - 1] <= cutoff
      invariant history <= cached && Prune(history, cutoff) == Prune(cached, cutoff)
      decreases |history|
    {
      history := history[..|history| - 1];
    }
  }

  class CommonThrottle {
    const throttleRates: map<string, Setting>
    var cache: Cache
    var waitSeconds: Option<real>

    constructor (throttleRates: map<string, Setting>)
      ensures this.throttleRates == throttleRates && cache == map[] && waitSeconds == None
    {
      this.throttleRates := throttleRates;
      cache, waitSeconds := map[], None;
    }

    /** The loop of allow_request over the rates: `None` when it trips over an unparsed one. */
    method CheckRates(scope: string, ident: string, rates: seq<Option<Rate>>, now: real)
      returns (found: Option<(seq<real>, seq<HistoryWrite>)>)
      ensures found == if AllParsed(rates)
                       then Some((Waits(cache, scope, ident, Values(rates), now),
                                  Writes(cache, scope, ident, Values(rates), now)))
                       else None
    {
      var waits: seq<real>, writes: seq<HistoryWrite> := [], [];
      for i := 0 to |rates|
        invariant AllParsed(rates[..i])
        invariant waits == Waits(cache, scope, ident, Values(rates[..i]), now)
        invariant writes == Writes(cache, scope, ident, Values(rates[..i]), now)
      {
        if rates[i].None? {
          assert rates[i] in rates;
          return None;
        }
        var rate := rates[i].value;
        var key := CacheKey(scope, rate.name, ident);
        var history := PopExpired(CacheGet(cache, key, now), now - rate.Duration());
        if |history| >= rate.num {
          waits := waits + [WaitTime(history, rate, now)];
        }
        writes := writes + [HistoryWrite(key, history, rate.Duration())];
        CheckedNext(cache, scope, ident, rates, i, now);
      }
      assert rates[..|rates|] == rates;
      return Some((waits, writes));
    }

    /** The second loop of allow_request. */
    method StoreHistories(writes: seq<HistoryWrite>, now: real)
      modifies this`cache
      ensures cache == StoreAll(old(cache), writes, now)
    {
      for i := 0 to |writes|
        invariant cache == StoreAll(old(cache), writes[..i], now)
      {
        cache := cache[writes[i].key := Entry([now] + writes[i].history, now + writes[i].duration)];
        assert writes[..i + 1][..i] == writes[..i];
      }
      assert writes[..|writes|] == writes;
    }

    method AllowRequest(req: Request) returns (allowed: Result<bool, Failure>)
      modifies this
      ensures allowed == Answer(Decide(throttleRates, old(cache), req).0)
      ensures cache == Decide(throttleRates, old(cache), req).1
      ensures waitSeconds == match Decide(throttleRates, old(cache), req).0
                             case Denied(wait) => Some(wait)
                             case _ => old(waitSeconds)
    {
      var got := GetRates(throttleRates, req.Scope());
      if got.Err? {
        return Err(got.error);
      }
      if req.whitelisted || got.value == [] {
        return Ok(true);
      }
      var found := CheckRates(req.Scope(), req.ident, got.value, req.now);
      if found.None? {
        return Err(BadRate);
      }
      var (waits, writes) := found.value;
      if waits != [] {
        waitSeconds := Some(MaxOf(waits));
        return Ok(false);
      }
      StoreHistories(writes, req.now);
      return Ok(true);
    }
  }
}
