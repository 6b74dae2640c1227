/** Whole runs of login, refresh, cancel-token, flush and waiting: a refresh token works
    once, and each login always has exactly one usable refresh token. */
module TokenRuns {
  import opened Common
  import opened Tokens

  datatype Event =
    | Login(user: nat)
    | Refresh(token: Encoded)
    | IssueCancelToken(user: nat, lifetime: int)
    | Flush
    | Wait(duration: nat)

  /** History of one issued refresh token: the login it descends from, and whether it has been
      exchanged. */
  datatype Issue = Issue(payload: Payload, login: nat, spent: bool)

  /** The server, its clock, and a record of the run: every refresh token by its id, and per
      login its user and its newest token's id. */
  datatype System = System(store: Store, clock: int, ledger: map<Claim, Issue>, users: seq<nat>, live: seq<Claim>)

  function Init(start: int): System {
    System(Store(0, map[], {}, {}), start, map[], [], [])
  }

  function CancelPayload(store: Store, user: nat, lifetime: int, now: int): Payload {
    NewPayload(Type(CancelType), now, Uuid(store.draws), lifetime)[USER_ID := Num(user)]
  }

  function Answer(lifetimes: Lifetimes, s: System, token: Encoded): Result<Pair, TokenError> {
    RefreshAnswer(s.store, lifetimes, token, s.clock)
  }

  /** Records an exchange: the old token is spent and its login's newest token is the new one. */
  function Exchange(s: System, jti: Claim, pair: Pair): (map<Claim, Issue>, seq<Claim>) {
    if jti in s.ledger && s.ledger[jti].login < |s.live| && JTI in pair.refresh then
      var issue := s.ledger[jti];
      (s.ledger[jti := issue.(spent := true)][pair.refresh[JTI] := Issue(pair.refresh, issue.login, false)],
       s.live[issue.login := pair.refresh[JTI]])
    else (s.ledger, s.live)
  }

  function Step(lifetimes: Lifetimes, s: System, event: Event): System {
    match event
    case Login(user) =>
      var pair := LoginPair(s.store, lifetimes, user, s.clock);
      s.(store := AfterLogin(s.store, lifetimes, user, s.clock),
         ledger := s.ledger[pair.refresh[JTI] := Issue(pair.refresh, |s.live|, false)],
         users := s.users + [user],
         live := s.live + [pair.refresh[JTI]])
    case Refresh(token) =>
      (match Answer(lifetimes, s, token)
       case Err(_) => s
       case Ok(pair) =>
         var (ledger, live) := Exchange(s, token.payload[JTI], pair);
         s.(store := AfterRefresh(s.store, lifetimes, token, s.clock), ledger := ledger, live := live))
    case IssueCancelToken(user, lifetime) =>
      s.(store := s.store.(draws := s.store.draws + 1,
                           signed := s.store.signed + {CancelPayload(s.store, user, lifetime, s.clock)}))
    case Flush => s.(store := AfterFlush(s.store, s.clock))
    case Wait(duration) => s.(clock := s.clock + duration)
  }

  function Exec(lifetimes: Lifetimes, start: int, events: seq<Event>): System {
    if events == [] then Init(start)
    else Step(lifetimes, Exec(lifetimes, start, events[..|events| - 1]), events[|events| - 1])
  }

  // ---------- the invariant ----------

  ghost predicate IsRefresh(p: Payload) {
    && JTI in p && EXP in p && p[EXP].Num?
    && TOKEN_TYPE in p && p[TOKEN_TYPE] == REFRESH
  }

  ghost predicate IssueOk(jti: Claim, issue: Issue, users: seq<nat>, draws: nat) {
    && IsRefresh(issue.payload) && issue.payload[JTI] == jti
    && jti.Uuid? && jti.draw < draws
    && issue.login < |users|
    && USER_ID in issue.payload && issue.payload[USER_ID] == Num(users[issue.login])
  }

  ghost predicate LedgerInv(ledger: map<Claim, Issue>, users: seq<nat>, draws: nat) {
    forall jti | jti in ledger :: IssueOk(jti, ledger[jti], users, draws)
  }

  ghost predicate SignedInv(signed: set<Payload>, ledger: map<Claim, Issue>) {
    && (forall p | p in signed :: TOKEN_TYPE in p && (p[TOKEN_TYPE] == REFRESH ==>
          JTI in p && p[JTI] in ledger && ledger[p[JTI]].payload == p))
    && (forall jti | jti in ledger :: ledger[jti].payload in signed)
  }

  ghost predicate LiveInv(live: seq<Claim>, ledger: map<Claim, Issue>) {
    && (forall l | 0 <= l < |live| :: live[l] in ledger && ledger[live[l]].login == l && !ledger[live[l]].spent)
    && (forall jti | jti in ledger && !ledger[jti].spent ::
          ledger[jti].login < |live| && live[ledger[jti].login] == jti)
  }

  ghost predicate RowOk(row: Row, issue: Issue) {
    IsRefresh(issue.payload) && row.expiresAt == Expiry(issue.payload)
  }

  ghost predicate TablesInv(store: Store, ledger: map<Claim, Issue>, clock: int) {
    && store.denylisted <= store.outstanding.Keys <= ledger.Keys
    && (forall jti | jti in store.denylisted :: jti in ledger && ledger[jti].spent)
    && (forall jti | jti in store.outstanding :: jti in ledger && RowOk(store.outstanding[jti], ledger[jti]))
    && (forall jti | jti in ledger && ledger[jti].spent ::
          jti in store.denylisted || (IsRefresh(ledger[jti].payload) && Expiry(ledger[jti].payload) <= clock))
  }

  ghost predicate Inv(s: System) {
    && |s.users| == |s.live|
    && LedgerInv(s.ledger, s.users, s.store.draws)
    && SignedInv(s.store.signed, s.ledger)
    && LiveInv(s.live, s.ledger)
    && TablesInv(s.store, s.ledger, s.clock)
  }

  // ---------- every step keeps it ----------

  lemma LoginPairFacts(store: Store, lifetimes: Lifetimes, user: nat, now: int)
    ensures var pair := LoginPair(store, lifetimes, user, now);
            && IsRefresh(pair.refresh) && pair.refresh[JTI] == Uuid(store.draws)
            && USER_ID in pair.refresh && pair.refresh[USER_ID] == Num(user)
            && TOKEN_TYPE in pair.access && pair.access[TOKEN_TYPE] == ACCESS
  {
  }

  lemma SignedGrows(signed: set<Payload>, ledger: map<Claim, Issue>, pair: Pair, login: nat)
    requires SignedInv(signed, ledger)
    requires JTI in pair.refresh && pair.refresh[JTI] !in ledger && TOKEN_TYPE in pair.refresh
    requires TOKEN_TYPE in pair.access && pair.access[TOKEN_TYPE] != REFRESH
    ensures SignedInv(signed + {pair.access, pair.refresh}, ledger[pair.refresh[JTI] := Issue(pair.refresh, login, false)])
  {
  }

  lemma LoginKeeps(lifetimes: Lifetimes, s: System, user: nat)
    requires Inv(s)
    ensures Inv(Step(lifetimes, s, Login(user)))
  {
    var pair := LoginPair(s.store, lifetimes, user, s.clock);
    LoginPairFacts(s.store, lifetimes, user, s.clock);
    assert Uuid(s.store.draws) !in s.ledger;
    var ledger' := s.ledger[pair.refresh[JTI] := Issue(pair.refresh, |s.live|, false)];
    SignedGrows(s.store.signed, s.ledger, pair, |s.live|);
    assert s.store.signed + {pair.access, pair.refresh} == s.store.signed + {pair.refresh, pair.access};
    assert LedgerInv(ledger', s.users + [user], s.store.draws + 2);
    assert LiveInv(s.live + [pair.refresh[JTI]], ledger');
    LoginTables(lifetimes, s, user);
  }

  lemma LoginTables(lifetimes: Lifetimes, s: System, user: nat)
    requires Inv(s)
    ensures var s' := Step(lifetimes, s, Login(user)); TablesInv(s'.store, s'.ledger, s'.clock)
  {
    LoginPairFacts(s.store, lifetimes, user, s.clock);
    assert Uuid(s.store.draws) !in s.ledger;
  }

  /** A successful refresh presents the newest token of some login. */
  lemma AnswerMeansLive(lifetimes: Lifetimes, s: System, token: Encoded)
    requires Inv(s) && Answer(lifetimes, s, token).Ok?
    ensures var jti := token.payload[JTI];
            && token.payload in s.store.signed && IsRefresh(token.payload)
            && jti in s.ledger && s.ledger[jti].payload == token.payload
            && !s.ledger[jti].spent && s.clock < Expiry(token.payload)
            && jti !in s.store.denylisted
  {
  }

  lemma RotatedFacts(store: Store, lifetimes: Lifetimes, token: Encoded, now: int)
    requires RefreshAnswer(store, lifetimes, token, now).Ok? && IsRefresh(token.payload)
    ensures var pair := RefreshAnswer(store, lifetimes, token, now).value;
            && IsRefresh(pair.refresh) && pair.refresh[JTI] == Uuid(store.draws + 1)
            && (USER_ID in token.payload ==>
                USER_ID in pair.refresh && pair.refresh[USER_ID] == token.payload[USER_ID])
            && TOKEN_TYPE in pair.access && pair.access[TOKEN_TYPE] == ACCESS
  {
  }

  lemma SignedSpends(signed: set<Payload>, ledger: map<Claim, Issue>, jti: Claim)
    requires SignedInv(signed, ledger) && jti in ledger
    ensures SignedInv(signed, ledger[jti := ledger[jti].(spent := true)])
  {
  }

  lemma RefreshTables(store: Store, ledger: map<Claim, Issue>, clock: int, payload: Payload, draws: nat, signed: set<Payload>)
    requires TablesInv(store, ledger, clock)
    requires IsRefresh(payload) && payload[JTI] in ledger && ledger[payload[JTI]].payload == payload
    ensures var jti := payload[JTI];
            TablesInv(Store(draws, Outstand(store.outstanding, payload), store.denylisted + {jti}, signed),
                      ledger[jti := ledger[jti].(spent := true)], clock)
  {
  }

  lemma TablesGrow(store: Store, ledger: map<Claim, Issue>, clock: int, jti: Claim, payload: Payload, login: nat)
    requires TablesInv(store, ledger, clock) && jti !in ledger
    ensures TablesInv(store, ledger[jti := Issue(payload, login, false)], clock)
  {
  }

  lemma RefreshKeeps(lifetimes: Lifetimes, s: System, token: Encoded)
    requires Inv(s) && Answer(lifetimes, s, token).Ok?
    ensures Inv(Step(lifetimes, s, Refresh(token)))
  {
    AnswerMeansLive(lifetimes, s, token);
    RotatedFacts(s.store, lifetimes, token, s.clock);
    var jti, pair := token.payload[JTI], Answer(lifetimes, s, token).value;
    var issue := s.ledger[jti];
    assert IssueOk(jti, issue, s.users, s.store.draws);
    assert Uuid(s.store.draws + 1) !in s.ledger;
    var spent := s.ledger[jti := issue.(spent := true)];
    SignedSpends(s.store.signed, s.ledger, jti);
    SignedGrows(s.store.signed, spent, pair, issue.login);
    var s' := Step(lifetimes, s, Refresh(token));
    RefreshTables(s.store, s.ledger, s.clock, token.payload, s'.store.draws, s'.store.signed);
    TablesGrow(s'.store, spent, s.clock, pair.refresh[JTI], pair.refresh, issue.login);
    assert s'.ledger == spent[pair.refresh[JTI] := Issue(pair.refresh, issue.login, false)];
    assert s'.live == s.live[issue.login := pair.refresh[JTI]];
    assert LedgerInv(s'.ledger, s.users, s'.store.draws);
    RefreshLive(s.live, s.ledger, jti, pair.refresh);
  }

  lemma RefreshLive(live: seq<Claim>, ledger: map<Claim, Issue>, jti: Claim, refresh: Payload)
    requires LiveInv(live, ledger) && jti in ledger && !ledger[jti].spent
    requires JTI in refresh && refresh[JTI] !in ledger
    ensures ledger[jti].login < |live|
    ensures LiveInv(live[ledger[jti].login := refresh[JTI]],
                    ledger[jti := ledger[jti].(spent := true)][refresh[JTI] := Issue(refresh, ledger[jti].login, false)])
  {
  }

  lemma StepKeeps(lifetimes: Lifetimes, s: System, event: Event)
    requires Inv(s)
    ensures Inv(Step(lifetimes, s, event))
  {
    match event {
      case Login(user) => LoginKeeps(lifetimes, s, user);
      case Refresh(token) => if Answer(lifetimes, s, token).Ok? { RefreshKeeps(lifetimes, s, token); }
      case IssueCancelToken(user, lifetime) =>
        assert CancelPayload(s.store, user, lifetime, s.clock)[TOKEN_TYPE] != REFRESH;
      case Flush =>
      case Wait(_) =>
    }
  }

  lemma {:induction false} ExecInv(lifetimes: Lifetimes, start: int, events: seq<Event>)
    ensures Inv(Exec(lifetimes, start, events))
  {
    if events != [] {
      ExecInv(lifetimes, start, events[..|events| - 1]);
      StepKeeps(lifetimes, Exec(lifetimes, start, events[..|events| - 1]), events[|events| - 1]);
    }
  }

  // ---------- main results ----------

  ghost predicate Newest(s: System, p: Payload) {
    exists l :: 0 <= l < |s.live| && s.live[l] in s.ledger && s.ledger[s.live[l]].payload == p
  }

  /** In every reachable state, flushed or not, a presented token is refreshed exactly when it
      is the newest refresh token of some login and has not expired. */
  lemma RefreshSucceedsIff(lifetimes: Lifetimes, start: int, events: seq<Event>, token: Encoded)
    ensures var s := Exec(lifetimes, start, events);
            Answer(lifetimes, s, token).Ok? <==>
              && token.Jwt? && Newest(s, token.payload)
              && CheckExp(token.payload, s.clock) == None
  {
    ExecInv(lifetimes, start, events);
    var s := Exec(lifetimes, start, events);
    if Answer(lifetimes, s, token).Ok? {
      AnswerMeansLive(lifetimes, s, token);
      var jti := token.payload[JTI];
      assert s.live[s.ledger[jti].login] == jti;
    } else if token.Jwt? && Newest(s, token.payload) {
      var l :| 0 <= l < |s.live| && s.live[l] in s.ledger && s.ledger[s.live[l]].payload == token.payload;
      assert IssueOk(s.live[l], s.ledger[s.live[l]], s.users, s.store.draws);
    }
  }

  ghost predicate Spent(s: System, p: Payload) {
    JTI in p && p[JTI] in s.ledger && s.ledger[p[JTI]].payload == p && s.ledger[p[JTI]].spent
  }

  lemma SpentStaysSpent(lifetimes: Lifetimes, s: System, event: Event, p: Payload)
    requires Inv(s) && Spent(s, p)
    ensures Spent(Step(lifetimes, s, event), p)
  {
    match event {
      case Login(user) =>
        LoginPairFacts(s.store, lifetimes, user, s.clock);
        assert IssueOk(p[JTI], s.ledger[p[JTI]], s.users, s.store.draws);
      case Refresh(token) =>
        if Answer(lifetimes, s, token).Ok? {
          AnswerMeansLive(lifetimes, s, token);
          RotatedFacts(s.store, lifetimes, token, s.clock);
          assert IssueOk(p[JTI], s.ledger[p[JTI]], s.users, s.store.draws);
        }
      case _ =>
    }
  }

  lemma SpentIsRefused(lifetimes: Lifetimes, s: System, p: Payload)
    requires Inv(s) && Spent(s, p)
    ensures Answer(lifetimes, s, Jwt(p)).Err?
  {
    if Answer(lifetimes, s, Jwt(p)).Ok? {
      AnswerMeansLive(lifetimes, s, Jwt(p));
    }
  }

  lemma ExecLast(lifetimes: Lifetimes, start: int, events: seq<Event>, last: Event)
    ensures Exec(lifetimes, start, events + [last]) == Step(lifetimes, Exec(lifetimes, start, events), last)
  {
    assert (events + [last])[..|events|] == events;
  }

  lemma {:induction false} SpentForEver(lifetimes: Lifetimes, start: int, events: seq<Event>, after: seq<Event>, p: Payload)
    requires Spent(Exec(lifetimes, start, events), p)
    ensures Spent(Exec(lifetimes, start, events + after), p)
  {
    if after == [] {
      assert events + after == events;
    } else {
      var n := |after| - 1;
      SpentForEver(lifetimes, start, events, after[..n], p);
      assert events + after == events + after[..n] + [after[n]];
      ExecInv(lifetimes, start, events + after[..n]);
      ExecLast(lifetimes, start, events + after[..n], after[n]);
      SpentStaysSpent(lifetimes, Exec(lifetimes, start, events + after[..n]), after[n], p);
    }
  }

  lemma RefreshSpends(lifetimes: Lifetimes, s: System, token: Encoded)
    requires Inv(s) && Answer(lifetimes, s, token).Ok?
    ensures Spent(Step(lifetimes, s, Refresh(token)), token.payload)
  {
    AnswerMeansLive(lifetimes, s, token);
    RotatedFacts(s.store, lifetimes, token, s.clock);
    var jti := token.payload[JTI];
    assert IssueOk(jti, s.ledger[jti], s.users, s.store.draws);
  }

  /** Single use: once refresh_token succeeds for a token it fails for that token in every
      later state of every run, whenever expired rows are flushed. */
  lemma SingleUse(lifetimes: Lifetimes, start: int, before: seq<Event>, token: Encoded, after: seq<Event>)
    requires Answer(lifetimes, Exec(lifetimes, start, before), token).Ok?
    ensures Answer(lifetimes, Exec(lifetimes, start, before + [Refresh(token)] + after), token).Err?
  {
    ExecInv(lifetimes, start, before);
    RefreshSpends(lifetimes, Exec(lifetimes, start, before), token);
    ExecLast(lifetimes, start, before, Refresh(token));
    SpentForEver(lifetimes, start, before + [Refresh(token)], after, token.payload);
    ExecInv(lifetimes, start, before + [Refresh(token)] + after);
    SpentIsRefused(lifetimes, Exec(lifetimes, start, before + [Refresh(token)] + after), token.payload);
  }

  ghost predicate Names(p: Payload, claim: ClaimName, value: Claim) {
    claim in p && p[claim] == value
  }

  ghost predicate SignedRefresh(s: System, p: Payload) {
    p in s.store.signed && Names(p, TOKEN_TYPE, REFRESH)
  }

  lemma ExchangedClaims(lifetimes: Lifetimes, s: System, token: Encoded)
    requires Inv(s) && Answer(lifetimes, s, token).Ok?
    ensures var pair := Answer(lifetimes, s, token).value;
            && token.payload[JTI] in s.ledger
            && var l := s.ledger[token.payload[JTI]].login;
            && l < |s.users|
            && Names(token.payload, USER_ID, Num(s.users[l]))
            && Names(pair.refresh, USER_ID, Num(s.users[l])) && Names(pair.access, USER_ID, Num(s.users[l]))
  {
    AnswerMeansLive(lifetimes, s, token);
    var jti := token.payload[JTI];
    assert IssueOk(jti, s.ledger[jti], s.users, s.store.draws);
  }

  lemma ExchangedNewest(lifetimes: Lifetimes, s: System, token: Encoded)
    requires Inv(s) && Answer(lifetimes, s, token).Ok?
    ensures var s' := Step(lifetimes, s, Refresh(token));
            var pair := Answer(lifetimes, s, token).value;
            && token.payload[JTI] in s.ledger && JTI in pair.refresh
            && var l := s.ledger[token.payload[JTI]].login;
            && l < |s.live| == |s'.live| && s.live[l] == token.payload[JTI] && s'.live[l] == pair.refresh[JTI]
            && s'.users == s.users && Newest(s', pair.refresh)
  {
    AnswerMeansLive(lifetimes, s, token);
    RotatedFacts(s.store, lifetimes, token, s.clock);
    var l := s.ledger[token.payload[JTI]].login;
    assert Step(lifetimes, s, Refresh(token)).live == s.live[l := Answer(lifetimes, s, token).value.refresh[JTI]];
  }

  /** An exchange passes the login on: the new token is the newest of the login of the old one,
      and both new tokens name the same user. */
  lemma ExchangeKeepsUser(lifetimes: Lifetimes, start: int, events: seq<Event>, token: Encoded)
    requires Answer(lifetimes, Exec(lifetimes, start, events), token).Ok?
    ensures var s := Exec(lifetimes, start, events);
            var s' := Step(lifetimes, s, Refresh(token));
            var pair := Answer(lifetimes, s, token).value;
            && token.payload[JTI] in s.ledger && JTI in pair.refresh
            && var l := s.ledger[token.payload[JTI]].login;
            && l < |s'.live| == |s.live| && s.live[l] == token.payload[JTI] && s'.live[l] == pair.refresh[JTI]
            && l < |s.users| && s'.users == s.users && Newest(s', pair.refresh)
            && Names(token.payload, USER_ID, Num(s.users[l]))
            && Names(pair.refresh, USER_ID, Num(s.users[l])) && Names(pair.access, USER_ID, Num(s.users[l]))
  {
    ExecInv(lifetimes, start, events);
    ExchangedClaims(lifetimes, Exec(lifetimes, start, events), token);
    ExchangedNewest(lifetimes, Exec(lifetimes, start, events), token);
  }

  ghost predicate NoFlush(events: seq<Event>) {
    Flush !in events
  }

  lemma {:induction false} SpentIsDenylisted(lifetimes: Lifetimes, start: int, events: seq<Event>, jti: Claim)
    requires NoFlush(events)
    ensures var s := Exec(lifetimes, start, events);
            jti in s.ledger && s.ledger[jti].spent ==> jti in s.store.denylisted
  {
    if events != [] {
      var n := |events| - 1;
      assert events[n] in events;
      SpentIsDenylisted(lifetimes, start, events[..n], jti);
      var s := Exec(lifetimes, start, events[..n]);
      if events[n].Refresh? && Answer(lifetimes, s, events[n].token).Ok? {
        ExecInv(lifetimes, start, events[..n]);
        AnswerMeansLive(lifetimes, s, events[n].token);
        RotatedFacts(s.store, lifetimes, events[n].token, s.clock);
      }
    }
  }

  /** Existence: in every reachable state, flushed or not, the newest refresh token of each login
      is signed, carries its id and the user of the login, and is not denylisted. */
  lemma NewestIsUsable(lifetimes: Lifetimes, start: int, events: seq<Event>, l: nat)
    requires l < |Exec(lifetimes, start, events).live|
    ensures var s := Exec(lifetimes, start, events);
            && s.live[l] in s.ledger && l < |s.users|
            && var p := s.ledger[s.live[l]].payload;
            && SignedRefresh(s, p) && Names(p, JTI, s.live[l]) && Names(p, USER_ID, Num(s.users[l]))
            && s.live[l] !in s.store.denylisted
  {
    ExecInv(lifetimes, start, events);
    var s := Exec(lifetimes, start, events);
    assert IssueOk(s.live[l], s.ledger[s.live[l]], s.users, s.store.draws);
  }

  /** Rotation chains, in every reachable state of a run without flushes: of all refresh tokens
      ever signed exactly one per login is not denylisted, no two share an id, denylisted ids
      are outstanding, and every token names the user of its login. */
  lemma RotationChains(lifetimes: Lifetimes, start: int, events: seq<Event>, p: Payload, q: Payload, l: nat)
    requires NoFlush(events)
    ensures var s := Exec(lifetimes, start, events);
            && s.store.denylisted <= s.store.outstanding.Keys
            && (l < |s.live| ==>
                && s.live[l] in s.ledger && s.ledger[s.live[l]].login == l
                && var newest := s.ledger[s.live[l]].payload;
                && SignedRefresh(s, newest) && Names(newest, JTI, s.live[l]) && s.live[l] !in s.store.denylisted)
            && (SignedRefresh(s, p) ==>
                && JTI in p && p[JTI] in s.ledger
                && s.ledger[p[JTI]].login < |s.live| == |s.users|
                && (p[JTI] !in s.store.denylisted <==> s.live[s.ledger[p[JTI]].login] == p[JTI])
                && Names(p, USER_ID, Num(s.users[s.ledger[p[JTI]].login])))
            && (SignedRefresh(s, p) && SignedRefresh(s, q) && JTI in p && JTI in q && p[JTI] == q[JTI] ==> p == q)
  {
    ExecInv(lifetimes, start, events);
    var s := Exec(lifetimes, start, events);
    if l < |s.live| {
      NewestIsUsable(lifetimes, start, events, l);
    }
    if SignedRefresh(s, p) {
      SpentIsDenylisted(lifetimes, start, events, p[JTI]);
      assert IssueOk(p[JTI], s.ledger[p[JTI]], s.users, s.store.draws);
    }
  }
}
