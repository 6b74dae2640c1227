/** JSON web tokens with a denylist: expiry stamps, claim checks, derivation of an access token
    and the rotation of a refresh token. Times are microseconds since the epoch. */
module Tokens {
  import opened Common

  /** Values of the token type claim. */
  datatype TokenType = RefreshType | AccessType | CancelType | OtherType(name: string)

  /** A claim value; `Uuid(n)` is the n-th draw of uuid4, so draws never repeat. */
  datatype Claim = Text(text: string) | Num(num: int) | Uuid(draw: nat) | Type(tokenType: TokenType)

  /** The claims the code names, and any other. */
  datatype ClaimName = TOKEN_TYPE | EXP | JTI | USER_ID | Custom(name: string)

  type Payload = map<ClaimName, Claim>

  /** A presented token string: the encoding of a payload, or text that does not decode. */
  datatype Encoded = Jwt(payload: Payload) | Malformed

  datatype TokenError =
    | InvalidToken | Expired | NoExp | BadExp | NoId | NoType | WrongType | Denylisted | MissingKey

  const SECOND: int := 1_000_000
  const REFRESH: Claim := Type(RefreshType)
  const ACCESS: Claim := Type(AccessType)
  const NO_COPY: set<ClaimName> := {TOKEN_TYPE, EXP, JTI}

  /** The lifetimes of the two token classes. */
  datatype Lifetimes = Lifetimes(access: int, refresh: int)

  // ---------- whole seconds ----------

  function DatetimeToEpoch(t: int): int {
    t / SECOND
  }

  function DatetimeFromEpoch(epoch: int): int {
    epoch * SECOND
  }

  function Stamp(from: int, lifetime: int): Claim {
    Num(DatetimeToEpoch(from + lifetime))
  }

  // ---------- verification ----------

  function CheckExp(payload: Payload, now: int): Option<TokenError> {
    if EXP !in payload then Some(NoExp)
    else
      match payload[EXP]
      case Num(epoch) => if DatetimeFromEpoch(epoch) <= now then Some(Expired) else None
      case _ => Some(BadExp)
  }

  function VerifyTokenType(payload: Payload, tokenType: Claim): Option<TokenError> {
    if TOKEN_TYPE !in payload then Some(NoType)
    else if payload[TOKEN_TYPE] != tokenType then Some(WrongType)
    else None
  }

  /** Token.verify: expiry, then the presence of an id, then the type. */
  function Verify(payload: Payload, tokenType: Claim, now: int): Option<TokenError> {
    match CheckExp(payload, now)
    case Some(e) => Some(e)
    case None => if JTI !in payload then Some(NoId) else VerifyTokenType(payload, tokenType)
  }

  /** DenylistMixin.verify: the denylist is asked first, and reading the id can raise. */
  function VerifyRefresh(denylisted: set<Claim>, payload: Payload, now: int): Option<TokenError> {
    if JTI !in payload then Some(MissingKey)
    else if payload[JTI] in denylisted then Some(Denylisted)
    else Verify(payload, REFRESH, now)
  }

  /** A signature is valid exactly for payloads this server has signed. */
  function Decode(signed: set<Payload>, token: Encoded): Option<Payload> {
    if token.Jwt? && token.payload in signed then Some(token.payload) else None
  }

  // ---------- derivation ----------

  function AccessPayload(refresh: Payload, now: int, jti: Claim, lifetime: int): Payload {
    map[TOKEN_TYPE := ACCESS, EXP := Stamp(now, lifetime), JTI := jti]
    + map claim | claim in refresh && claim !in NO_COPY :: refresh[claim]
  }

  function Rotated(refresh: Payload, now: int, jti: Claim, lifetime: int): Payload {
    refresh[JTI := jti][EXP := Stamp(now, lifetime)]
  }

  function NewPayload(tokenType: Claim, now: int, jti: Claim, lifetime: int): Payload {
    map[TOKEN_TYPE := tokenType, EXP := Stamp(now, lifetime), JTI := jti]
  }

  /** A base payload after copying the claims not pending any more. */
  ghost function CopyInto(base: Payload, refresh: Payload, pending: set<ClaimName>): Payload {
    base + map claim | claim in refresh && claim !in pending && claim !in NO_COPY :: refresh[claim]
  }

  lemma CopyStep(base: Payload, refresh: Payload, pending: set<ClaimName>, claim: ClaimName)
    requires claim in pending && claim in refresh
    ensures CopyInto(base, refresh, pending - {claim})
         == if claim in NO_COPY then CopyInto(base, refresh, pending)
            else CopyInto(base, refresh, pending)[claim := refresh[claim]]
  {
  }

  /** A token object: a payload changed in place, and the instant it was instantiated. */
  class Token {
    const tokenType: Claim
    const lifetime: int
    const currentTime: int
    var payload: Payload

    constructor New(tokenType: Claim, lifetime: int, now: int, jti: Claim)
      ensures this.tokenType == tokenType && this.lifetime == lifetime && currentTime == now
      ensures payload == NewPayload(tokenType, now, jti, lifetime)
    {
      this.tokenType, this.lifetime, this.currentTime := tokenType, lifetime, now;
      payload := map[TOKEN_TYPE := tokenType];
      new;
      SetExp(now, lifetime);
      SetJti(jti);
    }

    constructor FromPayload(tokenType: Claim, lifetime: int, now: int, payload: Payload)
      ensures this.tokenType == tokenType && this.lifetime == lifetime && currentTime == now
      ensures this.payload == payload
    {
      this.tokenType, this.lifetime, this.currentTime, this.payload := tokenType, lifetime, now, payload;
    }

    method SetExp(from: int, lifetime: int)
      modifies this
      ensures payload == old(payload)[EXP := Stamp(from, lifetime)]
    {
      payload := payload[EXP := Stamp(from, lifetime)];
    }

    method SetJti(jti: Claim)
      modifies this
      ensures payload == old(payload)[JTI := jti]
    {
      payload := payload[JTI := jti];
    }

    method SetItem(claim: ClaimName, value: Claim)
      modifies this
      ensures payload == old(payload)[claim := value]
    {
      payload := payload[claim := value];
    }

    /** The claims are visited in any order; the result does not depend on it. */
    method CopyClaims(access: Token)
      requires access != this
      modifies access
      ensures access.payload == CopyInto(old(access.payload), payload, {})
    {
      ghost var base := access.payload;
      var pending := payload.Keys;
      while pending != {}
        invariant pending <= payload.Keys
        invariant access.payload == CopyInto(base, payload, pending)
        decreases |pending|
      {
        var claim :| claim in pending;
        CopyStep(base, payload, pending, claim);
        pending := pending - {claim};
        if claim !in NO_COPY {
          access.SetItem(claim, payload[claim]);
        }
      }
    }

    method AccessToken(lifetime: int, jti: Claim) returns (access: Token)
      ensures fresh(access) && payload == old(payload)
      ensures access.payload == AccessPayload(payload, currentTime, jti, lifetime)
    {
      access := new Token.New(ACCESS, lifetime, currentTime, jti);
      access.SetExp(currentTime, lifetime);
      CopyClaims(access);
    }
  }

  // ---------- the denylist tables and the two services ----------

  /** A row of the outstanding table; the user is null when the row was made by denylisting. */
  datatype Row = Row(user: Option<nat>, token: Payload, createdAt: Option<int>, expiresAt: int)

  /** Tables, the uuid supply and everything signed so far. Denylist rows point at outstanding
      rows, so they are kept as the set of their ids. */
  datatype Store = Store(draws: nat, outstanding: map<Claim, Row>, denylisted: set<Claim>, signed: set<Payload>)

  datatype Pair = Pair(access: Payload, refresh: Payload)

  function Expiry(payload: Payload): int
    requires EXP in payload && payload[EXP].Num?
  {
    DatetimeFromEpoch(payload[EXP].num)
  }

  function LoginPair(store: Store, lifetimes: Lifetimes, user: nat, now: int): Pair {
    var refresh := NewPayload(REFRESH, now, Uuid(store.draws), lifetimes.refresh)[USER_ID := Num(user)];
    Pair(AccessPayload(refresh, now, Uuid(store.draws + 1), lifetimes.access), refresh)
  }

  function AfterLogin(store: Store, lifetimes: Lifetimes, user: nat, now: int): Store {
    var pair := LoginPair(store, lifetimes, user, now);
    var row := Row(Some(user), pair.refresh, Some(now), Expiry(pair.refresh));
    Store(store.draws + 2, store.outstanding[pair.refresh[JTI] := row], store.denylisted,
          store.signed + {pair.refresh, pair.access})
  }

  /** What refresh_token answers: an error, or the new pair. */
  function RefreshAnswer(store: Store, lifetimes: Lifetimes, token: Encoded, now: int): Result<Pair, TokenError> {
    match Decode(store.signed, token)
    case None => Err(InvalidToken)
    case Some(payload) =>
      match VerifyRefresh(store.denylisted, payload, now)
      case Some(e) => Err(e)
      case None => Ok(Pair(AccessPayload(payload, now, Uuid(store.draws), lifetimes.access),
                           Rotated(payload, now, Uuid(store.draws + 1), lifetimes.refresh)))
  }

  /** get_or_create leaves an existing outstanding row as it is. */
  function Outstand(outstanding: map<Claim, Row>, payload: Payload): map<Claim, Row>
    requires JTI in payload && EXP in payload && payload[EXP].Num?
  {
    if payload[JTI] in outstanding then outstanding
    else outstanding[payload[JTI] := Row(None, payload, None, Expiry(payload))]
  }

  function AfterRefresh(store: Store, lifetimes: Lifetimes, token: Encoded, now: int): Store {
    match RefreshAnswer(store, lifetimes, token, now)
    case Err(_) => store
    case Ok(pair) =>
      Store(store.draws + 2, Outstand(store.outstanding, token.payload),
            store.denylisted + {token.payload[JTI]}, store.signed + {pair.access, pair.refresh})
  }

  /** The flush command deletes expired outstanding rows, and their denylist rows with them. */
  function AfterFlush(store: Store, now: int): Store {
    var kept := map jti | jti in store.outstanding && store.outstanding[jti].expiresAt > now :: store.outstanding[jti];
    store.(outstanding := kept, denylisted := set jti | jti in store.denylisted && jti in kept)
  }

  class AuthService {
    const lifetimes: Lifetimes
    var draws: nat
    var outstanding: map<Claim, Row>
    var denylisted: set<Claim>
    var signed: set<Payload>

    function Snapshot(): Store
      reads this
    {
      Store(draws, outstanding, denylisted, signed)
    }

    constructor (lifetimes: Lifetimes)
      ensures this.lifetimes == lifetimes && Snapshot() == Store(0, map[], {}, {})
    {
      this.lifetimes := lifetimes;
      draws, outstanding, denylisted, signed := 0, map[], {}, {};
    }

    method Uuid4() returns (id: Claim)
      modifies this`draws
      ensures id == Uuid(old(draws)) && draws == old(draws) + 1
    {
      id, draws := Uuid(draws), draws + 1;
    }

    /** DenylistMixin.denylist on a verified token. */
    method Denylist(refresh: Token)
      requires JTI in refresh.payload && EXP in refresh.payload && refresh.payload[EXP].Num?
      modifies this`outstanding, this`denylisted
      ensures outstanding == Outstand(old(outstanding), refresh.payload)
      ensures denylisted == old(denylisted) + {refresh.payload[JTI]}
    {
      var jti := refresh.payload[JTI];
      if jti !in outstanding {
        outstanding := outstanding[jti := Row(None, refresh.payload, None, Expiry(refresh.payload))];
      }
      denylisted := denylisted + {jti};
    }

    method MakeAuthResponseData(user: nat, now: int) returns (pair: Pair)
      modifies this
      ensures pair == LoginPair(old(Snapshot()), lifetimes, user, now)
      ensures Snapshot() == AfterLogin(old(Snapshot()), lifetimes, user, now)
    {
      var jti := Uuid4();
      var refresh := new Token.New(REFRESH, lifetimes.refresh, now, jti);
      refresh.SetItem(USER_ID, Num(user));
      outstanding := outstanding[jti := Row(Some(user), refresh.payload, Some(now), Expiry(refresh.payload))];
      var accessJti := Uuid4();
      var access := refresh.AccessToken(lifetimes.access, accessJti);
      signed := signed + {refresh.payload, access.payload};
      pair := Pair(access.payload, refresh.payload);
    }

    /** The order matters: the access token is minted and the presented id denylisted before
        the same token object gets its new id and expiry. */
    method RefreshToken(token: Encoded, now: int) returns (answer: Result<Pair, TokenError>)
      modifies this
      ensures answer == RefreshAnswer(old(Snapshot()), lifetimes, token, now)
      ensures Snapshot() == AfterRefresh(old(Snapshot()), lifetimes, token, now)
    {
      var decoded := Decode(signed, token);
      if decoded.None? {
        return Err(InvalidToken);
      }
      var failure := VerifyRefresh(denylisted, decoded.value, now);
      if failure.Some? {
        return Err(failure.value);
      }
      var refresh := new Token.FromPayload(REFRESH, lifetimes.refresh, now, decoded.value);
      var accessJti := Uuid4();
      var access := refresh.AccessToken(lifetimes.access, accessJti);
      Denylist(refresh);
      var jti := Uuid4();
      refresh.SetJti(jti);
      refresh.SetExp(refresh.currentTime, refresh.lifetime);
      signed := signed + {access.payload, refresh.payload};
      return Ok(Pair(access.payload, refresh.payload));
    }
  }

  // ---------- expiry arithmetic ----------

  /** A stamp is honoured exactly while the clock's whole second is before the stamp's. */
  lemma StampedUntil(payload: Payload, from: int, lifetime: int, now: int)
    requires EXP in payload && payload[EXP] == Stamp(from, lifetime)
    ensures CheckExp(payload, now) == None <==> now / SECOND < (from + lifetime) / SECOND
    ensures now >= from + lifetime ==> CheckExp(payload, now) == Some(Expired)
    ensures now < from + lifetime - SECOND ==> CheckExp(payload, now) == None
  {
    var epoch := (from + lifetime) / SECOND;
    assert epoch * SECOND <= now <==> epoch <= now / SECOND;
  }

  /** The access token is of its own type with its own id, carries every other claim of the
      refresh token unchanged and no further one. */
  lemma AccessCarriesClaims(refresh: Payload, now: int, jti: Claim, lifetime: int, claim: ClaimName)
    ensures var access := AccessPayload(refresh, now, jti, lifetime);
            && access[TOKEN_TYPE] == ACCESS && access[JTI] == jti && access[EXP] == Stamp(now, lifetime)
            && (claim in access <==> claim in refresh || claim in NO_COPY)
            && (claim in refresh && claim !in NO_COPY ==> access[claim] == refresh[claim])
            && (now / SECOND < (now + lifetime) / SECOND ==> Verify(access, ACCESS, now) == None)
            && VerifyTokenType(access, REFRESH) == Some(WrongType)
  {
    StampedUntil(AccessPayload(refresh, now, jti, lifetime), now, lifetime, now);
  }

  /** With the access lifetime no longer than the refresh lifetime, whenever the access token
      of an answered pair is still accepted so is the expiry of the refresh token beside it. */
  lemma AccessNeverOutlivesRefresh(store: Store, lifetimes: Lifetimes, token: Encoded, user: nat, now: int, later: int)
    requires lifetimes.access <= lifetimes.refresh
    ensures var pair := LoginPair(store, lifetimes, user, now);
            Expiry(pair.access) <= Expiry(pair.refresh)
            && (CheckExp(pair.access, later) == None ==> CheckExp(pair.refresh, later) == None)
    ensures match RefreshAnswer(store, lifetimes, token, now)
            case Err(_) => true
            case Ok(pair) => Expiry(pair.access) <= Expiry(pair.refresh)
                             && (CheckExp(pair.access, later) == None ==> CheckExp(pair.refresh, later) == None)
  {
    assert (now + lifetimes.access) / SECOND <= (now + lifetimes.refresh) / SECOND;
  }

  // ---------- what the services hand out ----------

  /** A pair for the user: both tokens signed from `now`, each with its own type, id and lifetime,
      and each accepted exactly while its own lifetime, counted in whole seconds, lasts. */
  ghost predicate PairOf(pair: Pair, user: Claim, lifetimes: Lifetimes, now: int, t: int) {
    && (USER_ID in pair.access && pair.access[USER_ID] == user && USER_ID in pair.refresh && pair.refresh[USER_ID] == user)
    && (Verify(pair.access, ACCESS, t) == None <==> t / 1_000_000 < (now + lifetimes.access) / 1_000_000)
    && (Verify(pair.refresh, REFRESH, t) == None <==> t / 1_000_000 < (now + lifetimes.refresh) / 1_000_000)
    && JTI in pair.access && JTI in pair.refresh && pair.access[JTI] != pair.refresh[JTI]
  }

  /** A login hands out a pair for its user, each token with the lifetime of its own class, under
      two new ids. */
  lemma LoginPairIs(store: Store, lifetimes: Lifetimes, user: nat, now: int, t: int)
    ensures var pair := LoginPair(store, lifetimes, user, now);
            && PairOf(pair, Num(user), lifetimes, now, t)
            && {pair.access[JTI], pair.refresh[JTI]} == {Uuid(store.draws), Uuid(store.draws + 1)}
  {
    var pair := LoginPair(store, lifetimes, user, now);
    StampedUntil(pair.access, now, lifetimes.access, t);
    StampedUntil(pair.refresh, now, lifetimes.refresh, t);
  }

  /** So does a successful refresh of a token that names its user. */
  lemma RefreshPairIs(store: Store, lifetimes: Lifetimes, token: Encoded, now: int, t: int)
    requires RefreshAnswer(store, lifetimes, token, now).Ok? && USER_ID in token.payload
    ensures var pair := RefreshAnswer(store, lifetimes, token, now).value;
            && PairOf(pair, token.payload[USER_ID], lifetimes, now, t)
            && {pair.access[JTI], pair.refresh[JTI]} == {Uuid(store.draws), Uuid(store.draws + 1)}
  {
    var pair := RefreshAnswer(store, lifetimes, token, now).value;
    StampedUntil(pair.access, now, lifetimes.access, t);
    StampedUntil(pair.refresh, now, lifetimes.refresh, t);
  }

  /** The tables after a login: one outstanding row more, of the user, created now and expiring with
      the refresh token's stamp; nothing is denylisted. */
  lemma LoginRecords(store: Store, lifetimes: Lifetimes, user: nat, now: int)
    ensures var pair, store' := LoginPair(store, lifetimes, user, now), AfterLogin(store, lifetimes, user, now);
            && var row := Row(Some(user), pair.refresh, Some(now), (now + lifetimes.refresh) / 1_000_000 * 1_000_000);
            && JTI in pair.refresh && store'.outstanding == store.outstanding[pair.refresh[JTI] := row]
            && store'.denylisted == store.denylisted && store'.draws == store.draws + 2
            && store'.signed == store.signed + {pair.access, pair.refresh}
  {
  }

  /** The tables after a refresh: the presented token is outstanding and denylisted, a row it had stays
      as it was, one made for it has no user; a refused token changes nothing. */
  lemma RefreshRecords(store: Store, lifetimes: Lifetimes, token: Encoded, now: int)
    ensures var answer, store' := RefreshAnswer(store, lifetimes, token, now), AfterRefresh(store, lifetimes, token, now);
            && (answer.Err? ==> store' == store)
            && (answer.Ok? ==>
                  && JTI in token.payload && EXP in token.payload && token.payload[EXP].Num?
                  && var jti := token.payload[JTI];
                  && (jti in store.outstanding ==> store'.outstanding == store.outstanding)
                  && (jti !in store.outstanding ==>
                        store'.outstanding
                        == store.outstanding[jti := Row(None, token.payload, None, token.payload[EXP].num * 1_000_000)])
                  && store'.denylisted == store.denylisted + {jti} && store'.draws == store.draws + 2
                  && store'.signed == store.signed + {answer.value.access, answer.value.refresh})
  {
  }

  /** The tables after a flush: exactly the rows that expire later than now, with their denylisting. */
  lemma FlushedExactly(store: Store, now: int, jti: Claim)
    requires jti in store.outstanding
    ensures var store' := AfterFlush(store, now);
            && (jti in store'.outstanding <==> now < store.outstanding[jti].expiresAt)
            && (jti in store'.outstanding ==> store'.outstanding[jti] == store.outstanding[jti])
            && (jti in store'.denylisted <==> jti in store.denylisted && now < store.outstanding[jti].expiresAt)
  {
  }
}
