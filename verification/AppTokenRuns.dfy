/** External-application codes and tokens over every run of requests. */
module AppTokenRuns {
  import opened Common
  import opened AppTokens

  function Exec(applications: set<nat>, events: seq<Event>): Store {
    if events == [] then Store(applications, [], 0)
    else Step(Exec(applications, events[..|events| - 1]), events[|events| - 1]).0
  }

  /** The answer to the i-th request of a run. */
  function AnswerAt(applications: set<nat>, events: seq<Event>, i: nat): Answer
    requires i < |events|
  {
    Step(Exec(applications, events[..i]), events[i]).1
  }

  function Draw(event: Event): Option<string> {
    match event
    case Authorize(_, _, _, draw) => Some(draw)
    case ShowToken(_, _, _, draw) => Some(draw)
    case _ => None
  }

  /** uuid4 never gives a value twice. */
  ghost predicate FreshDraws(events: seq<Event>) {
    forall i, j | 0 <= i < j < |events| && Draw(events[i]).Some? :: Draw(events[i]) != Draw(events[j])
  }

  ghost predicate Drawn(events: seq<Event>, code: string) {
    exists i | 0 <= i < |events| :: Draw(events[i]) == Some(code)
  }

  // ---------- the invariant ----------

  /** Ids grow along the table, a token signs its own row, and no two rows share a pair or a code. */
  ghost predicate Sound(s: Store) {
    && (forall i | 0 <= i < |s.rows| :: s.rows[i].id < s.nextId)
    && (forall i | 0 <= i < |s.rows| :: s.rows[i].token.Some? ==> s.rows[i].token.value.id == s.rows[i].id)
    && (forall i, j | 0 <= i < j < |s.rows| :: s.rows[i].id < s.rows[j].id)
    && (forall i, j | 0 <= i < j < |s.rows| ::
          !(s.rows[i].user == s.rows[j].user && s.rows[i].application == s.rows[j].application))
    && (forall i, j | 0 <= i < j < |s.rows| :: s.rows[i].authCode.Some? ==> s.rows[i].authCode != s.rows[j].authCode)
  }

  ghost predicate NoCode(s: Store, code: string) {
    forall i | 0 <= i < |s.rows| :: s.rows[i].authCode != Some(code)
  }

  /** Where a code can be found after a step. */
  ghost predicate CodesFrom(s: Store, s': Store, draw: Option<string>) {
    forall i | 0 <= i < |s'.rows| && s'.rows[i].authCode.Some? ::
      s'.rows[i].authCode == draw
      || exists j | 0 <= j < |s.rows| ::
           s.rows[j].authCode == s'.rows[i].authCode && s.rows[j].user == s'.rows[i].user
           && s.rows[j].application == s'.rows[i].application
  }

  lemma RecodedSound(s: Store, i: nat, draw: string, state: Option<string>)
    requires Sound(s) && i < |s.rows| && NoCode(s, draw)
    ensures Sound(s.(rows := s.rows[i := Recoded(s.rows[i], draw, state)]))
    ensures CodesFrom(s, s.(rows := s.rows[i := Recoded(s.rows[i], draw, state)]), Some(draw))
  {
  }

  lemma RedeemedSound(s: Store, i: nat, at: int)
    requires Sound(s) && i < |s.rows|
    ensures Sound(s.(rows := s.rows[i := Redeemed(s.rows[i], at)]))
    ensures CodesFrom(s, s.(rows := s.rows[i := Redeemed(s.rows[i], at)]), None)
  {
  }

  lemma RemovedSound(s: Store, i: nat)
    requires Sound(s) && i < |s.rows|
    ensures Sound(s.(rows := s.rows[..i] + s.rows[i + 1..]))
    ensures CodesFrom(s, s.(rows := s.rows[..i] + s.rows[i + 1..]), None)
  {
    var rows := s.rows[..i] + s.rows[i + 1..];
    forall k | 0 <= k < |rows| ensures rows[k] == s.rows[if k < i then k else k + 1] {
    }
  }

  lemma AuthorizedSound(s: Store, user: nat, application: nat, state: Option<string>, draw: string)
    requires Sound(s) && NoCode(s, draw)
    ensures Sound(AfterAuthorize(s, user, application, state, draw))
    ensures CodesFrom(s, AfterAuthorize(s, user, application, state, draw), Some(draw))
  {
    FoundPair(s.rows, user, application);
    if FindPair(s.rows, user, application).Some? {
      RecodedSound(s, FindPair(s.rows, user, application).value, draw, state);
    }
  }

  lemma ValidatedSound(s: Store, application: Option<nat>, code: Option<string>, state: Option<string>, at: int)
    requires Sound(s)
    ensures var s' := StepValidate(s, application, code, state, at).0; Sound(s') && CodesFrom(s, s', None)
  {
    if application.Some? && |Matching(s.rows, application.value, code, state)| == 1 {
      RedeemedSound(s, Matching(s.rows, application.value, code, state)[0], at);
    }
  }

  lemma DestroyedSound(s: Store, user: Option<nat>, id: nat)
    requires Sound(s)
    ensures var s' := StepDestroy(s, user, id).0; Sound(s') && CodesFrom(s, s', None)
  {
    if user.Some? && FindId(s.rows, id, user.value).Some? {
      RemovedSound(s, FindId(s.rows, id, user.value).value);
    }
  }

  lemma IssuedSound(s: Store, user: Option<nat>, application: Option<nat>, state: Option<string>, draw: string)
    requires Sound(s) && NoCode(s, draw)
    ensures var s' := StepAuthorize(s, user, application, state, draw).0; Sound(s') && CodesFrom(s, s', Some(draw))
    ensures var s' := StepShow(s, user, application, state, draw).0; Sound(s') && CodesFrom(s, s', Some(draw))
  {
    if user.Some? && application.Some? {
      AuthorizedSound(s, user.value, application.value, state, draw);
    }
  }

  lemma StepSound(s: Store, event: Event)
    requires Sound(s) && (Draw(event).Some? ==> NoCode(s, Draw(event).value))
    ensures Sound(Step(s, event).0) && CodesFrom(s, Step(s, event).0, Draw(event))
  {
    match event
    case Authorize(user, application, state, draw) => IssuedSound(s, user, application, state, draw);
    case ShowToken(user, application, state, draw) => IssuedSound(s, user, application, state, draw);
    case Validate(application, code, state, at) => ValidatedSound(s, application, code, state, at);
    case Destroy(user, id) => DestroyedSound(s, user, id);
  }

  ghost predicate CodesDrawn(s: Store, events: seq<Event>) {
    forall i | 0 <= i < |s.rows| && s.rows[i].authCode.Some? :: Drawn(events, s.rows[i].authCode.value)
  }

  lemma DrawnGrows(events: seq<Event>, event: Event, code: string)
    ensures Drawn(events + [event], code) <==> Drawn(events, code) || Draw(event) == Some(code)
  {
    assert (events + [event])[|events|] == event;
    assert forall i | 0 <= i < |events| :: (events + [event])[i] == events[i];
  }

  lemma FreshPrefix(events: seq<Event>, n: nat)
    requires FreshDraws(events) && n <= |events|
    ensures FreshDraws(events[..n])
    ensures n < |events| && Draw(events[n]).Some? ==> !Drawn(events[..n], Draw(events[n]).value)
  {
  }

  /** Every reachable table: one row per user and application, pairwise distinct codes, tokens of
      their own row, and only codes that were drawn in the run. */
  lemma {:induction false} ExecSound(applications: set<nat>, events: seq<Event>)
    requires FreshDraws(events)
    ensures Sound(Exec(applications, events)) && CodesDrawn(Exec(applications, events), events)
    ensures Exec(applications, events).applications == applications
  {
    if events != [] {
      var n := |events| - 1;
      var s := Exec(applications, events[..n]);
      FreshPrefix(events, n);
      ExecSound(applications, events[..n]);
      StepSound(s, events[n]);
      assert events == events[..n] + [events[n]];
      forall i | 0 <= i < |Step(s, events[n]).0.rows| && Step(s, events[n]).0.rows[i].authCode.Some?
        ensures Drawn(events, Step(s, events[n]).0.rows[i].authCode.value)
      {
        DrawnGrows(events[..n], events[n], Step(s, events[n]).0.rows[i].authCode.value);
      }
    }
  }

  // ---------- a code is redeemed at most once ----------

  lemma NoCodeStays(s: Store, event: Event, code: string)
    requires Sound(s) && (Draw(event).Some? ==> NoCode(s, Draw(event).value))
    requires NoCode(s, code) && Draw(event) != Some(code)
    ensures NoCode(Step(s, event).0, code)
  {
    StepSound(s, event);
  }

  lemma FreshFor(s: Store, events: seq<Event>, n: nat)
    requires FreshDraws(events) && n < |events| && CodesDrawn(s, events[..n])
    ensures Draw(events[n]).Some? ==> NoCode(s, Draw(events[n]).value)
  {
    FreshPrefix(events, n);
  }

  lemma ExecNext(applications: set<nat>, events: seq<Event>, j: nat)
    requires j < |events|
    ensures Exec(applications, events[..j + 1]) == Step(Exec(applications, events[..j]), events[j]).0
  {
    assert events[..j + 1][..j] == events[..j];
  }

  lemma ExecSoundAt(applications: set<nat>, events: seq<Event>, j: nat)
    requires FreshDraws(events) && j <= |events|
    ensures Sound(Exec(applications, events[..j])) && CodesDrawn(Exec(applications, events[..j]), events[..j])
    ensures j < |events| && Draw(events[j]).Some? ==> NoCode(Exec(applications, events[..j]), Draw(events[j]).value)
  {
    FreshPrefix(events, j);
    ExecSound(applications, events[..j]);
    if j < |events| {
      FreshFor(Exec(applications, events[..j]), events, j);
    }
  }

  lemma NotDrawnAgain(events: seq<Event>, i: nat, j: nat, code: string)
    requires FreshDraws(events) && i <= j < |events| && Drawn(events[..i], code)
    ensures Draw(events[j]) != Some(code)
  {
    var k :| 0 <= k < i && Draw(events[..i][k]) == Some(code);
    assert Draw(events[k]) == Some(code);
  }

  /** A code that was drawn and is in no row never comes back. */
  lemma {:induction false} DeadStays(applications: set<nat>, events: seq<Event>, i: nat, j: nat, code: string)
    requires FreshDraws(events) && i <= j <= |events|
    requires Drawn(events[..i], code) && NoCode(Exec(applications, events[..i]), code)
    ensures NoCode(Exec(applications, events[..j]), code)
    decreases j
  {
    if i < j {
      DeadStays(applications, events, i, j - 1, code);
      ExecSoundAt(applications, events, j - 1);
      ExecNext(applications, events, j - 1);
      NotDrawnAgain(events, i, j - 1, code);
      NoCodeStays(Exec(applications, events[..j - 1]), events[j - 1], code);
    }
  }

  ghost predicate Redeems(event: Event, answer: Answer, code: string) {
    event.Validate? && event.code == Some(code) && answer.Access?
  }

  lemma RedeemKills(s: Store, event: Event, code: string)
    requires Sound(s) && Redeems(event, Step(s, event).1, code)
    ensures NoCode(Step(s, event).0, code) && !NoCode(s, code)
  {
    var found := Matching(s.rows, event.application.value, event.code, event.state);
    MatchingAre(s.rows, event.application.value, event.code, event.state, found[0]);
  }

  lemma DeadFails(s: Store, application: Option<nat>, code: string, state: Option<string>, at: int)
    requires NoCode(s, code)
    ensures Step(s, Validate(application, Some(code), state, at)) == (s, NotFound)
  {
    if application.Some? {
      var found := Matching(s.rows, application.value, Some(code), state);
      if |found| > 0 {
        MatchingAre(s.rows, application.value, Some(code), state, found[0]);
      }
    }
  }

  /** Each issued code is redeemed at most once in any run: the same code validated later, for
      whatever application and state, is not found. */
  lemma RedeemedOnce(applications: set<nat>, events: seq<Event>, i: nat, j: nat, code: string)
    requires FreshDraws(events) && i < j < |events|
    requires Redeems(events[i], AnswerAt(applications, events, i), code)
    requires events[j].Validate? && events[j].code == Some(code)
    ensures AnswerAt(applications, events, j) == NotFound
  {
    DeadAfterRedemption(applications, events, i, code);
    DeadStays(applications, events, i + 1, j, code);
    DeadFails(Exec(applications, events[..j]), events[j].application, code, events[j].state, events[j].at);
  }

  lemma DeadAfterRedemption(applications: set<nat>, events: seq<Event>, i: nat, code: string)
    requires FreshDraws(events) && i < |events| && Redeems(events[i], AnswerAt(applications, events, i), code)
    ensures Drawn(events[..i + 1], code) && NoCode(Exec(applications, events[..i + 1]), code)
  {
    var s := Exec(applications, events[..i]);
    ExecSoundAt(applications, events, i);
    RedeemKills(s, events[i], code);
    ExecNext(applications, events, i);
    HeldIsDrawn(s, events[..i], code);
    DrawnStays(events, i, code);
  }

  lemma HeldIsDrawn(s: Store, events: seq<Event>, code: string)
    requires CodesDrawn(s, events) && !NoCode(s, code)
    ensures Drawn(events, code)
  {
    var i :| 0 <= i < |s.rows| && s.rows[i].authCode == Some(code);
    assert Drawn(events, s.rows[i].authCode.value);
  }

  lemma DrawnStays(events: seq<Event>, i: nat, code: string)
    requires i < |events| && Drawn(events[..i], code)
    ensures Drawn(events[..i + 1], code)
  {
    var k :| 0 <= k < i && Draw(events[..i][k]) == Some(code);
    assert Draw(events[..i + 1][k]) == Some(code);
  }

  // ---------- a new code voids the earlier one ----------

  /** The request gives the pair a new code. */
  ghost predicate IssuesTo(event: Event, answer: Answer, user: nat, application: nat) {
    && answer.Issued? && Draw(event).Some?
    && (event.Authorize? ==> event.user == Some(user) && event.application == Some(application))
    && (event.ShowToken? ==> event.user == Some(user) && event.application == Some(application))
  }

  ghost predicate HeldOnlyBy(s: Store, code: string, user: nat, application: nat) {
    forall i | 0 <= i < |s.rows| && s.rows[i].authCode == Some(code) ::
      s.rows[i].user == user && s.rows[i].application == application
  }

  lemma IssueSets(s: Store, event: Event, user: nat, application: nat)
    requires Sound(s) && IssuesTo(event, Step(s, event).1, user, application)
    ensures forall i | 0 <= i < |Step(s, event).0.rows|
                       && Step(s, event).0.rows[i].user == user && Step(s, event).0.rows[i].application == application ::
              Step(s, event).0.rows[i].authCode == Draw(event)
  {
    FoundPair(s.rows, user, application);
  }

  lemma HeldStays(s: Store, event: Event, code: string, user: nat, application: nat)
    requires Sound(s) && (Draw(event).Some? ==> NoCode(s, Draw(event).value))
    requires HeldOnlyBy(s, code, user, application) && Draw(event) != Some(code)
    ensures HeldOnlyBy(Step(s, event).0, code, user, application)
    ensures IssuesTo(event, Step(s, event).1, user, application) ==> NoCode(Step(s, event).0, code)
  {
    StepSound(s, event);
    if IssuesTo(event, Step(s, event).1, user, application) {
      IssueSets(s, event, user, application);
    }
  }

  lemma IssueHolds(s: Store, event: Event, user: nat, application: nat)
    requires Sound(s) && IssuesTo(event, Step(s, event).1, user, application) && NoCode(s, Draw(event).value)
    ensures HeldOnlyBy(Step(s, event).0, Draw(event).value, user, application)
  {
    FoundPair(s.rows, user, application);
  }

  lemma {:induction false} HeldUntil(applications: set<nat>, events: seq<Event>, i: nat, j: nat, user: nat, application: nat)
    requires FreshDraws(events) && i < j <= |events|
    requires IssuesTo(events[i], AnswerAt(applications, events, i), user, application)
    ensures HeldOnlyBy(Exec(applications, events[..j]), Draw(events[i]).value, user, application)
    decreases j
  {
    ExecSoundAt(applications, events, j - 1);
    ExecNext(applications, events, j - 1);
    if j == i + 1 {
      IssueHolds(Exec(applications, events[..i]), events[i], user, application);
    } else {
      HeldUntil(applications, events, i, j - 1, user, application);
      HeldStays(Exec(applications, events[..j - 1]), events[j - 1], Draw(events[i]).value, user, application);
    }
  }

  /** Issuing a user a new code for an application voids the code issued before it, for good. */
  lemma ReissueVoids(applications: set<nat>, events: seq<Event>, i: nat, j: nat, k: nat, user: nat, application: nat)
    requires FreshDraws(events) && i < j < k < |events|
    requires IssuesTo(events[i], AnswerAt(applications, events, i), user, application)
    requires IssuesTo(events[j], AnswerAt(applications, events, j), user, application)
    requires events[k].Validate? && events[k].code == Draw(events[i])
    ensures AnswerAt(applications, events, k) == NotFound
  {
    var code := Draw(events[i]).value;
    HeldUntil(applications, events, i, j, user, application);
    ExecSoundAt(applications, events, j);
    HeldStays(Exec(applications, events[..j]), events[j], code, user, application);
    ExecNext(applications, events, j);
    assert Draw(events[..j + 1][i]) == Some(code);
    DeadStays(applications, events, j + 1, k, code);
    DeadFails(Exec(applications, events[..k]), events[k].application, code, events[k].state, events[k].at);
  }

  // ---------- an access token never changes ----------

  /** Rows keep their id, user, application and, once there, their access token. */
  ghost predicate RowsFrom(s: Store, s': Store) {
    && s.nextId <= s'.nextId
    && forall i | 0 <= i < |s'.rows| && s'.rows[i].id < s.nextId ::
         exists j | 0 <= j < |s.rows| :: Continues(s.rows[j], s'.rows[i])
  }

  ghost predicate Continues(row: Row, row': Row) {
    && row'.id == row.id && row'.user == row.user && row'.application == row.application
    && (row.token.Some? ==> row'.token == row.token)
  }

  lemma UpdatedRowsFrom(s: Store, i: nat, row: Row)
    requires i < |s.rows| && Continues(s.rows[i], row)
    ensures RowsFrom(s, s.(rows := s.rows[i := row]))
  {
    var s' := s.(rows := s.rows[i := row]);
    forall k | 0 <= k < |s'.rows| ensures Continues(s.rows[k], s'.rows[k]) {
    }
  }

  lemma SameRowsFrom(s: Store)
    ensures RowsFrom(s, s)
  {
    forall k | 0 <= k < |s.rows| ensures Continues(s.rows[k], s.rows[k]) {
    }
  }

  lemma AuthorizedRowsFrom(s: Store, user: nat, application: nat, state: Option<string>, draw: string)
    ensures RowsFrom(s, AfterAuthorize(s, user, application, state, draw))
  {
    SameRowsFrom(s);
    if FindPair(s.rows, user, application).Some? {
      var i := FindPair(s.rows, user, application).value;
      UpdatedRowsFrom(s, i, Recoded(s.rows[i], draw, state));
    } else {
      var s' := AfterAuthorize(s, user, application, state, draw);
      forall k | 0 <= k < |s'.rows| && s'.rows[k].id < s.nextId
        ensures exists j | 0 <= j < |s.rows| :: Continues(s.rows[j], s'.rows[k])
      {
        assert Continues(s.rows[k], s'.rows[k]);
      }
    }
  }

  lemma RemovedRowsFrom(s: Store, i: nat)
    requires i < |s.rows|
    ensures RowsFrom(s, s.(rows := s.rows[..i] + s.rows[i + 1..]))
  {
    var rows := s.rows[..i] + s.rows[i + 1..];
    forall k | 0 <= k < |rows| ensures exists j | 0 <= j < |s.rows| :: Continues(s.rows[j], rows[k]) {
      assert Continues(s.rows[if k < i then k else k + 1], rows[k]);
    }
  }

  lemma ValidatedRowsFrom(s: Store, application: Option<nat>, code: Option<string>, state: Option<string>, at: int)
    ensures RowsFrom(s, StepValidate(s, application, code, state, at).0)
  {
    if application.Some? && |Matching(s.rows, application.value, code, state)| == 1 {
      var i := Matching(s.rows, application.value, code, state)[0];
      UpdatedRowsFrom(s, i, Redeemed(s.rows[i], at));
    } else {
      SameRowsFrom(s);
    }
  }

  lemma DestroyedRowsFrom(s: Store, user: Option<nat>, id: nat)
    ensures RowsFrom(s, StepDestroy(s, user, id).0)
  {
    if user.Some? && FindId(s.rows, id, user.value).Some? {
      RemovedRowsFrom(s, FindId(s.rows, id, user.value).value);
    } else {
      SameRowsFrom(s);
    }
  }

  lemma StepRowsFrom(s: Store, event: Event)
    ensures RowsFrom(s, Step(s, event).0)
  {
    match event
    case Authorize(user, application, state, draw) =>
      IssuedRowsFrom(s, user, application, state, draw);
    case ShowToken(user, application, state, draw) =>
      IssuedRowsFrom(s, user, application, state, draw);
    case Validate(application, code, state, at) =>
      ValidatedRowsFrom(s, application, code, state, at);
    case Destroy(user, id) =>
      DestroyedRowsFrom(s, user, id);
  }

  lemma IssuedRowsFrom(s: Store, user: Option<nat>, application: Option<nat>, state: Option<string>, draw: string)
    ensures RowsFrom(s, StepAuthorize(s, user, application, state, draw).0)
    ensures RowsFrom(s, StepShow(s, user, application, state, draw).0)
  {
    SameRowsFrom(s);
    if user.Some? && application.Some? {
      AuthorizedRowsFrom(s, user.value, application.value, state, draw);
    }
  }

  /** An access token, once given to a row, is the token of every later row with that id, whose user
      and application are the same too. */
  lemma {:induction false} TokenNeverChanges(applications: set<nat>, events: seq<Event>, i: nat, j: nat, row: Row, row': Row)
    requires FreshDraws(events) && i <= j <= |events|
    requires row in Exec(applications, events[..i]).rows && row' in Exec(applications, events[..j]).rows
    requires row'.id == row.id
    ensures Continues(row, row')
    decreases j
  {
    ExecSoundAt(applications, events, i);
    if i < j {
      var s, s' := Exec(applications, events[..j - 1]), Exec(applications, events[..j]);
      ExecNext(applications, events, j - 1);
      StepRowsFrom(s, events[j - 1]);
      IdsGrow(applications, events, i, j - 1);
      var k :| 0 <= k < |s'.rows| && s'.rows[k] == row';
      var l :| 0 <= l < |s.rows| && Continues(s.rows[l], s'.rows[k]);
      TokenNeverChanges(applications, events, i, j - 1, row, s.rows[l]);
    }
  }

  lemma {:induction false} IdsGrow(applications: set<nat>, events: seq<Event>, i: nat, j: nat)
    requires i <= j <= |events|
    ensures Exec(applications, events[..i]).nextId <= Exec(applications, events[..j]).nextId
    decreases j
  {
    if i < j {
      IdsGrow(applications, events, i, j - 1);
      ExecNext(applications, events, j - 1);
      StepRowsFrom(Exec(applications, events[..j - 1]), events[j - 1]);
    }
  }

  lemma {:induction false} UserForFinds(rows: seq<Row>, token: AccessToken)
    ensures UserFor(rows, token).None? <==> forall row | row in rows :: row.token != Some(token)
    ensures UserFor(rows, token).Some? ==>
      exists row | row in rows :: row.token == Some(token) && row.user == UserFor(rows, token).value
  {
    if rows != [] {
      UserForFinds(rows[1..], token);
      assert rows == [rows[0]] + rows[1..];
      if UserFor(rows, token).None? {
        assert forall row | row in rows :: row == rows[0] || row in rows[1..];
      }
    }
  }

  /** An access token names the user of the row it was made for as long as that row is there, and
      nobody afterwards. */
  lemma TokenNamesItsUser(applications: set<nat>, events: seq<Event>, i: nat, j: nat, row: Row, token: AccessToken)
    requires FreshDraws(events) && i <= j <= |events|
    requires row in Exec(applications, events[..i]).rows && row.token == Some(token)
    ensures var later := Exec(applications, events[..j]).rows;
            UserFor(later, token) == if exists row' | row' in later :: row'.id == row.id then Some(row.user) else None
  {
    var later := Exec(applications, events[..j]).rows;
    ExecSoundAt(applications, events, i);
    ExecSoundAt(applications, events, j);
    UserForFinds(later, token);
    forall row' | row' in later && row'.id == row.id ensures row'.token == Some(token) && row'.user == row.user {
      TokenNeverChanges(applications, events, i, j, row, row');
    }
    if UserFor(later, token).Some? {
      var row' :| row' in later && row'.token == Some(token) && row'.user == UserFor(later, token).value;
      assert row'.id == token.id == row.id;
    }
  }

  // ---------- which codes can be redeemed ----------

  ghost predicate HasRow(s: Store, user: nat, application: nat, code: string, state: Option<string>) {
    exists i | 0 <= i < |s.rows| ::
      s.rows[i].user == user && s.rows[i].application == application && s.rows[i].authCode == Some(code)
      && s.rows[i].state == state
  }

  /** The request issues exactly this code, with this state. */
  ghost predicate IssuesCode(event: Event, answer: Answer, user: nat, application: nat, code: string, state: Option<string>) {
    && IssuesTo(event, answer, user, application) && Draw(event) == Some(code)
    && (event.Authorize? ==> event.state == state) && (event.ShowToken? ==> event.state == state)
  }

  /** The request ends the life of the pair's code: a new code, a redemption, or the removal of the
      pair's row. */
  ghost predicate Ends(s: Store, event: Event, user: nat, application: nat, code: string) {
    EndsBy(s.rows, event, Step(s, event).0.rows, Step(s, event).1, user, application, code)
  }

  ghost predicate EndsBy(before: seq<Row>, event: Event, after: seq<Row>, answer: Answer, user: nat, application: nat,
                         code: string)
  {
    || IssuesTo(event, answer, user, application)
    || Redeems(event, answer, code)
    || (FindPair(before, user, application).Some? && FindPair(after, user, application).None?)
  }

  lemma AuthorizeRows(s: Store, u: nat, a: nat, st: Option<string>, draw: string, user: nat, application: nat,
                      code: string, state: Option<string>)
    requires Sound(s) && NoCode(s, draw)
    ensures var s' := AfterAuthorize(s, u, a, st, draw);
            HasRow(s', user, application, code, state)
            <==> if user == u && application == a then code == draw && state == st
                 else HasRow(s, user, application, code, state)
  {
    FoundPair(s.rows, u, a);
    var s' := AfterAuthorize(s, u, a, st, draw);
    var k := if FindPair(s.rows, u, a).Some? then FindPair(s.rows, u, a).value else |s.rows|;
    assert s'.rows[k].user == u && s'.rows[k].application == a && s'.rows[k].authCode == Some(draw) && s'.rows[k].state == st;
    assert forall i | 0 <= i < |s.rows| && i != k :: s'.rows[i] == s.rows[i];
    if HasRow(s, user, application, code, state) && !(user == u && application == a) {
      var i :| 0 <= i < |s.rows| && s.rows[i].user == user && s.rows[i].application == application
               && s.rows[i].authCode == Some(code) && s.rows[i].state == state;
      assert s'.rows[i] == s.rows[i];
    }
  }

  lemma RedeemRows(s: Store, k: nat, at: int, user: nat, application: nat, code: string, state: Option<string>)
    requires Sound(s) && k < |s.rows|
    ensures HasRow(s.(rows := s.rows[k := Redeemed(s.rows[k], at)]), user, application, code, state)
        <==> HasRow(s, user, application, code, state) && s.rows[k].authCode != Some(code)
  {
    var s' := s.(rows := s.rows[k := Redeemed(s.rows[k], at)]);
    if HasRow(s, user, application, code, state) && s.rows[k].authCode != Some(code) {
      var i :| 0 <= i < |s.rows| && s.rows[i].user == user && s.rows[i].application == application
               && s.rows[i].authCode == Some(code) && s.rows[i].state == state;
      assert s'.rows[i] == s.rows[i];
    }
    if HasRow(s', user, application, code, state) {
      var i :| 0 <= i < |s.rows| && s'.rows[i].user == user && s'.rows[i].application == application
               && s'.rows[i].authCode == Some(code) && s'.rows[i].state == state;
      assert i != k && s'.rows[i] == s.rows[i];
    }
  }

  lemma RemoveRows(s: Store, k: nat, user: nat, application: nat, code: string, state: Option<string>)
    requires Sound(s) && k < |s.rows|
    ensures HasRow(s.(rows := s.rows[..k] + s.rows[k + 1..]), user, application, code, state)
        <==> HasRow(s, user, application, code, state)
             && !(s.rows[k].user == user && s.rows[k].application == application)
  {
    var rows := s.rows[..k] + s.rows[k + 1..];
    assert forall i | 0 <= i < |rows| :: rows[i] == s.rows[if i < k then i else i + 1];
    if HasRow(s, user, application, code, state) && !(s.rows[k].user == user && s.rows[k].application == application) {
      var i :| 0 <= i < |s.rows| && s.rows[i].user == user && s.rows[i].application == application
               && s.rows[i].authCode == Some(code) && s.rows[i].state == state;
      assert rows[if i < k then i else i - 1] == s.rows[i];
    }
  }

  ghost predicate HasPair(rows: seq<Row>, user: nat, application: nat) {
    exists i | 0 <= i < |rows| :: rows[i].user == user && rows[i].application == application
  }

  lemma PairFound(rows: seq<Row>, user: nat, application: nat)
    ensures FindPair(rows, user, application).Some? <==> HasPair(rows, user, application)
  {
    FoundPair(rows, user, application);
  }

  lemma PairAfterRemoval(s: Store, k: nat, user: nat, application: nat)
    requires Sound(s) && k < |s.rows|
    ensures HasPair(s.rows[..k] + s.rows[k + 1..], user, application)
        <==> HasPair(s.rows, user, application) && !(s.rows[k].user == user && s.rows[k].application == application)
  {
    var rows := s.rows[..k] + s.rows[k + 1..];
    assert forall i | 0 <= i < |rows| :: rows[i] == s.rows[if i < k then i else i + 1];
    if HasPair(s.rows, user, application) && !(s.rows[k].user == user && s.rows[k].application == application) {
      var i :| 0 <= i < |s.rows| && s.rows[i].user == user && s.rows[i].application == application;
      assert rows[if i < k then i else i - 1] == s.rows[i];
    }
  }

  lemma RemoveEnds(s: Store, k: nat, user: nat, application: nat)
    requires Sound(s) && k < |s.rows|
    ensures (FindPair(s.rows, user, application).Some?
             && FindPair(s.rows[..k] + s.rows[k + 1..], user, application).None?)
        <==> (s.rows[k].user == user && s.rows[k].application == application)
  {
    PairFound(s.rows, user, application);
    PairFound(s.rows[..k] + s.rows[k + 1..], user, application);
    PairAfterRemoval(s, k, user, application);
  }

  /** One request: the pair's row has the code afterwards exactly when it was just issued, or was
      there before and did not come to its end. */
  lemma RowAfterStep(s: Store, event: Event, user: nat, application: nat, code: string, state: Option<string>)
    requires Sound(s) && (Draw(event).Some? ==> NoCode(s, Draw(event).value))
    ensures HasRow(Step(s, event).0, user, application, code, state)
        <==> IssuesCode(event, Step(s, event).1, user, application, code, state)
             || (HasRow(s, user, application, code, state) && !Ends(s, event, user, application, code))
  {
    match event
    case Authorize(u, a, st, draw) =>
      IssueStep(s, event, u, a, st, draw, user, application, code, state);
    case ShowToken(u, a, st, draw) =>
      IssueStep(s, event, u, a, st, draw, user, application, code, state);
    case Validate(a, c, st, at) =>
      ValidateStep(s, a, c, st, at, user, application, code, state);
    case Destroy(u, id) =>
      DestroyStep(s, u, id, user, application, code, state);
  }

  lemma DestroyStep(s: Store, u: Option<nat>, id: nat, user: nat, application: nat, code: string, state: Option<string>)
    requires Sound(s)
    ensures HasRow(Step(s, Destroy(u, id)).0, user, application, code, state)
        <==> HasRow(s, user, application, code, state) && !Ends(s, Destroy(u, id), user, application, code)
  {
    if u.Some? && FindId(s.rows, id, u.value).Some? {
      var k := FindId(s.rows, id, u.value).value;
      RemovalEnds(s, k, Destroy(u, id), user, application, code, state);
    } else {
      assert Step(s, Destroy(u, id)).0 == s;
    }
  }

  lemma RemovalEnds(s: Store, k: nat, event: Event, user: nat, application: nat, code: string, state: Option<string>)
    requires Sound(s) && k < |s.rows| && event.Destroy?
    ensures var after := s.(rows := s.rows[..k] + s.rows[k + 1..]);
            HasRow(after, user, application, code, state)
            <==> HasRow(s, user, application, code, state)
                 && !EndsBy(s.rows, event, after.rows, Removed, user, application, code)
  {
    RemoveRows(s, k, user, application, code, state);
    RemoveEnds(s, k, user, application);
  }

  lemma IssueStep(s: Store, event: Event, u: Option<nat>, a: Option<nat>, st: Option<string>, draw: string,
                  user: nat, application: nat, code: string, state: Option<string>)
    requires event == Authorize(u, a, st, draw) || event == ShowToken(u, a, st, draw)
    requires Sound(s) && NoCode(s, draw)
    ensures HasRow(Step(s, event).0, user, application, code, state)
        <==> IssuesCode(event, Step(s, event).1, user, application, code, state)
             || (HasRow(s, user, application, code, state) && !Ends(s, event, user, application, code))
  {
    if u.Some? && a.Some? && Step(s, event).1.Issued? {
      AuthorizeRows(s, u.value, a.value, st, draw, user, application, code, state);
      AuthorizeKeepsPairs(s, u.value, a.value, st, draw, user, application);
    }
  }

  lemma AuthorizeKeepsPairs(s: Store, u: nat, a: nat, st: Option<string>, draw: string, user: nat, application: nat)
    ensures FindPair(s.rows, user, application).Some? ==>
      FindPair(AfterAuthorize(s, u, a, st, draw).rows, user, application).Some?
  {
    var s' := AfterAuthorize(s, u, a, st, draw);
    FoundPair(s.rows, user, application);
    FoundPair(s'.rows, user, application);
    if FindPair(s.rows, user, application).Some? {
      var i := FindPair(s.rows, user, application).value;
      assert s'.rows[i].user == user && s'.rows[i].application == application;
    }
  }

  lemma ValidateStep(s: Store, a: Option<nat>, c: Option<string>, st: Option<string>, at: int,
                     user: nat, application: nat, code: string, state: Option<string>)
    requires Sound(s)
    ensures var event := Validate(a, c, st, at);
            HasRow(Step(s, event).0, user, application, code, state)
            <==> HasRow(s, user, application, code, state) && !Ends(s, event, user, application, code)
  {
    if a.Some? && |Matching(s.rows, a.value, c, st)| == 1 {
      var k := Matching(s.rows, a.value, c, st)[0];
      ValidateFound(s, a.value, c, st, at, k);
      RedemptionEnds(s, k, at, Validate(a, c, st, at), Step(s, Validate(a, c, st, at)).1, user, application, code, state);
    } else {
      ValidateNotFound(s, a, c, st, at);
    }
  }

  lemma ValidateNotFound(s: Store, a: Option<nat>, c: Option<string>, st: Option<string>, at: int)
    requires a.Some? ==> |Matching(s.rows, a.value, c, st)| != 1
    ensures Step(s, Validate(a, c, st, at)).0 == s && !Step(s, Validate(a, c, st, at)).1.Access?
    ensures !Step(s, Validate(a, c, st, at)).1.Issued?
  {
  }

  lemma RedemptionEnds(s: Store, k: nat, at: int, event: Event, answer: Answer, user: nat, application: nat, code: string,
                       state: Option<string>)
    requires Sound(s) && k < |s.rows| && event.Validate? && event.code == s.rows[k].authCode && answer.Access?
    ensures var after := s.(rows := s.rows[k := Redeemed(s.rows[k], at)]);
            HasRow(after, user, application, code, state)
            <==> HasRow(s, user, application, code, state)
                 && !EndsBy(s.rows, event, after.rows, answer, user, application, code)
  {
    RedeemRows(s, k, at, user, application, code, state);
    RedeemKeepsPairs(s, k, at, user, application);
  }

  lemma ValidateFound(s: Store, a: nat, c: Option<string>, st: Option<string>, at: int, k: nat)
    requires Matching(s.rows, a, c, st) == [k]
    ensures k < |s.rows| && s.rows[k].authCode == c
    ensures Step(s, Validate(Some(a), c, st, at)).0 == s.(rows := s.rows[k := Redeemed(s.rows[k], at)])
    ensures Step(s, Validate(Some(a), c, st, at)).1.Access?
  {
    MatchingAre(s.rows, a, c, st, k);
  }

  lemma RedeemKeepsPairs(s: Store, k: nat, at: int, user: nat, application: nat)
    requires k < |s.rows|
    ensures FindPair(s.rows, user, application).Some? ==>
      FindPair(s.rows[k := Redeemed(s.rows[k], at)], user, application).Some?
  {
    var rows := s.rows[k := Redeemed(s.rows[k], at)];
    FoundPair(s.rows, user, application);
    FoundPair(rows, user, application);
    if FindPair(s.rows, user, application).Some? {
      var i := FindPair(s.rows, user, application).value;
      assert rows[i].user == user && rows[i].application == application;
    }
  }

  /** The i-th request issued the code and no later request of the run ended it. */
  ghost predicate AliveSince(applications: set<nat>, events: seq<Event>, i: nat, user: nat, application: nat, code: string,
                             state: Option<string>)
  {
    && i < |events|
    && IssuesCode(events[i], AnswerAt(applications, events, i), user, application, code, state)
    && forall j | i < j < |events| :: !Ends(Exec(applications, events[..j]), events[j], user, application, code)
  }

  ghost predicate Alive(applications: set<nat>, events: seq<Event>, user: nat, application: nat, code: string,
                        state: Option<string>)
  {
    exists i: nat :: AliveSince(applications, events, i, user, application, code, state)
  }

  lemma AliveSincePrefix(applications: set<nat>, events: seq<Event>, i: nat, user: nat, application: nat, code: string,
                         state: Option<string>)
    requires i < |events| - 1
    ensures var n := |events| - 1;
            AliveSince(applications, events, i, user, application, code, state)
            <==> AliveSince(applications, events[..n], i, user, application, code, state)
                 && !Ends(Exec(applications, events[..n]), events[n], user, application, code)
  {
    var before := events[..|events| - 1];
    forall j | 0 <= j < |before| ensures before[..j] == events[..j] && before[j] == events[j] {
    }
  }

  lemma AliveNext(applications: set<nat>, events: seq<Event>, user: nat, application: nat, code: string,
                  state: Option<string>)
    requires events != []
    ensures var n := |events| - 1;
            var s := Exec(applications, events[..n]);
            Alive(applications, events, user, application, code, state)
            <==> IssuesCode(events[n], Step(s, events[n]).1, user, application, code, state)
                 || (Alive(applications, events[..n], user, application, code, state)
                     && !Ends(s, events[n], user, application, code))
  {
    var n := |events| - 1;
    forall i: nat | i < n
      ensures AliveSince(applications, events, i, user, application, code, state)
          <==> AliveSince(applications, events[..n], i, user, application, code, state)
               && !Ends(Exec(applications, events[..n]), events[n], user, application, code)
    {
      AliveSincePrefix(applications, events, i, user, application, code, state);
    }
    assert AliveSince(applications, events, n, user, application, code, state)
      <==> IssuesCode(events[n], AnswerAt(applications, events, n), user, application, code, state);
  }

  lemma {:induction false} RowIff(applications: set<nat>, events: seq<Event>, user: nat, application: nat, code: string,
                                  state: Option<string>)
    requires FreshDraws(events)
    ensures HasRow(Exec(applications, events), user, application, code, state)
        <==> Alive(applications, events, user, application, code, state)
  {
    if events != [] {
      var n := |events| - 1;
      FreshPrefix(events, n);
      ExecSoundAt(applications, events, n);
      RowIff(applications, events[..n], user, application, code, state);
      RowAfterStep(Exec(applications, events[..n]), events[n], user, application, code, state);
      AliveNext(applications, events, user, application, code, state);
    }
  }

  // ---------- redeemed rows ----------

  /** A row whose code has been redeemed; its code column is null again. */
  ghost predicate SpentRow(s: Store, user: nat, application: nat, state: Option<string>) {
    exists i | 0 <= i < |s.rows| ::
      s.rows[i].user == user && s.rows[i].application == application && s.rows[i].authCode == None
      && s.rows[i].state == state
  }

  ghost predicate SpentHaveTokens(s: Store) {
    forall i | 0 <= i < |s.rows| :: s.rows[i].authCode == None ==> s.rows[i].token.Some?
  }

  /** On every run a row without a code has its access token. */
  lemma {:induction false} ExecSpentHaveTokens(applications: set<nat>, events: seq<Event>)
    ensures SpentHaveTokens(Exec(applications, events))
  {
    if events != [] {
      ExecSpentHaveTokens(applications, events[..|events| - 1]);
      StepSpentHaveTokens(Exec(applications, events[..|events| - 1]), events[|events| - 1]);
    }
  }

  lemma StepSpentHaveTokens(s: Store, event: Event)
    requires SpentHaveTokens(s)
    ensures SpentHaveTokens(Step(s, event).0)
  {
    if event.Destroy? && event.user.Some? && FindId(s.rows, event.id, event.user.value).Some? {
      var k := FindId(s.rows, event.id, event.user.value).value;
      var rows := s.rows[..k] + s.rows[k + 1..];
      assert forall i | 0 <= i < |rows| :: rows[i] == s.rows[if i < k then i else i + 1];
    }
  }

  /** The request gives the pair a new code or removes its row. */
  ghost predicate Resets(s: Store, event: Event, user: nat, application: nat) {
    ResetsBy(s.rows, event, Step(s, event).0.rows, Step(s, event).1, user, application)
  }

  ghost predicate ResetsBy(before: seq<Row>, event: Event, after: seq<Row>, answer: Answer, user: nat, application: nat) {
    || IssuesTo(event, answer, user, application)
    || (FindPair(before, user, application).Some? && FindPair(after, user, application).None?)
  }

  /** The request redeems the code the pair's row holds, with this state. */
  ghost predicate RedeemsRow(s: Store, event: Event, answer: Answer, user: nat, application: nat, state: Option<string>) {
    event.Validate? && event.code.Some? && Redeems(event, answer, event.code.value)
    && HasRow(s, user, application, event.code.value, state)
  }

  lemma AuthorizeSpends(s: Store, u: nat, a: nat, st: Option<string>, draw: string, user: nat, application: nat,
                        state: Option<string>)
    requires Sound(s)
    ensures SpentRow(AfterAuthorize(s, u, a, st, draw), user, application, state)
        <==> !(user == u && application == a) && SpentRow(s, user, application, state)
  {
    FoundPair(s.rows, u, a);
    var s' := AfterAuthorize(s, u, a, st, draw);
    var k := if FindPair(s.rows, u, a).Some? then FindPair(s.rows, u, a).value else |s.rows|;
    assert forall i | 0 <= i < |s.rows| && i != k :: s'.rows[i] == s.rows[i];
    if SpentRow(s, user, application, state) && !(user == u && application == a) {
      var i :| 0 <= i < |s.rows| && s.rows[i].user == user && s.rows[i].application == application
               && s.rows[i].authCode == None && s.rows[i].state == state;
      assert s'.rows[i] == s.rows[i];
    }
  }

  lemma RedeemSpends(s: Store, k: nat, at: int, user: nat, application: nat, state: Option<string>)
    requires Sound(s) && k < |s.rows|
    ensures SpentRow(s.(rows := s.rows[k := Redeemed(s.rows[k], at)]), user, application, state)
        <==> SpentRow(s, user, application, state)
             || (s.rows[k].user == user && s.rows[k].application == application && s.rows[k].state == state)
  {
    var rows := s.rows[k := Redeemed(s.rows[k], at)];
    assert rows[k].user == s.rows[k].user && rows[k].application == s.rows[k].application && rows[k].authCode == None
           && rows[k].state == s.rows[k].state;
    if SpentRow(s, user, application, state) {
      var i :| 0 <= i < |s.rows| && s.rows[i].user == user && s.rows[i].application == application
               && s.rows[i].authCode == None && s.rows[i].state == state;
      assert i == k || rows[i] == s.rows[i];
    }
  }

  lemma RemoveSpends(s: Store, k: nat, user: nat, application: nat, state: Option<string>)
    requires Sound(s) && k < |s.rows|
    ensures SpentRow(s.(rows := s.rows[..k] + s.rows[k + 1..]), user, application, state)
        <==> SpentRow(s, user, application, state)
             && !(s.rows[k].user == user && s.rows[k].application == application)
  {
    var rows := s.rows[..k] + s.rows[k + 1..];
    assert forall i | 0 <= i < |rows| :: rows[i] == s.rows[if i < k then i else i + 1];
    if SpentRow(s, user, application, state) && !(s.rows[k].user == user && s.rows[k].application == application) {
      var i :| 0 <= i < |s.rows| && s.rows[i].user == user && s.rows[i].application == application
               && s.rows[i].authCode == None && s.rows[i].state == state;
      assert rows[if i < k then i else i - 1] == s.rows[i];
    }
  }

  /** One request: the pair is spent afterwards exactly when its code was just redeemed, or when it
      was spent before and neither got a new code nor lost its row. */
  lemma SpentAfterStep(s: Store, event: Event, user: nat, application: nat, state: Option<string>)
    requires Sound(s)
    ensures SpentRow(Step(s, event).0, user, application, state)
        <==> RedeemsRow(s, event, Step(s, event).1, user, application, state)
             || (SpentRow(s, user, application, state) && !Resets(s, event, user, application))
  {
    match event
    case Authorize(u, a, st, draw) => SpentAfterIssue(s, event, u, a, st, draw, user, application, state);
    case ShowToken(u, a, st, draw) => SpentAfterIssue(s, event, u, a, st, draw, user, application, state);
    case Validate(a, c, st, at) => SpentAfterValidate(s, a, c, st, at, user, application, state);
    case Destroy(u, id) => SpentAfterDestroy(s, u, id, user, application, state);
  }

  lemma SpentAfterIssue(s: Store, event: Event, u: Option<nat>, a: Option<nat>, st: Option<string>, draw: string,
                        user: nat, application: nat, state: Option<string>)
    requires event == Authorize(u, a, st, draw) || event == ShowToken(u, a, st, draw)
    requires Sound(s)
    ensures SpentRow(Step(s, event).0, user, application, state)
        <==> SpentRow(s, user, application, state) && !Resets(s, event, user, application)
  {
    if u.Some? && a.Some? && Step(s, event).1.Issued? {
      AuthorizeSpends(s, u.value, a.value, st, draw, user, application, state);
      AuthorizeKeepsPairs(s, u.value, a.value, st, draw, user, application);
    }
  }

  lemma SpentAfterValidate(s: Store, a: Option<nat>, c: Option<string>, st: Option<string>, at: int,
                           user: nat, application: nat, state: Option<string>)
    requires Sound(s)
    ensures var event := Validate(a, c, st, at);
            SpentRow(Step(s, event).0, user, application, state)
            <==> RedeemsRow(s, event, Step(s, event).1, user, application, state)
                 || (SpentRow(s, user, application, state) && !Resets(s, event, user, application))
  {
    if a.Some? && |Matching(s.rows, a.value, c, st)| == 1 {
      var k := Matching(s.rows, a.value, c, st)[0];
      ValidateFound(s, a.value, c, st, at, k);
      SpentAfterRedemption(s, k, at, Validate(a, c, st, at), Step(s, Validate(a, c, st, at)).1, user, application, state);
    } else {
      ValidateNotFound(s, a, c, st, at);
    }
  }

  lemma SpentAfterRedemption(s: Store, k: nat, at: int, event: Event, answer: Answer, user: nat, application: nat,
                             state: Option<string>)
    requires Sound(s) && k < |s.rows| && event.Validate? && event.code == s.rows[k].authCode && answer.Access?
    ensures var after := s.(rows := s.rows[k := Redeemed(s.rows[k], at)]);
            SpentRow(after, user, application, state)
            <==> RedeemsRow(s, event, answer, user, application, state)
                 || (SpentRow(s, user, application, state)
                     && !ResetsBy(s.rows, event, after.rows, answer, user, application))
  {
    RedeemSpends(s, k, at, user, application, state);
    RedeemKeepsPairs(s, k, at, user, application);
    HeldByRow(s, k, user, application, state);
  }

  /** The row of a code is the only one that holds it. */
  lemma HeldByRow(s: Store, k: nat, user: nat, application: nat, state: Option<string>)
    requires Sound(s) && k < |s.rows|
    ensures s.rows[k].authCode.Some? ==>
      (HasRow(s, user, application, s.rows[k].authCode.value, state)
       <==> s.rows[k].user == user && s.rows[k].application == application && s.rows[k].state == state)
    ensures s.rows[k].authCode == None
            && s.rows[k].user == user && s.rows[k].application == application && s.rows[k].state == state
            ==> SpentRow(s, user, application, state)
  {
    if s.rows[k].authCode.Some? && HasRow(s, user, application, s.rows[k].authCode.value, state) {
      var i :| 0 <= i < |s.rows| && s.rows[i].user == user && s.rows[i].application == application
               && s.rows[i].authCode == Some(s.rows[k].authCode.value) && s.rows[i].state == state;
      assert i == k;
    }
  }

  lemma SpentAfterDestroy(s: Store, u: Option<nat>, id: nat, user: nat, application: nat, state: Option<string>)
    requires Sound(s)
    ensures SpentRow(Step(s, Destroy(u, id)).0, user, application, state)
        <==> SpentRow(s, user, application, state) && !Resets(s, Destroy(u, id), user, application)
  {
    if u.Some? && FindId(s.rows, id, u.value).Some? {
      var k := FindId(s.rows, id, u.value).value;
      SpentAfterRemoval(s, k, Destroy(u, id), user, application, state);
    } else {
      assert Step(s, Destroy(u, id)).0 == s;
    }
  }

  lemma SpentAfterRemoval(s: Store, k: nat, event: Event, user: nat, application: nat, state: Option<string>)
    requires Sound(s) && k < |s.rows| && event.Destroy?
    ensures var after := s.(rows := s.rows[..k] + s.rows[k + 1..]);
            SpentRow(after, user, application, state)
            <==> SpentRow(s, user, application, state)
                 && !ResetsBy(s.rows, event, after.rows, Removed, user, application)
  {
    RemoveSpends(s, k, user, application, state);
    RemoveEnds(s, k, user, application);
  }

  /** After the run `before`, the request redeems a code alive for the pair with this state. */
  ghost predicate RedeemsAlive(applications: set<nat>, before: seq<Event>, event: Event, user: nat, application: nat,
                               state: Option<string>)
  {
    && event.Validate? && event.code.Some?
    && Redeems(event, Step(Exec(applications, before), event).1, event.code.value)
    && Alive(applications, before, user, application, event.code.value, state)
  }

  /** The k-th request redeemed the pair's code, and since then the pair neither got a new code nor
      lost its row. */
  ghost predicate SpentSince(applications: set<nat>, events: seq<Event>, k: nat, user: nat, application: nat,
                             state: Option<string>)
  {
    && k < |events|
    && RedeemsAlive(applications, events[..k], events[k], user, application, state)
    && Undisturbed(applications, events, k, user, application)
  }

  ghost predicate Undisturbed(applications: set<nat>, events: seq<Event>, k: nat, user: nat, application: nat) {
    forall j | k < j < |events| :: !Resets(Exec(applications, events[..j]), events[j], user, application)
  }

  lemma UndisturbedPrefix(applications: set<nat>, events: seq<Event>, k: nat, user: nat, application: nat)
    requires k < |events| - 1
    ensures var n := |events| - 1;
            Undisturbed(applications, events, k, user, application)
            <==> Undisturbed(applications, events[..n], k, user, application)
                 && !Resets(Exec(applications, events[..n]), events[n], user, application)
  {
    var n := |events| - 1;
    forall j | k < j < n
      ensures Resets(Exec(applications, events[..n][..j]), events[..n][j], user, application)
          <==> Resets(Exec(applications, events[..j]), events[j], user, application)
    {
      assert events[..n][..j] == events[..j];
    }
  }

  ghost predicate Spent(applications: set<nat>, events: seq<Event>, user: nat, application: nat, state: Option<string>) {
    exists k: nat :: SpentSince(applications, events, k, user, application, state)
  }

  lemma SpentSincePrefix(applications: set<nat>, events: seq<Event>, k: nat, user: nat, application: nat,
                         state: Option<string>)
    requires k < |events| - 1
    ensures var n := |events| - 1;
            SpentSince(applications, events, k, user, application, state)
            <==> SpentSince(applications, events[..n], k, user, application, state)
                 && !Resets(Exec(applications, events[..n]), events[n], user, application)
  {
    assert events[..|events| - 1][..k] == events[..k];
    UndisturbedPrefix(applications, events, k, user, application);
  }

  lemma SpentNext(applications: set<nat>, events: seq<Event>, user: nat, application: nat, state: Option<string>)
    requires events != [] && FreshDraws(events)
    ensures var n := |events| - 1;
            var s := Exec(applications, events[..n]);
            Spent(applications, events, user, application, state)
            <==> RedeemsRow(s, events[n], Step(s, events[n]).1, user, application, state)
                 || (Spent(applications, events[..n], user, application, state)
                     && !Resets(s, events[n], user, application))
  {
    var n := |events| - 1;
    forall k: nat | k < n
      ensures SpentSince(applications, events, k, user, application, state)
          <==> SpentSince(applications, events[..n], k, user, application, state)
               && !Resets(Exec(applications, events[..n]), events[n], user, application)
    {
      SpentSincePrefix(applications, events, k, user, application, state);
    }
    FreshPrefix(events, n);
    if events[n].Validate? && events[n].code.Some? {
      RowIff(applications, events[..n], user, application, events[n].code.value, state);
    }
    assert SpentSince(applications, events, n, user, application, state)
      <==> RedeemsAlive(applications, events[..n], events[n], user, application, state);
  }

  lemma {:induction false} SpentIff(applications: set<nat>, events: seq<Event>, user: nat, application: nat,
                                    state: Option<string>)
    requires FreshDraws(events)
    ensures SpentRow(Exec(applications, events), user, application, state)
        <==> Spent(applications, events, user, application, state)
  {
    if events != [] {
      var n := |events| - 1;
      FreshPrefix(events, n);
      ExecSoundAt(applications, events, n);
      SpentIff(applications, events[..n], user, application, state);
      SpentAfterStep(Exec(applications, events[..n]), events[n], user, application, state);
      SpentNext(applications, events, user, application, state);
    }
  }

  // ---------- which requests are answered with a token ----------

  /** The user's row for the application is one the request asks for: it holds the code, or, when
      the request has none, its code has been redeemed. */
  ghost predicate RowFor(s: Store, user: nat, application: nat, code: Option<string>, state: Option<string>) {
    match code
    case Some(c) => HasRow(s, user, application, c, state)
    case None => SpentRow(s, user, application, state)
  }

  ghost predicate Entitled(applications: set<nat>, events: seq<Event>, user: nat, application: nat, code: Option<string>,
                           state: Option<string>)
  {
    match code
    case Some(c) => Alive(applications, events, user, application, c, state)
    case None => Spent(applications, events, user, application, state)
  }

  lemma EntitledIff(applications: set<nat>, events: seq<Event>, user: nat, application: nat, code: Option<string>,
                    state: Option<string>)
    requires FreshDraws(events)
    ensures RowFor(Exec(applications, events), user, application, code, state)
        <==> Entitled(applications, events, user, application, code, state)
  {
    match code
    case Some(c) => RowIff(applications, events, user, application, c, state);
    case None => SpentIff(applications, events, user, application, state);
  }

  lemma RowForIs(s: Store, user: nat, application: nat, code: Option<string>, state: Option<string>)
    ensures RowFor(s, user, application, code, state)
        <==> exists i | 0 <= i < |s.rows| :: s.rows[i].user == user && Matches(s.rows[i], application, code, state)
  {
    match code
    case Some(c) =>
      assert forall i | 0 <= i < |s.rows| :: s.rows[i].authCode == code <==> s.rows[i].authCode == Some(c);
    case None =>
  }

  lemma MatchingUser(s: Store, application: nat, code: Option<string>, state: Option<string>, j: nat)
    requires j < |Matching(s.rows, application, code, state)|
    ensures RowFor(s, s.rows[Matching(s.rows, application, code, state)[j]].user, application, code, state)
  {
    var i := Matching(s.rows, application, code, state)[j];
    MatchingAre(s.rows, application, code, state, i);
    RowForIs(s, s.rows[i].user, application, code, state);
  }

  lemma UserMatches(s: Store, user: nat, application: nat, code: Option<string>, state: Option<string>) returns (j: nat)
    requires RowFor(s, user, application, code, state)
    ensures j < |Matching(s.rows, application, code, state)|
    ensures s.rows[Matching(s.rows, application, code, state)[j]].user == user
  {
    RowForIs(s, user, application, code, state);
    var i :| 0 <= i < |s.rows| && s.rows[i].user == user && Matches(s.rows[i], application, code, state);
    MatchingAre(s.rows, application, code, state, i);
    j :| 0 <= j < |Matching(s.rows, application, code, state)| && Matching(s.rows, application, code, state)[j] == i;
  }

  lemma MatchingUsersDiffer(s: Store, application: nat, code: Option<string>, state: Option<string>)
    requires Sound(s) && |Matching(s.rows, application, code, state)| > 1
    ensures var found := Matching(s.rows, application, code, state);
            s.rows[found[0]].user != s.rows[found[1]].user && code == None
  {
    var found := Matching(s.rows, application, code, state);
    MatchingIncreases(s.rows, application, code, state, 0, 1);
    MatchingAre(s.rows, application, code, state, found[0]);
    MatchingAre(s.rows, application, code, state, found[1]);
  }

  ghost predicate OnlyUser(s: Store, user: nat, application: nat, code: Option<string>, state: Option<string>) {
    RowFor(s, user, application, code, state)
    && forall other :: RowFor(s, other, application, code, state) ==> other == user
  }

  lemma NoUser(s: Store, application: nat, code: Option<string>, state: Option<string>)
    ensures Matching(s.rows, application, code, state) == []
        <==> forall user :: !RowFor(s, user, application, code, state)
  {
    if Matching(s.rows, application, code, state) != [] {
      MatchingUser(s, application, code, state, 0);
    } else if user :| RowFor(s, user, application, code, state) {
      var _ := UserMatches(s, user, application, code, state);
    }
  }

  lemma OneUser(s: Store, application: nat, code: Option<string>, state: Option<string>)
    requires |Matching(s.rows, application, code, state)| == 1
    ensures OnlyUser(s, s.rows[Matching(s.rows, application, code, state)[0]].user, application, code, state)
  {
    MatchingUser(s, application, code, state, 0);
    forall other | RowFor(s, other, application, code, state)
      ensures other == s.rows[Matching(s.rows, application, code, state)[0]].user
    {
      var _ := UserMatches(s, other, application, code, state);
    }
  }

  lemma SeveralUsers(s: Store, application: nat, code: Option<string>, state: Option<string>)
    returns (user: nat, other: nat)
    requires Sound(s) && |Matching(s.rows, application, code, state)| > 1
    ensures user != other && code == None
    ensures RowFor(s, user, application, code, state) && RowFor(s, other, application, code, state)
  {
    var found := Matching(s.rows, application, code, state);
    MatchingUsersDiffer(s, application, code, state);
    MatchingUser(s, application, code, state, 0);
    MatchingUser(s, application, code, state, 1);
    user, other := s.rows[found[0]].user, s.rows[found[1]].user;
  }

  ghost predicate OnlyEntitled(applications: set<nat>, events: seq<Event>, user: nat, application: nat,
                               code: Option<string>, state: Option<string>)
  {
    Entitled(applications, events, user, application, code, state)
    && forall other :: Entitled(applications, events, other, application, code, state) ==> other == user
  }

  ghost predicate SeveralEntitled(applications: set<nat>, events: seq<Event>, application: nat, code: Option<string>,
                                  state: Option<string>)
  {
    exists user, other :: user != other
      && Entitled(applications, events, user, application, code, state)
      && Entitled(applications, events, other, application, code, state)
  }

  /** The number of matching rows tells how many users are entitled. */
  lemma CountsEntitled(applications: set<nat>, events: seq<Event>, application: nat, code: Option<string>,
                       state: Option<string>)
    requires FreshDraws(events)
    ensures var n := |Matching(Exec(applications, events).rows, application, code, state)|;
            && (n == 0 ==> forall user :: !Entitled(applications, events, user, application, code, state))
            && (n == 1 ==> exists user :: OnlyEntitled(applications, events, user, application, code, state))
            && (n > 1 ==> code == None && SeveralEntitled(applications, events, application, code, state))
  {
    var s := Exec(applications, events);
    var n := |Matching(s.rows, application, code, state)|;
    NoUser(s, application, code, state);
    if n == 0 {
      forall user ensures !Entitled(applications, events, user, application, code, state) {
        EntitledIff(applications, events, user, application, code, state);
      }
    } else if n == 1 {
      OneUser(s, application, code, state);
      OnlyOneEntitled(applications, events, s.rows[Matching(s.rows, application, code, state)[0]].user,
                      application, code, state);
    } else {
      ExecSound(applications, events);
      var user, other := SeveralUsers(s, application, code, state);
      EntitledIff(applications, events, user, application, code, state);
      EntitledIff(applications, events, other, application, code, state);
    }
  }

  lemma AnswerByCount(s: Store, application: nat, code: Option<string>, state: Option<string>, at: int)
    ensures var answer := Step(s, Validate(Some(application), code, state, at)).1;
            var n := |Matching(s.rows, application, code, state)|;
            && (answer.Access? <==> n == 1) && (answer == SeveralRows <==> n > 1) && (answer == NotFound <==> n == 0)
  {
  }

  /** After any run: a request is answered with an access token exactly when one user alone is
      entitled to it, it raises exactly when several are, which takes a request without a code, and
      is not found when nobody is. With a code, entitled is who holds it alive; without one, whoever
      has redeemed a code since the last one was issued. */
  lemma ValidateSucceedsIff(applications: set<nat>, events: seq<Event>, application: nat, code: Option<string>,
                            state: Option<string>, at: int)
    requires FreshDraws(events)
    ensures var answer := Step(Exec(applications, events), Validate(Some(application), code, state, at)).1;
            && (answer.Access? <==> exists user :: OnlyEntitled(applications, events, user, application, code, state))
            && (answer == SeveralRows <==> SeveralEntitled(applications, events, application, code, state))
            && (answer == NotFound <==>
                  forall user :: !Entitled(applications, events, user, application, code, state))
            && (answer == SeveralRows ==> code == None)
    ensures Step(Exec(applications, events), Validate(None, code, state, at)).1 == NotFound
  {
    CountsEntitled(applications, events, application, code, state);
    AnswerByCount(Exec(applications, events), application, code, state, at);
  }

  lemma OnlyOneEntitled(applications: set<nat>, events: seq<Event>, user: nat, application: nat, code: Option<string>,
                        state: Option<string>)
    requires FreshDraws(events) && OnlyUser(Exec(applications, events), user, application, code, state)
    ensures OnlyEntitled(applications, events, user, application, code, state)
  {
    EntitledIff(applications, events, user, application, code, state);
    forall other | Entitled(applications, events, other, application, code, state) ensures other == user {
      EntitledIff(applications, events, other, application, code, state);
    }
  }

  // ---------- what an answer uses up ----------

  /** Some code alive before the request is not alive after it. */
  ghost predicate Consumes(applications: set<nat>, events: seq<Event>, event: Event) {
    exists user, application, code, state ::
      Alive(applications, events, user, application, code, state)
      && !Alive(applications, events + [event], user, application, code, state)
  }

  lemma AnsweredRow(applications: set<nat>, events: seq<Event>, event: Event) returns (i: nat)
    requires event.Validate? && Step(Exec(applications, events), event).1.Access?
    ensures var s := Exec(applications, events);
            && i < |s.rows| && event.application.Some?
            && Matches(s.rows[i], event.application.value, event.code, event.state)
            && Step(s, event).0 == s.(rows := s.rows[i := Redeemed(s.rows[i], event.at)])
            && Some(Step(s, event).1.token) == Redeemed(s.rows[i], event.at).token
  {
    var s := Exec(applications, events);
    i := Matching(s.rows, event.application.value, event.code, event.state)[0];
    MatchingAre(s.rows, event.application.value, event.code, event.state, i);
  }

  lemma ExecAppend(applications: set<nat>, events: seq<Event>, event: Event)
    ensures Exec(applications, events + [event]) == Step(Exec(applications, events), event).0
  {
    assert (events + [event])[..|events|] == events;
  }

  lemma FreshAppend(events: seq<Event>, event: Event)
    requires FreshDraws(events) && Draw(event) == None
    ensures FreshDraws(events + [event])
  {
    var all := events + [event];
    assert all[|events|] == event;
    assert forall i | 0 <= i < |events| :: all[i] == events[i];
  }

  /** An answer to a request without a code repeats the token the row already had and changes
      nothing at all. */
  lemma NoCodeChangesNothing(applications: set<nat>, events: seq<Event>, event: Event)
    requires event.Validate? && event.code == None && Step(Exec(applications, events), event).1.Access?
    ensures Exec(applications, events + [event]) == Exec(applications, events)
    ensures exists row | row in Exec(applications, events).rows ::
              row.authCode == None && row.token == Some(Step(Exec(applications, events), event).1.token)
  {
    var s := Exec(applications, events);
    ExecAppend(applications, events, event);
    ExecSpentHaveTokens(applications, events);
    var i := AnsweredRow(applications, events, event);
    assert Redeemed(s.rows[i], event.at) == s.rows[i];
    assert s.rows[i := s.rows[i]] == s.rows;
    assert s.rows[i] in s.rows;
  }

  /** The law over all requests: an answer with a token uses up a live issued code if and only if
      the request carries a code. */
  lemma AccessConsumesIff(applications: set<nat>, events: seq<Event>, event: Event)
    requires FreshDraws(events) && event.Validate? && Step(Exec(applications, events), event).1.Access?
    ensures Consumes(applications, events, event) <==> event.code.Some?
  {
    var after := events + [event];
    FreshAppend(events, event);
    ExecAppend(applications, events, event);
    if event.code.Some? {
      CodeIsConsumed(applications, events, event);
    } else {
      NoCodeChangesNothing(applications, events, event);
      forall user, application, code, state
        ensures Alive(applications, events, user, application, code, state)
            <==> Alive(applications, after, user, application, code, state)
      {
        RowIff(applications, events, user, application, code, state);
        RowIff(applications, after, user, application, code, state);
      }
    }
  }

  lemma CodeIsConsumed(applications: set<nat>, events: seq<Event>, event: Event)
    requires FreshDraws(events) && FreshDraws(events + [event])
    requires event.Validate? && event.code.Some? && Step(Exec(applications, events), event).1.Access?
    ensures Consumes(applications, events, event)
  {
    var s := Exec(applications, events);
    var i := AnsweredRow(applications, events, event);
    var user, application, code, state := s.rows[i].user, s.rows[i].application, event.code.value, s.rows[i].state;
    assert HasRow(s, user, application, code, state);
    ExecSound(applications, events);
    RedeemKills(s, event, code);
    ExecAppend(applications, events, event);
    assert !HasRow(Exec(applications, events + [event]), user, application, code, state);
    RowIff(applications, events, user, application, code, state);
    RowIff(applications, events + [event], user, application, code, state);
  }

  /** A redeemed row answers a request that names only the application. */
  lemma AnsweredWithoutCode()
    ensures var run := [Authorize(Some(1), Some(7), None, "c"), Validate(Some(7), Some("c"), None, 5)];
            Step(Exec({7}, run), Validate(Some(7), None, None, 9)).1 == Access(Signed(0, 5))
  {
    var issue, redeem := Authorize(Some(1), Some(7), None, "c"), Validate(Some(7), Some("c"), None, 5);
    assert [issue, redeem] == [issue] + [redeem] && [issue] == [] + [issue];
    ExecAppend({7}, [], issue);
    ExecAppend({7}, [issue], redeem);
    var issued := Row(0, 1, 7, Some("c"), None, None);
    assert Exec({7}, [issue]) == Store({7}, [issued], 1);
    assert [issued][..0] == [];
    assert Matching([issued], 7, Some("c"), None) == [0];
    var redeemed := Row(0, 1, 7, None, Some(Signed(0, 5)), None);
    assert Exec({7}, [issue, redeem]).rows == [redeemed];
    assert [redeemed][..0] == [];
    assert Matching([redeemed], 7, None, None) == [0];
  }

  // ---------- what each request answers and changes ----------

  ghost predicate HasRowOf(s: Store, user: nat, application: nat) {
    exists row | row in s.rows :: row.user == user && row.application == application
  }

  lemma RowOfFound(s: Store, user: nat, application: nat)
    ensures HasRowOf(s, user, application) <==> FindPair(s.rows, user, application).Some?
  {
    FoundPair(s.rows, user, application);
    if HasRowOf(s, user, application) {
      var row :| row in s.rows && row.user == user && row.application == application;
      var i :| 0 <= i < |s.rows| && s.rows[i] == row;
    }
  }

  /** Authorizing answers a new code to every user for every application there is; an anonymous
      request is refused first, an unknown application is not found, and neither changes anything. */
  lemma AuthorizeAnswers(s: Store, user: Option<nat>, application: Option<nat>, state: Option<string>, draw: string)
    ensures var (s', answer) := Step(s, Authorize(user, application, state, draw));
            && (user == None ==> answer == NotAuthenticated)
            && (user.Some? && (application == None || application.value !in s.applications) ==> answer == NotFound)
            && (user.Some? && application.Some? && application.value in s.applications ==> answer == Issued(draw))
            && (!answer.Issued? ==> s' == s)
  {
  }

  /** Showing answers a new code when the user has a row for the application, and else a row that is
      not stored. */
  lemma ShowAnswers(s: Store, user: Option<nat>, application: Option<nat>, state: Option<string>, draw: string)
    ensures var (s', answer) := Step(s, ShowToken(user, application, state, draw));
            && (user == None ==> answer == NotAuthenticated)
            && (user.Some? && (application == None || application.value !in s.applications) ==> answer == NotFound)
            && (user.Some? && application.Some? && application.value in s.applications ==>
                  answer == if HasRowOf(s, user.value, application.value) then Issued(draw) else Unsaved)
            && (!answer.Issued? ==> s' == s)
  {
    if user.Some? && application.Some? {
      RowOfFound(s, user.value, application.value);
    }
  }

  /** Issuing gives the pair's row the code and the state and leaves its id and token; without a row
      one is added under a new id, without a token. Other rows stay as they are. */
  lemma IssuedRow(s: Store, user: nat, application: nat, state: Option<string>, draw: string, row: Row)
    requires Sound(s)
    ensures var s' := AfterAuthorize(s, user, application, state, draw);
            && s'.applications == s.applications
            && (!(row.user == user && row.application == application) ==> (row in s'.rows <==> row in s.rows))
            && (row.user == user && row.application == application && row in s.rows ==>
                  row.(authCode := Some(draw), state := state) in s'.rows)
            && (!HasRowOf(s, user, application) ==>
                  s'.rows == s.rows + [Row(s.nextId, user, application, Some(draw), None, state)])
  {
    RowOfFound(s, user, application);
    FoundPair(s.rows, user, application);
    var s' := AfterAuthorize(s, user, application, state, draw);
    if HasRowOf(s, user, application) {
      var i := FindPair(s.rows, user, application).value;
      assert s'.rows[i] == Recoded(s.rows[i], draw, state);
      assert forall k | 0 <= k < |s.rows| && k != i :: s'.rows[k] == s.rows[k];
      if row in s.rows {
        var k :| 0 <= k < |s.rows| && s.rows[k] == row;
        assert s'.rows[k] in s'.rows;
      }
    }
  }

  /** Destroying takes exactly the user's own row with that id; without one it is not found. */
  lemma DestroyAnswers(s: Store, user: Option<nat>, id: nat, row: Row)
    requires Sound(s)
    ensures var (s', answer) := Step(s, Destroy(user, id));
            && (user == None ==> answer == NotAuthenticated && s' == s)
            && (user.Some? ==> answer == if exists r | r in s.rows :: r.id == id && r.user == user.value then Removed else NotFound)
            && (answer == NotFound ==> s' == s)
            && (answer == Removed ==> (row in s'.rows <==> row in s.rows && row.id != id))
  {
    if user.Some? {
      FoundId(s.rows, id, user.value);
      if r :| r in s.rows && r.id == id && r.user == user.value {
        var j :| 0 <= j < |s.rows| && s.rows[j] == r;
      }
      if FindId(s.rows, id, user.value).Some? {
        RowsWithout(s, FindId(s.rows, id, user.value).value, row);
      }
    }
  }

  lemma RowsWithout(s: Store, k: nat, row: Row)
    requires Sound(s) && k < |s.rows|
    ensures row in s.rows[..k] + s.rows[k + 1..] <==> row in s.rows && row.id != s.rows[k].id
  {
    var rows := s.rows[..k] + s.rows[k + 1..];
    assert forall i | 0 <= i < |rows| :: rows[i] == s.rows[if i < k then i else i + 1];
    if row in s.rows && row.id != s.rows[k].id {
      var i :| 0 <= i < |s.rows| && s.rows[i] == row;
      assert rows[if i < k then i else i - 1] == row;
    }
  }
}
