/** Authorization codes and access tokens of external applications. */
module AppTokens {
  import opened Common

  /** A signed row id; the signature carries the time of signing. */
  datatype AccessToken = Signed(id: nat, at: int)

  datatype Row = Row(id: nat, user: nat, application: nat, authCode: Option<string>, token: Option<AccessToken>,
                     state: Option<string>)

  /** Rows in order of creation. */
  datatype Store = Store(applications: set<nat>, rows: seq<Row>, nextId: nat)

  /** `draw` is the value of uuid4 should the step need one. No user is an anonymous request. */
  datatype Event =
    | Authorize(user: Option<nat>, application: Option<nat>, state: Option<string>, draw: string)
    | ShowToken(user: Option<nat>, application: Option<nat>, state: Option<string>, draw: string)
    | Validate(application: Option<nat>, code: Option<string>, state: Option<string>, at: int)
    | Destroy(user: Option<nat>, id: nat)

  /** `Unsaved` shows a row that was never stored. */
  datatype Answer =
    | Issued(code: string) | Unsaved | Access(token: AccessToken) | Removed
    | NotAuthenticated | NotFound | SeveralRows

  // ---------- queries ----------

  function FindPair(rows: seq<Row>, user: nat, application: nat): (i: Option<nat>)
    ensures i.Some? ==> i.value < |rows|
  {
    if rows == [] then None
    else if rows[|rows| - 1].user == user && rows[|rows| - 1].application == application then Some(|rows| - 1)
    else FindPair(rows[..|rows| - 1], user, application)
  }

  /** A null value is compared with IS NULL. */
  predicate Matches(row: Row, application: nat, code: Option<string>, state: Option<string>) {
    row.application == application && row.authCode == code && row.state == state
  }

  function Matching(rows: seq<Row>, application: nat, code: Option<string>, state: Option<string>): (found: seq<nat>)
    ensures forall j | 0 <= j < |found| :: found[j] < |rows|
  {
    if rows == [] then []
    else
      Matching(rows[..|rows| - 1], application, code, state)
      + if Matches(rows[|rows| - 1], application, code, state) then [|rows| - 1] else []
  }

  function FindId(rows: seq<Row>, id: nat, user: nat): (i: Option<nat>)
    ensures i.Some? ==> i.value < |rows|
  {
    if rows == [] then None
    else if rows[|rows| - 1].id == id && rows[|rows| - 1].user == user then Some(|rows| - 1)
    else FindId(rows[..|rows| - 1], id, user)
  }

  /** The user an access token authenticates. */
  function UserFor(rows: seq<Row>, token: AccessToken): Option<nat> {
    if rows == [] then None
    else if rows[0].token == Some(token) then Some(rows[0].user)
    else UserFor(rows[1..], token)
  }

  // ---------- the steps ----------

  function Recoded(row: Row, draw: string, state: Option<string>): Row {
    row.(authCode := Some(draw), state := state)
  }

  /** The code is spent; an access token already there is kept. */
  function Redeemed(row: Row, at: int): Row {
    row.(authCode := None, token := if row.token.Some? then row.token else Some(Signed(row.id, at)))
  }

  function AfterAuthorize(s: Store, user: nat, application: nat, state: Option<string>, draw: string): Store {
    match FindPair(s.rows, user, application)
    case Some(i) => s.(rows := s.rows[i := Recoded(s.rows[i], draw, state)])
    case None => s.(rows := s.rows + [Row(s.nextId, user, application, Some(draw), None, state)], nextId := s.nextId + 1)
  }

  function StepAuthorize(s: Store, user: Option<nat>, application: Option<nat>, state: Option<string>, draw: string)
    : (Store, Answer)
  {
    if user.None? then (s, NotAuthenticated)
    else if application.None? || application.value !in s.applications then (s, NotFound)
    else (AfterAuthorize(s, user.value, application.value, state, draw), Issued(draw))
  }

  function StepShow(s: Store, user: Option<nat>, application: Option<nat>, state: Option<string>, draw: string)
    : (Store, Answer)
  {
    if user.None? then (s, NotAuthenticated)
    else if application.None? || application.value !in s.applications then (s, NotFound)
    else if FindPair(s.rows, user.value, application.value).None? then (s, Unsaved)
    else (AfterAuthorize(s, user.value, application.value, state, draw), Issued(draw))
  }

  function StepValidate(s: Store, application: Option<nat>, code: Option<string>, state: Option<string>, at: int)
    : (Store, Answer)
  {
    if application.None? then (s, NotFound)
    else
      var found := Matching(s.rows, application.value, code, state);
      if |found| == 0 then (s, NotFound)
      else if |found| > 1 then (s, SeveralRows)
      else
        var row := Redeemed(s.rows[found[0]], at);
        (s.(rows := s.rows[found[0] := row]), Access(row.token.value))
  }

  function StepDestroy(s: Store, user: Option<nat>, id: nat): (Store, Answer) {
    if user.None? then (s, NotAuthenticated)
    else
      match FindId(s.rows, id, user.value)
      case None => (s, NotFound)
      case Some(i) => (s.(rows := s.rows[..i] + s.rows[i + 1..]), Removed)
  }

  function Step(s: Store, event: Event): (Store, Answer) {
    match event
    case Authorize(user, application, state, draw) => StepAuthorize(s, user, application, state, draw)
    case ShowToken(user, application, state, draw) => StepShow(s, user, application, state, draw)
    case Validate(application, code, state, at) => StepValidate(s, application, code, state, at)
    case Destroy(user, id) => StepDestroy(s, user, id)
  }

  lemma {:induction false} FoundPair(rows: seq<Row>, user: nat, application: nat)
    ensures FindPair(rows, user, application).Some? ==>
      var i := FindPair(rows, user, application).value;
      i < |rows| && rows[i].user == user && rows[i].application == application
    ensures FindPair(rows, user, application).None? ==>
      forall i | 0 <= i < |rows| :: !(rows[i].user == user && rows[i].application == application)
  {
    if rows != [] {
      var n := |rows| - 1;
      FoundPair(rows[..n], user, application);
      assert forall i | 0 <= i < n :: rows[..n][i] == rows[i];
    }
  }

  lemma {:induction false} MatchingAre(rows: seq<Row>, application: nat, code: Option<string>, state: Option<string>, i: nat)
    ensures i in Matching(rows, application, code, state) <==> i < |rows| && Matches(rows[i], application, code, state)
  {
    if rows != [] {
      MatchingAre(rows[..|rows| - 1], application, code, state, i);
    }
  }

  lemma {:induction false} MatchingIncreases(rows: seq<Row>, application: nat, code: Option<string>, state: Option<string>,
                                             j: nat, k: nat)
    requires j < k < |Matching(rows, application, code, state)|
    ensures Matching(rows, application, code, state)[j] < Matching(rows, application, code, state)[k]
  {
    var n := |rows| - 1;
    var before := Matching(rows[..n], application, code, state);
    if k < |before| {
      MatchingIncreases(rows[..n], application, code, state, j, k);
    } else {
      MatchingAre(rows[..n], application, code, state, before[j]);
    }
  }

  lemma {:induction false} FoundId(rows: seq<Row>, id: nat, user: nat)
    ensures FindId(rows, id, user).Some? ==>
      var i := FindId(rows, id, user).value;
      i < |rows| && rows[i].id == id && rows[i].user == user
    ensures FindId(rows, id, user).None? ==> forall i | 0 <= i < |rows| :: !(rows[i].id == id && rows[i].user == user)
  {
    if rows != [] {
      var n := |rows| - 1;
      FoundId(rows[..n], id, user);
      assert forall i | 0 <= i < n :: rows[..n][i] == rows[i];
    }
  }

  /** The application tokens table and the requests that change it. */
  class ApplicationTokens {
    const applications: set<nat>
    var rows: seq<Row>
    var nextId: nat

    function Snapshot(): Store
      reads this
    {
      Store(applications, rows, nextId)
    }

    constructor (applications: set<nat>)
      ensures Snapshot() == Store(applications, [], 0)
    {
      this.applications, rows, nextId := applications, [], 0;
    }

    /** `update_auth_code`, the new state and the save. */
    method Recode(i: nat, draw: string, state: Option<string>)
      requires i < |rows|
      modifies this`rows
      ensures rows == old(rows)[i := Recoded(old(rows)[i], draw, state)]
    {
      var row := rows[i];
      row := row.(authCode := Some(draw));
      row := row.(state := state);
      rows := rows[i := row];
    }

    method AuthorizeToken(user: nat, application: nat, state: Option<string>, draw: string)
      modifies this
      ensures Snapshot() == AfterAuthorize(old(Snapshot()), user, application, state, draw)
    {
      FoundPair(rows, user, application);
      var found := FindPair(rows, user, application);
      if found.Some? {
        Recode(found.value, draw, state);
      } else {
        rows := rows + [Row(nextId, user, application, None, None, Some(""))];
        nextId := nextId + 1;
        Recode(|rows| - 1, draw, state);
      }
    }

    method Authorize(user: Option<nat>, application: Option<nat>, state: Option<string>, draw: string)
      returns (answer: Answer)
      modifies this
      ensures (Snapshot(), answer) == Step(old(Snapshot()), Event.Authorize(user, application, state, draw))
    {
      if user.None? {
        return NotAuthenticated;
      }
      if application.None? || application.value !in applications {
        return NotFound;
      }
      AuthorizeToken(user.value, application.value, state, draw);
      answer := Issued(draw);
    }

    method ShowToken(user: Option<nat>, application: Option<nat>, state: Option<string>, draw: string)
      returns (answer: Answer)
      modifies this
      ensures (Snapshot(), answer) == Step(old(Snapshot()), Event.ShowToken(user, application, state, draw))
    {
      if user.None? {
        return NotAuthenticated;
      }
      if application.None? || application.value !in applications {
        return NotFound;
      }
      FoundPair(rows, user.value, application.value);
      var found := FindPair(rows, user.value, application.value);
      if found.None? {
        return Unsaved;
      }
      Recode(found.value, draw, state);
      answer := Issued(draw);
    }

    /** `generate_token` and the save. */
    method GenerateToken(i: nat, at: int) returns (token: AccessToken)
      requires i < |rows|
      modifies this`rows
      ensures rows == old(rows)[i := Redeemed(old(rows)[i], at)]
      ensures Some(token) == rows[i].token
    {
      var row := rows[i];
      row := row.(authCode := None);
      if row.token.None? {
        row := row.(token := Some(Signed(row.id, at)));
      }
      rows := rows[i := row];
      token := row.token.value;
    }

    method Validate(application: Option<nat>, code: Option<string>, state: Option<string>, at: int)
      returns (answer: Answer)
      modifies this
      ensures (Snapshot(), answer) == Step(old(Snapshot()), Event.Validate(application, code, state, at))
    {
      if application.None? {
        return NotFound;
      }
      var found := Matching(rows, application.value, code, state);
      if |found| == 0 {
        return NotFound;
      }
      if |found| > 1 {
        return SeveralRows;
      }
      MatchingAre(rows, application.value, code, state, found[0]);
      var token := GenerateToken(found[0], at);
      answer := Access(token);
    }

    method Destroy(user: Option<nat>, id: nat) returns (answer: Answer)
      modifies this
      ensures (Snapshot(), answer) == Step(old(Snapshot()), Event.Destroy(user, id))
    {
      if user.None? {
        return NotAuthenticated;
      }
      FoundId(rows, id, user.value);
      var found := FindId(rows, id, user.value);
      if found.None? {
        return NotFound;
      }
      rows := rows[..found.value] + rows[found.value + 1..];
      answer := Removed;
    }
  }
}
