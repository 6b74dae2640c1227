/** The kanban board: a row per swimlane and user story status, kept by signal handlers, and the
    default swimlane of the project. */
module Swimlanes {
  import opened Common

  datatype Status = Status(id: nat, wip: Option<int>)

  /** A row of the matrix with its own work-in-progress limit. */
  datatype Row = Row(swimlane: nat, status: nat, wip: Option<int>)

  /** Ids come from one counter; `stories` maps a story to its nullable swimlane. */
  datatype Board = Board(swimlanes: seq<nat>, statuses: seq<Status>, rows: seq<Row>,
                         defaultSwimlane: Option<nat>, stories: map<nat, Option<nat>>, nextId: nat)

  datatype Event =
    | CreateSwimlane
    | CreateStatus(wip: Option<int>)
    | DeleteSwimlane(swimlane: nat, moveTo: Option<nat>)
    | DeleteStatus(status: nat)
    | PutStory(story: nat, target: Option<nat>)

  function RowsOfSwimlane(swimlane: nat, statuses: seq<Status>, copy: bool): seq<Row> {
    if statuses == [] then []
    else
      var last := statuses[|statuses| - 1];
      RowsOfSwimlane(swimlane, statuses[..|statuses| - 1], copy)
      + [Row(swimlane, last.id, if copy then last.wip else None)]
  }

  function RowsOfStatus(swimlanes: seq<nat>, status: Status, copy: bool): seq<Row> {
    if swimlanes == [] then []
    else
      RowsOfStatus(swimlanes[..|swimlanes| - 1], status, copy)
      + [Row(swimlanes[|swimlanes| - 1], status.id, if copy then status.wip else None)]
  }

  function WithoutStatus(statuses: seq<Status>, id: nat): seq<Status> {
    if statuses == [] then []
    else WithoutStatus(statuses[..|statuses| - 1], id)
         + if statuses[|statuses| - 1].id == id then [] else [statuses[|statuses| - 1]]
  }

  /** Cascading deletes of the rows of a swimlane or of a status. */
  function RowsWithout(rows: seq<Row>, swimlane: Option<nat>, status: Option<nat>): seq<Row> {
    if rows == [] then []
    else
      var last := rows[|rows| - 1];
      RowsWithout(rows[..|rows| - 1], swimlane, status)
      + if Some(last.swimlane) == swimlane || Some(last.status) == status then [] else [last]
  }

  function MoveStories(stories: map<nat, Option<nat>>, from: nat, to: Option<nat>): map<nat, Option<nat>> {
    map story | story in stories :: if stories[story] == Some(from) then to else stories[story]
  }

  function AfterCreateSwimlane(b: Board): Board {
    var id := b.nextId;
    var swimlanes := b.swimlanes + [id];
    var first := |swimlanes| == 1;
    Board(swimlanes, b.statuses, b.rows + RowsOfSwimlane(id, b.statuses, first),
          if first then Some(id) else b.defaultSwimlane,
          if first then map story | story in b.stories :: Some(id) else b.stories,
          id + 1)
  }

  function AfterCreateStatus(b: Board, wip: Option<int>): Board {
    var status := Status(b.nextId, wip);
    b.(statuses := b.statuses + [status],
       rows := b.rows + RowsOfStatus(b.swimlanes, status, |b.swimlanes| == 1),
       nextId := b.nextId + 1)
  }

  /** The request is refused when the swimlane or the target is not on the board, when stories
      would be orphaned while others exist, and when it is the default one of several. */
  predicate MayDelete(b: Board, swimlane: nat, moveTo: Option<nat>) {
    && swimlane in b.swimlanes
    && (match moveTo
        case None => |b.swimlanes| <= 1
        case Some(to) => to in b.swimlanes)
    && !(b.defaultSwimlane == Some(swimlane) && |b.swimlanes| > 1)
  }

  function AfterDeleteSwimlane(b: Board, swimlane: nat, moveTo: Option<nat>): Board {
    if !MayDelete(b, swimlane, moveTo) then b
    else
      var moved := if moveTo == Some(swimlane) then b.stories else MoveStories(b.stories, swimlane, moveTo);
      b.(swimlanes := Without(b.swimlanes, swimlane),
         rows := RowsWithout(b.rows, Some(swimlane), None),
         defaultSwimlane := if b.defaultSwimlane == Some(swimlane) then None else b.defaultSwimlane,
         stories := MoveStories(moved, swimlane, None))
  }

  function Step(b: Board, event: Event): Board {
    match event
    case CreateSwimlane => AfterCreateSwimlane(b)
    case CreateStatus(wip) => AfterCreateStatus(b, wip)
    case DeleteSwimlane(swimlane, moveTo) => AfterDeleteSwimlane(b, swimlane, moveTo)
    case DeleteStatus(status) =>
      b.(statuses := WithoutStatus(b.statuses, status), rows := RowsWithout(b.rows, None, Some(status)))
    case PutStory(story, target) =>
      if target.None? || target.value in b.swimlanes then b.(stories := b.stories[story := target]) else b
  }

  function Exec(events: seq<Event>): Board {
    if events == [] then Board([], [], [], None, map[], 0)
    else Step(Exec(events[..|events| - 1]), events[|events| - 1])
  }

  class KanbanBoard {
    var swimlanes: seq<nat>
    var statuses: seq<Status>
    var rows: seq<Row>
    var defaultSwimlane: Option<nat>
    var stories: map<nat, Option<nat>>
    var nextId: nat

    function Snapshot(): Board
      reads this
    {
      Board(swimlanes, statuses, rows, defaultSwimlane, stories, nextId)
    }

    constructor ()
      ensures Snapshot() == Exec([])
    {
      swimlanes, statuses, rows, defaultSwimlane, stories, nextId := [], [], [], None, map[], 0;
    }

    /** Handler on a created swimlane: one row per status. */
    method PopulateSwimlane(swimlane: nat)
      modifies this`rows
      ensures rows == old(rows) + RowsOfSwimlane(swimlane, statuses, |swimlanes| == 1)
    {
      var copyFromMainStatus := |swimlanes| == 1;
      for i := 0 to |statuses|
        invariant rows == old(rows) + RowsOfSwimlane(swimlane, statuses[..i], copyFromMainStatus)
      {
        assert statuses[..i + 1][..i] == statuses[..i];
        rows := rows + [Row(swimlane, statuses[i].id, if copyFromMainStatus then statuses[i].wip else None)];
      }
      assert statuses[..|statuses|] == statuses;
    }

    /** Handler on a created status: one row per swimlane. */
    method PopulateStatus(status: Status)
      modifies this`rows
      ensures rows == old(rows) + RowsOfStatus(swimlanes, status, |swimlanes| == 1)
    {
      var copyFromMainStatus := |swimlanes| == 1;
      for i := 0 to |swimlanes|
        invariant rows == old(rows) + RowsOfStatus(swimlanes[..i], status, copyFromMainStatus)
      {
        assert swimlanes[..i + 1][..i] == swimlanes[..i];
        rows := rows + [Row(swimlanes[i], status.id, if copyFromMainStatus then status.wip else None)];
      }
      assert swimlanes[..|swimlanes|] == swimlanes;
    }

    /** Save, the two handlers, then the view's own post_save. */
    method CreateSwimlane()
      modifies this
      ensures Snapshot() == AfterCreateSwimlane(old(Snapshot()))
    {
      var id := nextId;
      nextId := nextId + 1;
      swimlanes := swimlanes + [id];
      PopulateSwimlane(id);
      if |swimlanes| == 1 {
        defaultSwimlane := Some(id);
      }
      if |swimlanes| == 1 {
        stories := map story | story in stories :: Some(id);
      }
    }

    method CreateStatus(wip: Option<int>)
      modifies this
      ensures Snapshot() == AfterCreateStatus(old(Snapshot()), wip)
    {
      var status := Status(nextId, wip);
      nextId := nextId + 1;
      statuses := statuses + [status];
      PopulateStatus(status);
    }

    /** Answers whether the swimlane was deleted; a refusal rolls the moves back. */
    method DestroySwimlane(swimlane: nat, moveTo: Option<nat>) returns (deleted: bool)
      modifies this
      ensures deleted == MayDelete(old(Snapshot()), swimlane, moveTo)
      ensures Snapshot() == AfterDeleteSwimlane(old(Snapshot()), swimlane, moveTo)
    {
      if swimlane !in swimlanes {
        return false;
      }
      var moved := stories;
      if moveTo.None? {
        if |swimlanes| > 1 {
          return false;
        }
        moved := MoveStories(stories, swimlane, None);
      } else {
        if moveTo.value !in swimlanes {
          return false;
        }
        if moveTo.value != swimlane {
          moved := MoveStories(stories, swimlane, moveTo);
        }
      }
      if defaultSwimlane == Some(swimlane) && |swimlanes| > 1 {
        return false;
      }
      swimlanes := Without(swimlanes, swimlane);
      rows := RowsWithout(rows, Some(swimlane), None);
      stories := MoveStories(moved, swimlane, None);
      if defaultSwimlane == Some(swimlane) {
        defaultSwimlane := None;
      }
      return true;
    }
  }

  // ---------- counting rows ----------

  function Count(rows: seq<Row>, swimlane: nat, status: nat): nat {
    if rows == [] then 0
    else
      var last := rows[|rows| - 1];
      Count(rows[..|rows| - 1], swimlane, status) + if last.swimlane == swimlane && last.status == status then 1 else 0
  }

  function CountId(ids: seq<nat>, id: nat): nat {
    if ids == [] then 0
    else CountId(ids[..|ids| - 1], id) + if ids[|ids| - 1] == id then 1 else 0
  }

  function CountStatus(statuses: seq<Status>, id: nat): nat {
    if statuses == [] then 0
    else CountStatus(statuses[..|statuses| - 1], id) + if statuses[|statuses| - 1].id == id then 1 else 0
  }

  lemma {:induction false} CountConcat(a: seq<Row>, b: seq<Row>, swimlane: nat, status: nat)
    ensures Count(a + b, swimlane, status) == Count(a, swimlane, status) + Count(b, swimlane, status)
  {
    if b == [] {
      assert a + b == a;
    } else {
      var n := |b| - 1;
      CountConcat(a, b[..n], swimlane, status);
      assert (a + b)[..|a| + n] == a + b[..n];
    }
  }

  lemma {:induction false} CountSwimlaneRows(id: nat, statuses: seq<Status>, copy: bool, swimlane: nat, status: nat)
    ensures Count(RowsOfSwimlane(id, statuses, copy), swimlane, status)
         == if swimlane == id then CountStatus(statuses, status) else 0
  {
    if statuses != [] {
      var n := |statuses| - 1;
      CountSwimlaneRows(id, statuses[..n], copy, swimlane, status);
      var before := RowsOfSwimlane(id, statuses[..n], copy);
      assert RowsOfSwimlane(id, statuses, copy)[..|before|] == before;
    }
  }

  lemma {:induction false} CountStatusRows(swimlanes: seq<nat>, st: Status, copy: bool, swimlane: nat, status: nat)
    ensures Count(RowsOfStatus(swimlanes, st, copy), swimlane, status)
         == if status == st.id then CountId(swimlanes, swimlane) else 0
  {
    if swimlanes != [] {
      var n := |swimlanes| - 1;
      CountStatusRows(swimlanes[..n], st, copy, swimlane, status);
      var before := RowsOfStatus(swimlanes[..n], st, copy);
      assert RowsOfStatus(swimlanes, st, copy)[..|before|] == before;
    }
  }

  lemma {:induction false} CountRowsWithout(rows: seq<Row>, sw: Option<nat>, st: Option<nat>, swimlane: nat, status: nat)
    ensures Count(RowsWithout(rows, sw, st), swimlane, status)
         == if Some(swimlane) == sw || Some(status) == st then 0 else Count(rows, swimlane, status)
  {
    if rows != [] {
      var n := |rows| - 1;
      CountRowsWithout(rows[..n], sw, st, swimlane, status);
      var before := RowsWithout(rows[..n], sw, st);
      if RowsWithout(rows, sw, st) != before {
        assert RowsWithout(rows, sw, st)[..|before|] == before;
      }
    }
  }

  lemma {:induction false} CountWithout(ids: seq<nat>, gone: nat, id: nat)
    ensures CountId(Without(ids, gone), id) == if id == gone then 0 else CountId(ids, id)
  {
    if ids != [] {
      var n := |ids| - 1;
      CountWithout(ids[..n], gone, id);
      var before := Without(ids[..n], gone);
      if Without(ids, gone) != before {
        assert Without(ids, gone)[..|before|] == before;
      }
    }
  }

  lemma {:induction false} CountWithoutStatus(statuses: seq<Status>, gone: nat, id: nat)
    ensures CountStatus(WithoutStatus(statuses, gone), id) == if id == gone then 0 else CountStatus(statuses, id)
  {
    if statuses != [] {
      var n := |statuses| - 1;
      CountWithoutStatus(statuses[..n], gone, id);
      var before := WithoutStatus(statuses[..n], gone);
      if WithoutStatus(statuses, gone) != before {
        assert WithoutStatus(statuses, gone)[..|before|] == before;
      }
    }
  }

  lemma {:induction false} CountIdIn(ids: seq<nat>, id: nat)
    ensures id in ids <==> CountId(ids, id) > 0
  {
    if ids != [] {
      CountIdIn(ids[..|ids| - 1], id);
      assert ids == ids[..|ids| - 1] + [ids[|ids| - 1]];
    }
  }

  // ---------- the invariant ----------

  ghost function Expected(b: Board, swimlane: nat, status: nat): nat {
    if CountId(b.swimlanes, swimlane) == 0 || CountStatus(b.statuses, status) == 0 then 0 else 1
  }

  ghost predicate Matrix(b: Board) {
    forall swimlane: nat, status: nat :: Count(b.rows, swimlane, status) == Expected(b, swimlane, status)
  }

  ghost predicate FreshIds(b: Board) {
    && (forall id: nat :: CountId(b.swimlanes, id) <= 1 && CountStatus(b.statuses, id) <= 1)
    && (forall id: nat | id >= b.nextId :: CountId(b.swimlanes, id) == 0 && CountStatus(b.statuses, id) == 0)
  }

  ghost predicate DefaultInv(b: Board) {
    match b.defaultSwimlane
    case None => b.swimlanes == []
    case Some(id) => id in b.swimlanes
  }

  ghost predicate StoriesInv(b: Board) {
    forall story | story in b.stories && b.stories[story].Some? :: b.stories[story].value in b.swimlanes
  }

  ghost predicate Inv(b: Board) {
    Matrix(b) && FreshIds(b) && DefaultInv(b) && StoriesInv(b)
  }

  lemma CreateSwimlaneMatrix(b: Board)
    requires Matrix(b) && FreshIds(b)
    ensures Matrix(AfterCreateSwimlane(b)) && FreshIds(AfterCreateSwimlane(b))
  {
    var b' := AfterCreateSwimlane(b);
    assert b'.swimlanes[..|b.swimlanes|] == b.swimlanes;
    var added := RowsOfSwimlane(b.nextId, b.statuses, |b'.swimlanes| == 1);
    forall swimlane: nat, status: nat
      ensures Count(b'.rows, swimlane, status) == Expected(b', swimlane, status)
    {
      CountConcat(b.rows, added, swimlane, status);
      CountSwimlaneRows(b.nextId, b.statuses, |b'.swimlanes| == 1, swimlane, status);
      assert CountId(b'.swimlanes, swimlane) == CountId(b.swimlanes, swimlane) + if swimlane == b.nextId then 1 else 0;
    }
  }

  lemma CreateStatusMatrix(b: Board, wip: Option<int>)
    requires Matrix(b) && FreshIds(b)
    ensures Matrix(AfterCreateStatus(b, wip)) && FreshIds(AfterCreateStatus(b, wip))
  {
    var b' := AfterCreateStatus(b, wip);
    var st := Status(b.nextId, wip);
    assert b'.statuses[..|b.statuses|] == b.statuses;
    forall swimlane: nat, status: nat
      ensures Count(b'.rows, swimlane, status) == Expected(b', swimlane, status)
    {
      CountConcat(b.rows, RowsOfStatus(b.swimlanes, st, |b.swimlanes| == 1), swimlane, status);
      CountStatusRows(b.swimlanes, st, |b.swimlanes| == 1, swimlane, status);
      assert CountStatus(b'.statuses, status) == CountStatus(b.statuses, status) + if status == b.nextId then 1 else 0;
    }
  }

  lemma DeleteMatrix(b: Board, event: Event)
    requires Matrix(b) && FreshIds(b) && (event.DeleteSwimlane? || event.DeleteStatus?)
    ensures Matrix(Step(b, event)) && FreshIds(Step(b, event))
  {
    var b' := Step(b, event);
    var sw := if event.DeleteSwimlane? then Some(event.swimlane) else None;
    var st := if event.DeleteStatus? then Some(event.status) else None;
    forall swimlane: nat, status: nat
      ensures Count(b'.rows, swimlane, status) == Expected(b', swimlane, status)
      ensures CountId(b'.swimlanes, swimlane) <= CountId(b.swimlanes, swimlane)
      ensures CountStatus(b'.statuses, status) <= CountStatus(b.statuses, status)
    {
      CountRowsWithout(b.rows, sw, st, swimlane, status);
      if sw.Some? { CountWithout(b.swimlanes, sw.value, swimlane); }
      if st.Some? { CountWithoutStatus(b.statuses, st.value, status); }
    }
  }

  lemma DeleteDefault(b: Board, swimlane: nat, moveTo: Option<nat>)
    requires Inv(b) && MayDelete(b, swimlane, moveTo)
    ensures DefaultInv(AfterDeleteSwimlane(b, swimlane, moveTo)) && StoriesInv(AfterDeleteSwimlane(b, swimlane, moveTo))
  {
    var b' := AfterDeleteSwimlane(b, swimlane, moveTo);
    forall id | id in b.swimlanes ensures id != swimlane ==> id in b'.swimlanes {
      WithoutMembers(b.swimlanes, swimlane, id);
    }
    if b.defaultSwimlane == Some(swimlane) {
      assert b.swimlanes == [swimlane];
      assert Without(b.swimlanes, swimlane) == [];
    }
  }

  lemma StepInv(b: Board, event: Event)
    requires Inv(b)
    ensures Inv(Step(b, event))
  {
    match event {
      case CreateSwimlane => CreateSwimlaneMatrix(b);
      case CreateStatus(wip) => CreateStatusMatrix(b, wip);
      case DeleteSwimlane(swimlane, moveTo) =>
        DeleteMatrix(b, event);
        if MayDelete(b, swimlane, moveTo) { DeleteDefault(b, swimlane, moveTo); }
      case DeleteStatus(_) => DeleteMatrix(b, event);
      case PutStory(_, _) =>
    }
  }

  lemma {:induction false} ExecInv(events: seq<Event>)
    ensures Inv(Exec(events))
  {
    if events != [] {
      ExecInv(events[..|events| - 1]);
      StepInv(Exec(events[..|events| - 1]), events[|events| - 1]);
    }
  }

  // ---------- main results ----------

  lemma ProductOfSets(b: Board, swimlane: nat, status: nat)
    requires Matrix(b)
    ensures Count(b.rows, swimlane, status)
         == if swimlane in b.swimlanes && exists st | st in b.statuses :: st.id == status then 1 else 0
  {
    CountIdIn(b.swimlanes, swimlane);
    CountStatusIn(b.statuses, status);
    assert Count(b.rows, swimlane, status) == Expected(b, swimlane, status);
  }

  /** On every run from an empty board: each live swimlane and live status have exactly one row
      and nothing else has any, the default swimlane is set and live exactly when a swimlane
      exists, and no story sits in a deleted swimlane. */
  lemma MatrixIsProduct(events: seq<Event>, swimlane: nat, status: nat, story: nat)
    ensures var b := Exec(events);
            && Count(b.rows, swimlane, status)
               == (if swimlane in b.swimlanes && exists st | st in b.statuses :: st.id == status then 1 else 0)
            && (b.defaultSwimlane.Some? <==> b.swimlanes != [])
            && (b.defaultSwimlane.Some? ==> b.defaultSwimlane.value in b.swimlanes)
            && (story in b.stories && b.stories[story].Some? ==> b.stories[story].value in b.swimlanes)
  {
    ExecInv(events);
    ProductOfSets(Exec(events), swimlane, status);
  }

  lemma {:induction false} CountStatusIn(statuses: seq<Status>, id: nat)
    ensures (exists st | st in statuses :: st.id == id) <==> CountStatus(statuses, id) > 0
  {
    if statuses != [] {
      var n := |statuses| - 1;
      CountStatusIn(statuses[..n], id);
      assert statuses == statuses[..n] + [statuses[n]];
    }
  }

  /** On every run, creating a swimlane on a board without one makes it the default and takes in
      every story, none of which was in a swimlane; a further swimlane changes neither the default
      nor any story. */
  lemma FirstSwimlaneTakesAll(events: seq<Event>, story: nat)
    ensures var b, b' := Exec(events), AfterCreateSwimlane(Exec(events));
            && b'.swimlanes == b.swimlanes + [b.nextId] && b.nextId !in b.swimlanes
            && (story in b'.stories <==> story in b.stories)
            && if b.swimlanes == [] then
                 && b'.defaultSwimlane == Some(b.nextId)
                 && (story in b.stories ==> b.stories[story] == None && b'.stories[story] == Some(b.nextId))
               else b'.defaultSwimlane == b.defaultSwimlane && b'.stories == b.stories
  {
    ExecInv(events);
    CountIdIn(Exec(events).swimlanes, Exec(events).nextId);
  }

  /** When a deletion is refused: the swimlane or the target is not on the board, other swimlanes exist
      and no target is named, or the swimlane is the default one of several. On every run this
      leaves one rule: the last swimlane goes with no target or itself as target, one of several
      with a target on the board unless it is the default. */
  lemma RefusedIff(events: seq<Event>, swimlane: nat, moveTo: Option<nat>)
    ensures var b := Exec(events);
            && (AfterDeleteSwimlane(b, swimlane, moveTo) == b <==>
                  || swimlane !in b.swimlanes
                  || (moveTo == None && |b.swimlanes| > 1)
                  || (moveTo.Some? && moveTo.value !in b.swimlanes)
                  || (b.defaultSwimlane == Some(swimlane) && |b.swimlanes| > 1))
            && (b.swimlanes == [swimlane] ==>
                  (swimlane !in AfterDeleteSwimlane(b, swimlane, moveTo).swimlanes
                   <==> moveTo == None || moveTo == Some(swimlane)))
            && (swimlane in b.swimlanes && |b.swimlanes| > 1 ==>
                  (swimlane !in AfterDeleteSwimlane(b, swimlane, moveTo).swimlanes
                   <==> moveTo.Some? && moveTo.value in b.swimlanes && b.defaultSwimlane != Some(swimlane)))
  {
    WithoutMembers(Exec(events).swimlanes, swimlane, swimlane);
  }

  /** A deletion that goes through takes away only this swimlane and its rows; the default goes with
      it or stays. */
  lemma OthersStay(events: seq<Event>, swimlane: nat, moveTo: Option<nat>, other: nat)
    requires swimlane !in AfterDeleteSwimlane(Exec(events), swimlane, moveTo).swimlanes && swimlane in Exec(events).swimlanes
    ensures var b, b' := Exec(events), AfterDeleteSwimlane(Exec(events), swimlane, moveTo);
            && (other in b'.swimlanes <==> other in b.swimlanes && other != swimlane)
            && b'.statuses == b.statuses && b'.stories.Keys == b.stories.Keys
            && b'.defaultSwimlane == if b.swimlanes == [swimlane] then None else b.defaultSwimlane
  {
    var b := Exec(events);
    ExecInv(events);
    WithoutMembers(b.swimlanes, swimlane, other);
    if |b.swimlanes| == 1 {
      assert b.swimlanes == [b.swimlanes[0]];
    }
  }

  /** A deletion that goes through sends every story of the swimlane to the target, and to no
      swimlane when there is none other; other stories stay. */
  lemma DeletedStoriesMove(events: seq<Event>, swimlane: nat, moveTo: Option<nat>, story: nat)
    requires MayDelete(Exec(events), swimlane, moveTo) && story in Exec(events).stories
    ensures var b, b' := Exec(events), AfterDeleteSwimlane(Exec(events), swimlane, moveTo);
            && swimlane !in b'.swimlanes && story in b'.stories
            && b'.stories[story] == if b.stories[story] != Some(swimlane) then b.stories[story]
                                    else if moveTo == Some(swimlane) then None
                                    else moveTo
  {
    WithoutMembers(Exec(events).swimlanes, swimlane, swimlane);
  }

  lemma {:induction false} SwimlaneRowAt(id: nat, statuses: seq<Status>, copy: bool, i: nat)
    requires i < |statuses|
    ensures |RowsOfSwimlane(id, statuses, copy)| == |statuses|
    ensures RowsOfSwimlane(id, statuses, copy)[i] == Row(id, statuses[i].id, if copy then statuses[i].wip else None)
  {
    var n := |statuses| - 1;
    if n > 0 {
      SwimlaneRowAt(id, statuses[..n], copy, if i < n then i else 0);
    }
  }

  lemma {:induction false} StatusRowAt(swimlanes: seq<nat>, st: Status, copy: bool, i: nat)
    requires i < |swimlanes|
    ensures |RowsOfStatus(swimlanes, st, copy)| == |swimlanes|
    ensures RowsOfStatus(swimlanes, st, copy)[i] == Row(swimlanes[i], st.id, if copy then st.wip else None)
  {
    var n := |swimlanes| - 1;
    if n > 0 {
      StatusRowAt(swimlanes[..n], st, copy, if i < n then i else 0);
    }
  }

  /** New rows take the limit of the status when the board then has a single swimlane, none
      otherwise; rows that were there keep theirs. */
  lemma CopiedLimits(b: Board, wip: Option<int>, i: nat)
    ensures b.rows <= AfterCreateSwimlane(b).rows && b.rows <= AfterCreateStatus(b, wip).rows
    ensures i < |b.statuses| ==>
              var rows := AfterCreateSwimlane(b).rows;
              |rows| == |b.rows| + |b.statuses| && rows[|b.rows| + i]
              == Row(b.nextId, b.statuses[i].id, if b.swimlanes == [] then b.statuses[i].wip else None)
    ensures i < |b.swimlanes| ==>
              var rows := AfterCreateStatus(b, wip).rows;
              |rows| == |b.rows| + |b.swimlanes| && rows[|b.rows| + i]
              == Row(b.swimlanes[i], b.nextId, if |b.swimlanes| == 1 then wip else None)
  {
    if i < |b.statuses| { SwimlaneRowAt(b.nextId, b.statuses, b.swimlanes == [], i); }
    if i < |b.swimlanes| { StatusRowAt(b.swimlanes, Status(b.nextId, wip), |b.swimlanes| == 1, i); }
  }
}
