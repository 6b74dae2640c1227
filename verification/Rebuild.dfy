/** Rebuilding the timeline: replayed events fan out into rows that a buffer writes in batches. */
module Rebuild {
  import opened Common

  datatype Kind =
    | ProjectKind | MembershipKind | EpicKind | UserStoryKind | TaskKind | IssueKind | WikiPageKind | OtherKind

  datatype Ref = Ref(kind: Kind, id: nat)

  /** `related` is the people related to the object, if its model has a notion of them. */
  datatype Object = Object(project: Option<nat>, related: Option<seq<nat>>)

  datatype Action = Create | Change | Delete

  datatype Target = ToProject(project: nat) | ToUser(user: nat)

  datatype Namespace = OfProject(project: nat) | OfUser(user: nat)

  datatype Row = Row(target: Target, namespace: Namespace, ref: Ref, action: Action, project: Option<nat>, created: int)

  /** The arguments of push_to_timelines; no project for an action not related with one. */
  datatype Push = Push(project: Option<nat>, user: nat, ref: Ref, action: Action, created: int)

  datatype ProjectInfo = ProjectInfo(id: nat, owner: Option<nat>, created: int)

  datatype Member = Member(id: nat, user: Option<nat>, project: nat, created: int)

  datatype HistoryEntry =
    HistoryEntry(ref: Ref, action: Action, hidden: bool, importing: bool, user: Option<nat>, created: int)

  /** Projects and history in order of creation. */
  datatype Database = Database(objects: map<Ref, Object>, users: set<nat>, projects: seq<ProjectInfo>,
                               members: seq<Member>, history: seq<HistoryEntry>)

  datatype Request = Request(initial: Option<int>, final: Option<int>, project: Option<nat>) {
    /** A project id narrows when it is truthy. */
    predicate Narrow() {
      project.Some? && project.value != 0
    }

    predicate Deletes() {
      initial.Some? || final.Some? || Narrow()
    }
  }

  /** The table, the pending rows and the batches inserted so far. */
  datatype Sink = Sink(table: seq<Row>, buffer: seq<Row>, batches: seq<seq<Row>>)

  datatype Outcome = Done | ProjectMissing | OwnerMissing

  // ---------- the batching writer ----------

  function Flush(s: Sink): Sink {
    Sink(s.table + s.buffer, [], s.batches + [s.buffer])
  }

  function Add(s: Sink, row: Row): Sink {
    var added := s.(buffer := s.buffer + [row]);
    if |added.buffer| > 999 then Flush(added) else added
  }

  function AddAll(s: Sink, rows: seq<Row>): Sink {
    if rows == [] then s else Add(AddAll(s, rows[..|rows| - 1]), rows[|rows| - 1])
  }

  // ---------- the fan-out ----------

  function UserRows(users: seq<nat>, namespace: nat, push: Push, project: Option<nat>): seq<Row> {
    if users == [] then []
    else
      UserRows(users[..|users| - 1], namespace, push, project)
      + [Row(ToUser(users[|users| - 1]), OfUser(namespace), push.ref, push.action, project, push.created)]
  }

  predicate HasProject(db: Database, project: nat) {
    exists i | 0 <= i < |db.projects| :: db.projects[i].id == project
  }

  /** Nothing when the object, the user or the project is gone. */
  function FanOut(db: Database, push: Push): seq<Row> {
    if push.ref !in db.objects || push.user !in db.users then []
    else
      var instance := db.objects[push.ref];
      match push.project
      case None => UserRows([push.user], push.user, push, instance.project)
      case Some(project) =>
        if !HasProject(db, project) then []
        else
          [Row(ToProject(project), OfProject(project), push.ref, push.action, instance.project, push.created)]
          + (match instance.related
             case None => []
             case Some(people) => UserRows(people, push.user, push, instance.project))
  }

  /** The rows of each event in turn. */
  function Gather(rowsOf: Push -> seq<Row>, pushes: seq<Push>): seq<Row> {
    if pushes == [] then []
    else Gather(rowsOf, pushes[..|pushes| - 1]) + rowsOf(pushes[|pushes| - 1])
  }

  function RowsOf(db: Database): Push -> seq<Row> {
    push => FanOut(db, push)
  }

  function FanOuts(db: Database, pushes: seq<Push>): seq<Row> {
    Gather(RowsOf(db), pushes)
  }

  // ---------- what is replayed ----------

  predicate InWindow(created: int, request: Request) {
    (request.initial.Some? ==> created >= request.initial.value)
    && (request.final.Some? ==> created < request.final.value)
  }

  /** The rows the rebuild deletes first. */
  predicate Matches(row: Row, request: Request) {
    InWindow(row.created, request) && (request.Narrow() ==> row.project == request.project)
  }

  function Kept(rows: seq<Row>, request: Request): seq<Row> {
    if rows == [] then []
    else Kept(rows[..|rows| - 1], request) + if Matches(rows[|rows| - 1], request) then [] else [rows[|rows| - 1]]
  }

  function FindProject(projects: seq<ProjectInfo>, id: nat): Option<ProjectInfo> {
    if projects == [] then None
    else if projects[0].id == id then Some(projects[0])
    else FindProject(projects[1..], id)
  }

  /** Memberships with a user other than the owner; their dates are not looked at. */
  function MemberPushes(members: seq<Member>, project: ProjectInfo): seq<Push> {
    if members == [] then []
    else
      var m := members[|members| - 1];
      var before := MemberPushes(members[..|members| - 1], project);
      if m.project == project.id && m.user.Some? && m.user != project.owner
      then before + [Push(Some(project.id), m.user.value, Ref(MembershipKind, m.id), Create, m.created)]
      else before
  }

  predicate Selected(project: ProjectInfo, request: Request) {
    InWindow(project.created, request) && (request.Narrow() ==> Some(project.id) == request.project)
  }

  /** The selected projects up to the first that has no owner, and whether there is such a one. */
  function ProjectPushes(projects: seq<ProjectInfo>, request: Request): (seq<Push>, bool) {
    if projects == [] then ([], false)
    else
      var p := projects[|projects| - 1];
      var (before, stopped) := ProjectPushes(projects[..|projects| - 1], request);
      if stopped || !Selected(p, request) then (before, stopped)
      else if p.owner.None? then (before, true)
      else (before + [Push(Some(p.id), p.owner.value, Ref(ProjectKind, p.id), Create, p.created)], false)
  }

  predicate IsKeyed(kind: Kind) {
    kind.EpicKind? || kind.UserStoryKind? || kind.TaskKind? || kind.IssueKind? || kind.WikiPageKind?
  }

  predicate Replayed(db: Database, entry: HistoryEntry, request: Request) {
    && InWindow(entry.created, request)
    && (request.Narrow() ==> entry.ref in db.objects && db.objects[entry.ref].project == request.project && IsKeyed(entry.ref.kind))
  }

  /** The push of a history entry; an object or user that is gone is ignored. */
  function HistoryPush(db: Database, entry: HistoryEntry): Option<Push> {
    if entry.importing || entry.hidden || entry.user.None? then None
    else if entry.ref !in db.objects || entry.user.value !in db.users then None
    else Some(Push(db.objects[entry.ref].project, entry.user.value, entry.ref, entry.action, entry.created))
  }

  function HistoryPushes(db: Database, history: seq<HistoryEntry>, request: Request): seq<Push> {
    if history == [] then []
    else
      var entry := history[|history| - 1];
      var before := HistoryPushes(db, history[..|history| - 1], request);
      if !Replayed(db, entry, request) then before
      else
        match HistoryPush(db, entry)
        case None => before
        case Some(push) => before + [push]
  }

  // ---------- the whole rebuild ----------

  function Cleared(table: seq<Row>, request: Request): seq<Row> {
    if request.Deletes() then Kept(table, request) else table
  }

  /** An exception leaves the pending rows in the buffer. */
  function Rebuilt(db: Database, request: Request, s: Sink): (Sink, Outcome) {
    var cleared := s.(table := Cleared(s.table, request));
    var narrowed := if request.Narrow() then FindProject(db.projects, request.project.value) else None;
    if request.Narrow() && narrowed.None? then (cleared, ProjectMissing)
    else
      var joined := if narrowed.None? then cleared else AddAll(cleared, FanOuts(db, MemberPushes(db.members, narrowed.value)));
      var (pushes, stopped) := ProjectPushes(db.projects, request);
      var started := AddAll(joined, FanOuts(db, pushes));
      if stopped then (started, OwnerMissing)
      else (Flush(AddAll(started, FanOuts(db, HistoryPushes(db, db.history, request)))), Done)
  }

  lemma {:induction false} AddAllAppend(s: Sink, left: seq<Row>, right: seq<Row>)
    ensures AddAll(s, left + right) == AddAll(AddAll(s, left), right)
  {
    if right == [] {
      assert left + right == left;
    } else {
      var n := |right| - 1;
      assert (left + right)[..|left + right| - 1] == left + right[..n];
      AddAllAppend(s, left, right[..n]);
    }
  }

  class BulkCreator {
    var table: seq<Row>
    var timelineObjects: seq<Row>
    var batches: seq<seq<Row>>

    function State(): Sink
      reads this
    {
      Sink(table, timelineObjects, batches)
    }

    constructor (table: seq<Row>)
      ensures State() == Sink(table, [], [])
    {
      this.table, timelineObjects, batches := table, [], [];
    }

    method Write()
      modifies this
      ensures State() == Flush(old(State()))
      ensures timelineObjects == [] && table == old(table) + old(timelineObjects)
    {
      table := table + timelineObjects;
      batches := batches + [timelineObjects];
      timelineObjects := [];
    }

    method CreateElement(row: Row)
      modifies this
      ensures State() == Add(old(State()), row)
      ensures table + timelineObjects == old(table) + old(timelineObjects) + [row]
      ensures |old(timelineObjects)| < 1000 ==> |timelineObjects| < 1000
      ensures batches == old(batches) || (timelineObjects == [] && batches == old(batches) + [old(timelineObjects) + [row]])
    {
      timelineObjects := timelineObjects + [row];
      if |timelineObjects| > 999 {
        Write();
      }
    }

    /** One row per person, in the namespace of the acting user. */
    method AddToUsers(users: seq<nat>, namespace: nat, push: Push, project: Option<nat>)
      modifies this
      ensures State() == AddAll(old(State()), UserRows(users, namespace, push, project))
    {
      for i := 0 to |users|
        invariant State() == AddAll(old(State()), UserRows(users[..i], namespace, push, project))
      {
        assert users[..i + 1][..i] == users[..i];
        CreateElement(Row(ToUser(users[i]), OfUser(namespace), push.ref, push.action, project, push.created));
      }
      assert users[..|users|] == users;
    }

    method PushToTimelines(db: Database, push: Push)
      modifies this
      ensures State() == AddAll(old(State()), FanOut(db, push))
    {
      if push.ref !in db.objects || push.user !in db.users {
        return;
      }
      var instance := db.objects[push.ref];
      if push.project.None? {
        AddToUsers([push.user], push.user, push, instance.project);
        return;
      }
      if !HasProject(db, push.project.value) {
        return;
      }
      var first := Row(ToProject(push.project.value), OfProject(push.project.value), push.ref, push.action,
                       instance.project, push.created);
      CreateElement(first);
      assert State() == AddAll(old(State()), [first]) by {
        assert [first][..0] == [];
      }
      if instance.related.Some? {
        AddToUsers(instance.related.value, push.user, push, instance.project);
        AddAllAppend(old(State()), [first], UserRows(instance.related.value, push.user, push, instance.project));
      }
    }

    method ReplayMembers(db: Database, project: ProjectInfo)
      modifies this
      ensures State() == AddAll(old(State()), FanOuts(db, MemberPushes(db.members, project)))
    {
      var members := db.members;
      for i := 0 to |members|
        invariant State() == AddAll(old(State()), FanOuts(db, MemberPushes(members[..i], project)))
      {
        assert members[..i + 1][..i] == members[..i];
        var m := members[i];
        if m.project == project.id && m.user.Some? && m.user != project.owner {
          var push := Push(Some(project.id), m.user.value, Ref(MembershipKind, m.id), Create, m.created);
          PushToTimelines(db, push);
          PushedNext(db, old(State()), MemberPushes(members[..i], project), push);
        }
      }
      assert members[..|members|] == members;
    }

    method ReplayProjects(db: Database, request: Request) returns (stopped: bool)
      modifies this
      ensures stopped == ProjectPushes(db.projects, request).1
      ensures State() == AddAll(old(State()), FanOuts(db, ProjectPushes(db.projects, request).0))
    {
      var projects := db.projects;
      for i := 0 to |projects|
        invariant !ProjectPushes(projects[..i], request).1
        invariant State() == AddAll(old(State()), FanOuts(db, ProjectPushes(projects[..i], request).0))
      {
        assert projects[..i + 1][..i] == projects[..i];
        var p := projects[i];
        if Selected(p, request) {
          if p.owner.None? {
            ProjectsStop(projects, request, i + 1);
            return true;
          }
          var push := Push(Some(p.id), p.owner.value, Ref(ProjectKind, p.id), Create, p.created);
          PushToTimelines(db, push);
          PushedNext(db, old(State()), ProjectPushes(projects[..i], request).0, push);
        }
      }
      assert projects[..|projects|] == projects;
      stopped := false;
    }

    method ReplayHistory(db: Database, request: Request)
      modifies this
      ensures State() == AddAll(old(State()), FanOuts(db, HistoryPushes(db, db.history, request)))
    {
      var history := db.history;
      for i := 0 to |history|
        invariant State() == AddAll(old(State()), FanOuts(db, HistoryPushes(db, history[..i], request)))
      {
        assert history[..i + 1][..i] == history[..i];
        if Replayed(db, history[i], request) {
          var push := HistoryPush(db, history[i]);
          if push.Some? {
            PushToTimelines(db, push.value);
            PushedNext(db, old(State()), HistoryPushes(db, history[..i], request), push.value);
          }
        }
      }
      assert history[..|history|] == history;
    }

    method RebuildTimeline(db: Database, request: Request) returns (outcome: Outcome)
      modifies this
      ensures (State(), outcome) == Rebuilt(db, request, old(State()))
    {
      if request.Deletes() {
        table := Kept(table, request);
      }
      if request.Narrow() {
        var project := FindProject(db.projects, request.project.value);
        if project.None? {
          return ProjectMissing;
        }
        ReplayMembers(db, project.value);
      }
      var stopped := ReplayProjects(db, request);
      if stopped {
        return OwnerMissing;
      }
      ReplayHistory(db, request);
      Write();
      outcome := Done;
    }
  }

  lemma PushedNext(db: Database, s: Sink, pushes: seq<Push>, push: Push)
    ensures AddAll(AddAll(s, FanOuts(db, pushes)), FanOut(db, push)) == AddAll(s, FanOuts(db, pushes + [push]))
  {
    assert (pushes + [push])[..|pushes|] == pushes;
    AddAllAppend(s, FanOuts(db, pushes), FanOut(db, push));
  }

  lemma {:induction false} ProjectsStop(projects: seq<ProjectInfo>, request: Request, n: nat)
    requires n <= |projects| && ProjectPushes(projects[..n], request).1
    ensures ProjectPushes(projects, request) == ProjectPushes(projects[..n], request)
  {
    if n == |projects| {
      assert projects[..n] == projects;
    } else {
      assert projects[..|projects| - 1][..n] == projects[..n];
      ProjectsStop(projects[..|projects| - 1], request, n);
    }
  }
}
