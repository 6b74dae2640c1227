/** Conservation and idempotence of the timeline rebuild. */
module RebuildLaws {
  import opened Common
  import opened Rebuild

  // ---------- the writer loses and duplicates nothing ----------

  function Flat(batches: seq<seq<Row>>): seq<Row> {
    if batches == [] then [] else Flat(batches[..|batches| - 1]) + batches[|batches| - 1]
  }

  /** From s to s' the given rows came in and only full batches went out. */
  ghost predicate Carried(s: Sink, s': Sink, rows: seq<Row>) {
    && |s'.buffer| < 1000
    && |s.batches| <= |s'.batches|
    && s'.batches[..|s.batches|] == s.batches
    && (forall i | |s.batches| <= i < |s'.batches| :: |s'.batches[i]| == 1000)
    && s'.table == s.table + Flat(s'.batches[|s.batches|..])
    && s'.table + s'.buffer == s.table + s.buffer + rows
  }

  lemma FlatSnoc(batches: seq<seq<Row>>, last: seq<Row>)
    ensures Flat(batches + [last]) == Flat(batches) + last
  {
    assert (batches + [last])[..|batches|] == batches;
  }

  lemma FlushCarries(s: Sink, s': Sink, rows: seq<Row>)
    requires |s.batches| <= |s'.batches| && s'.batches[..|s.batches|] == s.batches
    requires s'.table == s.table + Flat(s'.batches[|s.batches|..])
    requires s'.table + s'.buffer == s.table + s.buffer + rows
    ensures Flush(s').table == s.table + s.buffer + rows
    ensures Flush(s').batches[..|s.batches|] == s.batches
    ensures Flush(s').table == s.table + Flat(Flush(s').batches[|s.batches|..])
  {
    assert Flush(s').batches[|s.batches|..] == s'.batches[|s.batches|..] + [s'.buffer];
    FlatSnoc(s'.batches[|s.batches|..], s'.buffer);
  }

  lemma AddCarries(s: Sink, s': Sink, rows: seq<Row>, row: Row)
    requires Carried(s, s', rows)
    ensures Carried(s, Add(s', row), rows + [row])
  {
    var added := s'.(buffer := s'.buffer + [row]);
    assert added.table + added.buffer == (s'.table + s'.buffer) + [row];
    assert s.table + s.buffer + rows + [row] == s.table + s.buffer + (rows + [row]);
    if |added.buffer| > 999 {
      FlushCarries(s, added, rows + [row]);
    }
  }

  /** While rows are added one by one, the buffer stays under 1000 and every batch is full. */
  lemma {:induction false} AddAllCarries(s: Sink, rows: seq<Row>)
    requires |s.buffer| < 1000
    ensures Carried(s, AddAll(s, rows), rows)
  {
    if rows == [] {
      assert s.batches[|s.batches|..] == [] && s.table + [] == s.table;
      assert s.table + s.buffer + [] == s.table + s.buffer;
    } else {
      var n := |rows| - 1;
      AddAllCarries(s, rows[..n]);
      AddCarries(s, AddAll(s, rows[..n]), rows[..n], rows[n]);
      assert rows[..n] + [rows[n]] == rows;
    }
  }

  // ---------- the replayed events ----------

  function NarrowedProject(db: Database, request: Request): Option<ProjectInfo> {
    if request.Narrow() then FindProject(db.projects, request.project.value) else None
  }

  /** Every event the rebuild replays, up to the point where it raises. */
  function Replay(db: Database, request: Request): seq<Push> {
    var narrowed := NarrowedProject(db, request);
    if request.Narrow() && narrowed.None? then []
    else
      var (projects, stopped) := ProjectPushes(db.projects, request);
      (if narrowed.None? then [] else MemberPushes(db.members, narrowed.value))
      + projects
      + (if stopped then [] else HistoryPushes(db, db.history, request))
  }

  lemma {:induction false} GatherAppend(rowsOf: Push -> seq<Row>, left: seq<Push>, right: seq<Push>)
    ensures Gather(rowsOf, left + right) == Gather(rowsOf, left) + Gather(rowsOf, right)
  {
    if right == [] {
      assert left + right == left;
    } else {
      var n := |right| - 1;
      assert (left + right)[..|left + right| - 1] == left + right[..n];
      GatherAppend(rowsOf, left, right[..n]);
    }
  }

  lemma FanOutsAppend(db: Database, left: seq<Push>, right: seq<Push>)
    ensures FanOuts(db, left + right) == FanOuts(db, left) + FanOuts(db, right)
  {
    GatherAppend(RowsOf(db), left, right);
  }

  lemma RebuiltAdds(db: Database, request: Request, s: Sink)
    ensures var added := AddAll(s.(table := Cleared(s.table, request)), FanOuts(db, Replay(db, request)));
            Rebuilt(db, request, s).0 == if Rebuilt(db, request, s).1.Done? then Flush(added) else added
  {
    var cleared := s.(table := Cleared(s.table, request));
    var narrowed := NarrowedProject(db, request);
    if request.Narrow() && narrowed.None? {
      assert FanOuts(db, []) == [];
    } else {
      var members := if narrowed.None? then [] else MemberPushes(db.members, narrowed.value);
      var (projects, stopped) := ProjectPushes(db.projects, request);
      var history := if stopped then [] else HistoryPushes(db, db.history, request);
      FanOutsAppend(db, members + projects, history);
      FanOutsAppend(db, members, projects);
      AddAllAppend(cleared, FanOuts(db, members) + FanOuts(db, projects), FanOuts(db, history));
      AddAllAppend(cleared, FanOuts(db, members), FanOuts(db, projects));
    }
  }

  /** Conservation: the table is what was kept, then the rows pending from before, then the fan-out
      of every replayed event, in order; a rebuild that raises leaves the tail of these in the
      buffer, where the next one finds it. Every batch holds 1000 rows, save the last. */
  lemma Conservation(db: Database, request: Request, s: Sink)
    requires |s.buffer| < 1000
    ensures var (after, outcome) := Rebuilt(db, request, s);
            var cleared := Cleared(s.table, request);
            && after.table + after.buffer == cleared + s.buffer + FanOuts(db, Replay(db, request))
            && |after.buffer| < 1000
            && (outcome.Done? ==> after.buffer == [] && |after.batches| > |s.batches|)
            && |s.batches| <= |after.batches| && after.batches[..|s.batches|] == s.batches
            && after.table == cleared + Flat(after.batches[|s.batches|..])
            && (forall i | |s.batches| <= i < |after.batches| - 1 :: |after.batches[i]| == 1000)
            && (forall i | |s.batches| <= i == |after.batches| - 1 ::
                  if outcome.Done? then |after.batches[i]| < 1000 else |after.batches[i]| == 1000)
  {
    RebuiltAdds(db, request, s);
    var start := s.(table := Cleared(s.table, request));
    var rows := FanOuts(db, Replay(db, request));
    AddAllCarries(start, rows);
    FlushCarries(start, AddAll(start, rows), rows);
  }

  /** When a rebuild raises: the project asked for is not there, or some selected project has no
      owner. */
  lemma RaisesIff(db: Database, request: Request, s: Sink)
    ensures var outcome := Rebuilt(db, request, s).1;
            && (outcome == ProjectMissing <==> request.Narrow() && !HasProject(db, request.project.value))
            && (outcome == OwnerMissing <==>
                  (request.Narrow() ==> HasProject(db, request.project.value))
                  && exists i | 0 <= i < |db.projects| :: Selected(db.projects[i], request) && db.projects[i].owner.None?)
  {
    if request.Narrow() {
      FoundIff(db.projects, request.project.value);
    }
    StoppedIff(db.projects, request);
  }

  lemma {:induction false} FoundIff(projects: seq<ProjectInfo>, id: nat)
    ensures FindProject(projects, id).Some? <==> exists i | 0 <= i < |projects| :: projects[i].id == id
    ensures FindProject(projects, id).Some? ==> FindProject(projects, id).value in projects && FindProject(projects, id).value.id == id
  {
    if projects != [] {
      FoundIff(projects[1..], id);
      if i :| 1 <= i < |projects| && projects[i].id == id {
        assert projects[1..][i - 1].id == id;
      }
    }
  }

  lemma {:induction false} StoppedIff(projects: seq<ProjectInfo>, request: Request)
    ensures ProjectPushes(projects, request).1
        <==> exists i | 0 <= i < |projects| :: Selected(projects[i], request) && projects[i].owner.None?
  {
    if projects != [] {
      var n := |projects| - 1;
      StoppedIff(projects[..n], request);
      assert forall i | 0 <= i < n :: projects[..n][i] == projects[i];
    }
  }

  // ---------- which events and rows are meant ----------

  function MemberPush(m: Member, project: ProjectInfo): Push
    requires m.user.Some?
  {
    Push(Some(project.id), m.user.value, Ref(MembershipKind, m.id), Create, m.created)
  }

  /** The dates and the project asked for, spelled out: from the initial date on, before the final
      one; a project id of zero asks for no project. */
  ghost predicate Asked(created: int, project: Option<nat>, request: Request) {
    && (request.initial.Some? ==> request.initial.value <= created)
    && (request.final.Some? ==> created < request.final.value)
    && (request.project.Some? && request.project.value > 0 ==> project == request.project)
  }

  /** The memberships replayed are those of the project with a user who is not its owner. */
  lemma {:induction false} MembersReplayed(members: seq<Member>, project: ProjectInfo, push: Push)
    ensures push in MemberPushes(members, project)
        <==> exists m | m in members ::
               m.project == project.id && m.user.Some? && m.user != project.owner && push == MemberPush(m, project)
  {
    if members != [] {
      MembersReplayed(members[..|members| - 1], project, push);
      assert members == members[..|members| - 1] + [members[|members| - 1]];
    }
  }

  /** When none lacks an owner, every selected project is replayed as created by its owner. */
  lemma {:induction false} ProjectsReplayed(projects: seq<ProjectInfo>, request: Request, push: Push)
    requires !ProjectPushes(projects, request).1
    ensures push in ProjectPushes(projects, request).0
        <==> exists p | p in projects ::
               Asked(p.created, Some(p.id), request) && p.owner.Some?
               && push == Push(Some(p.id), p.owner.value, Ref(ProjectKind, p.id), Create, p.created)
  {
    if projects != [] {
      ProjectsReplayed(projects[..|projects| - 1], request, push);
      assert projects == projects[..|projects| - 1] + [projects[|projects| - 1]];
    }
  }

  predicate OneOfFive(kind: Kind) {
    kind in {EpicKind, UserStoryKind, TaskKind, IssueKind, WikiPageKind}
  }

  /** The history replayed is what was asked for, of the five kinds when a project is, that is
      visible, was not imported, and whose author and object are still there. */
  lemma {:induction false} HistoryReplayed(db: Database, history: seq<HistoryEntry>, request: Request, push: Push)
    ensures push in HistoryPushes(db, history, request)
        <==> exists e | e in history ::
               e.ref in db.objects && Asked(e.created, db.objects[e.ref].project, request)
               && (request.project.Some? && request.project.value > 0 ==> OneOfFive(e.ref.kind))
               && !e.hidden && !e.importing
               && e.user.Some? && e.user.value in db.users
               && push == Push(db.objects[e.ref].project, e.user.value, e.ref, e.action, e.created)
  {
    if history != [] {
      HistoryReplayed(db, history[..|history| - 1], request, push);
      assert history == history[..|history| - 1] + [history[|history| - 1]];
    }
  }

  lemma {:induction false} KeptRows(rows: seq<Row>, request: Request, row: Row)
    ensures row in Kept(rows, request) <==> row in rows && !Asked(row.created, row.project, request)
  {
    if rows != [] {
      KeptRows(rows[..|rows| - 1], request, row);
      assert rows == rows[..|rows| - 1] + [rows[|rows| - 1]];
    }
  }

  /** What is left of the table before the replay: everything when nothing is asked for, else
      exactly the rows outside of what is asked for, each as often as before and in order. */
  lemma ClearedRows(table: seq<Row>, request: Request, row: Row)
    ensures (request.initial.None? && request.final.None? && (request.project.None? || request.project == Some(0)))
            ==> Cleared(table, request) == table
    ensures (request.initial.Some? || request.final.Some? || (request.project.Some? && request.project != Some(0)))
            ==> (row in Cleared(table, request) <==> row in table && !Asked(row.created, row.project, request))
                && Cleared(table, request) == Outside(table, request)
  {
    KeptRows(table, request, row);
    KeptIsOutside(table, request);
  }

  ghost function Outside(rows: seq<Row>, request: Request): seq<Row> {
    if rows == [] then []
    else (if Asked(rows[0].created, rows[0].project, request) then [] else [rows[0]]) + Outside(rows[1..], request)
  }

  lemma {:induction false} KeptIsOutside(rows: seq<Row>, request: Request)
    ensures Kept(rows, request) == Outside(rows, request)
  {
    if rows != [] {
      KeptIsOutside(rows[1..], request);
      KeptAppend([rows[0]], rows[1..], request);
      assert rows == [rows[0]] + rows[1..];
      assert [rows[0]][..0] == [];
    }
  }

  // ---------- the fan-out of one event ----------

  lemma {:induction false} UserRowAt(users: seq<nat>, namespace: nat, push: Push, project: Option<nat>, i: nat)
    requires i < |users|
    ensures |UserRows(users, namespace, push, project)| == |users|
    ensures UserRows(users, namespace, push, project)[i]
         == Row(ToUser(users[i]), OfUser(namespace), push.ref, push.action, project, push.created)
  {
    var n := |users| - 1;
    UserRowsLength(users, namespace, push, project);
    UserRowsLength(users[..n], namespace, push, project);
    if i < n {
      UserRowAt(users[..n], namespace, push, project, i);
    }
  }

  lemma {:induction false} UserRowsLength(users: seq<nat>, namespace: nat, push: Push, project: Option<nat>)
    ensures |UserRows(users, namespace, push, project)| == |users|
  {
    if users != [] {
      UserRowsLength(users[..|users| - 1], namespace, push, project);
    }
  }

  /** An event of a project gives the project's row and one row per related person in order, in the
      namespace of the acting user, all about the object; it gives no row at all exactly when
      something is gone. */
  lemma FanOutRows(db: Database, push: Push, project: nat)
    requires push.project == Some(project)
    ensures FanOut(db, push) == [] <==>
      push.ref !in db.objects || push.user !in db.users || !exists i | 0 <= i < |db.projects| :: db.projects[i].id == project
    ensures FanOut(db, push) != [] ==>
      var people := if db.objects[push.ref].related.Some? then db.objects[push.ref].related.value else [];
      && |FanOut(db, push)| == 1 + |people|
      && FanOut(db, push)[0] == Row(ToProject(project), OfProject(project), push.ref, push.action,
                                    db.objects[push.ref].project, push.created)
      && (forall i | 0 <= i < |people| ::
            FanOut(db, push)[i + 1] == Row(ToUser(people[i]), OfUser(push.user), push.ref, push.action,
                                           db.objects[push.ref].project, push.created))
      && (forall i | 0 <= i < |FanOut(db, push)| ::
            FanOut(db, push)[i].created == push.created && FanOut(db, push)[i].project == db.objects[push.ref].project)
  {
    if push.ref in db.objects && db.objects[push.ref].related.Some? {
      var people := db.objects[push.ref].related.value;
      UserRowsLength(people, push.user, push, db.objects[push.ref].project);
      forall i | 0 <= i < |people|
        ensures UserRows(people, push.user, push, db.objects[push.ref].project)[i]
             == Row(ToUser(people[i]), OfUser(push.user), push.ref, push.action, db.objects[push.ref].project, push.created)
      {
        UserRowAt(people, push.user, push, db.objects[push.ref].project, i);
      }
    }
  }

  /** An event of no project gives one row, for the acting user, unless something is gone. */
  lemma FanOutWithoutProject(db: Database, push: Push)
    requires push.project == None
    ensures FanOut(db, push)
         == if push.ref in db.objects && push.user in db.users
            then [Row(ToUser(push.user), OfUser(push.user), push.ref, push.action, db.objects[push.ref].project, push.created)]
            else []
  {
    if push.ref in db.objects {
      UserRowAt([push.user], push.user, push, db.objects[push.ref].project, 0);
    }
  }

  // ---------- idempotence ----------

  lemma {:induction false} KeptAppend(left: seq<Row>, right: seq<Row>, request: Request)
    ensures Kept(left + right, request) == Kept(left, request) + Kept(right, request)
  {
    if right == [] {
      assert left + right == left;
    } else {
      var n := |right| - 1;
      assert (left + right)[..|left + right| - 1] == left + right[..n];
      KeptAppend(left, right[..n], request);
    }
  }

  lemma {:induction false} KeptTwice(rows: seq<Row>, request: Request)
    ensures Kept(Kept(rows, request), request) == Kept(rows, request)
  {
    if rows != [] {
      var n := |rows| - 1;
      KeptTwice(rows[..n], request);
      KeptAppend(Kept(rows[..n], request), if Matches(rows[n], request) then [] else [rows[n]], request);
      assert Kept([rows[n]], request) == if Matches(rows[n], request) then [] else [rows[n]];
    }
  }

  lemma {:induction false} KeptNone(rows: seq<Row>, request: Request)
    ensures Kept(rows, request) == [] <==> forall i | 0 <= i < |rows| :: Matches(rows[i], request)
  {
    if rows != [] {
      var n := |rows| - 1;
      KeptNone(rows[..n], request);
      assert forall i | 0 <= i < n :: rows[..n][i] == rows[i];
    }
  }

  /** The rows of the event would be deleted by the next rebuild with the same arguments. */
  ghost predicate Replaced(db: Database, push: Push, request: Request) {
    FanOut(db, push) != [] ==>
      InWindow(push.created, request)
      && (request.Narrow() ==> push.ref in db.objects && db.objects[push.ref].project == request.project)
  }

  lemma ReplacedIff(db: Database, push: Push, request: Request)
    requires push.project.Some?
    ensures Kept(FanOut(db, push), request) == [] <==> Replaced(db, push, request)
  {
    FanOutRows(db, push, push.project.value);
    KeptNone(FanOut(db, push), request);
    if FanOut(db, push) != [] {
      assert Matches(FanOut(db, push)[0], request) <==> Replaced(db, push, request);
    }
  }

  ghost predicate AllReplaced(db: Database, pushes: seq<Push>, request: Request) {
    forall i | 0 <= i < |pushes| :: Replaced(db, pushes[i], request)
  }

  lemma {:induction false} AllReplacedIff(db: Database, pushes: seq<Push>, request: Request)
    requires forall i | 0 <= i < |pushes| :: pushes[i].project.Some?
    ensures Kept(FanOuts(db, pushes), request) == [] <==> AllReplaced(db, pushes, request)
  {
    if pushes != [] {
      var n := |pushes| - 1;
      AllReplacedIff(db, pushes[..n], request);
      ReplacedIff(db, pushes[n], request);
      KeptAppend(FanOuts(db, pushes[..n]), FanOut(db, pushes[n]), request);
      assert pushes == pushes[..n] + [pushes[n]];
    }
  }

  /** A project object's project is itself, and a membership's is the one it belongs to; events of
      the history are about objects of a project. */
  ghost predicate Consistent(db: Database) {
    && (forall i | 0 <= i < |db.projects| ::
          var ref := Ref(ProjectKind, db.projects[i].id);
          ref in db.objects ==> db.objects[ref].project == Some(ref.id))
    && (forall i | 0 <= i < |db.members| ::
          var ref := Ref(MembershipKind, db.members[i].id);
          ref in db.objects ==> db.objects[ref].project == Some(db.members[i].project))
    && (forall i | 0 <= i < |db.history| ::
          db.history[i].ref in db.objects ==> db.objects[db.history[i].ref].project.Some?)
  }

  lemma {:induction false} ProjectsReplaced(db: Database, projects: seq<ProjectInfo>, request: Request)
    requires forall i | 0 <= i < |projects| ::
      var ref := Ref(ProjectKind, projects[i].id); ref in db.objects ==> db.objects[ref].project == Some(ref.id)
    ensures AllReplaced(db, ProjectPushes(projects, request).0, request)
    ensures forall i | 0 <= i < |ProjectPushes(projects, request).0| :: ProjectPushes(projects, request).0[i].project.Some?
  {
    if projects != [] {
      ProjectsReplaced(db, projects[..|projects| - 1], request);
    }
  }

  lemma {:induction false} HistoryReplaced(db: Database, history: seq<HistoryEntry>, request: Request)
    requires forall i | 0 <= i < |history| :: history[i].ref in db.objects ==> db.objects[history[i].ref].project.Some?
    ensures AllReplaced(db, HistoryPushes(db, history, request), request)
    ensures forall i | 0 <= i < |HistoryPushes(db, history, request)| :: HistoryPushes(db, history, request)[i].project.Some?
  {
    if history != [] {
      HistoryReplaced(db, history[..|history| - 1], request);
    }
  }

  /** A membership the replay writes rows for although it lies outside the dates asked for. */
  ghost predicate Stray(db: Database, m: Member, project: ProjectInfo, request: Request) {
    && m.project == project.id && m.user.Some? && m.user != project.owner && !InWindow(m.created, request)
    && FanOut(db, Push(Some(project.id), m.user.value, Ref(MembershipKind, m.id), Create, m.created)) != []
  }

  lemma {:induction false} MembersReplacedIff(db: Database, members: seq<Member>, project: ProjectInfo, request: Request)
    requires forall i | 0 <= i < |members| ::
      var ref := Ref(MembershipKind, members[i].id);
      ref in db.objects ==> db.objects[ref].project == Some(members[i].project)
    requires request.Narrow() && request.project == Some(project.id)
    ensures AllReplaced(db, MemberPushes(members, project), request)
        <==> forall i | 0 <= i < |members| :: !Stray(db, members[i], project, request)
    ensures forall i | 0 <= i < |MemberPushes(members, project)| :: MemberPushes(members, project)[i].project.Some?
  {
    if members != [] {
      var n := |members| - 1;
      MembersReplacedIff(db, members[..n], project, request);
      assert forall i | 0 <= i < n :: members[..n][i] == members[i];
      var m := members[n];
      MemberReplacedIff(db, m, project, request);
      if m.project == project.id && m.user.Some? && m.user != project.owner {
        AllReplacedSnoc(db, MemberPushes(members[..n], project), MemberPush(m, project), request);
        assert MemberPushes(members, project) == MemberPushes(members[..n], project) + [MemberPush(m, project)];
      } else {
        assert MemberPushes(members, project) == MemberPushes(members[..n], project);
      }
    }
  }

  lemma AllReplacedSnoc(db: Database, pushes: seq<Push>, push: Push, request: Request)
    ensures AllReplaced(db, pushes + [push], request) <==> AllReplaced(db, pushes, request) && Replaced(db, push, request)
  {
    var all := pushes + [push];
    assert all[|pushes|] == push;
    assert forall i | 0 <= i < |pushes| :: all[i] == pushes[i];
  }

  lemma MemberReplacedIff(db: Database, m: Member, project: ProjectInfo, request: Request)
    requires var ref := Ref(MembershipKind, m.id); ref in db.objects ==> db.objects[ref].project == Some(m.project)
    requires request.Narrow() && request.project == Some(project.id)
    ensures m.project == project.id && m.user.Some? && m.user != project.owner ==>
      (Replaced(db, MemberPush(m, project), request) <==> !Stray(db, m, project, request))
  {
  }

  lemma ReplayReplacedIff(db: Database, request: Request)
    requires Consistent(db)
    ensures Kept(FanOuts(db, Replay(db, request)), request) == []
        <==> (NarrowedProject(db, request).Some? ==>
                forall i | 0 <= i < |db.members| :: !Stray(db, db.members[i], NarrowedProject(db, request).value, request))
  {
    var narrowed := NarrowedProject(db, request);
    if request.Narrow() {
      FoundIff(db.projects, request.project.value);
    }
    var members := if narrowed.None? then [] else MemberPushes(db.members, narrowed.value);
    if narrowed.Some? {
      MembersReplacedIff(db, db.members, narrowed.value, request);
    }
    var projects := ProjectPushes(db.projects, request).0;
    ProjectsReplaced(db, db.projects, request);
    HistoryReplaced(db, db.history, request);
    AllReplacedIff(db, members, request);
    AllReplacedIff(db, projects, request);
    AllReplacedIff(db, HistoryPushes(db, db.history, request), request);
    ReplaySplits(db, request);
  }

  lemma ReplaySplits(db: Database, request: Request)
    ensures var narrowed := NarrowedProject(db, request);
            var members := if narrowed.None? then [] else MemberPushes(db.members, narrowed.value);
            var (projects, stopped) := ProjectPushes(db.projects, request);
            var history := if stopped then [] else HistoryPushes(db, db.history, request);
            Kept(FanOuts(db, Replay(db, request)), request)
            == if request.Narrow() && narrowed.None? then []
               else Kept(FanOuts(db, members), request) + Kept(FanOuts(db, projects), request)
                    + Kept(FanOuts(db, history), request)
  {
    var narrowed := NarrowedProject(db, request);
    var members := if narrowed.None? then [] else MemberPushes(db.members, narrowed.value);
    var (projects, stopped) := ProjectPushes(db.projects, request);
    var history := if stopped then [] else HistoryPushes(db, db.history, request);
    FanOutsAppend(db, members + projects, history);
    FanOutsAppend(db, members, projects);
    KeptAppend(FanOuts(db, members) + FanOuts(db, projects), FanOuts(db, history), request);
    KeptAppend(FanOuts(db, members), FanOuts(db, projects), request);
  }

  /** A second rebuild with the same arguments gives the same table exactly in two cases. When the
      arguments delete something: no membership with rows of the project asked for was created
      outside the dates asked for, since the replay of memberships ignores the dates the deletion
      obeys. When they delete nothing: nothing is replayed at all. */
  lemma IdempotentIff(db: Database, request: Request, s: Sink)
    requires Consistent(db) && s.buffer == []
    requires Rebuilt(db, request, s).1.Done?
    ensures var once := Rebuilt(db, request, s).0;
            Rebuilt(db, request, once).0.table == once.table
            <==> (if request.Deletes() then
                    NarrowedProject(db, request).Some? ==>
                      forall i | 0 <= i < |db.members| ::
                        !Stray(db, db.members[i], NarrowedProject(db, request).value, request)
                  else FanOuts(db, Replay(db, request)) == [])
  {
    var once := Rebuilt(db, request, s).0;
    var rows := FanOuts(db, Replay(db, request));
    SameOutcome(db, request, s, once);
    RebuiltTable(db, request, s);
    RebuiltTable(db, request, once);
    if request.Deletes() {
      TableStays(s.table, rows, request);
      ReplayReplacedIff(db, request);
    } else {
      LongerBy(s.table, rows, rows);
      assert s.table + rows + rows == s.table + rows <==> rows == [];
    }
  }

  /** The call without arguments doubles whatever it replays. */
  lemma RepeatedWithoutArguments(db: Database, s: Sink)
    requires s.buffer == [] && Rebuilt(db, Request(None, None, None), s).1.Done?
    ensures var request := Request(None, None, None);
            var rows := FanOuts(db, Replay(db, request));
            Rebuilt(db, request, Rebuilt(db, request, s).0).0.table == s.table + rows + rows
  {
    var request := Request(None, None, None);
    SameOutcome(db, request, s, Rebuilt(db, request, s).0);
    RebuiltTable(db, request, s);
    RebuiltTable(db, request, Rebuilt(db, request, s).0);
  }

  lemma RebuiltTable(db: Database, request: Request, s: Sink)
    requires s.buffer == [] && Rebuilt(db, request, s).1.Done?
    ensures Rebuilt(db, request, s).0.table == Cleared(s.table, request) + FanOuts(db, Replay(db, request))
    ensures Rebuilt(db, request, s).0.buffer == []
  {
    Conservation(db, request, s);
    assert Cleared(s.table, request) + [] == Cleared(s.table, request);
    assert Rebuilt(db, request, s).0.table + [] == Rebuilt(db, request, s).0.table;
  }

  lemma LongerBy(a: seq<Row>, middle: seq<Row>, b: seq<Row>)
    ensures a + middle + b == a + b <==> middle == []
  {
    assert |a + middle + b| == |a + b| + |middle|;
    assert a + [] == a;
  }

  lemma TableStays(table: seq<Row>, rows: seq<Row>, request: Request)
    ensures Kept(Kept(table, request) + rows, request) + rows == Kept(table, request) + rows
        <==> Kept(rows, request) == []
  {
    KeptAppend(Kept(table, request), rows, request);
    KeptTwice(table, request);
    LongerBy(Kept(table, request), Kept(rows, request), rows);
  }

  lemma SameOutcome(db: Database, request: Request, s: Sink, s': Sink)
    ensures Rebuilt(db, request, s).1 == Rebuilt(db, request, s').1
  {
  }
}
