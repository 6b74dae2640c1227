/** Role points of a project: one row per user story and computable role, kept up to date by
    `update_role_points`. */
module RolePoints {
  import opened Common

  datatype Role = Role(id: nat, computable: bool)

  /** An estimation value; `value` is null for the undefined one. */
  datatype Point = Point(id: nat, name: string, value: Option<real>)

  /** Rows of the role points table by story and role, which the table keeps unique. */
  type Rows = map<(nat, nat), Option<nat>>

  /** `points` is in queryset order; `rows` also holds the rows of other projects' stories. */
  datatype Project = Project(stories: seq<nat>, roles: seq<Role>, points: seq<Point>, rows: Rows, nextPoint: nat)

  function Computable(roles: seq<Role>): seq<nat> {
    if roles == [] then []
    else Computable(roles[..|roles| - 1])
         + if roles[|roles| - 1].computable then [roles[|roles| - 1].id] else []
  }

  ghost predicate Distinct(ids: seq<nat>) {
    forall i, j | 0 <= i < j < |ids| :: ids[i] != ids[j]
  }

  function FirstNull(points: seq<Point>): Option<Point> {
    if points == [] then None
    else if points[0].value == None then Some(points[0])
    else FirstNull(points[1..])
  }

  function NewPoint(p: Project, unusedName: string): Point {
    Point(p.nextPoint, unusedName, None)
  }

  function NullPoint(p: Project, unusedName: string): Point {
    match FirstNull(p.points)
    case Some(point) => point
    case None => NewPoint(p, unusedName)
  }

  /** The computable roles a story has no row for, in order. */
  function NewRoles(rows: Rows, story: nat, roles: seq<nat>): seq<nat> {
    if roles == [] then []
    else
      var last := roles[|roles| - 1];
      NewRoles(rows, story, roles[..|roles| - 1]) + if (story, last) in rows then [] else [last]
  }

  function Insert(rows: Rows, story: nat, roles: seq<nat>, point: nat): Rows {
    if roles == [] then rows
    else Insert(rows, story, roles[..|roles| - 1], point)[(story, roles[|roles| - 1]) := Some(point)]
  }

  function AddAll(rows: Rows, stories: seq<nat>, roles: seq<nat>, point: nat): Rows {
    if stories == [] then rows
    else
      var before := AddAll(rows, stories[..|stories| - 1], roles, point);
      var story := stories[|stories| - 1];
      Insert(before, story, NewRoles(before, story, roles), point)
  }

  function Clean(rows: Rows, stories: seq<nat>, roles: seq<nat>): Rows {
    map key | key in rows && !(key.0 in stories && key.1 !in roles) :: rows[key]
  }

  /** The project after an update that visits the given stories. */
  function After(p: Project, visited: seq<nat>, unusedName: string): Project {
    var roles := Computable(p.roles);
    if roles == [] then p
    else
      var point := NullPoint(p, unusedName);
      var rows := Clean(AddAll(p.rows, visited, roles, point.id), p.stories, roles);
      if FirstNull(p.points) == None
      then p.(points := p.points + [point], nextPoint := p.nextPoint + 1, rows := rows)
      else p.(rows := rows)
  }

  class ProjectStore {
    var stories: seq<nat>
    var roles: seq<Role>
    var points: seq<Point>
    var rows: Rows
    var nextPoint: nat

    function Snapshot(): Project
      reads this
    {
      Project(stories, roles, points, rows, nextPoint)
    }

    constructor (p: Project)
      ensures Snapshot() == p
    {
      stories, roles, points, rows, nextPoint := p.stories, p.roles, p.points, p.rows, p.nextPoint;
    }

    /** The table refuses a second row for one story and role, so inserting demands none. */
    method BulkCreate(story: nat, added: seq<nat>, point: nat)
      requires Distinct(added) && forall r | r in added :: (story, r) !in rows
      modifies this`rows
      ensures rows == Insert(old(rows), story, added, point)
    {
      for i := 0 to |added|
        invariant rows == Insert(old(rows), story, added[..i], point)
      {
        assert added[..i + 1][..i] == added[..i];
        rows := rows[(story, added[i]) := Some(point)];
      }
      assert added[..|added|] == added;
    }

    /** The project's first null-valued point, created when there is none. */
    method EnsureNullPoint(unusedName: string) returns (point: Point)
      modifies this`points, this`nextPoint
      ensures point == NullPoint(old(Snapshot()), unusedName)
      ensures if FirstNull(old(points)).Some? then points == old(points) && nextPoint == old(nextPoint)
              else points == old(points) + [point] && nextPoint == old(nextPoint) + 1
    {
      var found := FirstNull(points);
      if found.Some? {
        return found.value;
      }
      point := Point(nextPoint, unusedName, None);
      points := points + [point];
      nextPoint := nextPoint + 1;
    }

    /** The loop over the visited stories. */
    method AddMissing(visited: seq<nat>, computable: seq<nat>, point: nat)
      requires Distinct(computable)
      modifies this`rows
      ensures rows == AddAll(old(rows), visited, computable, point)
    {
      for i := 0 to |visited|
        invariant rows == AddAll(old(rows), visited[..i], computable, point)
      {
        assert visited[..i + 1][..i] == visited[..i];
        NewRolesFresh(rows, visited[i], computable);
        BulkCreate(visited[i], NewRoles(rows, visited[i], computable), point);
      }
      assert visited[..|visited|] == visited;
    }

    /** `userStories` limits the stories visited; stale rows go for every story. */
    method UpdateRolePoints(userStories: Option<seq<nat>>, unusedName: string)
      requires Distinct(Computable(roles))
      modifies this
      ensures Snapshot() == After(old(Snapshot()), if userStories.Some? then userStories.value else old(stories), unusedName)
    {
      var computable := Computable(roles);
      if computable == [] {
        return;
      }
      var visited := if userStories.Some? then userStories.value else stories;
      var point := EnsureNullPoint(unusedName);
      AddMissing(visited, computable, point.id);
      rows := Clean(rows, stories, computable);
    }
  }

  // ---------- what the update leaves ----------

  lemma {:induction false} NewRolesFresh(rows: Rows, story: nat, roles: seq<nat>)
    requires Distinct(roles)
    ensures Distinct(NewRoles(rows, story, roles))
    ensures forall r :: r in NewRoles(rows, story, roles) <==> r in roles && (story, r) !in rows
  {
    if roles != [] {
      var n := |roles| - 1;
      NewRolesFresh(rows, story, roles[..n]);
      assert roles == roles[..n] + [roles[n]];
    }
  }

  lemma {:induction false} NewRolesMembers(rows: Rows, story: nat, roles: seq<nat>, r: nat)
    ensures r in NewRoles(rows, story, roles) <==> r in roles && (story, r) !in rows
  {
    if roles != [] {
      NewRolesMembers(rows, story, roles[..|roles| - 1], r);
      assert roles == roles[..|roles| - 1] + [roles[|roles| - 1]];
    }
  }

  lemma {:induction false} InsertAt(rows: Rows, story: nat, roles: seq<nat>, point: nat, key: (nat, nat))
    ensures var rows' := Insert(rows, story, roles, point);
            if key.0 == story && key.1 in roles then key in rows' && rows'[key] == Some(point)
            else (key in rows' <==> key in rows) && (key in rows ==> rows'[key] == rows[key])
  {
    if roles != [] {
      InsertAt(rows, story, roles[..|roles| - 1], point, key);
      assert roles == roles[..|roles| - 1] + [roles[|roles| - 1]];
    }
  }

  /** What adding a key does to a table: kept where present, else null-pointed where wanted. */
  ghost predicate Gains(rows: Rows, rows': Rows, key: (nat, nat), wanted: bool, point: nat) {
    if key in rows then key in rows' && rows'[key] == rows[key]
    else if wanted then key in rows' && rows'[key] == Some(point)
    else key !in rows'
  }

  lemma StoryGains(rows: Rows, story: nat, roles: seq<nat>, point: nat, key: (nat, nat))
    ensures Gains(rows, Insert(rows, story, NewRoles(rows, story, roles), point), key,
                  key.0 == story && key.1 in roles, point)
  {
    InsertAt(rows, story, NewRoles(rows, story, roles), point, key);
    NewRolesMembers(rows, story, roles, key.1);
  }

  lemma {:induction false} AddAllAt(rows: Rows, stories: seq<nat>, roles: seq<nat>, point: nat, key: (nat, nat))
    ensures Gains(rows, AddAll(rows, stories, roles, point), key, key.0 in stories && key.1 in roles, point)
  {
    if stories != [] {
      var n := |stories| - 1;
      AddAllAt(rows, stories[..n], roles, point, key);
      StoryGains(AddAll(rows, stories[..n], roles, point), stories[n], roles, point, key);
      assert key.0 in stories <==> key.0 in stories[..n] || key.0 == stories[n] by {
        assert stories == stories[..n] + [stories[n]];
      }
    }
  }

  /** Some role of the project with this id is computable. */
  ghost predicate IsComputable(p: Project, role: nat) {
    exists r | r in p.roles :: r.id == role && r.computable
  }

  lemma {:induction false} ComputableAre(roles: seq<Role>, role: nat)
    ensures role in Computable(roles) <==> exists r | r in roles :: r.id == role && r.computable
  {
    if roles != [] {
      ComputableAre(roles[..|roles| - 1], role);
      assert roles == roles[..|roles| - 1] + [roles[|roles| - 1]];
    }
  }

  lemma SomeComputable(p: Project)
    ensures Computable(p.roles) != [] <==> exists role :: IsComputable(p, role)
  {
    if Computable(p.roles) != [] {
      ComputableAre(p.roles, Computable(p.roles)[0]);
      assert IsComputable(p, Computable(p.roles)[0]);
    }
    if role :| IsComputable(p, role) {
      ComputableAre(p.roles, role);
    }
  }

  /** Every row after an update, for any visited stories: a row that may stay keeps its points,
      a missing pair of a visited story and a computable role gets the null point, and nothing
      else exists. */
  lemma RowAfter(p: Project, visited: seq<nat>, unusedName: string, key: (nat, nat))
    requires exists role :: IsComputable(p, role)
    ensures var rows := After(p, visited, unusedName).rows;
            if key.0 in p.stories && !IsComputable(p, key.1) then key !in rows
            else if key in p.rows then key in rows && rows[key] == p.rows[key]
            else if key.0 in visited && IsComputable(p, key.1) then
              key in rows && rows[key] == Some(NullPoint(p, unusedName).id)
            else key !in rows
  {
    SomeComputable(p);
    ComputableAre(p.roles, key.1);
    AddAllAt(p.rows, visited, Computable(p.roles), NullPoint(p, unusedName).id, key);
  }

  lemma {:induction false} FirstNullFound(points: seq<Point>)
    ensures match FirstNull(points)
            case None => forall point | point in points :: point.value.Some?
            case Some(point) => point in points && point.value.None?
  {
    if points != [] {
      FirstNullFound(points[1..]);
      assert points == [points[0]] + points[1..];
    }
  }

  /** After a full update a story has a row for a role exactly when the role is computable; rows
      that stay keep their points, new ones get a null-valued point of the project, and a
      null point is created only when there was none. */
  lemma Normalised(p: Project, unusedName: string, story: nat, role: nat)
    requires (exists r :: IsComputable(p, r)) && story in p.stories
    ensures var p' := After(p, p.stories, unusedName);
            && ((story, role) in p'.rows <==> IsComputable(p, role))
            && ((story, role) in p.rows && (story, role) in p'.rows ==> p'.rows[(story, role)] == p.rows[(story, role)])
            && ((story, role) !in p.rows && (story, role) in p'.rows ==>
                exists point | point in p'.points :: point.value.None? && p'.rows[(story, role)] == Some(point.id))
            && p'.stories == p.stories && p'.roles == p.roles
            && if exists point | point in p.points :: point.value.None? then p'.points == p.points
               else p'.points == p.points + [NewPoint(p, unusedName)]
  {
    SomeComputable(p);
    RowAfter(p, p.stories, unusedName, (story, role));
    FirstNullFound(p.points);
    var p' := After(p, p.stories, unusedName);
    assert NullPoint(p, unusedName) in p'.points;
  }

  lemma {:induction false} FirstNullAppended(points: seq<Point>, point: Point)
    requires FirstNull(points) == None && point.value.None?
    ensures FirstNull(points + [point]) == Some(point)
  {
    if points != [] {
      FirstNullAppended(points[1..], point);
      assert (points + [point])[1..] == points[1..] + [point];
    }
  }

  /** A second full update changes nothing at all. */
  lemma Idempotent(p: Project, unusedName: string, unusedName': string)
    ensures var p' := After(p, p.stories, unusedName); After(p', p.stories, unusedName') == p'
  {
    var p' := After(p, p.stories, unusedName);
    SomeComputable(p);
    if Computable(p.roles) != [] {
      assert forall role :: IsComputable(p', role) <==> IsComputable(p, role);
      if FirstNull(p.points).None? {
        FirstNullAppended(p.points, NewPoint(p, unusedName));
      }
      var p'' := After(p', p.stories, unusedName');
      forall key: (nat, nat)
        ensures (key in p''.rows <==> key in p'.rows) && (key in p'.rows ==> p''.rows[key] == p'.rows[key])
      {
        RowAfter(p, p.stories, unusedName, key);
        RowAfter(p', p.stories, unusedName', key);
      }
      assert p''.rows == p'.rows;
    }
  }

  /** With no computable role the update does nothing, so stale rows stay: the rows of the
      project are the wanted ones exactly when a role is computable or there was no row. */
  lemma NormalisedIff(p: Project, unusedName: string)
    ensures var p' := After(p, p.stories, unusedName);
            (forall key: (nat, nat) | key.0 in p.stories :: key in p'.rows <==> IsComputable(p, key.1))
            <==> (exists role :: IsComputable(p, role)) || forall key | key in p.rows :: key.0 !in p.stories
  {
    SomeComputable(p);
    if Computable(p.roles) != [] {
      forall key: (nat, nat) | key.0 in p.stories
        ensures key in After(p, p.stories, unusedName).rows <==> IsComputable(p, key.1)
      {
        Normalised(p, unusedName, key.0, key.1);
      }
    }
  }
}
