/** Project permissions of a user, and the queryset filters that decide them in the database. */
module Permissions {
  import opened Common
  import opened Queries

  const ANON_PERMISSIONS: set<Perm> :=
    {ViewProject, ViewMilestones, ViewEpics, ViewUs, ViewTasks, ViewIssues, ViewWikiPages, ViewWikiLinks}

  const MEMBERS_PERMISSIONS: set<Perm> :=
    {ViewProject,
     ViewMilestones, AddMilestone, ModifyMilestone, DeleteMilestone,
     ViewEpics, AddEpic, ModifyEpic, CommentEpic, DeleteEpic,
     ViewUs, AddUs, ModifyUs, CommentUs, DeleteUs,
     ViewTasks, AddTask, ModifyTask, CommentTask, DeleteTask,
     ViewIssues, AddIssue, ModifyIssue, CommentIssue, DeleteIssue,
     ViewWikiPages, AddWikiPage, ModifyWikiPage, CommentWikiPage, DeleteWikiPage,
     ViewWikiLinks, AddWikiLink, ModifyWikiLink, DeleteWikiLink}

  const ADMINS_PERMISSIONS: set<Perm> :=
    {ModifyProject, DeleteProject, AddMember, RemoveMember, AdminProjectValues, AdminRoles}

  datatype User = Anonymous | Registered(id: nat, superuser: bool)

  /** A membership with the permissions of its role; the user is null for an invitation. */
  datatype Membership = Membership(user: Option<nat>, project: nat, isAdmin: bool, role: Perms)

  /** One membership per user and project, as the table's constraint demands. */
  ghost predicate Unique(memberships: seq<Membership>) {
    forall i, j | 0 <= i < j < |memberships| ::
      memberships[i].user == None || memberships[i].user != memberships[j].user
      || memberships[i].project != memberships[j].project
  }

  // ---------- the object check ----------

  /** The cache of a user's memberships by project; a later row overwrites an earlier one. */
  function Cached(memberships: seq<Membership>, user: nat): map<nat, Membership> {
    if memberships == [] then map[]
    else
      var last := memberships[|memberships| - 1];
      var before := Cached(memberships[..|memberships| - 1], user);
      if last.user == Some(user) then before[last.project := last] else before
  }

  function MembershipOf(user: User, project: nat, memberships: seq<Membership>): Option<Membership> {
    if user.Anonymous? then None
    else
      var cache := Cached(memberships, user.id);
      if project in cache then Some(cache[project]) else None
  }

  function CalculatePermissions(isAuthenticated: bool, isSuperuser: bool, isMember: bool, isAdmin: bool,
                                role: set<Perm>, anon: Perms, public: Perms): set<Perm> {
    if isSuperuser then ADMINS_PERMISSIONS + MEMBERS_PERMISSIONS + ANON_PERMISSIONS
    else if isMember then
      (if isAdmin then ADMINS_PERMISSIONS + MEMBERS_PERMISSIONS else {}) + role + Elements(public) + Elements(anon)
    else if isAuthenticated then Elements(public) + Elements(anon)
    else Elements(anon)
  }

  function UserPermissions(user: User, project: Project, memberships: seq<Membership>): set<Perm> {
    var membership := MembershipOf(user, project.id, memberships);
    CalculatePermissions(user.Registered?, user.Registered? && user.superuser, membership.Some?,
                         membership.Some? && membership.value.isAdmin,
                         if membership.Some? then Elements(membership.value.role) else {},
                         project.anon, project.public)
  }

  /** An object without a project grants nothing. */
  predicate UserHasPerm(user: User, perm: Perm, project: Option<Project>, memberships: seq<Membership>) {
    project.Some? && perm in UserPermissions(user, project.value, memberships)
  }

  // ---------- the filters ----------

  /** Rows of `role__permissions__contains=[perm] OR is_admin`. */
  predicate Grants(m: Membership, perm: Perm) {
    m.isAdmin || perm in Elements(m.role)
  }

  /** The projects of the user's granting memberships, of one project only when narrowed. */
  function GrantingProjects(memberships: seq<Membership>, user: nat, perm: Perm, narrow: Option<int>): seq<nat> {
    if memberships == [] then []
    else
      var last := memberships[|memberships| - 1];
      GrantingProjects(memberships[..|memberships| - 1], user, perm, narrow)
      + if last.user == Some(user) && (narrow.None? || last.project == narrow.value) && Grants(last, perm)
        then [last.project] else []
  }

  function PermissionQuery(user: User, perm: Perm, narrow: Option<int>, memberships: seq<Membership>): Q {
    match user
    case Registered(_, true) => Always
    case Registered(id, false) => Or(InProjects(GrantingProjects(memberships, id, perm, narrow)), PublicContains(perm))
    case Anonymous => AnonContains(perm)
  }

  /** `project_id` narrows only when it is truthy: zero does not. */
  function ViewProjectsQuery(user: User, projectId: Option<int>, memberships: seq<Membership>): Q {
    PermissionQuery(user, ViewProject, if projectId == Some(0) then None else projectId, memberships)
  }

  /** The `project` query parameter, if the view filters by it. */
  datatype Param = Absent | NotAnInteger | Number(value: int)

  datatype Failure = BadRequest

  datatype Item = Item(id: nat, project: Project)

  function SubjectOf(item: Item): Subject {
    Subject(Some(item.project), OtherType(""))
  }

  function Matching(q: Q, items: seq<Item>): seq<Item> {
    if items == [] then []
    else (if Selects(q, SubjectOf(items[0])) then [items[0]] else []) + Matching(q, items[1..])
  }

  function OfProject(project: int, items: seq<Item>): seq<Item> {
    if items == [] then []
    else (if items[0].project.id == project then [items[0]] else []) + OfProject(project, items[1..])
  }

  /** The permission filter, then the filter by the query parameter. */
  function FilterQueryset(user: User, perm: Perm, param: Param, memberships: seq<Membership>, items: seq<Item>)
    : Result<seq<Item>, Failure>
  {
    match param
    case NotAnInteger => Err(BadRequest)
    case Absent => Ok(Matching(PermissionQuery(user, perm, None, memberships), items))
    case Number(n) =>
      var narrow := if n == 0 then None else Some(n);
      Ok(OfProject(n, Matching(PermissionQuery(user, perm, narrow, memberships), items)))
  }

  // ---------- base permissions ----------

  function Base(project: Project): Project {
    if project.isPrivate then project.(anon := Some({}), public := Some({}))
    else project.(anon := Some(Elements(project.anon) + ANON_PERMISSIONS),
                  public := Some(Elements(project.public) + ANON_PERMISSIONS))
  }

  class ProjectRecord {
    const id: nat
    var isPrivate: bool
    var anonPermissions: Perms
    var publicPermissions: Perms

    function Snapshot(): Project
      reads this
    {
      Project(id, isPrivate, anonPermissions, publicPermissions)
    }

    constructor (project: Project)
      ensures Snapshot() == project
    {
      id, isPrivate := project.id, project.isPrivate;
      anonPermissions, publicPermissions := project.anon, project.public;
    }

    method SetBasePermissions()
      modifies this`anonPermissions, this`publicPermissions
      ensures Snapshot() == Base(old(Snapshot()))
      ensures Elements(old(anonPermissions)) <= Elements(old(publicPermissions)) ==>
                Elements(anonPermissions) <= Elements(publicPermissions)
      ensures forall perm :: perm in Elements(anonPermissions)
                <==> !isPrivate && (perm in ANON_PERMISSIONS || perm in Elements(old(anonPermissions)))
      ensures forall perm :: perm in Elements(publicPermissions)
                <==> !isPrivate && (perm in ANON_PERMISSIONS || perm in Elements(old(publicPermissions)))
    {
      if isPrivate {
        anonPermissions := Some({});
        publicPermissions := Some({});
      } else {
        anonPermissions := Some(Elements(anonPermissions) + ANON_PERMISSIONS);
        publicPermissions := Some(Elements(publicPermissions) + ANON_PERMISSIONS);
      }
    }
  }

  // ---------- agreement ----------

  /** The user has a membership of the project that grants the permission. */
  ghost predicate Granted(memberships: seq<Membership>, user: nat, project: nat, perm: Perm) {
    exists m | m in memberships :: m.user == Some(user) && m.project == project && Grants(m, perm)
  }

  lemma {:induction false} CachedIs(memberships: seq<Membership>, user: nat, m: Membership)
    requires Unique(memberships) && m in memberships && m.user == Some(user)
    ensures m.project in Cached(memberships, user) && Cached(memberships, user)[m.project] == m
  {
    var n := |memberships| - 1;
    assert memberships == memberships[..n] + [memberships[n]];
    if memberships[n] != m {
      CachedIs(memberships[..n], user, m);
      var i :| 0 <= i < n && memberships[i] == m;
      assert memberships[n].user != m.user || memberships[n].project != m.project;
    }
  }

  lemma {:induction false} CachedFrom(memberships: seq<Membership>, user: nat, project: nat)
    requires project in Cached(memberships, user)
    ensures var m := Cached(memberships, user)[project];
            m in memberships && m.user == Some(user) && m.project == project
  {
    var n := |memberships| - 1;
    assert memberships == memberships[..n] + [memberships[n]];
    if memberships[n].user != Some(user) || memberships[n].project != project {
      CachedFrom(memberships[..n], user, project);
    }
  }

  lemma GrantedNext(before: seq<Membership>, last: Membership, user: nat, project: nat, perm: Perm)
    ensures Granted(before + [last], user, project, perm)
        <==> Granted(before, user, project, perm)
             || (last.user == Some(user) && last.project == project && Grants(last, perm))
  {
    assert forall m :: m in before + [last] <==> m in before || m == last;
  }

  lemma {:induction false} GrantingProjectsAre(memberships: seq<Membership>, user: nat, perm: Perm, narrow: Option<int>,
                                               project: nat)
    ensures project in GrantingProjects(memberships, user, perm, narrow)
        <==> (narrow.None? || project == narrow.value) && Granted(memberships, user, project, perm)
  {
    if memberships != [] {
      var before, last := memberships[..|memberships| - 1], memberships[|memberships| - 1];
      GrantingProjectsAre(before, user, perm, narrow, project);
      GrantedNext(before, last, user, project, perm);
      assert memberships == before + [last];
    }
  }

  /** The one case the database filter refuses and the object check allows. */
  ghost predicate OnlyAnonymously(user: User, perm: Perm, project: Project, memberships: seq<Membership>) {
    && user.Registered? && !user.superuser
    && perm in Elements(project.anon) && perm !in Elements(project.public)
    && !Granted(memberships, user.id, project.id, perm)
  }

  lemma MemberGrant(user: nat, perm: Perm, project: Project, memberships: seq<Membership>)
    requires Unique(memberships) && perm in MEMBERS_PERMISSIONS
    ensures perm in UserPermissions(Registered(user, false), project, memberships)
        <==> Granted(memberships, user, project.id, perm)
             || perm in Elements(project.public) || perm in Elements(project.anon)
  {
    var membership := MembershipOf(Registered(user, false), project.id, memberships);
    if membership.Some? {
      CachedFrom(memberships, user, project.id);
      forall m | m in memberships && m.user == Some(user) && m.project == project.id ensures m == membership.value {
        CachedIs(memberships, user, m);
      }
    } else {
      forall m | m in memberships && m.user == Some(user) ensures m.project != project.id {
        CachedIs(memberships, user, m);
      }
    }
  }

  lemma RegisteredSelects(user: nat, perm: Perm, narrow: Option<int>, memberships: seq<Membership>, s: Subject)
    requires s.project.Some?
    ensures Selects(PermissionQuery(Registered(user, false), perm, narrow, memberships), s)
        <==> ((narrow.None? || s.project.value.id == narrow.value)
              && Granted(memberships, user, s.project.value.id, perm))
             || perm in Elements(s.project.value.public)
  {
    var ids := GrantingProjects(memberships, user, perm, narrow);
    OrSelects(InProjects(ids), PublicContains(perm), s);
    GrantingProjectsAre(memberships, user, perm, narrow, s.project.value.id);
  }

  /** A permission no array gives away: administrators of the project and superusers have it, if
      it is one of the lists, and nobody else. */
  lemma ReservedIff(user: User, perm: Perm, project: Project, memberships: seq<Membership>)
    requires Unique(memberships)
    requires perm !in Elements(project.anon) && perm !in Elements(project.public)
    requires forall m | m in memberships :: perm !in Elements(m.role)
    ensures UserHasPerm(user, perm, Some(project), memberships)
        <==> (perm in ADMINS_PERMISSIONS || perm in MEMBERS_PERMISSIONS)
             && user.Registered?
             && (user.superuser
                 || exists m | m in memberships :: m.user == Some(user.id) && m.project == project.id && m.isAdmin)
  {
    AnonPermissionsAreMembers();
    if user.Registered? && !user.superuser {
      var membership := MembershipOf(user, project.id, memberships);
      if membership.Some? {
        CachedFrom(memberships, user.id, project.id);
      }
      forall m | m in memberships && m.user == Some(user.id) && m.project == project.id ensures membership == Some(m) {
        CachedIs(memberships, user.id, m);
      }
    }
  }

  /** Permissions grow from anonymous users to registered ones, with every membership and with
      administration; a superuser has all an administrator has exactly when the arrays hold only
      listed permissions. */
  lemma PermissionsGrow(role: set<Perm>, anon: Perms, public: Perms)
    ensures var stranger := CalculatePermissions(true, false, false, false, {}, anon, public);
            var member := CalculatePermissions(true, false, true, false, role, anon, public);
            var admin := CalculatePermissions(true, false, true, true, role, anon, public);
            var superuser := CalculatePermissions(true, true, true, true, role, anon, public);
            && CalculatePermissions(false, false, false, false, {}, anon, public) <= stranger <= member <= admin
            && (admin <= superuser <==> role + Elements(anon) + Elements(public) <= ADMINS_PERMISSIONS + MEMBERS_PERMISSIONS)
  {
    AnonPermissionsAreMembers();
    var listed := ADMINS_PERMISSIONS + MEMBERS_PERMISSIONS;
    assert listed + ANON_PERMISSIONS == listed;
    assert CalculatePermissions(true, false, true, true, role, anon, public)
        == listed + (role + Elements(anon) + Elements(public));
  }

  /** For a permission of the members list, the filter selects an item exactly when the object
      check allows it, save for permissions granted to anonymous users alone. */
  lemma SelectedIff(user: User, perm: Perm, item: Item, memberships: seq<Membership>)
    requires Unique(memberships) && perm in MEMBERS_PERMISSIONS
    ensures Selects(PermissionQuery(user, perm, None, memberships), SubjectOf(item))
        <==> UserHasPerm(user, perm, Some(item.project), memberships)
             && !OnlyAnonymously(user, perm, item.project, memberships)
  {
    match user
    case Anonymous =>
    case Registered(_, true) =>
    case Registered(id, false) =>
      RegisteredSelects(id, perm, None, memberships, SubjectOf(item));
      MemberGrant(id, perm, item.project, memberships);
  }

  function Allowed(user: User, perm: Perm, memberships: seq<Membership>, items: seq<Item>): seq<Item> {
    if items == [] then []
    else (if UserHasPerm(user, perm, Some(items[0].project), memberships) then [items[0]] else [])
         + Allowed(user, perm, memberships, items[1..])
  }

  lemma {:induction false} SelectedRows(q: Q, items: seq<Item>, item: Item)
    ensures item in Matching(q, items) <==> item in items && Selects(q, SubjectOf(item))
  {
    if items != [] {
      SelectedRows(q, items[1..], item);
    }
  }

  lemma {:induction false} RowsOfProject(project: int, items: seq<Item>, item: Item)
    ensures item in OfProject(project, items) <==> item in items && item.project.id == project
  {
    if items != [] {
      RowsOfProject(project, items[1..], item);
    }
  }

  /** Every item a view returns is one the object check allows, whatever the query parameter. */
  lemma FilterIsSound(user: User, perm: Perm, param: Param, memberships: seq<Membership>, items: seq<Item>, item: Item)
    requires Unique(memberships) && perm in MEMBERS_PERMISSIONS
    requires FilterQueryset(user, perm, param, memberships, items).Ok?
    requires item in FilterQueryset(user, perm, param, memberships, items).value
    ensures item in items && UserHasPerm(user, perm, Some(item.project), memberships)
    ensures param.Number? ==> item.project.id == param.value
  {
    if param.Number? {
      NarrowingAgrees(user, perm, param.value, memberships, items);
      RowsOfProject(param.value, Matching(PermissionQuery(user, perm, None, memberships), items), item);
    }
    SelectedRows(PermissionQuery(user, perm, None, memberships), items, item);
    SelectedIff(user, perm, item, memberships);
  }

  /** The filter returns exactly the allowed items, in order, for anonymous users, superusers, and
      whenever no project keeps the permission from registered users it gives to anonymous ones. */
  lemma {:induction false} FilterIsExact(user: User, perm: Perm, memberships: seq<Membership>, items: seq<Item>)
    requires Unique(memberships) && perm in MEMBERS_PERMISSIONS
    requires user.Anonymous? || user.superuser
             || forall i | 0 <= i < |items| ::
                  perm in Elements(items[i].project.anon) ==> perm in Elements(items[i].project.public)
    ensures Matching(PermissionQuery(user, perm, None, memberships), items) == Allowed(user, perm, memberships, items)
  {
    if items != [] {
      SelectedIff(user, perm, items[0], memberships);
      FilterIsExact(user, perm, memberships, items[1..]);
    }
  }

  /** A view's answer: the allowed items, of the requested project when one is requested, in order;
      a parameter that is no integer is refused. */
  lemma ViewIsExact(user: User, perm: Perm, param: Param, memberships: seq<Membership>, items: seq<Item>)
    requires Unique(memberships) && perm in MEMBERS_PERMISSIONS
    requires user.Anonymous? || user.superuser
             || forall i | 0 <= i < |items| ::
                  perm in Elements(items[i].project.anon) ==> perm in Elements(items[i].project.public)
    ensures param == Absent ==> FilterQueryset(user, perm, param, memberships, items) == Ok(Allowed(user, perm, memberships, items))
    ensures param.Number? ==>
      FilterQueryset(user, perm, param, memberships, items)
      == Ok(OfProject(param.value, Allowed(user, perm, memberships, items)))
    ensures param == NotAnInteger ==> FilterQueryset(user, perm, param, memberships, items) == Err(BadRequest)
  {
    FilterIsExact(user, perm, memberships, items);
    if param.Number? {
      NarrowingAgrees(user, perm, param.value, memberships, items);
    }
  }

  /** The three lists: the eight views anyone may get; every permission on the contents of a project;
      the six on the project itself. */
  lemma ListsAre(perm: Perm)
    ensures perm in ANON_PERMISSIONS <==>
      perm in {ViewProject, ViewMilestones, ViewEpics, ViewUs, ViewTasks, ViewIssues, ViewWikiPages, ViewWikiLinks}
    ensures perm in ADMINS_PERMISSIONS <==>
      perm.ModifyProject? || perm.DeleteProject? || perm.AddMember? || perm.RemoveMember? || perm.AdminProjectValues?
      || perm.AdminRoles?
    ensures perm in MEMBERS_PERMISSIONS <==> !perm.Unlisted? && perm !in ADMINS_PERMISSIONS
  {
  }

  /** Reading only the memberships of the requested project changes nothing, also for project 0. */
  lemma {:induction false} NarrowingAgrees(user: User, perm: Perm, project: int, memberships: seq<Membership>,
                                           items: seq<Item>)
    ensures FilterQueryset(user, perm, Number(project), memberships, items)
         == Ok(OfProject(project, Matching(PermissionQuery(user, perm, None, memberships), items)))
  {
    var narrow := if project == 0 then None else Some(project);
    NarrowedRows(user, perm, project, narrow, memberships, items);
  }

  lemma {:induction false} NarrowedRows(user: User, perm: Perm, project: int, narrow: Option<int>,
                                        memberships: seq<Membership>, items: seq<Item>)
    requires narrow == None || narrow == Some(project)
    ensures OfProject(project, Matching(PermissionQuery(user, perm, narrow, memberships), items))
         == OfProject(project, Matching(PermissionQuery(user, perm, None, memberships), items))
  {
    if items != [] {
      NarrowedRows(user, perm, project, narrow, memberships, items[1..]);
      var q, q' := PermissionQuery(user, perm, narrow, memberships), PermissionQuery(user, perm, None, memberships);
      if user.Registered? && !user.superuser {
        RegisteredSelects(user.id, perm, narrow, memberships, SubjectOf(items[0]));
        RegisteredSelects(user.id, perm, None, memberships, SubjectOf(items[0]));
      }
      assert items[0].project.id == project ==> Selects(q, SubjectOf(items[0])) == Selects(q', SubjectOf(items[0]));
      OneRowLess(q, project, items);
      OneRowLess(q', project, items);
    }
  }

  lemma OneRowLess(q: Q, project: int, items: seq<Item>)
    requires items != []
    ensures OfProject(project, Matching(q, items))
         == (if items[0].project.id == project && Selects(q, SubjectOf(items[0])) then [items[0]] else [])
            + OfProject(project, Matching(q, items[1..]))
  {
    if Selects(q, SubjectOf(items[0])) {
      assert Matching(q, items) == [items[0]] + Matching(q, items[1..]);
      assert Matching(q, items)[1..] == Matching(q, items[1..]);
    } else {
      assert Matching(q, items) == Matching(q, items[1..]);
    }
  }

  /** Base permissions keep anonymous permissions within public ones, and establish it exactly for
      private projects and those whose other anonymous permissions were public already. */
  lemma BaseKeepsInclusion(project: Project)
    ensures Elements(project.anon) <= Elements(project.public) ==> Elements(Base(project).anon) <= Elements(Base(project).public)
    ensures Elements(Base(project).anon) <= Elements(Base(project).public)
        <==> project.isPrivate || Elements(project.anon) <= Elements(project.public) + ANON_PERMISSIONS
    ensures Base(Base(project)) == Base(project)
  {
    if !project.isPrivate {
      assert Elements(Base(project).anon) + ANON_PERMISSIONS == Elements(Base(project).anon);
      assert Elements(Base(project).public) + ANON_PERMISSIONS == Elements(Base(project).public);
    }
  }

  lemma AnonPermissionsAreMembers()
    ensures ANON_PERMISSIONS <= MEMBERS_PERMISSIONS
  {
  }

  /** Once every project has its base permissions, the filters for the view permissions return
      exactly what the object check allows, for every user. */
  lemma ViewsAgreeOnBase(user: User, perm: Perm, memberships: seq<Membership>, items: seq<Item>)
    requires Unique(memberships) && perm in ANON_PERMISSIONS
    requires forall i | 0 <= i < |items| :: items[i].project == Base(items[i].project)
    ensures Matching(PermissionQuery(user, perm, None, memberships), items) == Allowed(user, perm, memberships, items)
    ensures FilterQueryset(user, perm, Absent, memberships, items) == Ok(Allowed(user, perm, memberships, items))
  {
    AnonPermissionsAreMembers();
    ViewIsExact(user, perm, Absent, memberships, items);
    FilterIsExact(user, perm, memberships, items);
  }

  /** The list of projects a user can see: the same statement for rows that are projects. */
  lemma ProjectListIff(user: User, project: Project, memberships: seq<Membership>)
    requires Unique(memberships)
    ensures Selects(ViewProjectsQuery(user, None, memberships), Subject(Some(project), ProjectType))
        <==> UserHasPerm(user, ViewProject, Some(project), memberships)
             && !OnlyAnonymously(user, ViewProject, project, memberships)
    ensures Selects(ViewProjectsQuery(user, Some(project.id), memberships), Subject(Some(project), ProjectType))
        <==> Selects(ViewProjectsQuery(user, None, memberships), Subject(Some(project), ProjectType))
  {
    var s := Subject(Some(project), ProjectType);
    match user
    case Anonymous =>
    case Registered(_, true) =>
    case Registered(id, false) =>
      var narrow: Option<int> := if project.id == 0 then None else Some(project.id);
      RegisteredSelects(id, ViewProject, narrow, memberships, s);
      RegisteredSelects(id, ViewProject, None, memberships, s);
      MemberGrant(id, ViewProject, project, memberships);
  }

  /** The disagreement happens: a public project that shows its stories to anonymous users only
      is refused by the filter to a logged-in stranger the object check lets in. */
  lemma StrangerIsRefused()
    ensures var project := Project(1, false, Some({ViewUs}), Some({}));
            && UserHasPerm(Registered(7, false), ViewUs, Some(project), [])
            && Matching(PermissionQuery(Registered(7, false), ViewUs, None, []), [Item(3, project)]) == []
  {
    var project := Project(1, false, Some({ViewUs}), Some({}));
    RegisteredSelects(7, ViewUs, None, [], SubjectOf(Item(3, project)));
    assert Matching(PermissionQuery(Registered(7, false), ViewUs, None, []), []) == [];
  }
}
