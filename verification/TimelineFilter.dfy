/** The third decision about who sees what: the filter over timeline entries. */
module TimelineFilter {
  import opened Common
  import opened Queries
  import opened Permissions

  datatype Event = EpicStoryCreated | OtherEvent(key: string)

  /** `story` is the project of the user story an epic entry tells about, if its data has one. */
  datatype Entry = Entry(id: nat, project: Option<Project>, contentType: ContentType, namespace: string,
                         event: Event, story: Option<Project>)

  /** `TypeError`: iterating over the null permissions of a role. */
  datatype Failure = TypeError

  /** The types with a view permission, in the order of the dictionary. */
  const CONTENT_TYPES: seq<(Perm, ContentType)> :=
    [(ViewProject, ProjectType), (ViewMilestones, MilestoneType), (ViewEpics, EpicType), (ViewUs, UserStoryType),
     (ViewTasks, TaskType), (ViewIssues, IssueType), (ViewWikiPages, WikiPageType), (ViewWikiLinks, WikiLinkType)]

  function SubjectOf(entry: Entry): Subject {
    Subject(entry.project, entry.contentType)
  }

  // ---------- the disjunction ----------

  function Start(): Q {
    Or(IsPrivate(false), NoProject)
  }

  function AnonDisjunct(perm: Perm, contentType: ContentType): Q {
    And(And(IsPrivate(true), AnonContains(perm)), TypeIn([contentType]))
  }

  function AfterTypes(q: Q, types: seq<(Perm, ContentType)>): Q {
    if types == [] then q
    else
      var last := types[|types| - 1];
      Or(AfterTypes(q, types[..|types| - 1]), AnonDisjunct(last.0, last.1))
  }

  /** The content types a role sees; permissions without one are dropped. */
  function RoleTypes(role: set<Perm>, types: seq<(Perm, ContentType)>): seq<ContentType> {
    if types == [] then []
    else
      var last := types[|types| - 1];
      RoleTypes(role, types[..|types| - 1]) + if last.0 in role then [last.1] else []
  }

  function MemberDisjunct(m: Membership): Result<Q, Failure> {
    if m.isAdmin then Ok(InProjects([m.project]))
    else
      match m.role
      case None => Err(TypeError)
      case Some(role) =>
        Ok(And(InProjects([m.project]), TypeIn(RoleTypes(role, CONTENT_TYPES) + [MembershipType])))
  }

  function AfterMemberships(q: Q, memberships: seq<Membership>): Result<Q, Failure> {
    if memberships == [] then Ok(q)
    else
      match AfterMemberships(q, memberships[..|memberships| - 1])
      case Err(e) => Err(e)
      case Ok(before) =>
        match MemberDisjunct(memberships[|memberships| - 1])
        case Err(e) => Err(e)
        case Ok(disjunct) => Ok(Or(before, disjunct))
  }

  /** `cached` lists the user's memberships. */
  function TimelineQuery(user: User, cached: seq<Membership>): Result<Q, Failure> {
    var public := Or(AfterTypes(Start(), CONTENT_TYPES), AnonDisjunct(ViewProject, MembershipType));
    if user.Anonymous? then Ok(public) else AfterMemberships(public, cached)
  }

  lemma {:induction false} MembershipsStop(q: Q, memberships: seq<Membership>, n: nat)
    requires n <= |memberships| && AfterMemberships(q, memberships[..n]).Err?
    ensures AfterMemberships(q, memberships) == AfterMemberships(q, memberships[..n])
  {
    if n == |memberships| {
      assert memberships[..n] == memberships;
    } else {
      assert memberships[..|memberships| - 1][..n] == memberships[..n];
      MembershipsStop(q, memberships[..|memberships| - 1], n);
    }
  }

  method AddTypes(q: Q, types: seq<(Perm, ContentType)>) returns (filter: Q)
    ensures filter == AfterTypes(q, types)
  {
    filter := q;
    for i := 0 to |types|
      invariant filter == AfterTypes(q, types[..i])
    {
      assert types[..i + 1][..i] == types[..i];
      filter := Or(filter, AnonDisjunct(types[i].0, types[i].1));
    }
    assert types[..|types|] == types;
  }

  method AddMemberships(q: Q, memberships: seq<Membership>) returns (filter: Result<Q, Failure>)
    ensures filter == AfterMemberships(q, memberships)
  {
    var disjunction := q;
    for i := 0 to |memberships|
      invariant AfterMemberships(q, memberships[..i]) == Ok(disjunction)
    {
      assert memberships[..i + 1][..i] == memberships[..i];
      var disjunct := MemberDisjunct(memberships[i]);
      if disjunct.Err? {
        MembershipsStop(q, memberships, i + 1);
        return Err(disjunct.error);
      }
      disjunction := Or(disjunction, disjunct.value);
    }
    assert memberships[..|memberships|] == memberships;
    filter := Ok(disjunction);
  }

  /** The two loops over one accumulated disjunction. */
  method BuildFilter(user: User, cached: seq<Membership>) returns (filter: Result<Q, Failure>)
    ensures filter == TimelineQuery(user, cached)
  {
    var disjunction := AddTypes(Or(IsPrivate(false), NoProject), CONTENT_TYPES);
    disjunction := Or(disjunction, AnonDisjunct(ViewProject, MembershipType));
    if user.Anonymous? {
      filter := Ok(disjunction);
    } else {
      filter := AddMemberships(disjunction, cached);
    }
  }

  // ---------- the exclusion of epic entries ----------

  /** A role of the user in the project grants seeing stories; a null role does not. */
  function RoleViewsStories(user: User, project: nat, memberships: seq<Membership>): bool {
    user.Registered?
    && exists i | 0 <= i < |memberships| ::
         memberships[i].user == Some(user.id) && memberships[i].project == project
         && ViewUs in Elements(memberships[i].role)
  }

  function OrTruth(a: Truth, b: Truth): Truth {
    if a == True || b == True then True else if a == False && b == False then False else Unknown
  }

  function AndTruth(a: Truth, b: Truth): Truth {
    if a == False || b == False then False else if a == True && b == True then True else Unknown
  }

  /** The disjunction whose negation the subquery selects by. */
  function StoryAllowed(user: User, project: Project, memberships: seq<Membership>): Truth {
    OrTruth(OrTruth(Contains(project.anon, ViewUs),
                    AndTruth(Contains(project.public, ViewUs), Known(user.Registered?))),
            Known(RoleViewsStories(user, project.id, memberships)))
  }

  /** The subquery selects the entry; the negation of unknown is unknown and does not. */
  predicate NotAllowed(user: User, namespace: string, memberships: seq<Membership>, entry: Entry) {
    && entry.story.Some? && StoryAllowed(user, entry.story.value, memberships) == False
    && entry.namespace == namespace && entry.event.EpicStoryCreated?
  }

  /** The user's own rows of the memberships table. */
  function Own(user: User, memberships: seq<Membership>): seq<Membership> {
    if memberships == [] then []
    else
      var last := memberships[|memberships| - 1];
      Own(user, memberships[..|memberships| - 1])
      + if user.Registered? && last.user == Some(user.id) then [last] else []
  }

  /** Whether the filtered timeline has the entry; an absent or empty namespace excludes nothing. */
  predicate Visible(user: User, namespace: Option<string>, memberships: seq<Membership>, entry: Entry) {
    if user.Registered? && user.superuser then true
    else
      var q := TimelineQuery(user, Own(user, memberships));
      && q.Ok? && Selects(q.value, SubjectOf(entry))
      && !(namespace.Some? && namespace.value != "" && NotAllowed(user, namespace.value, memberships, entry))
  }

  function Visibles(user: User, namespace: Option<string>, memberships: seq<Membership>, entries: seq<Entry>): seq<Entry> {
    if entries == [] then []
    else (if Visible(user, namespace, memberships, entries[0]) then [entries[0]] else [])
         + Visibles(user, namespace, memberships, entries[1..])
  }

  /** The filtered timeline, or the exception building the filter raises. */
  function FilterTimeline(user: User, namespace: Option<string>, memberships: seq<Membership>, entries: seq<Entry>)
    : Result<seq<Entry>, Failure>
  {
    if user.Registered? && user.superuser then Ok(entries)
    else
      match TimelineQuery(user, Own(user, memberships))
      case Err(e) => Err(e)
      case Ok(_) => Ok(Visibles(user, namespace, memberships, entries))
  }

  // ---------- what the disjunction means ----------

  /** The view permission of a content type; memberships and other types have none. */
  function RequiredPerm(contentType: ContentType): Option<Perm> {
    match contentType
    case ProjectType => Some(ViewProject)
    case MilestoneType => Some(ViewMilestones)
    case EpicType => Some(ViewEpics)
    case UserStoryType => Some(ViewUs)
    case TaskType => Some(ViewTasks)
    case IssueType => Some(ViewIssues)
    case WikiPageType => Some(ViewWikiPages)
    case WikiLinkType => Some(ViewWikiLinks)
    case _ => None
  }

  /** The permission of a type according to the first n entries of the dictionary. */
  ghost predicate Listed(types: seq<(Perm, ContentType)>, perms: set<Perm>, contentType: ContentType) {
    exists i | 0 <= i < |types| :: types[i].1 == contentType && types[i].0 in perms
  }

  lemma ListedIff(perms: set<Perm>, contentType: ContentType)
    ensures Listed(CONTENT_TYPES, perms, contentType)
        <==> RequiredPerm(contentType).Some? && RequiredPerm(contentType).value in perms
  {
    assert CONTENT_TYPES[0] == (ViewProject, ProjectType) && CONTENT_TYPES[1] == (ViewMilestones, MilestoneType);
    assert CONTENT_TYPES[2] == (ViewEpics, EpicType) && CONTENT_TYPES[3] == (ViewUs, UserStoryType);
    assert CONTENT_TYPES[4] == (ViewTasks, TaskType) && CONTENT_TYPES[5] == (ViewIssues, IssueType);
    assert CONTENT_TYPES[6] == (ViewWikiPages, WikiPageType) && CONTENT_TYPES[7] == (ViewWikiLinks, WikiLinkType);
  }

  lemma AnonDisjunctSelects(perm: Perm, contentType: ContentType, s: Subject)
    ensures Selects(AnonDisjunct(perm, contentType), s)
        <==> (s.project.Some? && s.project.value.isPrivate && perm in Elements(s.project.value.anon)
              && s.contentType == contentType)
  {
    AndSelects(And(IsPrivate(true), AnonContains(perm)), TypeIn([contentType]), s);
    AndSelects(IsPrivate(true), AnonContains(perm), s);
  }

  lemma {:induction false} TypesSelect(q: Q, types: seq<(Perm, ContentType)>, s: Subject)
    ensures Selects(AfterTypes(q, types), s)
        <==> (Selects(q, s)
              || (s.project.Some? && s.project.value.isPrivate
                  && Listed(types, Elements(s.project.value.anon), s.contentType)))
  {
    if types != [] {
      var n := |types| - 1;
      assert types == types[..n] + [types[n]];
      TypesSelect(q, types[..n], s);
      AnonDisjunctSelects(types[n].0, types[n].1, s);
      OrSelects(AfterTypes(q, types[..n]), AnonDisjunct(types[n].0, types[n].1), s);
    }
  }

  /** What everybody sees. */
  ghost predicate Open(s: Subject) {
    || s.project.None?
    || !s.project.value.isPrivate
    || (RequiredPerm(s.contentType).Some? && RequiredPerm(s.contentType).value in Elements(s.project.value.anon))
    || (s.contentType == MembershipType && ViewProject in Elements(s.project.value.anon))
  }

  lemma PublicSelects(s: Subject)
    ensures Selects(Or(AfterTypes(Start(), CONTENT_TYPES), AnonDisjunct(ViewProject, MembershipType)), s) <==> Open(s)
  {
    OrSelects(AfterTypes(Start(), CONTENT_TYPES), AnonDisjunct(ViewProject, MembershipType), s);
    TypesSelect(Start(), CONTENT_TYPES, s);
    OrSelects(IsPrivate(false), NoProject, s);
    AnonDisjunctSelects(ViewProject, MembershipType, s);
    if s.project.Some? {
      ListedIff(Elements(s.project.value.anon), s.contentType);
    }
  }

  lemma {:induction false} RoleTypesAre(role: set<Perm>, types: seq<(Perm, ContentType)>, contentType: ContentType)
    ensures contentType in RoleTypes(role, types) <==> Listed(types, role, contentType)
  {
    if types != [] {
      var n := |types| - 1;
      assert types == types[..n] + [types[n]];
      RoleTypesAre(role, types[..n], contentType);
    }
  }

  /** What a membership lets its user see. */
  ghost predicate MemberSees(m: Membership, s: Subject) {
    && s.project.Some? && s.project.value.id == m.project
    && (m.isAdmin || s.contentType == MembershipType
        || (RequiredPerm(s.contentType).Some? && RequiredPerm(s.contentType).value in Elements(m.role)))
  }

  lemma MemberSelects(m: Membership, s: Subject)
    requires MemberDisjunct(m).Ok?
    ensures Selects(MemberDisjunct(m).value, s) <==> MemberSees(m, s)
  {
    if !m.isAdmin {
      var types := RoleTypes(m.role.value, CONTENT_TYPES);
      AndSelects(InProjects([m.project]), TypeIn(types + [MembershipType]), s);
      RoleTypesAre(m.role.value, CONTENT_TYPES, s.contentType);
      ListedIff(m.role.value, s.contentType);
    }
  }

  ghost predicate SomeMemberSees(memberships: seq<Membership>, s: Subject) {
    exists m | m in memberships :: MemberSees(m, s)
  }

  lemma {:induction false} MembershipsSelect(q: Q, memberships: seq<Membership>, s: Subject)
    requires AfterMemberships(q, memberships).Ok?
    ensures Selects(AfterMemberships(q, memberships).value, s)
        <==> Selects(q, s) || SomeMemberSees(memberships, s)
  {
    if memberships != [] {
      var n := |memberships| - 1;
      var before := memberships[..n];
      assert memberships == before + [memberships[n]];
      MembershipsSelect(q, before, s);
      MemberSelects(memberships[n], s);
      OrSelects(AfterMemberships(q, before).value, MemberDisjunct(memberships[n]).value, s);
    }
  }

  /** A non-administrator's role without a permission array. */
  ghost predicate NullRole(memberships: seq<Membership>) {
    exists m | m in memberships :: !m.isAdmin && m.role.None?
  }

  lemma {:induction false} MembershipsFail(q: Q, memberships: seq<Membership>)
    ensures AfterMemberships(q, memberships).Err? <==> NullRole(memberships)
  {
    if memberships != [] {
      var n := |memberships| - 1;
      assert memberships == memberships[..n] + [memberships[n]];
      MembershipsFail(q, memberships[..n]);
    }
  }

  lemma {:induction false} OwnAre(user: User, memberships: seq<Membership>, m: Membership)
    ensures m in Own(user, memberships) <==> m in memberships && user.Registered? && m.user == Some(user.id)
  {
    if memberships != [] {
      var n := |memberships| - 1;
      assert memberships == memberships[..n] + [memberships[n]];
      OwnAre(user, memberships[..n], m);
    }
  }

  /** Building the filter raises exactly when the user, not a superuser, has a plain membership
      whose role has null permissions, whichever entries are asked for. */
  lemma RaisesIff(user: User, namespace: Option<string>, memberships: seq<Membership>, entries: seq<Entry>)
    ensures FilterTimeline(user, namespace, memberships, entries).Err?
        <==> user.Registered? && !user.superuser
             && exists m | m in memberships :: m.user == Some(user.id) && !m.isAdmin && m.role.None?
  {
    MembershipsFail(Or(AfterTypes(Start(), CONTENT_TYPES), AnonDisjunct(ViewProject, MembershipType)), Own(user, memberships));
    forall m ensures m in Own(user, memberships) <==> m in memberships && user.Registered? && m.user == Some(user.id) {
      OwnAre(user, memberships, m);
    }
  }

  lemma QuerySelects(user: User, memberships: seq<Membership>, s: Subject)
    requires TimelineQuery(user, Own(user, memberships)).Ok?
    ensures Selects(TimelineQuery(user, Own(user, memberships)).value, s)
        <==> Open(s) || SomeMemberSees(Own(user, memberships), s)
  {
    PublicSelects(s);
    if user.Anonymous? {
      forall m ensures m !in Own(user, memberships) {
        OwnAre(user, memberships, m);
      }
    } else {
      MembershipsSelect(Or(AfterTypes(Start(), CONTENT_TYPES), AnonDisjunct(ViewProject, MembershipType)),
                        Own(user, memberships), s);
    }
  }

  // ---------- agreement with the object check ----------

  /** What an ordinary user sees, in terms of the permissions of the object check. */
  ghost predicate Sees(user: User, memberships: seq<Membership>, entry: Entry) {
    match entry.project
    case None => true
    case Some(project) =>
      var membership := MembershipOf(user, project.id, memberships);
      || !project.isPrivate
      || (match RequiredPerm(entry.contentType)
          case Some(perm) => perm in UserPermissions(user, project.(public := None), memberships)
          case None =>
            if entry.contentType == MembershipType
            then membership.Some? || ViewProject in Elements(project.anon)
            else membership.Some? && membership.value.isAdmin)
  }

  lemma SomeMemberSeesIff(user: User, memberships: seq<Membership>, s: Subject)
    requires Unique(memberships) && s.project.Some?
    ensures SomeMemberSees(Own(user, memberships), s)
        <==> (MembershipOf(user, s.project.value.id, memberships).Some?
              && MemberSees(MembershipOf(user, s.project.value.id, memberships).value, s))
  {
    forall m ensures m in Own(user, memberships) <==> m in memberships && user.Registered? && m.user == Some(user.id) {
      OwnAre(user, memberships, m);
    }
    if user.Registered? {
      var project := s.project.value.id;
      if project in Cached(memberships, user.id) {
        CachedFrom(memberships, user.id, project);
      }
      forall m | m in memberships && m.user == Some(user.id) && m.project == project
        ensures MembershipOf(user, project, memberships) == Some(m)
      {
        CachedIs(memberships, user.id, m);
      }
    }
  }

  lemma RequiredPermsAreViews(contentType: ContentType)
    ensures RequiredPerm(contentType).Some? ==> RequiredPerm(contentType).value in MEMBERS_PERMISSIONS
    ensures RequiredPerm(contentType).Some? ==> RequiredPerm(contentType).value in ANON_PERMISSIONS
  {
  }

  lemma WithoutPublic(user: User, perm: Perm, project: Project, memberships: seq<Membership>)
    requires perm in MEMBERS_PERMISSIONS && (user.Registered? ==> !user.superuser)
    ensures perm in UserPermissions(user, project.(public := None), memberships)
        <==> perm in Elements(project.anon)
             || (var membership := MembershipOf(user, project.id, memberships);
                 membership.Some? && Grants(membership.value, perm))
  {
    var membership := MembershipOf(user, project.id, memberships);
    assert Elements(project.(public := None).public) == {};
    if membership.None? {
      assert UserPermissions(user, project.(public := None), memberships) == Elements(project.anon);
    }
  }

  lemma SeesIff(user: User, memberships: seq<Membership>, entry: Entry)
    requires (user.Registered? ==> !user.superuser) && entry.project.Some?
    requires var membership := MembershipOf(user, entry.project.value.id, memberships);
             membership.Some? ==> membership.value.project == entry.project.value.id
    ensures Sees(user, memberships, entry)
        <==> Open(SubjectOf(entry))
             || (var membership := MembershipOf(user, entry.project.value.id, memberships);
                 membership.Some? && MemberSees(membership.value, SubjectOf(entry)))
  {
    RequiredPermsAreViews(entry.contentType);
    if RequiredPerm(entry.contentType).Some? {
      WithoutPublic(user, RequiredPerm(entry.contentType).value, entry.project.value, memberships);
    }
  }

  /** Without a namespace, an entry is in the timeline exactly when it is public, has no project,
      or the object check without public permissions grants the permission of its type;
      membership news need any membership, other types an administrator. */
  lemma VisibleIff(user: User, memberships: seq<Membership>, entry: Entry)
    requires Unique(memberships) && (user.Registered? ==> !user.superuser)
    requires TimelineQuery(user, Own(user, memberships)).Ok?
    ensures Visible(user, None, memberships, entry) <==> Sees(user, memberships, entry)
  {
    QuerySelects(user, memberships, SubjectOf(entry));
    if entry.project.Some? {
      SomeMemberSeesIff(user, memberships, SubjectOf(entry));
      if user.Registered? && MembershipOf(user, entry.project.value.id, memberships).Some? {
        CachedFrom(memberships, user.id, entry.project.value.id);
      }
      SeesIff(user, memberships, entry);
    } else {
      QueryOfNoProject(user, memberships, entry);
    }
  }

  lemma QueryOfNoProject(user: User, memberships: seq<Membership>, entry: Entry)
    requires entry.project.None?
    ensures Open(SubjectOf(entry)) && Sees(user, memberships, entry)
  {
  }

  lemma {:induction false} VisiblesAre(user: User, namespace: Option<string>, memberships: seq<Membership>,
                                       entries: seq<Entry>, entry: Entry)
    ensures entry in Visibles(user, namespace, memberships, entries)
        <==> entry in entries && Visible(user, namespace, memberships, entry)
  {
    if entries != [] {
      VisiblesAre(user, namespace, memberships, entries[1..], entry);
    }
  }

  /** The exclusion, spelled out: in the timeline of a namespace, a new epic story of a project whose
      arrays that apply to the user are there without the permission, and in which no role of the
      user has it. */
  ghost predicate Excluded(user: User, namespace: Option<string>, memberships: seq<Membership>, entry: Entry) {
    && namespace.Some? && namespace.value != "" && entry.namespace == namespace.value
    && entry.event.EpicStoryCreated? && entry.story.Some?
    && entry.story.value.anon.Some? && ViewUs !in entry.story.value.anon.value
    && (user.Registered? ==> entry.story.value.public.Some? && ViewUs !in entry.story.value.public.value)
    && !exists m | m in memberships ::
         user.Registered? && m.user == Some(user.id) && m.project == entry.story.value.id && ViewUs in Elements(m.role)
  }

  lemma ExcludedAsQueried(user: User, namespace: Option<string>, memberships: seq<Membership>, entry: Entry)
    ensures Excluded(user, namespace, memberships, entry)
        <==> namespace.Some? && namespace.value != "" && NotAllowed(user, namespace.value, memberships, entry)
  {
    if namespace.Some? {
      ExcludedIff(user, namespace.value, memberships, entry);
    }
    if entry.story.Some? && RoleViewsStories(user, entry.story.value.id, memberships) {
      var i :| 0 <= i < |memberships| && memberships[i].user == Some(user.id)
               && memberships[i].project == entry.story.value.id && ViewUs in Elements(memberships[i].role);
      assert memberships[i] in memberships;
    }
  }

  lemma VisibleAnywhereIff(user: User, namespace: Option<string>, memberships: seq<Membership>, entry: Entry)
    requires Unique(memberships) && (user.Registered? ==> !user.superuser)
    requires TimelineQuery(user, Own(user, memberships)).Ok?
    ensures Visible(user, namespace, memberships, entry)
        <==> Sees(user, memberships, entry) && !Excluded(user, namespace, memberships, entry)
  {
    VisibleIff(user, memberships, entry);
    ExcludedAsQueried(user, namespace, memberships, entry);
  }

  /** The entries a user sees and that are not excluded, each as often and in the order it occurs. */
  ghost function Shown(user: User, namespace: Option<string>, memberships: seq<Membership>, entries: seq<Entry>)
    : seq<Entry>
  {
    if entries == [] then []
    else (if Sees(user, memberships, entries[0]) && !Excluded(user, namespace, memberships, entries[0])
          then [entries[0]] else [])
         + Shown(user, namespace, memberships, entries[1..])
  }

  lemma {:induction false} VisiblesShown(user: User, namespace: Option<string>, memberships: seq<Membership>,
                                         entries: seq<Entry>)
    requires Unique(memberships) && (user.Registered? ==> !user.superuser)
    requires TimelineQuery(user, Own(user, memberships)).Ok?
    ensures Visibles(user, namespace, memberships, entries) == Shown(user, namespace, memberships, entries)
  {
    if entries != [] {
      VisibleAnywhereIff(user, namespace, memberships, entries[0]);
      VisiblesShown(user, namespace, memberships, entries[1..]);
    }
  }

  /** The whole filter, for every user and every namespace: a superuser gets the timeline as it is,
      and anyone else, unless it raises, exactly the entries seen and not excluded, in order. */
  lemma TimelineIs(user: User, namespace: Option<string>, memberships: seq<Membership>, entries: seq<Entry>,
                   entry: Entry)
    requires Unique(memberships)
    ensures user.Registered? && user.superuser ==> FilterTimeline(user, namespace, memberships, entries) == Ok(entries)
    ensures (user.Registered? ==> !user.superuser) && FilterTimeline(user, namespace, memberships, entries).Ok? ==>
      && FilterTimeline(user, namespace, memberships, entries).value == Shown(user, namespace, memberships, entries)
      && (entry in FilterTimeline(user, namespace, memberships, entries).value
          <==> entry in entries && Sees(user, memberships, entry) && !Excluded(user, namespace, memberships, entry))
  {
    if (user.Registered? ==> !user.superuser) && FilterTimeline(user, namespace, memberships, entries).Ok? {
      VisiblesShown(user, namespace, memberships, entries);
      VisiblesAre(user, namespace, memberships, entries, entry);
      VisibleAnywhereIff(user, namespace, memberships, entry);
    }
  }

  /** An entry of a private project about something with a view permission reaches an ordinary
      user, whatever the namespace, only if the object check grants that permission. */
  lemma TimelineIsSound(user: User, namespace: Option<string>, memberships: seq<Membership>, entries: seq<Entry>,
                        entry: Entry)
    requires Unique(memberships) && (user.Registered? ==> !user.superuser)
    requires FilterTimeline(user, namespace, memberships, entries).Ok?
    requires entry in FilterTimeline(user, namespace, memberships, entries).value
    requires entry.project.Some? && entry.project.value.isPrivate && RequiredPerm(entry.contentType).Some?
    ensures UserHasPerm(user, RequiredPerm(entry.contentType).value, entry.project, memberships)
  {
    VisiblesAre(user, namespace, memberships, entries, entry);
    assert Visible(user, None, memberships, entry);
    VisibleIff(user, memberships, entry);
    PublicAddsOnly(user, RequiredPerm(entry.contentType).value, entry.project.value, memberships);
  }

  lemma PublicAddsOnly(user: User, perm: Perm, project: Project, memberships: seq<Membership>)
    requires user.Registered? ==> !user.superuser
    ensures perm in UserPermissions(user, project, memberships)
        <==> perm in UserPermissions(user, project.(public := None), memberships)
             || (user.Registered? && perm in Elements(project.public))
  {
  }

  /** The timeline is stricter in one case only: a permission the private project gives to
      registered users in general; with base permissions there is no such case. */
  lemma TimelineAgreesIff(user: User, memberships: seq<Membership>, entry: Entry)
    requires Unique(memberships) && (user.Registered? ==> !user.superuser)
    requires TimelineQuery(user, Own(user, memberships)).Ok?
    requires entry.project.Some? && entry.project.value.isPrivate && RequiredPerm(entry.contentType).Some?
    ensures var perm := RequiredPerm(entry.contentType).value;
            var project := entry.project.value;
            && (UserHasPerm(user, perm, entry.project, memberships)
                <==> Visible(user, None, memberships, entry)
                     || (user.Registered? && perm in Elements(project.public)))
            && (project == Base(project) ==>
                  (Visible(user, None, memberships, entry) <==> UserHasPerm(user, perm, entry.project, memberships)))
  {
    VisibleIff(user, memberships, entry);
    PublicAddsOnly(user, RequiredPerm(entry.contentType).value, entry.project.value, memberships);
  }

  // ---------- the exclusion ----------

  /** When the subquery drops an epic entry about a story of the project: both arrays that apply to
      the user are there, neither has the permission, and no role of the user in the project has. */
  lemma ExcludedIff(user: User, namespace: string, memberships: seq<Membership>, entry: Entry)
    ensures NotAllowed(user, namespace, memberships, entry)
        <==> (entry.namespace == namespace && entry.event.EpicStoryCreated? && entry.story.Some?
              && (var project := entry.story.value;
                  && project.anon.Some? && ViewUs !in project.anon.value
                  && (user.Registered? ==> project.public.Some? && ViewUs !in project.public.value)
                  && !RoleViewsStories(user, project.id, memberships)))
  {
  }

  lemma RoleViewsIff(user: User, project: nat, memberships: seq<Membership>)
    requires Unique(memberships)
    ensures RoleViewsStories(user, project, memberships)
        <==> (var membership := MembershipOf(user, project, memberships);
              membership.Some? && ViewUs in Elements(membership.value.role))
  {
    if user.Registered? {
      if project in Cached(memberships, user.id) {
        CachedFrom(memberships, user.id, project);
      }
      forall i | 0 <= i < |memberships| && memberships[i].user == Some(user.id) && memberships[i].project == project
        ensures MembershipOf(user, project, memberships) == Some(memberships[i])
      {
        CachedIs(memberships, user.id, memberships[i]);
      }
    }
  }

  /** Where the exclusion and the object check disagree about seeing the story, exactly: null
      arrays show it to users without the permission, and administrators whose own role lacks
      the permission are kept from what they may see. */
  lemma ExclusionDisagreesIff(user: User, memberships: seq<Membership>, entry: Entry)
    requires Unique(memberships) && (user.Registered? ==> !user.superuser)
    requires entry.event.EpicStoryCreated? && entry.story.Some?
    ensures var project := entry.story.value;
            var membership := MembershipOf(user, project.id, memberships);
            var listed := ViewUs in Elements(project.anon) || (user.Registered? && ViewUs in Elements(project.public));
            var role := membership.Some? && ViewUs in Elements(membership.value.role);
            var admin := membership.Some? && membership.value.isAdmin;
            var missing := project.anon.None? || (user.Registered? && project.public.None?);
            (NotAllowed(user, entry.namespace, memberships, entry)
             <==> UserHasPerm(user, ViewUs, entry.story, memberships))
            <==> !listed && !role && (missing <==> !admin)
  {
    var project := entry.story.value;
    ExcludedIff(user, entry.namespace, memberships, entry);
    RoleViewsIff(user, project.id, memberships);
    PublicAddsOnly(user, ViewUs, project, memberships);
    WithoutPublic(user, ViewUs, project, memberships);
  }

  /** Projects that have been saved have no null array; there only administrators whose own role
      lacks the permission are affected. */
  lemma ExclusionOnSavedProjects(user: User, memberships: seq<Membership>, entry: Entry)
    requires Unique(memberships) && (user.Registered? ==> !user.superuser)
    requires entry.event.EpicStoryCreated? && entry.story.Some?
    requires entry.story.value.anon.Some? && entry.story.value.public.Some?
    ensures NotAllowed(user, entry.namespace, memberships, entry)
        <==> !UserHasPerm(user, ViewUs, entry.story, memberships)
             || (var project := entry.story.value;
                 var membership := MembershipOf(user, project.id, memberships);
                 && membership.Some? && membership.value.isAdmin && ViewUs !in Elements(membership.value.role)
                 && ViewUs !in project.anon.value && ViewUs !in project.public.value)
  {
    var project := entry.story.value;
    ExcludedIff(user, entry.namespace, memberships, entry);
    RoleViewsIff(user, project.id, memberships);
    PublicAddsOnly(user, ViewUs, project, memberships);
    WithoutPublic(user, ViewUs, project, memberships);
  }

  /** Such an administrator: the check grants the story, the subquery drops the entry about it. */
  lemma AdministratorIsKeptOut()
    ensures var project := Project(1, true, Some({}), Some({}));
            var memberships := [Membership(Some(7), 1, true, Some({}))];
            var entry := Entry(3, Some(project), EpicType, "user:7", EpicStoryCreated, Some(project));
            && UserHasPerm(Registered(7, false), ViewUs, Some(project), memberships)
            && NotAllowed(Registered(7, false), "user:7", memberships, entry)
  {
    var project := Project(1, true, Some({}), Some({}));
    var m := Membership(Some(7), 1, true, Some({}));
    var entry := Entry(3, Some(project), EpicType, "user:7", EpicStoryCreated, Some(project));
    CachedIs([m], 7, m);
    MemberGrant(7, ViewUs, project, [m]);
    assert Granted([m], 7, 1, ViewUs) by {
      assert m in [m];
    }
    ExcludedIff(Registered(7, false), "user:7", [m], entry);
  }

  // ---------- monotonicity ----------

  lemma AllowedGrows(user: nat, namespace: string, memberships: seq<Membership>, entry: Entry)
    requires NotAllowed(Registered(user, false), namespace, memberships, entry)
    ensures NotAllowed(Anonymous, namespace, memberships, entry)
  {
    ExcludedIff(Registered(user, false), namespace, memberships, entry);
    ExcludedIff(Anonymous, namespace, memberships, entry);
  }

  /** The timeline grows from anonymous users to registered ones to superusers, with or without
      the exclusion by namespace. */
  lemma TimelineGrows(user: nat, superuser: nat, namespace: Option<string>, memberships: seq<Membership>,
                      entries: seq<Entry>, entry: Entry)
    requires FilterTimeline(Registered(user, false), namespace, memberships, entries).Ok?
    ensures FilterTimeline(Anonymous, namespace, memberships, entries).Ok?
    ensures entry in FilterTimeline(Anonymous, namespace, memberships, entries).value ==>
      entry in FilterTimeline(Registered(user, false), namespace, memberships, entries).value
    ensures entry in FilterTimeline(Registered(user, false), namespace, memberships, entries).value ==>
      FilterTimeline(Registered(superuser, true), namespace, memberships, entries).Ok?
      && entry in FilterTimeline(Registered(superuser, true), namespace, memberships, entries).value
  {
    VisiblesAre(Anonymous, namespace, memberships, entries, entry);
    VisiblesAre(Registered(user, false), namespace, memberships, entries, entry);
    QuerySelects(Anonymous, memberships, SubjectOf(entry));
    QuerySelects(Registered(user, false), memberships, SubjectOf(entry));
    forall m ensures m !in Own(Anonymous, memberships) {
      OwnAre(Anonymous, memberships, m);
    }
    if namespace.Some? && NotAllowed(Registered(user, false), namespace.value, memberships, entry) {
      AllowedGrows(user, namespace.value, memberships, entry);
    }
  }
}
