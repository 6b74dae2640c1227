/** Filter expressions over rows that belong to a project, with SQL's three truth values. */
module Queries {
  import opened Common

  datatype Perm =
    | ViewProject
    | ViewMilestones | AddMilestone | ModifyMilestone | DeleteMilestone
    | ViewEpics | AddEpic | ModifyEpic | CommentEpic | DeleteEpic
    | ViewUs | AddUs | ModifyUs | CommentUs | DeleteUs
    | ViewTasks | AddTask | ModifyTask | CommentTask | DeleteTask
    | ViewIssues | AddIssue | ModifyIssue | CommentIssue | DeleteIssue
    | ViewWikiPages | AddWikiPage | ModifyWikiPage | CommentWikiPage | DeleteWikiPage
    | ViewWikiLinks | AddWikiLink | ModifyWikiLink | DeleteWikiLink
    | ModifyProject | DeleteProject | AddMember | RemoveMember | AdminProjectValues | AdminRoles
    | Unlisted(name: string)

  /** A permission array column, null or the set of its elements. */
  type Perms = Option<set<Perm>>

  datatype Project = Project(id: nat, isPrivate: bool, anon: Perms, public: Perms)

  /** The content type of the data a timeline entry is about. */
  datatype ContentType =
    | ProjectType | MilestoneType | EpicType | UserStoryType | TaskType | IssueType | WikiPageType | WikiLinkType
    | MembershipType | OtherType(model: string)

  /** What a filter sees of a row: its project, if it has one, and its content type. */
  datatype Subject = Subject(project: Option<Project>, contentType: ContentType)

  datatype Q =
    | Always
    | NoProject
    | IsPrivate(flag: bool)
    | InProjects(ids: seq<nat>)
    | AnonContains(perm: Perm)
    | PublicContains(perm: Perm)
    | TypeIn(types: seq<ContentType>)
    | And(left: Q, right: Q)
    | Or(left: Q, right: Q)

  datatype Truth = True | False | Unknown

  function Known(b: bool): Truth {
    if b then True else False
  }

  function Contains(column: Perms, perm: Perm): Truth {
    match column
    case None => Unknown
    case Some(perms) => Known(perm in perms)
  }

  /** Columns of a project that is not there are null. */
  function Eval(q: Q, s: Subject): Truth {
    match q
    case Always => True
    case NoProject => Known(s.project.None?)
    case IsPrivate(flag) => if s.project.None? then Unknown else Known(s.project.value.isPrivate == flag)
    case InProjects(ids) => if s.project.None? then Unknown else Known(s.project.value.id in ids)
    case AnonContains(perm) => if s.project.None? then Unknown else Contains(s.project.value.anon, perm)
    case PublicContains(perm) => if s.project.None? then Unknown else Contains(s.project.value.public, perm)
    case TypeIn(types) => Known(s.contentType in types)
    case And(a, b) =>
      if Eval(a, s) == False || Eval(b, s) == False then False
      else if Eval(a, s) == True && Eval(b, s) == True then True
      else Unknown
    case Or(a, b) =>
      if Eval(a, s) == True || Eval(b, s) == True then True
      else if Eval(a, s) == False && Eval(b, s) == False then False
      else Unknown
  }

  /** A row is selected when the expression is true; unknown does not select it. */
  predicate Selects(q: Q, s: Subject) {
    Eval(q, s) == True
  }

  /** The elements of a permission column, none when it is null. */
  function Elements(column: Perms): set<Perm> {
    match column
    case None => {}
    case Some(perms) => perms
  }

  lemma OrSelects(a: Q, b: Q, s: Subject)
    ensures Selects(Or(a, b), s) <==> Selects(a, s) || Selects(b, s)
  {
  }

  lemma AndSelects(a: Q, b: Q, s: Subject)
    ensures Selects(And(a, b), s) <==> Selects(a, s) && Selects(b, s)
  {
  }
}
