/** Project templates: saving the choices of a project into a template and applying a template
    to a project. */
module Templates {
  import opened Common

  /** The collections a template carries. */
  datatype Kind =
    | EpicStatuses | UsStatuses | UsDuedates | Points | TaskStatuses | TaskDuedates
    | IssueStatuses | IssueTypes | IssueDuedates | Priorities | Severities | Roles
    | EpicAttributes | UsAttributes | TaskAttributes | IssueAttributes

  /** Column names; the slug of a status is recomputed whenever it is saved and left out. */
  datatype Column =
    | Name | Slug | Order | IsClosed | IsArchived | Color | WipLimit | ByDefault | DaysToDue
    | PointValue | Permissions | Computable | Description | AttributeType | Extra

  datatype Value =
    | Null | Text(text: string) | Num(num: int) | Real(amount: real) | Flag(flag: bool) | Strings(strings: seq<string>)

  type Columns = map<Column, Value>

  datatype Row = Row(id: nat, columns: Columns)

  /** A table of one project's rows, in order of creation. */
  datatype Table = Table(rows: seq<Row>, nextId: nat)

  /** The plain fields copied first, both ways. */
  datatype Modules = Modules(isContactActivated: bool, isEpicsActivated: bool, isBacklogActivated: bool,
                             isKanbanActivated: bool, isWikiActivated: bool, isIssuesActivated: bool,
                             videoconferences: Option<string>, videoconferencesExtraData: Option<string>)

  /** The plain fields copied last, both ways. */
  datatype Profile = Profile(tags: Option<seq<string>>, tagsColors: Option<seq<seq<Option<string>>>>,
                             isLookingForPeople: bool, lookingForPeopleNote: string)

  /** `defaults` holds the ids of the default rows that are set, and `ownerRoles` the role slugs
      of the memberships found for the owner. */
  datatype Project = Project(saved: bool, creationTemplate: Option<nat>, modules: Modules,
                             tables: map<Kind, Table>, defaults: map<Kind, nat>,
                             profile: Profile, ownerRoles: seq<string>)

  datatype Template = Template(id: nat, modules: Modules, defaultNames: map<Kind, Value>, lists: map<Kind, seq<Columns>>,
                               ownerRole: string, profile: Profile)

  datatype Failure =
    | NoRoles | SeveralMemberships | NotSaved | NullList | MissingKey | Duplicate | NoDefault | SeveralDefaults

  const CHOICE_KINDS: seq<Kind> :=
    [EpicStatuses, UsStatuses, UsDuedates, Points, TaskStatuses, TaskDuedates, IssueStatuses, IssueTypes,
     IssueDuedates, Priorities, Severities, Roles]
  const DEFAULT_KINDS: seq<Kind> :=
    [EpicStatuses, UsStatuses, Points, TaskStatuses, IssueStatuses, IssueTypes, Priorities, Severities]
  const ATTRIBUTE_KINDS: seq<Kind> := [EpicAttributes, UsAttributes, TaskAttributes, IssueAttributes]

  predicate IsAttribute(kind: Kind) {
    kind.EpicAttributes? || kind.UsAttributes? || kind.TaskAttributes? || kind.IssueAttributes?
  }

  /** The columns of each model, ids, project links, status slugs and timestamps aside. */
  function ModelColumns(kind: Kind): set<Column> {
    match kind
    case EpicStatuses => {Name, Order, IsClosed, Color}
    case UsStatuses => {Name, Order, IsClosed, IsArchived, Color, WipLimit}
    case TaskStatuses => {Name, Order, IsClosed, Color}
    case IssueStatuses => {Name, Order, IsClosed, Color}
    case UsDuedates => {Name, Order, ByDefault, Color, DaysToDue}
    case TaskDuedates => {Name, Order, ByDefault, Color, DaysToDue}
    case IssueDuedates => {Name, Order, ByDefault, Color, DaysToDue}
    case Points => {Name, Order, PointValue}
    case IssueTypes => {Name, Order, Color}
    case Priorities => {Name, Order, Color}
    case Severities => {Name, Order, Color}
    case Roles => {Name, Slug, Permissions, Order, Computable}
    case _ => {Name, Description, AttributeType, Order, Extra}
  }

  /** The keys each loop of load_data_from_project writes. */
  function LoadKeys(kind: Kind): set<Column> {
    match kind
    case EpicStatuses => {Name, IsClosed, Color, Order}
    case UsStatuses => {Name, IsClosed, IsArchived, Color, WipLimit, Order}
    case UsDuedates => {Name, ByDefault, Color, DaysToDue, Order}
    case Points => {Name, PointValue, Order}
    case TaskStatuses => {Name, IsClosed, Color, Order}
    case TaskDuedates => {Name, ByDefault, Color, DaysToDue, Order}
    case IssueStatuses => {Name, IsClosed, Color, Order}
    case IssueTypes => {Name, Color, Order}
    case IssueDuedates => {Name, ByDefault, Color, DaysToDue, Order}
    case Priorities => {Name, Color, Order}
    case Severities => {Name, Color, Order}
    case Roles => {Name, Slug, Permissions, Order, Computable}
    case EpicAttributes => {Name, Description, AttributeType, Order}
    case UsAttributes => {Name, Description, AttributeType, Order}
    case TaskAttributes => {Name, Description, AttributeType, Order}
    case IssueAttributes => {Name, Description, AttributeType, Order}
  }

  /** The keys each loop of apply_to_project reads. */
  function CreateKeys(kind: Kind): set<Column> {
    match kind
    case EpicStatuses => {Name, IsClosed, Color, Order}
    case UsStatuses => {Name, IsClosed, IsArchived, Color, WipLimit, Order}
    case UsDuedates => {Name, ByDefault, Color, DaysToDue, Order}
    case Points => {Name, PointValue, Order}
    case TaskStatuses => {Name, IsClosed, Color, Order}
    case TaskDuedates => {Name, ByDefault, Color, DaysToDue, Order}
    case IssueStatuses => {Name, IsClosed, Color, Order}
    case IssueTypes => {Name, Color, Order}
    case IssueDuedates => {Name, ByDefault, Color, DaysToDue, Order}
    case Priorities => {Name, Color, Order}
    case Severities => {Name, Color, Order}
    case Roles => {Name, Slug, Order, Computable, Permissions}
    case EpicAttributes => {Name, Description, AttributeType, Order}
    case UsAttributes => {Name, Description, AttributeType, Order}
    case TaskAttributes => {Name, Description, AttributeType, Order}
    case IssueAttributes => {Name, Description, AttributeType, Order}
  }

  /** The column unique within a project, which also breaks ties of the queryset order. */
  function KeyColumn(kind: Kind): Column {
    if kind.Roles? then Slug else Name
  }

  // ---------- querysets in their model's ordering ----------

  predicate TextLe(a: string, b: string) {
    a == "" || (b != "" && (a[0] < b[0] || (a[0] == b[0] && TextLe(a[1..], b[1..]))))
  }

  function OrderOf(c: Columns): int {
    if Order in c && c[Order].Num? then c[Order].num else 0
  }

  function KeyOf(kind: Kind, c: Columns): string {
    if KeyColumn(kind) in c && c[KeyColumn(kind)].Text? then c[KeyColumn(kind)].text else ""
  }

  predicate Le(kind: Kind, a: Row, b: Row) {
    OrderOf(a.columns) < OrderOf(b.columns)
    || (OrderOf(a.columns) == OrderOf(b.columns) && TextLe(KeyOf(kind, a.columns), KeyOf(kind, b.columns)))
  }

  function Insert(kind: Kind, row: Row, rows: seq<Row>): seq<Row> {
    if rows == [] || Le(kind, row, rows[0]) then [row] + rows
    else [rows[0]] + Insert(kind, row, rows[1..])
  }

  /** `project.<collection>.all()`. */
  function All(kind: Kind, rows: seq<Row>): seq<Row> {
    if rows == [] then [] else Insert(kind, rows[0], All(kind, rows[1..]))
  }

  // ---------- saving into a template ----------

  function Pick(c: Columns, keys: set<Column>): Columns {
    map column | column in keys && column in c :: c[column]
  }

  function Entries(kind: Kind, rows: seq<Row>): seq<Columns> {
    if rows == [] then []
    else Entries(kind, rows[..|rows| - 1]) + [Pick(rows[|rows| - 1].columns, LoadKeys(kind))]
  }

  function FindId(rows: seq<Row>, id: nat): Option<Row> {
    if rows == [] then None else if rows[0].id == id then Some(rows[0]) else FindId(rows[1..], id)
  }

  function TableOf(p: Project, kind: Kind): Table {
    if kind in p.tables then p.tables[kind] else Table([], 0)
  }

  /** The name of the default row, null when no default is set. */
  function DefaultName(p: Project, kind: Kind): Value {
    if kind !in p.defaults then Null
    else
      match FindId(TableOf(p, kind).rows, p.defaults[kind])
      case None => Null
      case Some(row) => if Name in row.columns then row.columns[Name] else Null
  }

  /** The role of the owner's membership, else the first role. */
  function OwnerRole(p: Project): Result<string, Failure> {
    if |p.ownerRoles| == 1 then Ok(p.ownerRoles[0])
    else if |p.ownerRoles| > 1 then Err(SeveralMemberships)
    else if TableOf(p, Roles).rows == [] then Err(NoRoles)
    else Ok(KeyOf(Roles, All(Roles, TableOf(p, Roles).rows)[0].columns))
  }

  function DefaultNames(p: Project): map<Kind, Value> {
    map kind: Kind | true :: DefaultName(p, kind)
  }

  function Lists(p: Project): map<Kind, seq<Columns>> {
    map kind: Kind | true :: Entries(kind, All(kind, TableOf(p, kind).rows))
  }

  /** The template with the given id, loaded from the project. */
  function Load(p: Project, id: nat): Result<Template, Failure> {
    match OwnerRole(p)
    case Err(e) => Err(e)
    case Ok(role) => Ok(Template(id, p.modules, DefaultNames(p), Lists(p), role, p.profile))
  }

  // ---------- applying a template ----------

  /** Columns that are not given take the model's default. */
  function NewColumns(kind: Kind, entry: Columns): Columns
    requires CreateKeys(kind) <= entry.Keys
  {
    map column | column in ModelColumns(kind) :: if column in CreateKeys(kind) then entry[column] else Null
  }

  predicate Clashes(kind: Kind, rows: seq<Row>, columns: Columns) {
    exists i | 0 <= i < |rows| :: KeyOf(kind, rows[i].columns) == KeyOf(kind, columns)
  }

  function Create(kind: Kind, table: Table, entry: Columns): Result<Table, Failure> {
    if !(CreateKeys(kind) <= entry.Keys) then Err(MissingKey)
    else if Clashes(kind, table.rows, NewColumns(kind, entry)) then Err(Duplicate)
    else Ok(Table(table.rows + [Row(table.nextId, NewColumns(kind, entry))], table.nextId + 1))
  }

  function CreateList(kind: Kind, table: Table, entries: seq<Columns>): Result<Table, Failure> {
    if entries == [] then Ok(table)
    else
      match CreateList(kind, table, entries[..|entries| - 1])
      case Err(e) => Err(e)
      case Ok(before) => Create(kind, before, entries[|entries| - 1])
  }

  /** One creation loop: a null list cannot be iterated. */
  function ApplyKind(p: Project, t: Template, kind: Kind): Result<Project, Failure> {
    if kind !in t.lists then Err(NullList)
    else
      match CreateList(kind, TableOf(p, kind), t.lists[kind])
      case Err(e) => Err(e)
      case Ok(table) => Ok(p.(tables := p.tables[kind := table]))
  }

  function ApplyKinds(p: Project, t: Template, kinds: seq<Kind>): Result<Project, Failure> {
    if kinds == [] then Ok(p)
    else
      match ApplyKinds(p, t, kinds[..|kinds| - 1])
      case Err(e) => Err(e)
      case Ok(before) => ApplyKind(before, t, kinds[|kinds| - 1])
  }

  /** The rows of a name; a null name equals none. */
  function Named(rows: seq<Row>, name: Value): seq<Row> {
    if rows == [] then []
    else
      (if name.Text? && Name in rows[0].columns && rows[0].columns[Name] == name then [rows[0]] else [])
      + Named(rows[1..], name)
  }

  /** The default of one kind is looked up by name when the template has entries of the kind. */
  function ApplyDefault(p: Project, t: Template, kind: Kind): Result<Project, Failure> {
    if kind !in t.lists || t.lists[kind] == [] then Ok(p)
    else if kind !in t.defaultNames then Err(MissingKey)
    else
      var found := Named(TableOf(p, kind).rows, t.defaultNames[kind]);
      if |found| == 0 then Err(NoDefault)
      else if |found| > 1 then Err(SeveralDefaults)
      else Ok(p.(defaults := p.defaults[kind := found[0].id]))
  }

  function ApplyDefaults(p: Project, t: Template, kinds: seq<Kind>): Result<Project, Failure> {
    if kinds == [] then Ok(p)
    else
      match ApplyDefaults(p, t, kinds[..|kinds| - 1])
      case Err(e) => Err(e)
      case Ok(before) => ApplyDefault(before, t, kinds[|kinds| - 1])
  }

  /** The fields assigned before any row is made. */
  function Started(p: Project, t: Template): Project {
    p.(creationTemplate := Some(t.id), modules := t.modules)
  }

  function Apply(p: Project, t: Template): Result<Project, Failure> {
    if !p.saved then Err(NotSaved)
    else
      match ApplyKinds(Started(p, t), t, CHOICE_KINDS)
      case Err(e) => Err(e)
      case Ok(chosen) =>
        match ApplyDefaults(chosen, t, DEFAULT_KINDS)
        case Err(e) => Err(e)
        case Ok(defaulted) =>
          match ApplyKinds(defaulted, t, ATTRIBUTE_KINDS)
          case Err(e) => Err(e)
          case Ok(full) => Ok(full.(profile := t.profile))
  }

  /** What the loading loops over the given kinds make of the template's lists. */
  function LoadedLists(p: Project, lists: map<Kind, seq<Columns>>, kinds: seq<Kind>): map<Kind, seq<Columns>> {
    if kinds == [] then lists
    else
      var kind := kinds[|kinds| - 1];
      LoadedLists(p, lists, kinds[..|kinds| - 1])[kind := Entries(kind, All(kind, TableOf(p, kind).rows))]
  }

  lemma {:induction false} LoadedKeys(p: Project, lists: map<Kind, seq<Columns>>, kinds: seq<Kind>, kind: Kind)
    ensures kind in kinds ==>
      kind in LoadedLists(p, lists, kinds)
      && LoadedLists(p, lists, kinds)[kind] == Entries(kind, All(kind, TableOf(p, kind).rows))
    ensures kind !in kinds ==>
      (kind in LoadedLists(p, lists, kinds) <==> kind in lists)
      && (kind in lists ==> LoadedLists(p, lists, kinds)[kind] == lists[kind])
  {
    if kinds != [] {
      LoadedKeys(p, lists, kinds[..|kinds| - 1], kind);
      assert kinds == kinds[..|kinds| - 1] + [kinds[|kinds| - 1]];
    }
  }

  lemma {:induction false} ChoicesListed(kind: Kind)
    ensures !IsAttribute(kind) ==> kind in CHOICE_KINDS
  {
    match kind
    case EpicStatuses => assert CHOICE_KINDS[0] == kind;
    case UsStatuses => assert CHOICE_KINDS[1] == kind;
    case UsDuedates => assert CHOICE_KINDS[2] == kind;
    case Points => assert CHOICE_KINDS[3] == kind;
    case TaskStatuses => assert CHOICE_KINDS[4] == kind;
    case TaskDuedates => assert CHOICE_KINDS[5] == kind;
    case IssueStatuses => assert CHOICE_KINDS[6] == kind;
    case IssueTypes => assert CHOICE_KINDS[7] == kind;
    case IssueDuedates => assert CHOICE_KINDS[8] == kind;
    case Priorities => assert CHOICE_KINDS[9] == kind;
    case Severities => assert CHOICE_KINDS[10] == kind;
    case Roles => assert CHOICE_KINDS[11] == kind;
    case _ =>
  }

  lemma AttributesListed(kind: Kind)
    ensures IsAttribute(kind) <==> kind in ATTRIBUTE_KINDS
    ensures IsAttribute(kind) ==> kind !in CHOICE_KINDS
  {
    assert ATTRIBUTE_KINDS[0] == EpicAttributes && ATTRIBUTE_KINDS[1] == UsAttributes;
    assert ATTRIBUTE_KINDS[2] == TaskAttributes && ATTRIBUTE_KINDS[3] == IssueAttributes;
    assert forall i | 0 <= i < |CHOICE_KINDS| :: !IsAttribute(CHOICE_KINDS[i]);
  }

  lemma LoadedEverything(p: Project)
    ensures LoadedLists(p, LoadedLists(p, map[], CHOICE_KINDS), ATTRIBUTE_KINDS)
         == Lists(p)
  {
    var chosen := LoadedLists(p, map[], CHOICE_KINDS);
    forall kind: Kind
      ensures kind in LoadedLists(p, chosen, ATTRIBUTE_KINDS)
      ensures LoadedLists(p, chosen, ATTRIBUTE_KINDS)[kind] == Entries(kind, All(kind, TableOf(p, kind).rows))
    {
      ChoicesListed(kind);
      AttributesListed(kind);
      LoadedKeys(p, map[], CHOICE_KINDS, kind);
      LoadedKeys(p, chosen, ATTRIBUTE_KINDS, kind);
    }
  }

  lemma {:induction false} EntriesAt(kind: Kind, rows: seq<Row>)
    ensures |Entries(kind, rows)| == |rows|
    ensures forall i | 0 <= i < |rows| :: Entries(kind, rows)[i] == Pick(rows[i].columns, LoadKeys(kind))
  {
    if rows != [] {
      EntriesAt(kind, rows[..|rows| - 1]);
    }
  }

  lemma {:induction false} InsertKeepsRows(kind: Kind, row: Row, rows: seq<Row>)
    ensures multiset(Insert(kind, row, rows)) == multiset{row} + multiset(rows)
    ensures |Insert(kind, row, rows)| == |rows| + 1
  {
    if rows != [] && !Le(kind, row, rows[0]) {
      InsertKeepsRows(kind, row, rows[1..]);
      assert rows == [rows[0]] + rows[1..];
    }
  }

  /** A queryset holds exactly the table's rows. */
  lemma {:induction false} AllKeepsRows(kind: Kind, rows: seq<Row>)
    ensures multiset(All(kind, rows)) == multiset(rows)
    ensures |All(kind, rows)| == |rows|
  {
    if rows != [] {
      AllKeepsRows(kind, rows[1..]);
      InsertKeepsRows(kind, rows[0], All(kind, rows[1..]));
      assert rows == [rows[0]] + rows[1..];
    }
  }

  lemma FirstRole(p: Project)
    ensures Lists(p)[Roles] == [] <==> TableOf(p, Roles).rows == []
    ensures TableOf(p, Roles).rows != [] ==>
      |All(Roles, TableOf(p, Roles).rows)| > 0
      && KeyOf(Roles, Lists(p)[Roles][0]) == KeyOf(Roles, All(Roles, TableOf(p, Roles).rows)[0].columns)
  {
    var rows := TableOf(p, Roles).rows;
    EntriesAt(Roles, All(Roles, rows));
    AllKeepsRows(Roles, rows);
    assert Slug in LoadKeys(Roles) && KeyColumn(Roles) == Slug;
  }

  class TemplateRecord {
    const id: nat
    var modules: Modules
    var defaultNames: map<Kind, Value>
    var lists: map<Kind, seq<Columns>>
    var ownerRole: string
    var profile: Profile

    function Snapshot(): Template
      reads this
    {
      Template(id, modules, defaultNames, lists, ownerRole, profile)
    }

    constructor (t: Template)
      ensures Snapshot() == t
    {
      id, modules, defaultNames, lists := t.id, t.modules, t.defaultNames, t.lists;
      ownerRole, profile := t.ownerRole, t.profile;
    }

    /** One loop over a queryset, appending an entry per row. */
    method LoadList(p: Project, kind: Kind)
      modifies this`lists
      ensures lists == old(lists)[kind := Entries(kind, All(kind, TableOf(p, kind).rows))]
    {
      var rows := All(kind, TableOf(p, kind).rows);
      lists := lists[kind := []];
      for i := 0 to |rows|
        invariant lists == old(lists)[kind := Entries(kind, rows[..i])]
      {
        assert rows[..i + 1][..i] == rows[..i];
        lists := lists[kind := lists[kind] + [Pick(rows[i].columns, LoadKeys(kind))]];
      }
      assert rows[..|rows|] == rows;
    }

    method LoadLists(p: Project, kinds: seq<Kind>)
      modifies this`lists
      ensures lists == LoadedLists(p, old(lists), kinds)
    {
      for i := 0 to |kinds|
        invariant lists == LoadedLists(p, old(lists), kinds[..i])
      {
        assert kinds[..i + 1][..i] == kinds[..i];
        LoadList(p, kinds[i]);
      }
      assert kinds[..|kinds|] == kinds;
    }

    /** The role of the owner's membership, else of the first entry of the role list. */
    method LoadOwnerRole(p: Project) returns (failure: Option<Failure>)
      requires lists == Lists(p)
      modifies this`ownerRole
      ensures match OwnerRole(p)
              case Ok(role) => failure == None && ownerRole == role
              case Err(e) => failure == Some(e) && ownerRole == old(ownerRole)
    {
      failure := None;
      if |p.ownerRoles| == 1 {
        ownerRole := p.ownerRoles[0];
      } else if |p.ownerRoles| > 1 {
        failure := Some(SeveralMemberships);
      } else {
        FirstRole(p);
        if lists[Roles] == [] {
          failure := Some(NoRoles);
        } else {
          ownerRole := KeyOf(Roles, lists[Roles][0]);
        }
      }
    }

    /** When the owner's role is not found, what comes before it has been loaded. */
    method LoadDataFromProject(p: Project) returns (failure: Option<Failure>)
      modifies this
      ensures failure == match Load(p, id) case Ok(_) => None case Err(e) => Some(e)
      ensures failure == None ==> Load(p, id) == Ok(Snapshot())
      ensures modules == p.modules && defaultNames == DefaultNames(p) && lists == Lists(p)
      ensures failure != None ==> ownerRole == old(ownerRole) && profile == old(profile)
    {
      modules := p.modules;
      defaultNames := DefaultNames(p);
      lists := map[];
      LoadLists(p, CHOICE_KINDS);
      LoadLists(p, ATTRIBUTE_KINDS);
      LoadedEverything(p);
      failure := LoadOwnerRole(p);
      if failure != None {
        return;
      }
      profile := p.profile;
    }
  }

  lemma {:induction false} CreateListStops(kind: Kind, table: Table, entries: seq<Columns>, n: nat)
    requires n <= |entries| && CreateList(kind, table, entries[..n]).Err?
    ensures CreateList(kind, table, entries) == CreateList(kind, table, entries[..n])
  {
    if n == |entries| {
      assert entries[..n] == entries;
    } else {
      assert entries[..|entries| - 1][..n] == entries[..n];
      CreateListStops(kind, table, entries[..|entries| - 1], n);
    }
  }

  lemma CreateListNext(kind: Kind, start: Table, entries: seq<Columns>, i: nat, table: Table)
    requires i < |entries| && CreateList(kind, start, entries[..i]) == Ok(table)
    ensures CreateList(kind, start, entries[..i + 1]) == Create(kind, table, entries[i])
  {
    assert entries[..i + 1][..i] == entries[..i];
  }

  lemma {:induction false} ApplyKindsStops(p: Project, t: Template, kinds: seq<Kind>, n: nat)
    requires n <= |kinds| && ApplyKinds(p, t, kinds[..n]).Err?
    ensures ApplyKinds(p, t, kinds) == ApplyKinds(p, t, kinds[..n])
  {
    if n == |kinds| {
      assert kinds[..n] == kinds;
    } else {
      assert kinds[..|kinds| - 1][..n] == kinds[..n];
      ApplyKindsStops(p, t, kinds[..|kinds| - 1], n);
    }
  }

  lemma {:induction false} ApplyDefaultsStops(p: Project, t: Template, kinds: seq<Kind>, n: nat)
    requires n <= |kinds| && ApplyDefaults(p, t, kinds[..n]).Err?
    ensures ApplyDefaults(p, t, kinds) == ApplyDefaults(p, t, kinds[..n])
  {
    if n == |kinds| {
      assert kinds[..n] == kinds;
    } else {
      assert kinds[..|kinds| - 1][..n] == kinds[..n];
      ApplyDefaultsStops(p, t, kinds[..|kinds| - 1], n);
    }
  }

  /** One creation loop over the entries of a list. */
  method CreateEntries(kind: Kind, table: Table, entries: seq<Columns>) returns (created: Result<Table, Failure>)
    ensures created == CreateList(kind, table, entries)
  {
    var rows := table;
    for i := 0 to |entries|
      invariant CreateList(kind, table, entries[..i]) == Ok(rows)
    {
      CreateListNext(kind, table, entries, i, rows);
      created := Create(kind, rows, entries[i]);
      if created.Err? {
        CreateListStops(kind, table, entries, i + 1);
        return;
      }
      rows := created.value;
    }
    assert entries[..|entries|] == entries;
    created := Ok(rows);
  }

  class ProjectRecord {
    const saved: bool
    var creationTemplate: Option<nat>
    var modules: Modules
    var tables: map<Kind, Table>
    var defaults: map<Kind, nat>
    var profile: Profile
    const ownerRoles: seq<string>

    function Snapshot(): Project
      reads this
    {
      Project(saved, creationTemplate, modules, tables, defaults, profile, ownerRoles)
    }

    constructor (p: Project)
      ensures Snapshot() == p
    {
      saved, creationTemplate, modules, tables := p.saved, p.creationTemplate, p.modules, p.tables;
      defaults, profile, ownerRoles := p.defaults, p.profile, p.ownerRoles;
    }

    method CreateAll(t: Template, kind: Kind) returns (failure: Option<Failure>)
      modifies this`tables
      ensures failure == match ApplyKind(old(Snapshot()), t, kind) case Ok(_) => None case Err(e) => Some(e)
      ensures failure == None ==> ApplyKind(old(Snapshot()), t, kind) == Ok(Snapshot())
    {
      if kind !in t.lists {
        return Some(NullList);
      }
      var created := CreateEntries(kind, TableOf(Snapshot(), kind), t.lists[kind]);
      if created.Err? {
        return Some(created.error);
      }
      tables := tables[kind := created.value];
      failure := None;
    }

    method CreateKinds(t: Template, kinds: seq<Kind>) returns (failure: Option<Failure>)
      modifies this`tables
      ensures failure == match ApplyKinds(old(Snapshot()), t, kinds) case Ok(_) => None case Err(e) => Some(e)
      ensures failure == None ==> ApplyKinds(old(Snapshot()), t, kinds) == Ok(Snapshot())
    {
      ghost var start := Snapshot();
      for i := 0 to |kinds|
        invariant ApplyKinds(start, t, kinds[..i]) == Ok(Snapshot())
      {
        assert kinds[..i + 1][..i] == kinds[..i];
        failure := CreateAll(t, kinds[i]);
        if failure != None {
          ApplyKindsStops(start, t, kinds, i + 1);
          return;
        }
      }
      assert kinds[..|kinds|] == kinds;
      failure := None;
    }

    method SetDefaults(t: Template, kinds: seq<Kind>) returns (failure: Option<Failure>)
      modifies this`defaults
      ensures failure == match ApplyDefaults(old(Snapshot()), t, kinds) case Ok(_) => None case Err(e) => Some(e)
      ensures failure == None ==> ApplyDefaults(old(Snapshot()), t, kinds) == Ok(Snapshot())
    {
      ghost var start := Snapshot();
      for i := 0 to |kinds|
        invariant ApplyDefaults(start, t, kinds[..i]) == Ok(Snapshot())
      {
        assert kinds[..i + 1][..i] == kinds[..i];
        var answer := ApplyDefault(Snapshot(), t, kinds[i]);
        if answer.Err? {
          ApplyDefaultsStops(start, t, kinds, i + 1);
          return Some(answer.error);
        }
        defaults := answer.value.defaults;
      }
      assert kinds[..|kinds|] == kinds;
      failure := None;
    }

    /** On a saved project the first fields are assigned even when a later step raises, the last
        ones only when none does. */
    method ApplyTemplate(t: Template) returns (failure: Option<Failure>)
      modifies this
      ensures failure == match Apply(old(Snapshot()), t) case Ok(_) => None case Err(e) => Some(e)
      ensures failure == None ==> Apply(old(Snapshot()), t) == Ok(Snapshot())
      ensures if saved then creationTemplate == Some(t.id) && modules == t.modules else Snapshot() == old(Snapshot())
      ensures failure != None ==> profile == old(profile)
    {
      if !saved {
        return Some(NotSaved);
      }
      creationTemplate := Some(t.id);
      modules := t.modules;
      failure := CreateKinds(t, CHOICE_KINDS);
      if failure != None {
        return;
      }
      failure := SetDefaults(t, DEFAULT_KINDS);
      if failure != None {
        return;
      }
      failure := CreateKinds(t, ATTRIBUTE_KINDS);
      if failure != None {
        return;
      }
      profile := t.profile;
    }
  }
}
