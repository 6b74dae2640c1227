/** Saving a project into a template and applying the template to an empty project. */
module TemplateRoundTrip {
  import opened Common
  import opened Templates

  // ---------- the queryset order ----------

  lemma {:induction false} TextTotal(a: string, b: string)
    ensures TextLe(a, b) || TextLe(b, a)
    ensures TextLe(a, a)
    decreases |a|
  {
    if a != "" {
      TextTotal(a[1..], if b != "" then b[1..] else b);
    }
  }

  lemma {:induction false} TextTransitive(a: string, b: string, c: string)
    requires TextLe(a, b) && TextLe(b, c)
    ensures TextLe(a, c)
    decreases |a|
  {
    if a != "" && a[0] == b[0] && b[0] == c[0] {
      TextTransitive(a[1..], b[1..], c[1..]);
    }
  }

  lemma LeTotal(kind: Kind, a: Row, b: Row)
    ensures Le(kind, a, b) || Le(kind, b, a)
  {
    TextTotal(KeyOf(kind, a.columns), KeyOf(kind, b.columns));
  }

  lemma LeTransitive(kind: Kind, a: Row, b: Row, c: Row)
    requires Le(kind, a, b) && Le(kind, b, c)
    ensures Le(kind, a, c)
  {
    if OrderOf(a.columns) == OrderOf(c.columns) {
      TextTransitive(KeyOf(kind, a.columns), KeyOf(kind, b.columns), KeyOf(kind, c.columns));
    }
  }

  ghost predicate Above(kind: Kind, row: Row, rows: seq<Row>) {
    forall i | 0 <= i < |rows| :: Le(kind, row, rows[i])
  }

  ghost predicate Sorted(kind: Kind, rows: seq<Row>) {
    rows == [] || (Above(kind, rows[0], rows[1..]) && Sorted(kind, rows[1..]))
  }

  lemma {:induction false} InsertAbove(kind: Kind, least: Row, row: Row, rows: seq<Row>)
    requires Le(kind, least, row) && Above(kind, least, rows)
    ensures Above(kind, least, Insert(kind, row, rows))
  {
    if rows != [] && !Le(kind, row, rows[0]) {
      InsertAbove(kind, least, row, rows[1..]);
    }
  }

  lemma {:induction false} InsertSorted(kind: Kind, row: Row, rows: seq<Row>)
    requires Sorted(kind, rows)
    ensures Sorted(kind, Insert(kind, row, rows))
  {
    if rows == [] {
    } else if Le(kind, row, rows[0]) {
      forall i | 0 <= i < |rows| ensures Le(kind, row, rows[i]) {
        if i > 0 {
          assert rows[i] == rows[1..][i - 1];
          LeTransitive(kind, row, rows[0], rows[i]);
        }
      }
      assert ([row] + rows)[1..] == rows;
    } else {
      LeTotal(kind, row, rows[0]);
      InsertSorted(kind, row, rows[1..]);
      InsertAbove(kind, rows[0], row, rows[1..]);
      assert ([rows[0]] + Insert(kind, row, rows[1..]))[1..] == Insert(kind, row, rows[1..]);
    }
  }

  lemma {:induction false} AllSorted(kind: Kind, rows: seq<Row>)
    ensures Sorted(kind, All(kind, rows))
  {
    if rows != [] {
      AllSorted(kind, rows[1..]);
      InsertSorted(kind, rows[0], All(kind, rows[1..]));
    }
  }

  /** Rows created in queryset order are read back in the order of creation. */
  lemma {:induction false} AllOfSorted(kind: Kind, rows: seq<Row>)
    requires Sorted(kind, rows)
    ensures All(kind, rows) == rows
  {
    if rows != [] {
      AllOfSorted(kind, rows[1..]);
      assert rows == [rows[0]] + rows[1..];
      if |rows| > 1 {
        assert Le(kind, rows[0], rows[1..][0]);
      }
    }
  }

  // ---------- what the tables guarantee ----------

  ghost predicate NoKey(kind: Kind, rows: seq<Row>, key: string) {
    forall i | 0 <= i < |rows| :: KeyOf(kind, rows[i].columns) != key
  }

  ghost predicate DistinctKeys(kind: Kind, rows: seq<Row>) {
    rows == [] || (NoKey(kind, rows[1..], KeyOf(kind, rows[0].columns)) && DistinctKeys(kind, rows[1..]))
  }

  ghost predicate Shaped(kind: Kind, row: Row) {
    && row.columns.Keys == ModelColumns(kind)
    && Name in row.columns && row.columns[Name].Text?
  }

  ghost predicate Shapes(kind: Kind, rows: seq<Row>) {
    rows == [] || (Shaped(kind, rows[0]) && Shapes(kind, rows[1..]))
  }

  /** The table holds every column of every row, its key column is unique, and a default that is
      set is a row of the table (foreign key). */
  ghost predicate WellFormed(p: Project, kind: Kind) {
    && Shapes(kind, TableOf(p, kind).rows)
    && DistinctKeys(kind, TableOf(p, kind).rows)
    && (kind in p.defaults ==> FindId(TableOf(p, kind).rows, p.defaults[kind]).Some?)
  }

  lemma {:induction false} InsertNoKey(kind: Kind, row: Row, rows: seq<Row>, key: string)
    requires KeyOf(kind, row.columns) != key && NoKey(kind, rows, key)
    ensures NoKey(kind, Insert(kind, row, rows), key)
  {
    if rows != [] && !Le(kind, row, rows[0]) {
      InsertNoKey(kind, row, rows[1..], key);
    }
  }

  lemma {:induction false} InsertDistinct(kind: Kind, row: Row, rows: seq<Row>)
    requires DistinctKeys(kind, rows) && NoKey(kind, rows, KeyOf(kind, row.columns))
    ensures DistinctKeys(kind, Insert(kind, row, rows))
  {
    if rows == [] || Le(kind, row, rows[0]) {
      assert ([row] + rows)[1..] == rows;
    } else {
      InsertDistinct(kind, row, rows[1..]);
      InsertNoKey(kind, row, rows[1..], KeyOf(kind, rows[0].columns));
      assert ([rows[0]] + Insert(kind, row, rows[1..]))[1..] == Insert(kind, row, rows[1..]);
    }
  }

  lemma {:induction false} AllNoKey(kind: Kind, rows: seq<Row>, key: string)
    requires NoKey(kind, rows, key)
    ensures NoKey(kind, All(kind, rows), key)
  {
    if rows != [] {
      AllNoKey(kind, rows[1..], key);
      InsertNoKey(kind, rows[0], All(kind, rows[1..]), key);
    }
  }

  lemma {:induction false} AllDistinct(kind: Kind, rows: seq<Row>)
    requires DistinctKeys(kind, rows)
    ensures DistinctKeys(kind, All(kind, rows))
  {
    if rows != [] {
      AllDistinct(kind, rows[1..]);
      AllNoKey(kind, rows[1..], KeyOf(kind, rows[0].columns));
      InsertDistinct(kind, rows[0], All(kind, rows[1..]));
    }
  }

  lemma {:induction false} DistinctAt(kind: Kind, rows: seq<Row>, i: nat, j: nat)
    requires DistinctKeys(kind, rows) && i < j < |rows|
    ensures KeyOf(kind, rows[i].columns) != KeyOf(kind, rows[j].columns)
  {
    if i == 0 {
      assert rows[j] == rows[1..][j - 1];
    } else {
      DistinctAt(kind, rows[1..], i - 1, j - 1);
    }
  }

  lemma {:induction false} ShapeAt(kind: Kind, rows: seq<Row>, i: nat)
    requires Shapes(kind, rows) && i < |rows|
    ensures Shaped(kind, rows[i])
  {
    if i > 0 {
      ShapeAt(kind, rows[1..], i - 1);
    }
  }

  lemma {:induction false} InsertShapes(kind: Kind, row: Row, rows: seq<Row>)
    requires Shaped(kind, row) && Shapes(kind, rows)
    ensures Shapes(kind, Insert(kind, row, rows))
  {
    if rows == [] || Le(kind, row, rows[0]) {
      assert ([row] + rows)[1..] == rows;
    } else {
      InsertShapes(kind, row, rows[1..]);
      assert ([rows[0]] + Insert(kind, row, rows[1..]))[1..] == Insert(kind, row, rows[1..]);
    }
  }

  lemma {:induction false} AllShapes(kind: Kind, rows: seq<Row>)
    requires Shapes(kind, rows)
    ensures Shapes(kind, All(kind, rows))
  {
    if rows != [] {
      AllShapes(kind, rows[1..]);
      InsertShapes(kind, rows[0], All(kind, rows[1..]));
    }
  }

  // ---------- one collection ----------

  /** The keys the template saves are the keys it reads back, and all the columns but the extra
      data of custom attributes. */
  lemma KeysAgree(kind: Kind)
    ensures CreateKeys(kind) == LoadKeys(kind)
    ensures ModelColumns(kind) == LoadKeys(kind) + if IsAttribute(kind) then {Extra} else {}
    ensures KeyColumn(kind) in LoadKeys(kind) && Name in LoadKeys(kind) && Order in LoadKeys(kind)
    ensures Extra !in LoadKeys(kind)
  {
    match kind
    case EpicStatuses =>
    case UsStatuses =>
    case UsDuedates =>
    case Points =>
    case TaskStatuses =>
    case TaskDuedates =>
    case IssueStatuses =>
    case IssueTypes =>
    case IssueDuedates =>
    case Priorities =>
    case Severities =>
    case Roles =>
    case EpicAttributes =>
    case UsAttributes =>
    case TaskAttributes =>
    case IssueAttributes =>
  }

  /** One creation: an entry without a key that is read fails, so does one whose unique column the
      table has already; else the row is added under the next id, with the entry's values and null
      for the rest. */
  lemma CreateAnswers(kind: Kind, table: Table, entry: Columns, column: Column)
    ensures var answer := Create(kind, table, entry);
            var present := forall c | c in LoadKeys(kind) :: c in entry;
            var clash := exists row | row in table.rows :: KeyOf(kind, row.columns) == KeyOf(kind, entry);
            && (!present ==> answer == Err(MissingKey))
            && (present && clash ==> answer == Err(Duplicate))
            && (present && !clash ==>
                  && answer.Ok? && answer.value.nextId == table.nextId + 1
                  && |answer.value.rows| == |table.rows| + 1 && answer.value.rows[..|table.rows|] == table.rows
                  && var row := answer.value.rows[|table.rows|];
                  && row.id == table.nextId && row.columns.Keys == ModelColumns(kind)
                  && (column in row.columns ==>
                        row.columns[column] == if column in LoadKeys(kind) then entry[column] else Null))
  {
    KeysAgree(kind);
    if forall c | c in LoadKeys(kind) :: c in entry {
      assert KeyOf(kind, NewColumns(kind, entry)) == KeyOf(kind, entry);
      ClashesIff(kind, table.rows, NewColumns(kind, entry));
    } else {
      assert !(CreateKeys(kind) <= entry.Keys);
    }
  }

  lemma ClashesIff(kind: Kind, rows: seq<Row>, columns: Columns)
    ensures Clashes(kind, rows, columns) <==> exists row | row in rows :: KeyOf(kind, row.columns) == KeyOf(kind, columns)
  {
    if Clashes(kind, rows, columns) {
      var i :| 0 <= i < |rows| && KeyOf(kind, rows[i].columns) == KeyOf(kind, columns);
      assert rows[i] in rows;
    }
  }

  /** One lookup of a default, for any project and template: nothing to do without entries, an error
      without an option, without a row of that name or with several, else the row of that name. */
  lemma DefaultAnswers(p: Project, t: Template, kind: Kind)
    requires kind in t.lists
    ensures t.lists[kind] == [] ==> ApplyDefault(p, t, kind) == Ok(p)
    ensures t.lists[kind] != [] && kind !in t.defaultNames ==> ApplyDefault(p, t, kind) == Err(MissingKey)
    ensures t.lists[kind] != [] && kind in t.defaultNames ==>
      var rows, name := TableOf(p, kind).rows, t.defaultNames[kind];
      && (ApplyDefault(p, t, kind) == Err(NoDefault) <==> forall row | row in rows :: !IsNamed(row, name))
      && (ApplyDefault(p, t, kind).Ok? ==>
            exists row | row in rows :: IsNamed(row, name)
              && ApplyDefault(p, t, kind) == Ok(p.(defaults := p.defaults[kind := row.id])))
      && (ApplyDefault(p, t, kind).Err? ==>
            ApplyDefault(p, t, kind) == Err(NoDefault) || ApplyDefault(p, t, kind) == Err(SeveralDefaults))
      && (ApplyDefault(p, t, kind) == Err(SeveralDefaults) <==> |Named(rows, name)| > 1)
  {
    if t.lists[kind] != [] && kind in t.defaultNames {
      var rows, name := TableOf(p, kind).rows, t.defaultNames[kind];
      forall row ensures row in Named(rows, name) <==> row in rows && IsNamed(row, name) {
        NamedAre(rows, name, row);
      }
      if Named(rows, name) != [] {
        assert Named(rows, name)[0] in Named(rows, name);
      }
    }
  }

  predicate IsNamed(row: Row, name: Value) {
    name.Text? && Name in row.columns && row.columns[Name] == name
  }

  lemma {:induction false} NamedAre(rows: seq<Row>, name: Value, row: Row)
    ensures row in Named(rows, name) <==> row in rows && IsNamed(row, name)
  {
    if rows != [] {
      NamedAre(rows[1..], name, row);
    }
  }

  /** Column by column, the collections whose rows are carried with it. */
  lemma ColumnsCarried(kind: Kind)
    ensures Name in LoadKeys(kind) && Order in LoadKeys(kind)
    ensures Color in LoadKeys(kind) <==> !kind.Points? && !kind.Roles? && !IsAttribute(kind)
    ensures IsClosed in LoadKeys(kind) <==>
      kind.EpicStatuses? || kind.UsStatuses? || kind.TaskStatuses? || kind.IssueStatuses?
    ensures IsArchived in LoadKeys(kind) <==> kind.UsStatuses?
    ensures WipLimit in LoadKeys(kind) <==> kind.UsStatuses?
    ensures ByDefault in LoadKeys(kind) <==> kind.UsDuedates? || kind.TaskDuedates? || kind.IssueDuedates?
    ensures DaysToDue in LoadKeys(kind) <==> kind.UsDuedates? || kind.TaskDuedates? || kind.IssueDuedates?
    ensures PointValue in LoadKeys(kind) <==> kind.Points?
    ensures Slug in LoadKeys(kind) <==> kind.Roles?
    ensures Permissions in LoadKeys(kind) <==> kind.Roles?
    ensures Computable in LoadKeys(kind) <==> kind.Roles?
    ensures Description in LoadKeys(kind) <==> IsAttribute(kind)
    ensures AttributeType in LoadKeys(kind) <==> IsAttribute(kind)
    ensures Extra !in LoadKeys(kind)
  {
  }

  /** A copied row: only a custom attribute's extra data is lost. */
  function Copied(kind: Kind, columns: Columns): Columns {
    if IsAttribute(kind) then columns[Extra := Null] else columns
  }

  lemma EntryCopies(kind: Kind, row: Row)
    requires Shaped(kind, row)
    ensures CreateKeys(kind) <= Pick(row.columns, LoadKeys(kind)).Keys
    ensures NewColumns(kind, Pick(row.columns, LoadKeys(kind))) == Copied(kind, row.columns)
    ensures KeyOf(kind, Copied(kind, row.columns)) == KeyOf(kind, row.columns)
    ensures OrderOf(Copied(kind, row.columns)) == OrderOf(row.columns)
  {
    KeysAgree(kind);
    assert Pick(row.columns, LoadKeys(kind)).Keys == LoadKeys(kind);
  }

  /** The rows of the copy: ids counted from `first`, in queryset order of the original. */
  function Copies(kind: Kind, rows: seq<Row>, first: nat): (copies: seq<Row>)
    ensures |copies| == |rows|
    ensures forall i | 0 <= i < |rows| :: copies[i] == Row(first + i, Copied(kind, rows[i].columns))
  {
    seq(|rows|, i requires 0 <= i < |rows| => Row(first + i, Copied(kind, rows[i].columns)))
  }

  lemma EntriesSnoc(kind: Kind, rows: seq<Row>, n: nat)
    requires n < |rows|
    ensures Entries(kind, rows[..n + 1]) == Entries(kind, rows[..n]) + [Pick(rows[n].columns, LoadKeys(kind))]
  {
    assert rows[..n + 1][..n] == rows[..n];
  }

  lemma CreateOneMore(kind: Kind, table: Table, entries: seq<Columns>, last: Columns, before: Table, after: Table)
    requires CreateList(kind, table, entries) == Ok(before)
    requires Create(kind, before, last) == Ok(after)
    ensures CreateList(kind, table, entries + [last]) == Ok(after)
  {
    assert (entries + [last])[..|entries|] == entries;
  }

  lemma CopiesSnoc(kind: Kind, rows: seq<Row>, first: nat, n: nat)
    requires n < |rows|
    ensures Copies(kind, rows[..n + 1], first)
         == Copies(kind, rows[..n], first) + [Row(first + n, Copied(kind, rows[n].columns))]
  {
  }

  /** What the entry saved for a row is read back as. */
  lemma EntryRead(kind: Kind, rows: seq<Row>, n: nat, entry: Columns, columns: Columns)
    requires n < |rows| && Shapes(kind, rows)
    requires entry == Pick(rows[n].columns, LoadKeys(kind)) && columns == Copied(kind, rows[n].columns)
    ensures CreateKeys(kind) <= entry.Keys && NewColumns(kind, entry) == columns
    ensures KeyOf(kind, columns) == KeyOf(kind, rows[n].columns)
  {
    ShapeAt(kind, rows, n);
    EntryCopies(kind, rows[n]);
  }

  lemma NoClash(kind: Kind, rows: seq<Row>, first: nat, n: nat, columns: Columns)
    requires n < |rows| && Shapes(kind, rows) && DistinctKeys(kind, rows)
    requires KeyOf(kind, columns) == KeyOf(kind, rows[n].columns)
    ensures !Clashes(kind, Copies(kind, rows[..n], first), columns)
  {
    forall i | 0 <= i < n
      ensures KeyOf(kind, Copies(kind, rows[..n], first)[i].columns) != KeyOf(kind, rows[n].columns)
    {
      ShapeAt(kind, rows, i);
      EntryCopies(kind, rows[i]);
      DistinctAt(kind, rows, i, n);
    }
  }

  /** The entry of a row fits the copies of the rows before it. */
  lemma EntryFits(kind: Kind, rows: seq<Row>, first: nat, n: nat, entry: Columns, columns: Columns)
    requires n < |rows| && Shapes(kind, rows) && DistinctKeys(kind, rows)
    requires entry == Pick(rows[n].columns, LoadKeys(kind)) && columns == Copied(kind, rows[n].columns)
    ensures CreateKeys(kind) <= entry.Keys && NewColumns(kind, entry) == columns
    ensures !Clashes(kind, Copies(kind, rows[..n], first), columns)
  {
    EntryRead(kind, rows, n, entry, columns);
    NoClash(kind, rows, first, n, columns);
  }

  lemma CopyStep(kind: Kind, rows: seq<Row>, first: nat, n: nat, made: Table, after: Table, entry: Columns)
    requires n < |rows| && Shapes(kind, rows) && DistinctKeys(kind, rows)
    requires made == Table(Copies(kind, rows[..n], first), first + n)
    requires after == Table(Copies(kind, rows[..n + 1], first), first + n + 1)
    requires entry == Pick(rows[n].columns, LoadKeys(kind))
    ensures Create(kind, made, entry) == Ok(after)
  {
    EntryFits(kind, rows, first, n, entry, Copied(kind, rows[n].columns));
    CopiesSnoc(kind, rows, first, n);
    CreateMakes(kind, made, entry, Copied(kind, rows[n].columns), after);
  }

  lemma CreateMakes(kind: Kind, table: Table, entry: Columns, columns: Columns, after: Table)
    requires CreateKeys(kind) <= entry.Keys && NewColumns(kind, entry) == columns && !Clashes(kind, table.rows, columns)
    requires after == Table(table.rows + [Row(table.nextId, columns)], table.nextId + 1)
    ensures Create(kind, table, entry) == Ok(after)
  {
  }

  /** The creation loop makes the copies one by one, and no key clashes. */
  lemma {:induction false} CopiesCreated(kind: Kind, rows: seq<Row>, first: nat, n: nat, after: Table)
    requires n <= |rows| && Shapes(kind, rows) && DistinctKeys(kind, rows)
    requires after == Table(Copies(kind, rows[..n], first), first + n)
    ensures CreateList(kind, Table([], first), Entries(kind, rows[..n])) == Ok(after)
    decreases n
  {
    if n == 0 {
      assert rows[..0] == [] && Copies(kind, rows[..0], first) == [];
    } else {
      var made := Table(Copies(kind, rows[..n - 1], first), first + (n - 1));
      var entry := Pick(rows[n - 1].columns, LoadKeys(kind));
      CopiesCreated(kind, rows, first, n - 1, made);
      EntriesSnoc(kind, rows, n - 1);
      CopyStep(kind, rows, first, n - 1, made, after, entry);
      CreateOneMore(kind, Table([], first), Entries(kind, rows[..n - 1]), entry, made, after);
    }
  }

  lemma {:induction false} CopiesSorted(kind: Kind, rows: seq<Row>, first: nat)
    requires Shapes(kind, rows) && Sorted(kind, rows)
    ensures Sorted(kind, Copies(kind, rows, first))
  {
    if rows != [] {
      var copies := Copies(kind, rows, first);
      CopiesSorted(kind, rows[1..], first + 1);
      assert copies[1..] == Copies(kind, rows[1..], first + 1);
      forall i | 0 <= i < |copies[1..]| ensures Le(kind, copies[0], copies[1..][i]) {
        assert Le(kind, rows[0], rows[1..][i]);
        ShapeAt(kind, rows, i + 1);
        EntryCopies(kind, rows[0]);
        EntryCopies(kind, rows[i + 1]);
      }
    }
  }

  /** The table of one kind after applying the template loaded from p. */
  function CopyOf(p: Project, q: Project, kind: Kind): Table {
    var rows := All(kind, TableOf(p, kind).rows);
    Table(Copies(kind, rows, TableOf(q, kind).nextId), TableOf(q, kind).nextId + |rows|)
  }

  lemma CopiesMade(p: Project, q: Project, kind: Kind, copy: Table)
    requires WellFormed(p, kind) && TableOf(q, kind).rows == [] && copy == CopyOf(p, q, kind)
    ensures CreateList(kind, TableOf(q, kind), Entries(kind, All(kind, TableOf(p, kind).rows))) == Ok(copy)
  {
    var rows := All(kind, TableOf(p, kind).rows);
    AllShapes(kind, TableOf(p, kind).rows);
    AllDistinct(kind, TableOf(p, kind).rows);
    assert rows[..|rows|] == rows;
    CopiesCreated(kind, rows, TableOf(q, kind).nextId, |rows|, copy);
  }

  /** The copies read back, as a queryset, in the order of the original's queryset. */
  lemma CopiesReadBack(p: Project, q: Project, kind: Kind)
    requires WellFormed(p, kind)
    ensures All(kind, CopyOf(p, q, kind).rows) == CopyOf(p, q, kind).rows
  {
    AllShapes(kind, TableOf(p, kind).rows);
    AllSorted(kind, TableOf(p, kind).rows);
    CopiesSorted(kind, All(kind, TableOf(p, kind).rows), TableOf(q, kind).nextId);
    AllOfSorted(kind, CopyOf(p, q, kind).rows);
  }

  lemma KindApplied(p: Project, q: Project, t: Template, kind: Kind)
    requires WellFormed(p, kind) && TableOf(q, kind).rows == [] && t.lists == Lists(p)
    ensures ApplyKind(q, t, kind) == Ok(q.(tables := q.tables[kind := CopyOf(p, q, kind)]))
  {
    CopiesMade(p, q, kind, CopyOf(p, q, kind));
  }

  // ---------- all collections ----------

  /** Creation loops over distinct kinds do not disturb one another. */
  lemma {:induction false} KindsApplied(q: Project, t: Template, kinds: seq<Kind>, kind: Kind)
    requires forall k | k in kinds :: ApplyKind(q, t, k).Ok?
    requires forall i, j | 0 <= i < j < |kinds| :: kinds[i] != kinds[j]
    ensures ApplyKinds(q, t, kinds).Ok?
    ensures var after := ApplyKinds(q, t, kinds).value;
            && after == q.(tables := after.tables)
            && TableOf(after, kind)
               == if kind in kinds then TableOf(ApplyKind(q, t, kind).value, kind) else TableOf(q, kind)
  {
    if kinds != [] {
      var n := |kinds| - 1;
      var rest := kinds[..n];
      assert kinds == rest + [kinds[n]];
      KindsApplied(q, t, rest, kind);
      KindsApplied(q, t, rest, kinds[n]);
      assert kinds[n] !in rest;
      assert ApplyKind(q, t, kinds[n]).Ok?;
    }
  }

  // ---------- defaults ----------

  lemma {:induction false} NamedNull(rows: seq<Row>)
    ensures Named(rows, Null) == []
  {
    if rows != [] {
      NamedNull(rows[1..]);
    }
  }

  lemma {:induction false} NamedNone(kind: Kind, rows: seq<Row>, first: nat, name: string)
    requires Shapes(kind, rows) && KeyColumn(kind) == Name && NoKey(kind, rows, name)
    ensures Named(Copies(kind, rows, first), Text(name)) == []
  {
    if rows != [] {
      NamedNone(kind, rows[1..], first + 1, name);
      assert Copies(kind, rows, first)[1..] == Copies(kind, rows[1..], first + 1);
    }
  }

  /** A name finds exactly the copy of the row that had it. */
  lemma {:induction false} NamedCopy(kind: Kind, rows: seq<Row>, first: nat, j: nat)
    requires Shapes(kind, rows) && KeyColumn(kind) == Name && DistinctKeys(kind, rows) && j < |rows|
    requires Name in rows[j].columns && rows[j].columns[Name].Text?
    ensures Named(Copies(kind, rows, first), rows[j].columns[Name]) == [Copies(kind, rows, first)[j]]
  {
    if j == 0 {
      NamedFirst(kind, rows, first);
    } else {
      DistinctAt(kind, rows, 0, j);
      NamedCopy(kind, rows[1..], first + 1, j - 1);
      NamedLater(kind, rows, first, rows[j].columns[Name]);
    }
  }

  lemma NamedLater(kind: Kind, rows: seq<Row>, first: nat, name: Value)
    requires rows != [] && Shapes(kind, rows) && KeyColumn(kind) == Name && name.Text?
    requires KeyOf(kind, rows[0].columns) != name.text
    ensures Named(Copies(kind, rows, first), name) == Named(Copies(kind, rows[1..], first + 1), name)
  {
    CopiesTail(kind, rows, first);
    EntryCopies(kind, rows[0]);
  }

  lemma NamedFirst(kind: Kind, rows: seq<Row>, first: nat)
    requires rows != [] && Shapes(kind, rows) && KeyColumn(kind) == Name && DistinctKeys(kind, rows)
    ensures Named(Copies(kind, rows, first), rows[0].columns[Name]) == [Copies(kind, rows, first)[0]]
  {
    CopiesTail(kind, rows, first);
    NamedNone(kind, rows[1..], first + 1, rows[0].columns[Name].text);
  }

  lemma CopiesTail(kind: Kind, rows: seq<Row>, first: nat)
    requires rows != []
    ensures Copies(kind, rows, first)[1..] == Copies(kind, rows[1..], first + 1)
  {
  }

  lemma {:induction false} FindIdFinds(rows: seq<Row>, id: nat)
    ensures FindId(rows, id).Some? ==> FindId(rows, id).value in rows && FindId(rows, id).value.id == id
  {
    if rows != [] {
      FindIdFinds(rows[1..], id);
    }
  }

  /** The id of the copy of the original's default row. */
  ghost predicate CopiedDefault(p: Project, q: Project, kind: Kind, id: nat) {
    && kind in p.defaults
    && exists j | 0 <= j < |All(kind, TableOf(p, kind).rows)| ::
         && Some(All(kind, TableOf(p, kind).rows)[j]) == FindId(TableOf(p, kind).rows, p.defaults[kind])
         && CopyOf(p, q, kind).rows[j].id == id
  }

  lemma DefaultPosition(p: Project, kind: Kind) returns (j: nat)
    requires WellFormed(p, kind) && kind in p.defaults
    ensures j < |All(kind, TableOf(p, kind).rows)|
    ensures Some(All(kind, TableOf(p, kind).rows)[j]) == FindId(TableOf(p, kind).rows, p.defaults[kind])
  {
    var rows := TableOf(p, kind).rows;
    FindIdFinds(rows, p.defaults[kind]);
    AllKeepsRows(kind, rows);
    var row := FindId(rows, p.defaults[kind]).value;
    assert row in multiset(rows);
    assert row in All(kind, rows);
    j :| 0 <= j < |All(kind, rows)| && All(kind, rows)[j] == row;
  }

  lemma DefaultNamed(p: Project, q: Project, kind: Kind) returns (j: nat)
    requires WellFormed(p, kind) && KeyColumn(kind) == Name && kind in p.defaults
    ensures j < |CopyOf(p, q, kind).rows|
    ensures CopiedDefault(p, q, kind, CopyOf(p, q, kind).rows[j].id)
    ensures Named(CopyOf(p, q, kind).rows, DefaultName(p, kind)) == [CopyOf(p, q, kind).rows[j]]
  {
    j := DefaultPosition(p, kind);
    var rows := All(kind, TableOf(p, kind).rows);
    AllShapes(kind, TableOf(p, kind).rows);
    AllDistinct(kind, TableOf(p, kind).rows);
    ShapeAt(kind, rows, j);
    NamedCopy(kind, rows, TableOf(q, kind).nextId, j);
  }

  /** The lookup of one default after the rows have been created. */
  lemma DefaultApplied(p: Project, q: Project, t: Template, r: Project, kind: Kind)
    requires WellFormed(p, kind) && KeyColumn(kind) == Name && TableOf(r, kind) == CopyOf(p, q, kind)
    requires t.lists == Lists(p) && t.defaultNames == DefaultNames(p)
    ensures TableOf(p, kind).rows == [] ==> ApplyDefault(r, t, kind) == Ok(r)
    ensures TableOf(p, kind).rows != [] && kind !in p.defaults ==> ApplyDefault(r, t, kind) == Err(NoDefault)
    ensures TableOf(p, kind).rows != [] && kind in p.defaults ==>
      exists id :: CopiedDefault(p, q, kind, id) && ApplyDefault(r, t, kind) == Ok(r.(defaults := r.defaults[kind := id]))
  {
    ListEmpty(p, kind);
    if TableOf(p, kind).rows == [] {
    } else if kind !in p.defaults {
      NamedNull(TableOf(r, kind).rows);
    } else {
      var j := DefaultNamed(p, q, kind);
      DefaultSet(r, t, kind, CopyOf(p, q, kind).rows[j]);
    }
  }

  lemma ListEmpty(p: Project, kind: Kind)
    ensures Lists(p)[kind] == [] <==> TableOf(p, kind).rows == []
  {
    AllKeepsRows(kind, TableOf(p, kind).rows);
    EntriesAt(kind, All(kind, TableOf(p, kind).rows));
  }

  lemma DefaultSet(r: Project, t: Template, kind: Kind, row: Row)
    requires kind in t.lists && t.lists[kind] != [] && kind in t.defaultNames
    requires Named(TableOf(r, kind).rows, t.defaultNames[kind]) == [row]
    ensures ApplyDefault(r, t, kind) == Ok(r.(defaults := r.defaults[kind := row.id]))
  {
    assert |Named(TableOf(r, kind).rows, t.defaultNames[kind])| == 1;
  }

  function Lookup(p: Project, kind: Kind): Option<nat> {
    if kind in p.defaults then Some(p.defaults[kind]) else None
  }

  /** The default one kind gets, none when its list is empty. */
  function Chosen(table: Table, t: Template, kind: Kind): Option<nat>
    requires kind in t.lists && t.lists[kind] != [] ==> kind in t.defaultNames
  {
    if kind !in t.lists || t.lists[kind] == [] then None
    else
      var found := Named(table.rows, t.defaultNames[kind]);
      if |found| == 1 then Some(found[0].id) else None
  }

  function WithChosen(p: Project, kind: Kind, id: Option<nat>): Project {
    if id == None then p else p.(defaults := p.defaults[kind := id.value])
  }

  lemma ChosenIsSet(p: Project, t: Template, kind: Kind)
    requires ApplyDefault(p, t, kind).Ok?
    ensures kind in t.lists && t.lists[kind] != [] ==> kind in t.defaultNames
    ensures ApplyDefault(p, t, kind).value == WithChosen(p, kind, Chosen(TableOf(p, kind), t, kind))
  {
  }

  /** Setting one default touches the defaults alone, and among them its own. */
  lemma SetsOne(p: Project, last: Kind, id: Option<nat>, kind: Kind)
    ensures var after := WithChosen(p, last, id);
            && after == p.(defaults := after.defaults)
            && Lookup(after, kind) == if kind == last && id.Some? then id else Lookup(p, kind)
  {
    if id.Some? {
      assert WithChosen(p, last, id).defaults == p.defaults[last := id.value];
    }
  }

  lemma SameAnswer(r: Project, before: Project, t: Template, last: Kind)
    requires TableOf(before, last) == TableOf(r, last)
    ensures ApplyDefault(before, t, last).Ok? <==> ApplyDefault(r, t, last).Ok?
  {
  }

  /** One default after others, which left its table and what it had alone. */
  lemma OneMore(r: Project, before: Project, t: Template, last: Kind, kind: Kind)
    requires TableOf(before, last) == TableOf(r, last)
    requires Lookup(before, last) == Lookup(r, last) && ApplyDefault(r, t, last).Ok?
    ensures ApplyDefault(before, t, last).Ok?
    ensures var after := ApplyDefault(before, t, last).value;
            && after == before.(defaults := after.defaults)
            && Lookup(after, kind)
               == if kind == last then Lookup(ApplyDefault(r, t, last).value, last) else Lookup(before, kind)
  {
    SameAnswer(r, before, t, last);
    var id := Chosen(TableOf(r, last), t, last);
    assert ApplyDefault(before, t, last).value == WithChosen(before, last, id) by { ChosenIsSet(before, t, last); }
    assert ApplyDefault(r, t, last).value == WithChosen(r, last, id) by { ChosenIsSet(r, t, last); }
    SetsOne(before, last, id, kind);
    SetsOne(r, last, id, last);
  }

  lemma {:induction false} DefaultsApplied(r: Project, t: Template, kinds: seq<Kind>, kind: Kind)
    requires forall k | k in kinds :: ApplyDefault(r, t, k).Ok?
    requires forall i, j | 0 <= i < j < |kinds| :: kinds[i] != kinds[j]
    ensures ApplyDefaults(r, t, kinds).Ok?
    ensures var after := ApplyDefaults(r, t, kinds).value;
            && after == r.(defaults := after.defaults)
            && Lookup(after, kind)
               == if kind in kinds then Lookup(ApplyDefault(r, t, kind).value, kind) else Lookup(r, kind)
  {
    if kinds != [] {
      var n := |kinds| - 1;
      assert kinds == kinds[..n] + [kinds[n]];
      DefaultsApplied(r, t, kinds[..n], kind);
      DefaultsApplied(r, t, kinds[..n], kinds[n]);
      var before := ApplyDefaults(r, t, kinds[..n]).value;
      assert TableOf(before, kinds[n]) == TableOf(r, kinds[n]);
      OneMore(r, before, t, kinds[n], kind);
    }
  }

  lemma {:induction false} DefaultsRefused(r: Project, t: Template, kinds: seq<Kind>, missing: Kind)
    requires forall k | k in kinds :: ApplyDefault(r, t, k).Ok? || ApplyDefault(r, t, k) == Err(NoDefault)
    requires forall i, j | 0 <= i < j < |kinds| :: kinds[i] != kinds[j]
    requires missing in kinds && ApplyDefault(r, t, missing).Err?
    ensures ApplyDefaults(r, t, kinds) == Err(NoDefault)
  {
    var n := |kinds| - 1;
    assert kinds == kinds[..n] + [kinds[n]];
    if k :| k in kinds[..n] && ApplyDefault(r, t, k).Err? {
      DefaultsRefused(r, t, kinds[..n], k);
    } else {
      DefaultsApplied(r, t, kinds[..n], missing);
      assert kinds[n] == missing;
    }
  }

  // ---------- the round trip ----------

  ghost predicate AllWellFormed(p: Project) {
    forall kind: Kind :: WellFormed(p, kind)
  }

  /** No rows of any of the template's collections. */
  ghost predicate Bare(q: Project) {
    forall kind: Kind :: TableOf(q, kind).rows == []
  }

  ghost predicate ListedSet(p: Project) {
    forall kind | kind in DEFAULT_KINDS :: HasItsDefault(p, kind)
  }

  ghost predicate HasItsDefault(p: Project, kind: Kind) {
    TableOf(p, kind).rows == [] || kind in p.defaults
  }

  /** The eight collections with a default have it set or are empty. */
  ghost predicate DefaultsSet(p: Project) {
    && HasItsDefault(p, EpicStatuses) && HasItsDefault(p, UsStatuses) && HasItsDefault(p, Points)
    && HasItsDefault(p, TaskStatuses) && HasItsDefault(p, IssueStatuses) && HasItsDefault(p, IssueTypes)
    && HasItsDefault(p, Priorities) && HasItsDefault(p, Severities)
  }

  predicate WithDefault(kind: Kind) {
    kind.EpicStatuses? || kind.UsStatuses? || kind.Points? || kind.TaskStatuses? || kind.IssueStatuses?
    || kind.IssueTypes? || kind.Priorities? || kind.Severities?
  }

  /** Due dates, roles and custom attributes have no default. */
  predicate WithoutDefault(kind: Kind) {
    kind.UsDuedates? || kind.TaskDuedates? || kind.IssueDuedates? || kind.Roles? || IsAttribute(kind)
  }

  lemma DefaultKindsAre(kind: Kind)
    ensures kind in DEFAULT_KINDS <==> WithDefault(kind)
    ensures WithoutDefault(kind) <==> !WithDefault(kind)
  {
    assert DEFAULT_KINDS[0] == EpicStatuses && DEFAULT_KINDS[1] == UsStatuses && DEFAULT_KINDS[2] == Points;
    assert DEFAULT_KINDS[3] == TaskStatuses && DEFAULT_KINDS[4] == IssueStatuses && DEFAULT_KINDS[5] == IssueTypes;
    assert DEFAULT_KINDS[6] == Priorities && DEFAULT_KINDS[7] == Severities;
  }

  lemma ListedSetIff(p: Project)
    ensures ListedSet(p) <==> DefaultsSet(p)
  {
    forall kind: Kind ensures kind in DEFAULT_KINDS <==> !WithoutDefault(kind) {
      DefaultKindsAre(kind);
    }
    if DefaultsSet(p) {
      forall kind | kind in DEFAULT_KINDS ensures HasItsDefault(p, kind) {
        assert !WithoutDefault(kind);
      }
    }
  }

  lemma KindListsDistinct()
    ensures forall i, j | 0 <= i < j < |CHOICE_KINDS| :: CHOICE_KINDS[i] != CHOICE_KINDS[j]
    ensures forall i, j | 0 <= i < j < |DEFAULT_KINDS| :: DEFAULT_KINDS[i] != DEFAULT_KINDS[j]
    ensures forall i, j | 0 <= i < j < |ATTRIBUTE_KINDS| :: ATTRIBUTE_KINDS[i] != ATTRIBUTE_KINDS[j]
    ensures forall i | 0 <= i < |DEFAULT_KINDS| :: !IsAttribute(DEFAULT_KINDS[i]) && !DEFAULT_KINDS[i].Roles?
  {
  }

  /** After the choice loops every choice kind holds its copies. */
  lemma ChoicesApplied(p: Project, q: Project, t: Template, kinds: seq<Kind>)
    requires AllWellFormed(p) && Bare(q) && t.lists == Lists(p)
    requires forall i, j | 0 <= i < j < |kinds| :: kinds[i] != kinds[j]
    ensures ApplyKinds(q, t, kinds).Ok?
    ensures var after := ApplyKinds(q, t, kinds).value;
            && after == q.(tables := after.tables)
            && (forall kind | kind in kinds :: TableOf(after, kind) == CopyOf(p, q, kind))
            && (forall kind | kind !in kinds :: TableOf(after, kind) == TableOf(q, kind))
  {
    forall k: Kind
      ensures ApplyKind(q, t, k) == Ok(q.(tables := q.tables[k := CopyOf(p, q, k)]))
    {
      assert WellFormed(p, k) && TableOf(q, k).rows == [];
      KindApplied(p, q, t, k);
    }
    forall kind: Kind
      ensures ApplyKinds(q, t, kinds).Ok?
      ensures ApplyKinds(q, t, kinds).value == q.(tables := ApplyKinds(q, t, kinds).value.tables)
      ensures TableOf(ApplyKinds(q, t, kinds).value, kind) == if kind in kinds then CopyOf(p, q, kind) else TableOf(q, kind)
    {
      KindsApplied(q, t, kinds, kind);
    }
  }

  /** A template loaded from p, whatever its owner role. */
  ghost predicate LoadedFrom(t: Template, p: Project) {
    t.lists == Lists(p) && t.defaultNames == DefaultNames(p) && t.modules == p.modules && t.profile == p.profile
  }

  ghost predicate Copying(p: Project, q: Project, r: Project) {
    forall kind | kind in DEFAULT_KINDS :: TableOf(r, kind) == CopyOf(p, q, kind)
  }

  lemma OneDefault(p: Project, q: Project, t: Template, r: Project, kind: Kind)
    requires AllWellFormed(p) && LoadedFrom(t, p) && Copying(p, q, r) && kind in DEFAULT_KINDS
    ensures ApplyDefault(r, t, kind)
         == if ApplyDefault(r, t, kind).Ok? then Ok(ApplyDefault(r, t, kind).value) else Err(NoDefault)
    ensures ApplyDefault(r, t, kind).Ok? <==> HasItsDefault(p, kind)
    ensures TableOf(p, kind).rows == [] ==> Lookup(ApplyDefault(r, t, kind).value, kind) == Lookup(r, kind)
    ensures TableOf(p, kind).rows != [] && kind in p.defaults ==>
      Lookup(ApplyDefault(r, t, kind).value, kind).Some?
      && CopiedDefault(p, q, kind, Lookup(ApplyDefault(r, t, kind).value, kind).value)
  {
    KindListsDistinct();
    assert WellFormed(p, kind);
    assert KeyColumn(kind) == Name;
    DefaultApplied(p, q, t, r, kind);
  }

  /** The default of one kind after the lookups, in terms of the project before them. */
  ghost predicate DefaultCopied(p: Project, q: Project, r: Project, kind: Kind) {
    CopiedTo(p, q, kind, Lookup(r, kind))
  }

  ghost predicate CopiedTo(p: Project, q: Project, kind: Kind, default: Option<nat>) {
    if TableOf(p, kind).rows != [] then default.Some? && CopiedDefault(p, q, kind, default.value)
    else default == Lookup(q, kind)
  }

  lemma DefaultStage(p: Project, q: Project, t: Template, r: Project)
    requires AllWellFormed(p) && LoadedFrom(t, p) && Copying(p, q, r) && r.defaults == q.defaults
    ensures ListedSet(p) ==> ApplyDefaults(r, t, DEFAULT_KINDS).Ok?
    ensures !ListedSet(p) ==> ApplyDefaults(r, t, DEFAULT_KINDS) == Err(NoDefault)
    ensures ListedSet(p) ==>
      var after := ApplyDefaults(r, t, DEFAULT_KINDS).value;
      && after == r.(defaults := after.defaults)
      && (forall kind | kind in DEFAULT_KINDS :: DefaultCopied(p, q, after, kind))
      && (forall kind | kind !in DEFAULT_KINDS :: Lookup(after, kind) == Lookup(q, kind))
  {
    KindListsDistinct();
    forall kind | kind in DEFAULT_KINDS
      ensures ApplyDefault(r, t, kind).Ok? || ApplyDefault(r, t, kind) == Err(NoDefault)
      ensures ApplyDefault(r, t, kind).Ok? <==> HasItsDefault(p, kind)
    {
      OneDefault(p, q, t, r, kind);
    }
    if ListedSet(p) {
      DefaultsApplied(r, t, DEFAULT_KINDS, EpicStatuses);
      forall kind: Kind
        ensures var after := ApplyDefaults(r, t, DEFAULT_KINDS).value;
                if kind in DEFAULT_KINDS then DefaultCopied(p, q, after, kind)
                else Lookup(after, kind) == Lookup(q, kind)
      {
        DefaultsApplied(r, t, DEFAULT_KINDS, kind);
        if kind in DEFAULT_KINDS {
          OneDefault(p, q, t, r, kind);
        }
      }
    } else {
      var missing :| missing in DEFAULT_KINDS && !HasItsDefault(p, missing);
      DefaultsRefused(r, t, DEFAULT_KINDS, missing);
    }
  }

  /** The attribute loops, run on the project that has its choices already. */
  lemma AttributesApplied(p: Project, q: Project, t: Template, r: Project)
    requires AllWellFormed(p) && Bare(q) && t.lists == Lists(p)
    requires forall kind | IsAttribute(kind) :: TableOf(r, kind) == TableOf(q, kind)
    ensures ApplyKinds(r, t, ATTRIBUTE_KINDS).Ok?
    ensures var after := ApplyKinds(r, t, ATTRIBUTE_KINDS).value;
            && after == r.(tables := after.tables)
            && forall kind: Kind :: TableOf(after, kind) == if IsAttribute(kind) then CopyOf(p, q, kind) else TableOf(r, kind)
  {
    KindListsDistinct();
    forall k: Kind ensures k in ATTRIBUTE_KINDS <==> IsAttribute(k) {
      AttributesListed(k);
    }
    forall k | k in ATTRIBUTE_KINDS
      ensures ApplyKind(r, t, k) == Ok(r.(tables := r.tables[k := CopyOf(p, q, k)]))
    {
      assert TableOf(q, k).rows == [] && WellFormed(p, k);
      assert CopyOf(p, r, k) == CopyOf(p, q, k);
      KindApplied(p, r, t, k);
    }
    KindsApplied(r, t, ATTRIBUTE_KINDS, EpicAttributes);
    forall kind: Kind
      ensures TableOf(ApplyKinds(r, t, ATTRIBUTE_KINDS).value, kind)
           == if IsAttribute(kind) then CopyOf(p, q, kind) else TableOf(r, kind)
    {
      KindsApplied(r, t, ATTRIBUTE_KINDS, kind);
    }
  }

  lemma ChoiceTables(p: Project, q: Project, q': Project, chosen: Project, kind: Kind)
    requires q'.tables == q.tables
    requires forall kind | kind in CHOICE_KINDS :: TableOf(chosen, kind) == CopyOf(p, q', kind)
    requires forall kind | kind !in CHOICE_KINDS :: TableOf(chosen, kind) == TableOf(q', kind)
    ensures TableOf(chosen, kind) == if IsAttribute(kind) then TableOf(q, kind) else CopyOf(p, q, kind)
  {
    ChoicesListed(kind);
    AttributesListed(kind);
    assert TableOf(q', kind) == TableOf(q, kind) && CopyOf(p, q', kind) == CopyOf(p, q, kind);
  }

  lemma ChoiceStage(p: Project, q: Project, t: Template) returns (chosen: Project)
    requires AllWellFormed(p) && Bare(q) && LoadedFrom(t, p)
    ensures ApplyKinds(Started(q, t), t, CHOICE_KINDS) == Ok(chosen)
    ensures chosen == Started(q, t).(tables := chosen.tables) && Copying(p, q, chosen)
    ensures forall kind: Kind ::
      TableOf(chosen, kind) == if IsAttribute(kind) then TableOf(q, kind) else CopyOf(p, q, kind)
  {
    var q' := Started(q, t);
    KindListsDistinct();
    assert Bare(q') by {
      assert forall kind: Kind :: TableOf(q', kind) == TableOf(q, kind);
    }
    ChoicesApplied(p, q', t, CHOICE_KINDS);
    chosen := ApplyKinds(q', t, CHOICE_KINDS).value;
    forall kind: Kind
      ensures TableOf(chosen, kind) == if IsAttribute(kind) then TableOf(q, kind) else CopyOf(p, q, kind)
    {
      ChoiceTables(p, q, q', chosen, kind);
    }
  }

  /** Each of the eight defaults is the copy of the original's, or left alone when the collection is
      empty; no other kind's default changes. */
  ghost predicate DefaultsCopied(p: Project, q: Project, r: Project) {
    && (forall kind | WithDefault(kind) :: DefaultCopied(p, q, r, kind))
    && (forall kind | WithoutDefault(kind) :: Lookup(r, kind) == Lookup(q, kind))
  }

  lemma CopiedLikewise(p: Project, q: Project, r: Project, defaulted: Project, kind: Kind)
    requires r.defaults == defaulted.defaults && DefaultCopied(p, q, defaulted, kind)
    ensures DefaultCopied(p, q, r, kind)
  {
    assert Lookup(r, kind) == Lookup(defaulted, kind);
  }

  lemma ListedCopied(p: Project, q: Project, r: Project, defaulted: Project, kind: Kind)
    requires forall kind | kind in DEFAULT_KINDS :: DefaultCopied(p, q, defaulted, kind)
    requires forall kind | kind !in DEFAULT_KINDS :: Lookup(defaulted, kind) == Lookup(q, kind)
    requires r.defaults == defaulted.defaults
    ensures !WithoutDefault(kind) ==> DefaultCopied(p, q, r, kind)
    ensures WithoutDefault(kind) ==> Lookup(r, kind) == Lookup(q, kind)
  {
    DefaultKindsAre(kind);
    if WithoutDefault(kind) {
      assert Lookup(r, kind) == Lookup(defaulted, kind);
    } else {
      CopiedLikewise(p, q, r, defaulted, kind);
    }
  }

  lemma AllListedCopied(p: Project, q: Project, r: Project, defaulted: Project)
    requires forall kind | kind in DEFAULT_KINDS :: DefaultCopied(p, q, defaulted, kind)
    requires forall kind | kind !in DEFAULT_KINDS :: Lookup(defaulted, kind) == Lookup(q, kind)
    requires r.defaults == defaulted.defaults
    ensures DefaultsCopied(p, q, r)
  {
    forall kind: Kind
      ensures WithDefault(kind) ==> DefaultCopied(p, q, r, kind)
      ensures WithoutDefault(kind) ==> Lookup(r, kind) == Lookup(q, kind)
    {
      DefaultKindsAre(kind);
      ListedCopied(p, q, r, defaulted, kind);
    }
  }

  /** Applying a loaded template to a bare project succeeds exactly when the project is saved and
      every non-empty collection with a default has it set; else it fails at the first of these. */
  lemma ApplySucceedsIff(p: Project, q: Project, t: Template)
    requires AllWellFormed(p) && Bare(q) && LoadedFrom(t, p)
    ensures Apply(q, t).Ok? <==> q.saved && DefaultsSet(p)
    ensures Apply(q, t).Err? ==> Apply(q, t) == Err(if q.saved then NoDefault else NotSaved)
  {
    var chosen := ChoiceStage(p, q, t);
    DefaultStage(p, q, t, chosen);
    ListedSetIff(p);
    if ListedSet(p) {
      AttributesApplied(p, q, t, ApplyDefaults(chosen, t, DEFAULT_KINDS).value);
    }
  }

  /** A successful application, stage by stage. */
  lemma AppliedStages(p: Project, q: Project, t: Template, r: Project) returns (defaulted: Project, full: Project)
    requires AllWellFormed(p) && Bare(q) && LoadedFrom(t, p) && Apply(q, t) == Ok(r)
    ensures forall kind | kind in DEFAULT_KINDS :: DefaultCopied(p, q, defaulted, kind)
    ensures forall kind | kind !in DEFAULT_KINDS :: Lookup(defaulted, kind) == Lookup(q, kind)
    ensures full == defaulted.(tables := full.tables) && r == full.(profile := t.profile)
    ensures defaulted == Started(q, t).(tables := defaulted.tables, defaults := defaulted.defaults)
    ensures forall kind: Kind :: TableOf(full, kind) == CopyOf(p, q, kind)
  {
    ApplySucceedsIff(p, q, t);
    ListedSetIff(p);
    var chosen := ChoiceStage(p, q, t);
    DefaultStage(p, q, t, chosen);
    defaulted := ApplyDefaults(chosen, t, DEFAULT_KINDS).value;
    AttributesApplied(p, q, t, defaulted);
    full := ApplyKinds(defaulted, t, ATTRIBUTE_KINDS).value;
  }

  /** Every collection holds the copies, every default is the copy of the original default, and the
      plain fields are the original's. */
  lemma Applied(p: Project, q: Project, t: Template, r: Project)
    requires AllWellFormed(p) && Bare(q) && LoadedFrom(t, p) && Apply(q, t) == Ok(r)
    ensures forall kind: Kind :: TableOf(r, kind) == CopyOf(p, q, kind)
    ensures DefaultsCopied(p, q, r)
    ensures r.modules == p.modules && r.profile == p.profile && r.creationTemplate == Some(t.id)
  {
    var defaulted, full := AppliedStages(p, q, t, r);
    forall kind: Kind ensures TableOf(r, kind) == CopyOf(p, q, kind) {
      assert TableOf(r, kind) == TableOf(full, kind);
    }
    AllListedCopied(p, q, r, defaulted);
  }

  // ---------- what a maintainer reads off ----------

  function ColumnsOf(rows: seq<Row>): seq<Columns> {
    seq(|rows|, i requires 0 <= i < |rows| => rows[i].columns)
  }

  /** Saving as a template and applying it gives back, collection by collection and in queryset
      order, the original columns; custom attributes come back without their extra data. */
  lemma RoundTrip(p: Project, q: Project, t: Template, r: Project, kind: Kind)
    requires AllWellFormed(p) && Bare(q) && Load(p, t.id) == Ok(t) && Apply(q, t) == Ok(r)
    ensures var before := ColumnsOf(All(kind, TableOf(p, kind).rows));
            var after := ColumnsOf(All(kind, TableOf(r, kind).rows));
            && |after| == |before|
            && (forall i | 0 <= i < |before| :: after[i] == Copied(kind, before[i]))
            && (!IsAttribute(kind) ==> after == before)
  {
    TableCopied(p, q, t, r, kind);
    CopiesQueried(p, q, kind, TableOf(r, kind));
  }

  lemma TableCopied(p: Project, q: Project, t: Template, r: Project, kind: Kind)
    requires AllWellFormed(p) && Bare(q) && Load(p, t.id) == Ok(t) && Apply(q, t) == Ok(r)
    ensures WellFormed(p, kind) && TableOf(r, kind) == CopyOf(p, q, kind)
  {
    LoadedLikewise(p, t);
    Applied(p, q, t, r);
  }

  lemma CopiesQueried(p: Project, q: Project, kind: Kind, copy: Table)
    requires WellFormed(p, kind) && copy == CopyOf(p, q, kind)
    ensures var before := ColumnsOf(All(kind, TableOf(p, kind).rows));
            var after := ColumnsOf(All(kind, copy.rows));
            && |after| == |before|
            && (forall i | 0 <= i < |before| :: after[i] == Copied(kind, before[i]))
            && (!IsAttribute(kind) ==> after == before)
  {
    CopiesReadBack(p, q, kind);
  }

  lemma LoadedLikewise(p: Project, t: Template)
    requires Load(p, t.id) == Ok(t)
    ensures LoadedFrom(t, p)
  {
  }

  lemma ExtraKept(kind: Kind, row: Row)
    requires Shaped(kind, row) && IsAttribute(kind)
    ensures Copied(kind, row.columns) == row.columns <==> Extra in row.columns && row.columns[Extra] == Null
  {
    KeysAgree(kind);
  }

  /** The one loss, exactly: a custom attribute collection survives if and only if none of its
      rows has extra data. */
  lemma AttributesSurviveIff(p: Project, q: Project, t: Template, r: Project, kind: Kind)
    requires AllWellFormed(p) && Bare(q) && Load(p, t.id) == Ok(t) && Apply(q, t) == Ok(r) && IsAttribute(kind)
    ensures ColumnsOf(All(kind, TableOf(r, kind).rows)) == ColumnsOf(All(kind, TableOf(p, kind).rows))
        <==> (forall row | row in TableOf(p, kind).rows :: Extra in row.columns && row.columns[Extra] == Null)
  {
    TableCopied(p, q, t, r, kind);
    CopiesQueried(p, q, kind, TableOf(r, kind));
    AllShapes(kind, TableOf(p, kind).rows);
    ExtraKeptThroughout(kind, All(kind, TableOf(p, kind).rows), ColumnsOf(All(kind, TableOf(r, kind).rows)));
    AllMembers(kind, TableOf(p, kind).rows);
  }

  lemma AllMembers(kind: Kind, rows: seq<Row>)
    ensures forall row :: row in All(kind, rows) <==> row in rows
  {
    AllKeepsRows(kind, rows);
    forall row ensures row in All(kind, rows) <==> row in rows {
      assert row in All(kind, rows) <==> row in multiset(All(kind, rows));
      assert row in rows <==> row in multiset(rows);
    }
  }

  lemma ExtraKeptThroughout(kind: Kind, rows: seq<Row>, after: seq<Columns>)
    requires Shapes(kind, rows) && IsAttribute(kind)
    requires |after| == |rows| && forall i | 0 <= i < |rows| :: after[i] == Copied(kind, rows[i].columns)
    ensures after == ColumnsOf(rows) <==> forall row | row in rows :: Extra in row.columns && row.columns[Extra] == Null
  {
    var before := ColumnsOf(rows);
    forall i | 0 <= i < |rows|
      ensures before[i] == after[i] <==> Extra in rows[i].columns && rows[i].columns[Extra] == Null
    {
      ShapeAt(kind, rows, i);
      ExtraKept(kind, rows[i]);
    }
    if after == before {
      forall row | row in rows ensures Extra in row.columns && row.columns[Extra] == Null {
        var i :| 0 <= i < |rows| && rows[i] == row;
        assert before[i] == after[i];
      }
    } else {
      var i :| 0 <= i < |rows| && before[i] != after[i];
      assert rows[i] in rows;
    }
  }

  /** Loading fails only when no membership of the owner is found and the project has no role, or
      when several are found, as for the pending invitations of a project without owner. */
  lemma LoadSucceedsIff(p: Project, id: nat)
    ensures Load(p, id).Ok? <==> |p.ownerRoles| == 1 || (|p.ownerRoles| == 0 && TableOf(p, Roles).rows != [])
    ensures Load(p, id).Ok? ==> LoadedFrom(Load(p, id).value, p) && Load(p, id).value.id == id
    ensures |p.ownerRoles| == 1 ==> Load(p, id).Ok? && Load(p, id).value.ownerRole == p.ownerRoles[0]
    ensures Load(p, id).Err? ==> Load(p, id) == Err(if |p.ownerRoles| == 0 then NoRoles else SeveralMemberships)
    ensures |p.ownerRoles| == 0 && Load(p, id).Ok? ==>
      exists row | row in TableOf(p, Roles).rows :: Load(p, id).value.ownerRole == KeyOf(Roles, row.columns)
        && forall other | other in TableOf(p, Roles).rows :: OrderOf(row.columns) <= OrderOf(other.columns)
  {
    if |p.ownerRoles| == 0 && TableOf(p, Roles).rows != [] {
      var rows := All(Roles, TableOf(p, Roles).rows);
      AllKeepsRows(Roles, TableOf(p, Roles).rows);
      AllSorted(Roles, TableOf(p, Roles).rows);
      assert rows[0] in multiset(TableOf(p, Roles).rows);
      forall other | other in TableOf(p, Roles).rows ensures OrderOf(rows[0].columns) <= OrderOf(other.columns) {
        assert other in multiset(rows);
        var i :| 0 <= i < |rows| && rows[i] == other;
        if i > 0 {
          assert Le(Roles, rows[0], rows[1..][i - 1]);
        }
      }
    }
  }
}
