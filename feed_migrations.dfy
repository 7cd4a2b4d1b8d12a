/**
 * The two migrations of the feed example (create the `articles` table, then
 * add its `author` column), run on a database that has neither, and the
 * `down` of the second.
 */
module FeedMigrations {
  import opened Decimal
  import opened Columns
  import opened Tables
  import opened Migrations

  /** `CreateArticles`: `up` builds the table, `down` drops it. */
  function CreateArticles(): MigrationDef
  {
    MigrationDef(
      [TableStep("articles", [AddPrimaryEdit("id", true), AddStringEdit("title", -1), AddStringEdit("content", -1)])],
      [DropStep("articles")])
  }

  /** `AddArticlesAuthor`: `up` adds the column, `down` drops it by name. */
  function AddArticlesAuthor(): MigrationDef
  {
    MigrationDef(
      [TableStep("articles", [AddIntegerEdit("author")])],
      [TableStep("articles", [DropColumnEdit("author")])])
  }

  function IdDef(): ColumnDef { PrimaryDef("id", true) }
  function TitleDef(): ColumnDef { StringDef("title", -1) }
  function ContentDef(): ColumnDef { StringDef("content", -1) }
  function AuthorDef(): ColumnDef { IntegerDef("author") }

  /** The table after the callable of `CreateArticles::up`. */
  function Created(): TableData
  {
    TableData("articles", true, [(Pos(0), IdDef()), (Pos(1), TitleDef()), (Pos(2), ContentDef())], 3, DroppedEntries([]))
  }

  /** ... after its flush. */
  function Migrated(): TableData
  {
    TableData("articles", false, [(Pos(0), Cleared(IdDef())), (Pos(1), Cleared(TitleDef())), (Pos(2), Cleared(ContentDef()))],
              3, DroppedEntries([]))
  }

  /** ... after the callable of `AddArticlesAuthor::up`. */
  function Authored(): TableData
  {
    Migrated().(columns := Migrated().columns + [(Pos(3), AuthorDef())], nextIndex := 4)
  }

  /** ... after its flush. */
  function AuthoredMigrated(): TableData
  {
    TableData("articles", false,
              [(Pos(0), Cleared(IdDef())), (Pos(1), Cleared(TitleDef())), (Pos(2), Cleared(ContentDef())), (Pos(3), Cleared(AuthorDef()))],
              4, DroppedEntries([]))
  }

  lemma CreateRuns()
    ensures ApplySpec(Fresh("articles", true), CreateArticles().up[0].edits) == (Created(), false)
  {
    var edits := CreateArticles().up[0].edits;
    var t1 := AddSpec(Fresh("articles", true), IdDef());
    var t2 := AddSpec(t1, TitleDef());
    var t3 := AddSpec(t2, ContentDef());
    assert edits[1..][1..][1..] == [];
    assert ApplySpec(t3, []) == (t3, false);
    assert ApplySpec(t2, edits[1..][1..]) == ApplySpec(t3, []);
    assert ApplySpec(t1, edits[1..]) == ApplySpec(t2, edits[1..][1..]);
    assert t3 == Created();
  }

  lemma CreateFlushes()
    ensures FlushSpec(Created(), "articles") == (Migrated(), Create("articles", [IdDef(), TitleDef(), ContentDef()]))
  {
    FlushShape(Created(), "articles");
    assert Values(Created().columns) == [IdDef(), TitleDef(), ContentDef()];
    assert ClearEntries(Created().columns) == Migrated().columns;
  }

  lemma AuthorRuns()
    ensures ApplySpec(Migrated(), AddArticlesAuthor().up[0].edits) == (Authored(), false)
  {
    var edits := AddArticlesAuthor().up[0].edits;
    assert edits[1..] == [];
    assert ApplySpec(Authored(), []) == (Authored(), false);
  }

  /** Three columns that are not new and a new fourth: only the fourth is added. */
  lemma PartitionThreeOldOneNew(a: ColumnDef, b: ColumnDef, c: ColumnDef, d: ColumnDef)
    requires !a.isNew && !b.isNew && !c.isNew && d.isNew
    ensures Partition([a, b, c, d]) == ([Cleared(d)], [a, b, c])
  {
    var cs := [a, b, c, d];
    assert cs[..0] == [];
    PartitionStep(cs, 0);
    assert [] + [a] == [a];
    PartitionStep(cs, 1);
    assert [a] + [b] == [a, b];
    PartitionStep(cs, 2);
    assert [a, b] + [c] == [a, b, c];
    PartitionStep(cs, 3);
    assert [] + [Cleared(d)] == [Cleared(d)];
    assert cs[..4] == cs;
  }

  lemma AuthorFlushes()
    ensures FlushSpec(Authored(), "articles")
         == (AuthoredMigrated(), Alter("articles", [Cleared(AuthorDef())], [Cleared(IdDef()), Cleared(TitleDef()), Cleared(ContentDef())], DroppedEntries([])))
  {
    FlushShape(Authored(), "articles");
    var id, title, content, author := Cleared(IdDef()), Cleared(TitleDef()), Cleared(ContentDef()), AuthorDef();
    var cs := Values(Authored().columns);
    assert cs == [id, title, content, author];
    PartitionThreeOldOneNew(id, title, content, author);
    assert ClearEntries(Authored().columns) == AuthoredMigrated().columns;
  }

  /** "author" is not a canonical integer, so it names a key no positional column has. */
  lemma AuthorIsAName()
    ensures KeyOf("author") == Name("author")
  {
    assert !IsCanonicalInt("author") by {
      assert !IsDigit("author"[0]);
    }
  }

  lemma AuthorDropStubs()
    ensures ApplySpec(AuthoredMigrated(), AddArticlesAuthor().down[0].edits)
         == (AuthoredMigrated().(dropped := DroppedStub(StubDef("author"))), false)
  {
    var t := AuthoredMigrated();
    var edits := AddArticlesAuthor().down[0].edits;
    AuthorIsAName();
    assert KeysWf(t.columns, 4);
    NamedLookupMisses(t, "author");
    assert edits[1..] == [];
  }

  lemma AuthorDropFlushes()
    ensures var t := AuthoredMigrated().(dropped := DroppedStub(StubDef("author")));
      FlushSpec(t, "articles").1 == Alter("articles", [], Values(AuthoredMigrated().columns), DroppedStub(StubDef("author")))
  {
    var t := AuthoredMigrated().(dropped := DroppedStub(StubDef("author")));
    var cs := Values(t.columns);
    FlushShape(t, "articles");
    assert forall i :: 0 <= i < |cs| ==> cs[i] == Cleared(t.columns[i].1);
    NoNewColumns(cs);
    PartitionFilters(cs);
  }

  /** The call the flush after `AddArticlesAuthor::down` records. */
  function DropAuthorOp(): Op
  {
    Alter("articles", [], Values(AuthoredMigrated().columns), DroppedStub(StubDef("author")))
  }

  /** The flush after the `down` leaves the columns as they were and keeps the stub. */
  lemma AuthorDropKeeps()
    ensures var t := AuthoredMigrated().(dropped := DroppedStub(StubDef("author")));
      FlushSpec(t, "articles").0 == t
  {
    var t := AuthoredMigrated().(dropped := DroppedStub(StubDef("author")));
    AuthorFlushes();
    ClearTwice(Authored().columns);
    FlushShape(t, "articles");
  }

  /** `CreateArticles::up`, modifying, on an empty schema. */
  method RunCreate(m: Migrator) returns (threw: bool)
    requires m.registry.Valid() && m.registry.tables == map[] && m.ops == []
    modifies m, m.registry, m.registry.objects
    ensures m.registry.Valid() && !threw && "articles" in m.registry.tables
    ensures old(m.registry.objects) <= m.registry.objects && fresh(m.registry.objects - old(m.registry.objects))
    ensures m.registry.Prior("articles") == Migrated()
    ensures m.ops == [Create("articles", [IdDef(), TitleDef(), ContentDef()])]
  {
    CreateRuns();
    CreateFlushes();
    assert m.registry.Prior("articles") == Fresh("articles", true);
    assert Body(CreateArticles(), true) == CreateArticles().up;
    threw := m.RunMigration(CreateArticles(), true, true);
  }

  /** `AddArticlesAuthor::up`, modifying, once `articles` exists. */
  method RunAuthor(m: Migrator) returns (threw: bool)
    requires m.registry.Valid() && m.registry.Prior("articles") == Migrated() && "articles" in m.registry.tables
    modifies m, m.registry, m.registry.objects
    ensures m.registry.Valid() && !threw && "articles" in m.registry.tables
    ensures old(m.registry.objects) <= m.registry.objects && fresh(m.registry.objects - old(m.registry.objects))
    ensures m.registry.Prior("articles") == AuthoredMigrated()
    ensures m.ops == old(m.ops) + [Alter("articles", [Cleared(AuthorDef())], [Cleared(IdDef()), Cleared(TitleDef()), Cleared(ContentDef())], DroppedEntries([]))]
  {
    AuthorRuns();
    AuthorFlushes();
    assert Body(AddArticlesAuthor(), true) == AddArticlesAuthor().up;
    threw := m.RunMigration(AddArticlesAuthor(), true, true);
  }

  /**
   * `AddArticlesAuthor::down`, modifying: "author" names no column, so the
   * column stays and the flush alters all four columns, dropping a stub.
   */
  method RunAuthorDown(m: Migrator) returns (threw: bool)
    requires m.registry.Valid() && m.registry.Prior("articles") == AuthoredMigrated() && "articles" in m.registry.tables
    modifies m, m.registry, m.registry.objects
    ensures m.registry.Valid() && !threw
    ensures old(m.registry.objects) <= m.registry.objects && fresh(m.registry.objects - old(m.registry.objects))
    ensures m.registry.Prior("articles") == AuthoredMigrated().(dropped := DroppedStub(StubDef("author")))
    ensures m.ops == old(m.ops) + [DropAuthorOp()]
  {
    AuthorDropStubs();
    AuthorDropFlushes();
    AuthorDropKeeps();
    assert Body(AddArticlesAuthor(), false) == AddArticlesAuthor().down;
    threw := m.RunMigration(AddArticlesAuthor(), false, true);
  }

  /** `CreateArticles::up` then `AddArticlesAuthor::up`, both modifying, on an empty schema. */
  method RunUps(m: Migrator)
    requires m.registry.Valid() && m.registry.tables == map[] && m.ops == []
    modifies m, m.registry, m.registry.objects
    ensures m.registry.Valid() && "articles" in m.registry.tables
    ensures old(m.registry.objects) <= m.registry.objects && fresh(m.registry.objects - old(m.registry.objects))
    ensures m.registry.Prior("articles") == AuthoredMigrated()
    ensures m.ops == UpOps()
  {
    var threw := RunCreate(m);
    threw := RunAuthor(m);
  }

  /** The calls the two `up` bodies make: a create, then an alter that adds the author. */
  function UpOps(): seq<Op>
  {
    [Create("articles", [IdDef(), TitleDef(), ContentDef()]),
     Alter("articles", [Cleared(AuthorDef())], [Cleared(IdDef()), Cleared(TitleDef()), Cleared(ContentDef())], DroppedEntries([]))]
  }

  /**
   * The two `up`s on a new registry: the table is created with its three
   * columns, then altered to add `author`, the three others passed as
   * columns to alter.
   */
  method FeedUp() returns (ops: seq<Op>)
    ensures ops == UpOps()
  {
    var r := new Registry();
    var m := new Migrator(r);
    RunUps(m);
    ops := m.ops;
  }

  /**
   * The two `up`s, then the `down` of the second: the third call alters the
   * table with no column to add and a stub to drop, so `author` survives.
   */
  method FeedUpDown(m: Migrator)
    requires m.registry.Valid() && m.registry.tables == map[] && m.ops == []
    modifies m, m.registry, m.registry.objects
    ensures m.ops == UpOps() + [DropAuthorOp()]
  {
    RunUps(m);
    var threw := RunAuthorDown(m);
  }

  /** The last alter adds nothing and lists all four columns, `author` among them. */
  lemma AuthorSurvives()
    ensures DropAuthorOp().add == []
    ensures DropAuthorOp().alter == [Cleared(IdDef()), Cleared(TitleDef()), Cleared(ContentDef()), Cleared(AuthorDef())]
  {
  }
}
