/**
 * Migrations (schema/Migration.php): the `$modify` flag, and the flush a
 * `table()` call performs after its callable has edited the table. The
 * database calls (`createTable`, `alterTable`, `dropTable`) are recorded as
 * operations in a log, with the columns as they are at the moment of the call.
 */
module Migrations {
  import opened Wrappers
  import opened Columns
  import opened Tables

  /** One call on the connection. */
  datatype Op =
    | Create(table: string, columns: seq<ColumnDef>)
    | Alter(table: string, add: seq<ColumnDef>, alter: seq<ColumnDef>, dropped: DroppedData)
    | DropTable(table: string)

  // ------------------------------------------------------------ flush

  function Values(e: seq<(Key, ColumnDef)>): (r: seq<ColumnDef>)
    ensures |r| == |e| && forall i :: 0 <= i < |e| ==> r[i] == e[i].1
  {
    if e == [] then [] else [e[0].1] + Values(e[1..])
  }

  function Cleared(c: ColumnDef): ColumnDef
  {
    c.(isNew := false)
  }

  function ClearEntries(e: seq<(Key, ColumnDef)>): (r: seq<(Key, ColumnDef)>)
    ensures |r| == |e| && forall i :: 0 <= i < |e| ==> r[i] == (e[i].0, Cleared(e[i].1))
  {
    if e == [] then [] else [(e[0].0, Cleared(e[0].1))] + ClearEntries(e[1..])
  }

  /**
   * The foreach of an existing table's flush, column by column: a new
   * column is cleared and goes to the columns to add, any other to the
   * columns to alter.
   */
  function Partition(cs: seq<ColumnDef>): (seq<ColumnDef>, seq<ColumnDef>)
    decreases |cs|
  {
    if cs == [] then ([], [])
    else
      var p := Partition(cs[..|cs| - 1]);
      var c := cs[|cs| - 1];
      if c.isNew then (p.0 + [Cleared(c)], p.1) else (p.0, p.1 + [c])
  }

  /** The new columns, in order. */
  function NewOnes(cs: seq<ColumnDef>): seq<ColumnDef>
  {
    if cs == [] then [] else (if cs[0].isNew then [cs[0]] else []) + NewOnes(cs[1..])
  }

  /** The columns that are not new, in order. */
  function OldOnes(cs: seq<ColumnDef>): seq<ColumnDef>
  {
    if cs == [] then [] else (if cs[0].isNew then [] else [cs[0]]) + OldOnes(cs[1..])
  }

  function ClearAll(cs: seq<ColumnDef>): (r: seq<ColumnDef>)
    ensures |r| == |cs| && forall i :: 0 <= i < |cs| ==> r[i] == Cleared(cs[i])
  {
    if cs == [] then [] else [Cleared(cs[0])] + ClearAll(cs[1..])
  }

  lemma {:induction false} PartitionAppend(a: seq<ColumnDef>, b: seq<ColumnDef>)
    ensures Partition(a + b) == (Partition(a).0 + Partition(b).0, Partition(a).1 + Partition(b).1)
    decreases |b|
  {
    if b == [] {
      assert a + b == a;
      assert Partition(b) == ([], []);
      assert Partition(a).0 + [] == Partition(a).0 && Partition(a).1 + [] == Partition(a).1;
    } else {
      var init, c := b[..|b| - 1], b[|b| - 1];
      PartitionAppend(a, init);
      assert (a + b)[..|a + b| - 1] == a + init;
      assert (a + b)[|a + b| - 1] == c;
      var p, q, r := Partition(a), Partition(init), Partition(a + init);
      if c.isNew {
        assert Partition(b) == (q.0 + [Cleared(c)], q.1);
        assert Partition(a + b) == (r.0 + [Cleared(c)], r.1);
        assert p.0 + (q.0 + [Cleared(c)]) == (p.0 + q.0) + [Cleared(c)];
      } else {
        assert Partition(b) == (q.0, q.1 + [c]);
        assert Partition(a + b) == (r.0, r.1 + [c]);
        assert p.1 + (q.1 + [c]) == (p.1 + q.1) + [c];
      }
    }
  }

  lemma {:induction false} NewOnesAppend(a: seq<ColumnDef>, b: seq<ColumnDef>)
    ensures NewOnes(a + b) == NewOnes(a) + NewOnes(b)
    decreases |a|
  {
    if a == [] {
      assert a + b == b;
    } else {
      NewOnesAppend(a[1..], b);
      var h := if a[0].isNew then [a[0]] else [];
      assert (a + b)[0] == a[0] && (a + b)[1..] == a[1..] + b;
      assert NewOnes(a + b) == h + NewOnes(a[1..] + b);
      assert NewOnes(a) == h + NewOnes(a[1..]);
      assert h + (NewOnes(a[1..]) + NewOnes(b)) == (h + NewOnes(a[1..])) + NewOnes(b);
    }
  }


  lemma {:induction false} OldOnesAppend(a: seq<ColumnDef>, b: seq<ColumnDef>)
    ensures OldOnes(a + b) == OldOnes(a) + OldOnes(b)
    decreases |a|
  {
    if a == [] {
      assert a + b == b;
    } else {
      OldOnesAppend(a[1..], b);
      var h := if a[0].isNew then [] else [a[0]];
      assert (a + b)[0] == a[0] && (a + b)[1..] == a[1..] + b;
      assert OldOnes(a + b) == h + OldOnes(a[1..] + b);
      assert OldOnes(a) == h + OldOnes(a[1..]);
      assert h + (OldOnes(a[1..]) + OldOnes(b)) == (h + OldOnes(a[1..])) + OldOnes(b);
    }
  }


  /**
   * Every column goes to exactly one of the two lists: the new ones, cleared,
   * to the columns to add and the others to the columns to alter, each in
   * the table's order.
   */
  lemma {:induction false} PartitionFilters(cs: seq<ColumnDef>)
    ensures Partition(cs).0 == ClearAll(NewOnes(cs))
    ensures Partition(cs).1 == OldOnes(cs)
    decreases |cs|
  {
    if cs != [] {
      var init, c := cs[..|cs| - 1], cs[|cs| - 1];
      PartitionFilters(init);
      assert init + [c] == cs;
      NewOnesAppend(init, [c]);
      OldOnesAppend(init, [c]);
      assert [c][1..] == [];
      ClearAllAppend(NewOnes(init), NewOnes([c]));
    }
  }

  lemma ClearAllAppend(a: seq<ColumnDef>, b: seq<ColumnDef>)
    ensures ClearAll(a + b) == ClearAll(a) + ClearAll(b)
  {
  }

  lemma {:induction false} FilterSizes(cs: seq<ColumnDef>)
    ensures |NewOnes(cs)| + |OldOnes(cs)| == |cs|
    ensures forall c :: c in NewOnes(cs) ==> c.isNew && c in cs
    ensures forall c :: c in OldOnes(cs) ==> !c.isNew && c in cs
    decreases |cs|
  {
    if cs != [] {
      FilterSizes(cs[1..]);
    }
  }

  /** A table of columns none of which is new goes to the columns to alter as it is. */
  lemma {:induction false} NoNewColumns(cs: seq<ColumnDef>)
    requires forall i :: 0 <= i < |cs| ==> !cs[i].isNew
    ensures NewOnes(cs) == [] && OldOnes(cs) == cs
    decreases |cs|
  {
    if cs != [] {
      NoNewColumns(cs[1..]);
      assert [cs[0]] + cs[1..] == cs;
    }
  }

  /**
   * The flush of `table()` when modifying: a new table is created with all
   * its columns, an existing one altered; either way every column ends up
   * not new, and the table too.
   */
  function FlushSpec(t: TableData, name: string): (TableData, Op)
  {
    var after := t.(isNew := false, columns := ClearEntries(t.columns));
    if t.isNew then (after, Create(name, Values(t.columns)))
    else (after, Alter(name, Partition(Values(t.columns)).0, Partition(Values(t.columns)).1, t.dropped))
  }

  lemma FlushShape(t: TableData, name: string)
    ensures FlushSpec(t, name).0 == TableData(t.name, false, ClearEntries(t.columns), t.nextIndex, t.dropped)
    ensures t.isNew ==> FlushSpec(t, name).1 == Create(name, Values(t.columns))
    ensures !t.isNew ==> FlushSpec(t, name).1 == Alter(name, Partition(Values(t.columns)).0, Partition(Values(t.columns)).1, t.dropped)
  {
  }

  /** After a flush nothing is new, the keys are those before, and the dropped list is as it was. */
  lemma FlushClearsFlags(t: TableData, name: string, i: nat)
    requires i < |t.columns|
    ensures var u := FlushSpec(t, name).0;
      !u.isNew && |u.columns| == |t.columns| && u.columns[i].0 == t.columns[i].0 && !u.columns[i].1.isNew
      && u.dropped == t.dropped && u.nextIndex == t.nextIndex && (Wf(t) ==> Wf(u))
  {
  }

  lemma ClearTwice(e: seq<(Key, ColumnDef)>)
    ensures ClearEntries(ClearEntries(e)) == ClearEntries(e)
  {
    var r := ClearEntries(e);
    assert forall i :: 0 <= i < |r| ==> ClearEntries(r)[i] == r[i];
  }

  /** A second flush with no edits in between alters every column and adds none. */
  lemma FlushTwice(t: TableData, name: string)
    ensures var u := FlushSpec(t, name).0;
      FlushSpec(u, name).1 == Alter(name, [], Values(u.columns), t.dropped)
      && FlushSpec(u, name).0 == u
  {
    var u := FlushSpec(t, name).0;
    var cs := Values(u.columns);
    assert forall i :: 0 <= i < |cs| ==> !cs[i].isNew;
    NoNewColumns(cs);
    PartitionFilters(cs);
    assert Partition(cs) == ([], cs);
    ClearTwice(t.columns);
  }

  // ------------------------------------------------------------ flush loops

  lemma PartitionStep(d: seq<ColumnDef>, i: nat)
    requires i < |d|
    ensures var p := Partition(d[..i]);
      Partition(d[..i + 1]) == if d[i].isNew then (p.0 + [Cleared(d[i])], p.1) else (p.0, p.1 + [d[i]])
  {
    assert d[..i + 1][..i] == d[..i];
  }

  /**
   * The foreach of an existing table's flush: new columns are cleared and
   * collected to add, the others collected to alter.
   */
  method SplitColumns(cols: seq<(Key, Column)>) returns (add: seq<ColumnDef>, alter: seq<ColumnDef>)
    requires DistinctObjects(cols)
    modifies ColumnObjects(cols)
    ensures (add, alter) == Partition(Values(old(EntryDefs(cols))))
    ensures EntryDefs(cols) == ClearEntries(old(EntryDefs(cols)))
  {
    ghost var before := EntryDefs(cols);
    ghost var d := Values(before);
    add, alter := [], [];
    var i := 0;
    while i < |cols|
      invariant 0 <= i <= |cols|
      invariant (add, alter) == Partition(d[..i])
      invariant forall j :: 0 <= j < |cols| ==> cols[j].1.Def() == if j < i then Cleared(before[j].1) else before[j].1
    {
      var c := cols[i].1;
      assert c.Def() == d[i];
      PartitionStep(d, i);
      if c.isNew {
        c.isNew := false;
        add := add + [c.Def()];
      } else {
        alter := alter + [c.Def()];
      }
      i := i + 1;
    }
    assert d[..|cols|] == d;
    ClearEntriesOf(cols, before);
  }

  /** The closing foreach of a flush: every column stops being new. */
  method ClearColumns(cols: seq<(Key, Column)>, dropped: Dropped)
    requires DistinctObjects(cols) && ColumnObjects(cols) !! DroppedObjects(dropped)
    modifies ColumnObjects(cols)
    ensures EntryDefs(cols) == ClearEntries(old(EntryDefs(cols)))
    ensures DroppedDefs(dropped) == old(DroppedDefs(dropped))
  {
    ghost var before := EntryDefs(cols);
    var i := 0;
    while i < |cols|
      invariant 0 <= i <= |cols|
      invariant forall j :: 0 <= j < |cols| ==> cols[j].1.Def() == if j < i then Cleared(before[j].1) else before[j].1
    {
      cols[i].1.isNew := false;
      i := i + 1;
    }
    ClearEntriesOf(cols, before);
  }

  lemma ClearEntriesOf(cols: seq<(Key, Column)>, before: seq<(Key, ColumnDef)>)
    requires |before| == |cols| && forall j :: 0 <= j < |cols| ==> cols[j].0 == before[j].0
    requires forall j :: 0 <= j < |cols| ==> cols[j].1.Def() == Cleared(before[j].1)
    ensures EntryDefs(cols) == ClearEntries(before)
  {
  }

  // ------------------------------------------------------------ Migration

  /** One call of an `up` or `down` body. */
  datatype Step = TableStep(name: string, edits: seq<Edit>) | DropStep(name: string)

  /** A migration class: the bodies of its `up` and `down`. */
  datatype MigrationDef = MigrationDef(up: seq<Step>, down: seq<Step>)

  /** The body `runMigration` runs. */
  function Body(m: MigrationDef, up: bool): seq<Step>
  {
    if up then m.up else m.down
  }

  function StepName(s: Step): string
  {
    match s
    case TableStep(n, _) => n
    case DropStep(n) => n
  }

  function OpTable(op: Op): string
  {
    op.table
  }

  /** The tables a run of calls was made on, in order. */
  function OpTables(os: seq<Op>): seq<string>
  {
    if os == [] then [] else OpTables(os[..|os| - 1]) + [OpTable(os[|os| - 1])]
  }

  /** The tables a run of steps names, in order. */
  function StepNames(ss: seq<Step>): seq<string>
  {
    if ss == [] then [] else StepNames(ss[..|ss| - 1]) + [StepName(ss[|ss| - 1])]
  }

  /** One more call, made for the next step, keeps the log naming the steps run. */
  lemma LogStep(recorded: seq<Op>, op: Op, steps: seq<Step>)
    requires |recorded| < |steps| && OpTables(recorded) == StepNames(steps[..|recorded|])
    requires OpTable(op) == StepName(steps[|recorded|])
    ensures OpTables(recorded + [op]) == StepNames(steps[..|recorded| + 1])
  {
    assert (recorded + [op])[..|recorded|] == recorded;
    assert steps[..|recorded| + 1][..|recorded|] == steps[..|recorded|];
  }

  class Migrator {
    /** The static `$modify` flag. */
    var modifying: bool
    /** The calls made on the connection, in order. */
    var ops: seq<Op>
    const registry: Registry

    constructor(registry: Registry)
      ensures this.registry == registry && !modifying && ops == []
    {
      this.registry := registry;
      modifying := false;
      ops := [];
    }

    /**
     * The state after `table($name, $callable)` run on a table that was
     * `prior` with the log at `log`: the table holds the edits' result and,
     * when modifying and no Error was thrown, has been flushed and its create
     * or alter call recorded.
     */
    predicate TableDone(prior: TableData, log: seq<Op>, name: string, edits: seq<Edit>, threw: bool)
      reads this, registry, registry.Named(name), registry.NamedColumns(name), registry.NamedDropped(name)
    {
      name in registry.tables &&
      var (u, err) := ApplySpec(prior, edits);
      threw == err &&
      if err || !modifying then ops == log && registry.tables[name].Snap() == u
      else registry.tables[name].Snap() == FlushSpec(u, name).0 && ops == log + [FlushSpec(u, name).1]
    }

    /** The flush `table()` performs when modifying. */
    method Flush(t: Table, name: string)
      requires t.Valid()
      modifies this, t, ColumnObjects(t.columns)
      ensures t.Valid() && t.columns == old(t.columns) && modifying == old(modifying)
      ensures t.Snap() == FlushSpec(old(t.Snap()), name).0
      ensures ops == old(ops) + [FlushSpec(old(t.Snap()), name).1]
    {
      FlushShape(t.Snap(), name);
      if t.isNew {
        FlushNew(t, name);
      } else {
        FlushExisting(t, name);
      }
    }

    /** A new table: `createTable` with its columns as they are, then every flag cleared. */
    method FlushNew(t: Table, name: string)
      requires t.Valid() && t.isNew
      modifies this, t, ColumnObjects(t.columns)
      ensures t.Valid() && t.columns == old(t.columns) && modifying == old(modifying)
      ensures t.Snap() == TableData(old(t.name), false, ClearEntries(old(EntryDefs(t.columns))), old(t.nextIndex), old(DroppedDefs(t.dropped)))
      ensures ops == old(ops) + [Create(name, Values(old(EntryDefs(t.columns))))]
    {
      var defs := EntryDefs(t.columns);
      Log(Create(name, Values(defs)), t.columns);
      MarkCreated(t);
      ClearColumns(t.columns, t.dropped);
    }

    /** `$table->isNew = false`, which leaves every column as it was. */
    static method MarkCreated(t: Table)
      requires t.Valid()
      modifies t
      ensures t.Valid() && !t.isNew && t.columns == old(t.columns) && t.dropped == old(t.dropped)
      ensures t.name == old(t.name) && t.nextIndex == old(t.nextIndex)
      ensures EntryDefs(t.columns) == old(EntryDefs(t.columns)) && DroppedDefs(t.dropped) == old(DroppedDefs(t.dropped))
    {
      t.isNew := false;
    }

    /** An existing table: the split, `alterTable`, then every flag cleared. */
    method FlushExisting(t: Table, name: string)
      requires t.Valid() && !t.isNew
      modifies this, ColumnObjects(t.columns)
      ensures modifying == old(modifying)
      ensures t.Snap() == TableData(t.name, false, ClearEntries(old(EntryDefs(t.columns))), t.nextIndex, old(DroppedDefs(t.dropped)))
      ensures ops == old(ops) + [Alter(name, Partition(Values(old(EntryDefs(t.columns)))).0,
                                       Partition(Values(old(EntryDefs(t.columns)))).1, old(DroppedDefs(t.dropped)))]
    {
      ghost var defs := EntryDefs(t.columns);
      SplitAndAlter(t.columns, t.dropped, name);
      ClearColumns(t.columns, t.dropped);
      ClearTwice(defs);
    }

    /** The foreach over an existing table's columns, then `alterTable` with its dropped list. */
    method SplitAndAlter(cols: seq<(Key, Column)>, dropped: Dropped, name: string)
      requires DistinctObjects(cols)
      modifies this, ColumnObjects(cols)
      ensures modifying == old(modifying)
      ensures EntryDefs(cols) == ClearEntries(old(EntryDefs(cols)))
      ensures ops == old(ops) + [Alter(name, Partition(Values(old(EntryDefs(cols)))).0,
                                       Partition(Values(old(EntryDefs(cols)))).1, old(DroppedDefs(dropped)))]
    {
      // The loop touches no dropped column, so the list is the same before and after it.
      var droppedDefs := DroppedDefs(dropped);
      var add, alter := SplitColumns(cols);
      Log(Alter(name, add, alter, droppedDefs), cols);
    }

    /** Records one schema operation; no column changes. */
    method Log(op: Op, cols: seq<(Key, Column)>)
      modifies this
      ensures ops == old(ops) + [op] && modifying == old(modifying)
      ensures EntryDefs(cols) == old(EntryDefs(cols))
    {
      ops := ops + [op];
    }

    /** `table($name, $callable)`. */
    method Table(name: string, edits: seq<Edit>) returns (threw: bool)
      requires registry.Valid()
      modifies this, registry, registry.Named(name), registry.NamedColumns(name)
      ensures registry.Valid() && modifying == old(modifying)
      ensures TableDone(old(registry.Prior(name)), old(ops), name, edits, threw)
      ensures old(registry.objects) <= registry.objects && fresh(registry.objects - old(registry.objects))
    {
      var t;
      t, threw := registry.With(name, edits);
      if !threw && modifying {
        FlushLive(t, name);
      }
    }

    /** The flush of the live table `t`, which leaves the registry valid. */
    method FlushLive(t: Table, name: string)
      requires registry.Valid() && name in registry.tables && registry.tables[name] == t
      modifies this, t, ColumnObjects(t.columns)
      ensures registry.Valid() && modifying == old(modifying)
      ensures t.Snap() == FlushSpec(old(t.Snap()), name).0
      ensures ops == old(ops) + [FlushSpec(old(t.Snap()), name).1]
    {
      Flush(t, name);
      assert forall n :: n in registry.tables && registry.tables[n] != t ==> registry.tables[n].Valid();
    }

    /** `dropTable($name)`. */
    method DropTable(name: string)
      requires registry.Valid()
      modifies this, registry
      ensures registry.Valid() && modifying == old(modifying) && registry.objects == old(registry.objects)
      ensures ops == old(ops) + if modifying then [Op.DropTable(name)] else []
      ensures name in old(registry.tables) ==>
        registry.tables == old(registry.tables) - {name} && registry.dropped == old(registry.dropped)[name := old(registry.tables)[name]]
      ensures name !in old(registry.tables) ==>
        registry.tables == old(registry.tables) && name in registry.dropped && fresh(registry.dropped[name])
        && registry.dropped[name].Snap() == Fresh(name, false)
        && registry.dropped == old(registry.dropped)[name := registry.dropped[name]]
    {
      registry.Drop(name);
      if modifying {
        ops := ops + [Op.DropTable(name)];
      }
    }

    /** One call of an `up` or `down` body. */
    method RunStep(step: Step) returns (threw: bool)
      requires registry.Valid()
      modifies this, registry, registry.objects
      ensures registry.Valid() && modifying == old(modifying)
      ensures old(registry.objects) <= registry.objects && fresh(registry.objects - old(registry.objects))
      ensures if modifying && !threw then |ops| == |old(ops)| + 1 && ops[..|old(ops)|] == old(ops) && OpTable(ops[|old(ops)|]) == StepName(step)
              else ops == old(ops)
      ensures step.TableStep? ==> TableDone(old(registry.Prior(step.name)), old(ops), step.name, step.edits, threw)
      ensures step.DropStep? ==> !threw
    {
      match step {
        case TableStep(name, edits) =>
          threw := Table(name, edits);
        case DropStep(name) =>
          DropTable(name);
          threw := false;
      }
    }

    /**
     * `runMigration($up, $modify)`: sets the flag, then runs the body of
     * `up` or `down`.
     */
    method RunMigration(m: MigrationDef, up: bool, shouldModify: bool) returns (threw: bool)
      requires registry.Valid()
      modifies this, registry, registry.objects
      ensures registry.Valid() && modifying == shouldModify
      ensures old(registry.objects) <= registry.objects && fresh(registry.objects - old(registry.objects))
      ensures |old(ops)| <= |ops| <= |old(ops)| + |Body(m, up)| && ops[..|old(ops)|] == old(ops)
      ensures OpTables(ops[|old(ops)|..]) == StepNames(Body(m, up)[..|ops| - |old(ops)|])
      ensures !shouldModify ==> ops == old(ops)
      ensures shouldModify && !threw ==> |ops| == |old(ops)| + |Body(m, up)|
      ensures |Body(m, up)| == 1 && Body(m, up)[0].TableStep? ==>
        TableDone(old(registry.Prior(Body(m, up)[0].name)), old(ops), Body(m, up)[0].name, Body(m, up)[0].edits, threw)
    {
      modifying := shouldModify;
      threw := RunSteps(Body(m, up));
    }

    /**
     * A body of `table()` and `dropTable()` calls, which an Error stops.
     * When modifying, each completed step records one call, on its own
     * table, in order; a body of one `table()` call behaves as that call.
     */
    method RunSteps(steps: seq<Step>) returns (threw: bool)
      requires registry.Valid()
      modifies this, registry, registry.objects
      ensures registry.Valid() && modifying == old(modifying)
      ensures old(registry.objects) <= registry.objects && fresh(registry.objects - old(registry.objects))
      ensures |old(ops)| <= |ops| <= |old(ops)| + |steps| && ops[..|old(ops)|] == old(ops)
      ensures OpTables(ops[|old(ops)|..]) == StepNames(steps[..|ops| - |old(ops)|])
      ensures !modifying ==> ops == old(ops)
      ensures modifying && !threw ==> |ops| == |old(ops)| + |steps|
      ensures |steps| == 1 && steps[0].TableStep? ==>
        TableDone(old(registry.Prior(steps[0].name)), old(ops), steps[0].name, steps[0].edits, threw)
    {
      ghost var log0 := ops;
      ghost var recorded: seq<Op> := [];
      ghost var single := |steps| == 1 && steps[0].TableStep?;
      ghost var prior0 := if single then registry.Prior(steps[0].name) else Fresh("", false);
      var i := 0;
      threw := false;
      while i < |steps| && !threw
        invariant 0 <= i <= |steps| && registry.Valid() && modifying == old(modifying) && (i == 0 ==> !threw)
        invariant old(registry.objects) <= registry.objects && fresh(registry.objects - old(registry.objects))
        invariant ops == log0 + recorded && |recorded| <= i
        invariant OpTables(recorded) == StepNames(steps[..|recorded|])
        invariant !modifying ==> recorded == []
        invariant modifying && !threw ==> |recorded| == i
        invariant single && i == 0 ==> registry.Prior(steps[0].name) == prior0 && ops == log0
        invariant single && i == 1 ==> TableDone(prior0, log0, steps[0].name, steps[0].edits, threw)
      {
        threw, recorded := RunLogged(steps, i, log0, recorded);
        i := i + 1;
      }
      assert ops[|log0|..] == recorded;
    }

    /** One call of the body, with the operations recorded so far extended by its own. */
    method RunLogged(steps: seq<Step>, i: nat, ghost log0: seq<Op>, ghost recorded: seq<Op>)
      returns (threw: bool, ghost recorded': seq<Op>)
      requires registry.Valid() && |recorded| <= i < |steps|
      requires ops == log0 + recorded && OpTables(recorded) == StepNames(steps[..|recorded|])
      requires !modifying ==> recorded == []
      requires modifying ==> |recorded| == i
      modifies this, registry, registry.objects
      ensures registry.Valid() && modifying == old(modifying)
      ensures old(registry.objects) <= registry.objects && fresh(registry.objects - old(registry.objects))
      ensures ops == log0 + recorded' && |recorded| <= |recorded'| <= i + 1
      ensures OpTables(recorded') == StepNames(steps[..|recorded'|])
      ensures !modifying ==> recorded' == []
      ensures modifying && !threw ==> |recorded'| == i + 1
      ensures steps[i].TableStep? ==>
        TableDone(old(registry.Prior(steps[i].name)), old(ops), steps[i].name, steps[i].edits, threw)
    {
      threw := RunStep(steps[i]);
      recorded' := recorded;
      if ops != old(ops) {
        assert ops == old(ops) + [ops[|old(ops)|]];
        LogStep(recorded, ops[|old(ops)|], steps);
        recorded' := recorded + [ops[|old(ops)|]];
      }
    }
  }
}
