/**
 * The schema registry (schema/Table.php): tables with an ordered,
 * associative array of columns, and the process-wide maps of live and
 * dropped tables, here the fields of a Registry object.
 */
module Tables {
  import opened Wrappers
  import opened Decimal
  import opened Columns
  import ColumnTypes

  // ------------------------------------------------------------ array keys

  /** A PHP array key: an integer (what `$a[] =` assigns) or a string. */
  datatype Key = Pos(index: int) | Name(name: string)

  /** The key a string denotes: canonical decimal strings become integers. */
  function KeyOf(s: string): Key
  {
    if IsCanonicalInt(s) then Pos(ParseInt(s)) else Name(s)
  }

  /** The printed form of an index looks up that index. */
  lemma KeyOfIndex(i: int)
    ensures KeyOf(IntToString(i)) == Pos(i)
  {
    IntToStringRoundTrip(i);
  }

  /** Different strings denote different keys. */
  lemma KeyOfInjective(a: string, b: string)
    ensures KeyOf(a) == KeyOf(b) <==> a == b
  {
    if KeyOf(a) == KeyOf(b) && IsCanonicalInt(a) && IsCanonicalInt(b) {
      ParseIntRoundTrip(a);
      ParseIntRoundTrip(b);
    }
  }

  // ------------------------------------------------------------ ordered arrays

  predicate DistinctKeys<V>(e: seq<(Key, V)>)
  {
    forall i, j :: 0 <= i < j < |e| ==> e[i].0 != e[j].0
  }

  /** The position of a key (`array_key_exists` when it is not None). */
  function Find<V>(e: seq<(Key, V)>, k: Key): (r: Option<nat>)
    ensures r.Some? ==> r.value < |e| && e[r.value].0 == k && forall i :: 0 <= i < r.value ==> e[i].0 != k
    ensures r.None? ==> forall i :: 0 <= i < |e| ==> e[i].0 != k
  {
    if e == [] then None
    else if e[0].0 == k then Some(0)
    else match Find(e[1..], k)
      case None => None
      case Some(i) => Some(i + 1)
  }

  /** `$a[$k] ?? null`. */
  function Lookup<V>(e: seq<(Key, V)>, k: Key): Option<V>
  {
    match Find(e, k)
    case None => None
    case Some(i) => Some(e[i].1)
  }

  /** `unset($a[$k])`. */
  function Remove<V>(e: seq<(Key, V)>, k: Key): seq<(Key, V)>
  {
    if e == [] then [] else (if e[0].0 == k then [] else [e[0]]) + Remove(e[1..], k)
  }

  /** `$a[$k] = $v`: an existing key keeps its place, a new one goes last. */
  function Put<V>(e: seq<(Key, V)>, k: Key, v: V): seq<(Key, V)>
  {
    match Find(e, k)
    case Some(i) => e[i := (k, v)]
    case None => e + [(k, v)]
  }

  lemma DistinctTail<V>(e: seq<(Key, V)>)
    requires e != [] && DistinctKeys(e)
    ensures DistinctKeys(e[1..]) && Find(e[1..], e[0].0).None?
  {
    assert forall a :: 0 <= a < |e[1..]| ==> e[1..][a] == e[a + 1];
  }

  lemma SpliceCons<T>(x: T, tail: seq<T>, j: nat)
    requires j < |tail|
    ensures [x] + (tail[..j] + tail[j + 1..]) == ([x] + tail)[..j + 1] + ([x] + tail)[j + 2..]
  {
    var e := [x] + tail;
    assert e[..j + 1] == [x] + tail[..j];
    assert e[j + 2..] == tail[j + 1..];
  }

  /** What `unset` leaves when the key is the first of the array or absent from it. */
  ghost predicate RemovesAt<V>(e: seq<(Key, V)>, k: Key)
  {
    match Find(e, k)
    case None => Remove(e, k) == e
    case Some(i) => Remove(e, k) == e[..i] + e[i + 1..]
  }

  lemma RemoveAtHead<V>(e: seq<(Key, V)>, k: Key)
    requires e != [] && e[0].0 == k && Remove(e[1..], k) == e[1..]
    ensures RemovesAt(e, k)
  {
    assert e[..0] + e[1..] == e[1..];
  }

  lemma RemoveAfterHead<V>(e: seq<(Key, V)>, k: Key)
    requires e != [] && e[0].0 != k && RemovesAt(e[1..], k)
    ensures RemovesAt(e, k)
  {
    var tail := e[1..];
    assert e == [e[0]] + tail;
    match Find(tail, k)
    case None =>
    case Some(j) =>
      SpliceCons(e[0], tail, j);
  }

  /** `unset` takes out exactly the entry of its key and keeps the order of the rest. */
  lemma {:induction false} RemoveTakesOut<V>(e: seq<(Key, V)>, k: Key)
    requires DistinctKeys(e)
    ensures Find(e, k).None? ==> Remove(e, k) == e
    ensures Find(e, k).Some? ==> Remove(e, k) == e[..Find(e, k).value] + e[Find(e, k).value + 1..]
    decreases |e|
  {
    if e != [] {
      DistinctTail(e);
      RemoveTakesOut(e[1..], k);
      if e[0].0 == k {
        RemoveAtHead(e, k);
      } else {
        assert RemovesAt(e[1..], k);
        RemoveAfterHead(e, k);
      }
      assert RemovesAt(e, k);
    }
  }

  /** Where each remaining entry came from. */
  lemma RemoveIndex<V>(e: seq<(Key, V)>, k: Key, i: nat, a: nat)
    requires DistinctKeys(e) && Find(e, k) == Some(i) && a < |e| - 1
    ensures |Remove(e, k)| == |e| - 1 && Remove(e, k)[a] == e[if a < i then a else a + 1]
  {
    RemoveTakesOut(e, k);
  }

  lemma RemoveKeepsDistinct<V>(e: seq<(Key, V)>, k: Key)
    requires DistinctKeys(e)
    ensures DistinctKeys(Remove(e, k))
  {
    RemoveTakesOut(e, k);
    if Find(e, k).Some? {
      var i := Find(e, k).value;
      var r := Remove(e, k);
      forall a, b | 0 <= a < b < |r|
        ensures r[a].0 != r[b].0
      {
        RemoveIndex(e, k, i, a);
        RemoveIndex(e, k, i, b);
      }
    }
  }

  /** With distinct keys, the position holding a key is the one Find returns. */
  lemma FindKey<V>(e: seq<(Key, V)>, k: Key, i: nat)
    requires DistinctKeys(e) && i < |e| && e[i].0 == k
    ensures Find(e, k) == Some(i)
  {
  }

  lemma FindNone<V>(e: seq<(Key, V)>, k: Key)
    requires forall a :: 0 <= a < |e| ==> e[a].0 != k
    ensures Find(e, k) == None
  {
  }

  lemma RemoveOfMissing<V>(e: seq<(Key, V)>, k: Key)
    requires DistinctKeys(e) && Find(e, k).None?
    ensures Remove(e, k) == e
  {
    RemoveTakesOut(e, k);
  }

  lemma RemoveLength<V>(e: seq<(Key, V)>, k: Key)
    requires DistinctKeys(e)
    ensures |Remove(e, k)| == if Find(e, k).Some? then |e| - 1 else |e|
  {
    RemoveTakesOut(e, k);
  }

  /** After `unset`, the key is gone. */
  lemma LookupAfterRemove<V>(e: seq<(Key, V)>, k: Key)
    requires DistinctKeys(e)
    ensures Lookup(Remove(e, k), k) == None
  {
    var r := Remove(e, k);
    match Find(e, k)
    case None =>
      RemoveOfMissing(e, k);
    case Some(i) =>
      RemoveLength(e, k);
      forall a | 0 <= a < |r|
        ensures r[a].0 != k
      {
        RemoveIndex(e, k, i, a);
      }
      FindNone(r, k);
  }

  lemma LookupOtherMissing<V>(e: seq<(Key, V)>, k: Key, other: Key, i: nat)
    requires DistinctKeys(e) && Find(e, k) == Some(i) && Find(e, other).None?
    ensures Lookup(Remove(e, k), other).None?
  {
    var r := Remove(e, k);
    RemoveLength(e, k);
    forall a | 0 <= a < |r|
      ensures r[a].0 != other
    {
      RemoveIndex(e, k, i, a);
    }
    FindNone(r, other);
  }

  lemma LookupOtherPresent<V>(e: seq<(Key, V)>, k: Key, other: Key, i: nat, j: nat)
    requires DistinctKeys(e) && Find(e, k) == Some(i) && Find(e, other) == Some(j) && i != j
    ensures Lookup(Remove(e, k), other) == Some(e[j].1)
  {
    var a := RemovedPosition(e, k, i, j);
    RemoveKeepsDistinct(e, k);
    FindKey(Remove(e, k), other, a);
  }

  /** Where an entry other than the removed one ends up. */
  lemma RemovedPosition<V>(e: seq<(Key, V)>, k: Key, i: nat, j: nat) returns (a: nat)
    requires DistinctKeys(e) && Find(e, k) == Some(i) && j < |e| && i != j
    ensures a < |Remove(e, k)| && Remove(e, k)[a] == e[j]
  {
    a := if j < i then j else j - 1;
    RemoveIndex(e, k, i, a);
  }

  /** After `unset`, every other key finds what it found. */
  lemma LookupOtherAfterRemove<V>(e: seq<(Key, V)>, k: Key, other: Key)
    requires DistinctKeys(e) && other != k
    ensures Lookup(Remove(e, k), other) == Lookup(e, other)
  {
    match Find(e, k)
    case None =>
      RemoveOfMissing(e, k);
    case Some(i) =>
      match Find(e, other)
      case None =>
        LookupOtherMissing(e, k, other, i);
      case Some(j) =>
        LookupOtherPresent(e, k, other, i, j);
  }


  lemma PutKeepsDistinct<V>(e: seq<(Key, V)>, k: Key, v: V)
    requires DistinctKeys(e)
    ensures DistinctKeys(Put(e, k, v))
  {
  }

  /** The first position holding a key is the one Find returns. */
  lemma FindFirst<V>(e: seq<(Key, V)>, k: Key, i: nat)
    requires i < |e| && e[i].0 == k && forall a :: 0 <= a < i ==> e[a].0 != k
    ensures Find(e, k) == Some(i)
  {
  }

  /** After `$a[$k] = $v`, the key finds `$v` and every other key finds what it found. */
  lemma LookupAfterPut<V>(e: seq<(Key, V)>, k: Key, v: V, other: Key)
    ensures Lookup(Put(e, k, v), k) == Some(v)
    ensures other != k ==> Lookup(Put(e, k, v), other) == Lookup(e, other)
  {
    var r := Put(e, k, v);
    var i := if Find(e, k).Some? then Find(e, k).value else |e|;
    assert r[i] == (k, v);
    assert forall a :: 0 <= a < |e| && a != i ==> r[a] == e[a];
    FindFirst(r, k, i);
    if other != k {
      match Find(e, other)
      case None =>
        FindNone(r, other);
      case Some(j) =>
        FindFirst(r, other, j);
    }
  }

  // ------------------------------------------------------------ table data

  /** `droppedColumns`: an array of columns, or the single stub a missing key leaves there. */
  datatype DroppedData = DroppedEntries(entries: seq<(Key, ColumnDef)>) | DroppedStub(stub: ColumnDef)

  /** The fields of a Table at one moment, with its columns read from their objects. */
  datatype TableData = TableData(name: string, isNew: bool, columns: seq<(Key, ColumnDef)>, nextIndex: int, dropped: DroppedData)

  /** What `dropColumn` did: moved the column, stubbed the dropped list, or raised an Error. */
  datatype DropOutcome = Moved | Overwrote | Threw

  /** The keys `$a[] =` leaves: distinct integers below the next free index. */
  predicate KeysWf<V>(e: seq<(Key, V)>, next: int)
  {
    DistinctKeys(e) && forall i :: 0 <= i < |e| ==> e[i].0.Pos? && e[i].0.index < next
  }

  /** A table's own invariant. */
  predicate Wf(t: TableData)
  {
    KeysWf(t.columns, t.nextIndex)
  }

  /** `new Table($name, $isNew)`. */
  function Fresh(name: string, isNew: bool): TableData
  {
    TableData(name, isNew, [], 0, DroppedEntries([]))
  }

  /** `addPrimary` marks the column AUTO INCREMENT only when `autoIncrement` is false. */
  function PrimaryDef(name: string, autoIncrement: bool): ColumnDef
  {
    ColumnDef(name, TypeName(ColumnTypes.INTEGER), -1, if autoIncrement then [] else ["AUTO INCREMENT"], true, true)
  }

  function IntegerDef(name: string): ColumnDef
  {
    ColumnDef(name, TypeName(ColumnTypes.INTEGER), -1, [], false, true)
  }

  function StringDef(name: string, length: int): ColumnDef
  {
    ColumnDef(name, TypeName(ColumnTypes.VARCHAR), length, [], false, true)
  }

  /** The column `dropColumn` creates for a key that is not there. */
  function StubDef(name: string): ColumnDef
  {
    ColumnDef(name, None, -1, [], false, true)
  }

  /** `$this->columns[] = $column`. */
  function AddSpec(t: TableData, c: ColumnDef): TableData
  {
    t.(columns := t.columns + [(Pos(t.nextIndex), c)], nextIndex := t.nextIndex + 1)
  }

  /** `dropColumn($column)`. */
  function DropSpec(t: TableData, column: string): (TableData, DropOutcome)
  {
    var k := KeyOf(column);
    match Lookup(t.columns, k)
    case None => (t.(dropped := DroppedStub(StubDef(column))), Overwrote)
    case Some(c) =>
      if t.dropped.DroppedStub? then (t, Threw)
      else (t.(columns := Remove(t.columns, k), dropped := DroppedEntries(Put(t.dropped.entries, k, c))), Moved)
  }

  /** An added column is found under the next index, and nothing else moves. */
  lemma AddIsFoundAtIndex(t: TableData, c: ColumnDef, other: Key)
    requires Wf(t)
    ensures Wf(AddSpec(t, c))
    ensures Lookup(AddSpec(t, c).columns, Pos(t.nextIndex)) == Some(c)
    ensures other != Pos(t.nextIndex) ==> Lookup(AddSpec(t, c).columns, other) == Lookup(t.columns, other)
  {
    var r := AddSpec(t, c).columns;
    assert r == Put(t.columns, Pos(t.nextIndex), c) by {
      FindNone(t.columns, Pos(t.nextIndex));
    }
    LookupAfterPut(t.columns, Pos(t.nextIndex), c, other);
  }

  /**
   * The add methods store under integer keys, so looking a column up by its
   * name finds nothing unless the name is itself a number.
   */
  lemma NamedLookupMisses(t: TableData, column: string)
    requires Wf(t) && !IsCanonicalInt(column)
    ensures Lookup(t.columns, KeyOf(column)) == None
  {
    FindNone(t.columns, KeyOf(column));
  }

  /**
   * Dropping the key of a column moves that column to the dropped list
   * under the same key; the other columns stay, in order.
   */
  lemma DropMovesColumn(t: TableData, column: string, i: nat)
    requires Wf(t) && t.dropped.DroppedEntries? && i < |t.columns| && t.columns[i].0 == KeyOf(column)
    ensures DropSpec(t, column).1 == Moved
    ensures DropSpec(t, column).0.columns == t.columns[..i] + t.columns[i + 1..]
    ensures Lookup(DropSpec(t, column).0.dropped.entries, KeyOf(column)) == Some(t.columns[i].1)
    ensures Wf(DropSpec(t, column).0)
  {
    var k := KeyOf(column);
    FindKey(t.columns, k, i);
    RemoveTakesOut(t.columns, k);
    LookupAfterPut(t.dropped.entries, k, t.columns[i].1, k);
    var r := DropSpec(t, column).0;
    forall a | 0 <= a < |r.columns|
      ensures r.columns[a].0.Pos? && r.columns[a].0.index < r.nextIndex
    {
      RemoveIndex(t.columns, k, i, a);
    }
    RemoveKeepsDistinct(t.columns, k);
  }

  /** Once the dropped list is a stub, dropping a present column raises an Error and changes nothing. */
  lemma DropAfterStubThrows(t: TableData, column: string)
    requires t.dropped.DroppedStub? && Lookup(t.columns, KeyOf(column)).Some?
    ensures DropSpec(t, column) == (t, Threw)
  {
  }

  /** Dropping a missing key replaces the whole dropped list by a stub column. */
  lemma DropOfMissingStubs(t: TableData, column: string)
    requires Lookup(t.columns, KeyOf(column)).None?
    ensures DropSpec(t, column).1 == Overwrote
    ensures DropSpec(t, column).0 == t.(dropped := DroppedStub(StubDef(column)))
  {
  }

  /** Every drop keeps the table's invariant. */
  lemma DropKeepsWf(t: TableData, column: string)
    requires Wf(t)
    ensures Wf(DropSpec(t, column).0)
  {
    var k := KeyOf(column);
    if Lookup(t.columns, k).Some? && t.dropped.DroppedEntries? {
      DropMovesColumn(t, column, Find(t.columns, k).value);
    }
  }

  /** A column added and then dropped by the printed form of its index is the one moved. */
  lemma DropByIndexFindsAdded(t: TableData, c: ColumnDef)
    requires Wf(t) && t.dropped.DroppedEntries?
    ensures DropSpec(AddSpec(t, c), IntToString(t.nextIndex)).1 == Moved
    ensures DropSpec(AddSpec(t, c), IntToString(t.nextIndex)).0.columns == t.columns
  {
    KeyOfIndex(t.nextIndex);
    AddIsFoundAtIndex(t, c, Pos(t.nextIndex));
    var u := AddSpec(t, c);
    DropMovesColumn(u, IntToString(t.nextIndex), |t.columns|);
    assert u.columns[..|t.columns|] == t.columns;
  }

  // ------------------------------------------------------------ edits

  /** What a callable given to `Table::with` does to the table, one call at a time. */
  datatype Edit =
    | AddPrimaryEdit(column: string, autoIncrement: bool)
    | AddIntegerEdit(column: string)
    | AddStringEdit(column: string, length: int)
    | DropColumnEdit(column: string)

  /** One edit, and whether it raised an Error. */
  function EditSpec(t: TableData, e: Edit): (TableData, bool)
  {
    match e
    case AddPrimaryEdit(n, a) => (AddSpec(t, PrimaryDef(n, a)), false)
    case AddIntegerEdit(n) => (AddSpec(t, IntegerDef(n)), false)
    case AddStringEdit(n, length) => (AddSpec(t, StringDef(n, length)), false)
    case DropColumnEdit(n) => (DropSpec(t, n).0, DropSpec(t, n).1 == Threw)
  }

  /** The edits in order; an Error ends the callable, so later edits do not happen. */
  function ApplySpec(t: TableData, edits: seq<Edit>): (TableData, bool)
    decreases |edits|
  {
    if edits == [] then (t, false)
    else
      var (u, threw) := EditSpec(t, edits[0]);
      if threw then (u, true) else ApplySpec(u, edits[1..])
  }

  lemma EditKeepsWf(t: TableData, e: Edit)
    requires Wf(t)
    ensures Wf(EditSpec(t, e).0)
  {
    match e
    case AddPrimaryEdit(n, a) => AddIsFoundAtIndex(t, PrimaryDef(n, a), Pos(0));
    case AddIntegerEdit(n) => AddIsFoundAtIndex(t, IntegerDef(n), Pos(0));
    case AddStringEdit(n, length) => AddIsFoundAtIndex(t, StringDef(n, length), Pos(0));
    case DropColumnEdit(n) => DropKeepsWf(t, n);
  }

  /** A callable made of these edits keeps the table's invariant. */
  lemma {:induction false} ApplyKeepsWf(t: TableData, edits: seq<Edit>)
    requires Wf(t)
    ensures Wf(ApplySpec(t, edits).0)
    decreases |edits|
  {
    if edits != [] {
      EditKeepsWf(t, edits[0]);
      if !EditSpec(t, edits[0]).1 {
        ApplyKeepsWf(EditSpec(t, edits[0]).0, edits[1..]);
      }
    }
  }

  /** The add methods never raise, so a callable of adds only appends, in order. */
  lemma {:induction false} AddsOnlyAppend(t: TableData, edits: seq<Edit>)
    requires forall i :: 0 <= i < |edits| ==> !edits[i].DropColumnEdit?
    ensures !ApplySpec(t, edits).1
    ensures ApplySpec(t, edits).0.nextIndex == t.nextIndex + |edits|
    ensures |ApplySpec(t, edits).0.columns| == |t.columns| + |edits|
    ensures ApplySpec(t, edits).0.columns[..|t.columns|] == t.columns
    ensures ApplySpec(t, edits).0.dropped == t.dropped && ApplySpec(t, edits).0.isNew == t.isNew
    decreases |edits|
  {
    if edits != [] {
      var u := EditSpec(t, edits[0]).0;
      AddsOnlyAppend(u, edits[1..]);
      assert u.columns[..|t.columns|] == t.columns;
    }
  }

  // ------------------------------------------------------------ objects

  /** `droppedColumns` as the object graph holds it. */
  datatype Dropped = Entries(entries: seq<(Key, Column)>) | Overwritten(stub: Column)

  function ColumnObjects(e: seq<(Key, Column)>): set<Column>
  {
    set i | 0 <= i < |e| :: e[i].1
  }

  function DroppedObjects(d: Dropped): set<Column>
  {
    match d
    case Entries(e) => ColumnObjects(e)
    case Overwritten(c) => {c}
  }

  function EntryDefs(e: seq<(Key, Column)>): (r: seq<(Key, ColumnDef)>)
    reads ColumnObjects(e)
    ensures |r| == |e| && forall i :: 0 <= i < |e| ==> r[i] == (e[i].0, e[i].1.Def())
  {
    if e == [] then [] else [(e[0].0, e[0].1.Def())] + EntryDefs(e[1..])
  }

  function DroppedDefs(d: Dropped): DroppedData
    reads DroppedObjects(d)
  {
    match d
    case Entries(e) => DroppedEntries(EntryDefs(e))
    case Overwritten(c) => DroppedStub(c.Def())
  }

  predicate DistinctObjects(e: seq<(Key, Column)>)
  {
    forall i, j :: 0 <= i < j < |e| ==> e[i].1 != e[j].1
  }

  /** Reading the columns' fields does not change where keys are found. */
  lemma {:induction false} FindOfDefs(e: seq<(Key, Column)>, k: Key)
    ensures Find(EntryDefs(e), k) == Find(e, k)
    decreases |e|
  {
    if e != [] {
      assert EntryDefs(e)[1..] == EntryDefs(e[1..]);
      FindOfDefs(e[1..], k);
    }
  }

  lemma LookupOfDefs(e: seq<(Key, Column)>, k: Key)
    ensures Lookup(EntryDefs(e), k) == if Lookup(e, k).Some? then Some(Lookup(e, k).value.Def()) else None
  {
    FindOfDefs(e, k);
  }

  lemma {:induction false} RemoveOfDefs(e: seq<(Key, Column)>, k: Key)
    ensures EntryDefs(Remove(e, k)) == Remove(EntryDefs(e), k)
    decreases |e|
  {
    if e != [] {
      assert EntryDefs(e)[1..] == EntryDefs(e[1..]);
      RemoveOfDefs(e[1..], k);
      var head := if e[0].0 == k then [] else [e[0]];
      assert ColumnObjects(Remove(e[1..], k)) <= ColumnObjects(e) by {
        RemoveObjects(e[1..], k);
      }
      EntryDefsAppend(head, Remove(e[1..], k));
    }
  }

  lemma PutOfDefs(e: seq<(Key, Column)>, k: Key, c: Column)
    ensures EntryDefs(Put(e, k, c)) == Put(EntryDefs(e), k, c.Def())
  {
    FindOfDefs(e, k);
  }

  lemma EntryDefsAppend(a: seq<(Key, Column)>, b: seq<(Key, Column)>)
    ensures EntryDefs(a + b) == EntryDefs(a) + EntryDefs(b)
  {
  }

  /** `unset` only takes objects away. */
  lemma {:induction false} RemoveObjects(e: seq<(Key, Column)>, k: Key)
    ensures ColumnObjects(Remove(e, k)) <= ColumnObjects(e)
    ensures forall c :: c in ColumnObjects(Remove(e, k)) ==> exists i :: 0 <= i < |e| && e[i].0 != k && e[i].1 == c
    decreases |e|
  {
    if e != [] {
      RemoveObjects(e[1..], k);
      var head := if e[0].0 == k then [] else [e[0]];
      assert Remove(e, k) == head + Remove(e[1..], k);
      forall c | c in ColumnObjects(Remove(e, k))
        ensures exists i :: 0 <= i < |e| && e[i].0 != k && e[i].1 == c
      {
        var r := Remove(e, k);
        var a :| 0 <= a < |r| && r[a].1 == c;
        if a < |head| {
          assert e[0].0 != k && e[0].1 == c;
        } else {
          assert r[a] == Remove(e[1..], k)[a - |head|];
          assert c in ColumnObjects(Remove(e[1..], k));
          var i :| 0 <= i < |e[1..]| && e[1..][i].0 != k && e[1..][i].1 == c;
          assert e[i + 1].0 != k && e[i + 1].1 == c;
        }
      }
    }
  }

  lemma PutObjects(e: seq<(Key, Column)>, k: Key, c: Column)
    ensures ColumnObjects(Put(e, k, c)) <= ColumnObjects(e) + {c}
  {
    var r := Put(e, k, c);
    forall x | x in ColumnObjects(r)
      ensures x in ColumnObjects(e) + {c}
    {
      var a :| 0 <= a < |r| && r[a].1 == x;
      if x != c {
        assert r[a] == e[a];
      }
    }
  }

  lemma AppendObjects(e: seq<(Key, Column)>, k: Key, c: Column)
    ensures ColumnObjects(e + [(k, c)]) == ColumnObjects(e) + {c}
  {
    var r := e + [(k, c)];
    assert r[|e|].1 == c;
    forall x | x in ColumnObjects(e)
      ensures x in ColumnObjects(r)
    {
      var a :| 0 <= a < |e| && e[a].1 == x;
      assert r[a] == e[a];
    }
  }

  // ------------------------------------------------------------ Table

  class Table {
    var name: string
    var isNew: bool
    var columns: seq<(Key, Column)>
    var nextIndex: int
    var dropped: Dropped

    function Snap(): TableData
      reads this, ColumnObjects(columns), DroppedObjects(dropped)
    {
      TableData(name, isNew, EntryDefs(columns), nextIndex, DroppedDefs(dropped))
    }

    /** Positional keys, one object per column, none of them also in the dropped list. */
    predicate Valid()
      reads this
    {
      KeysWf(columns, nextIndex) && DistinctObjects(columns) && ColumnObjects(columns) !! DroppedObjects(dropped)
    }

    constructor(name: string, isNew: bool := false)
      ensures Valid() && Snap() == Fresh(name, isNew)
    {
      this.name := name;
      this.isNew := isNew;
      columns := [];
      nextIndex := 0;
      dropped := Entries([]);
    }

    /** `$this->columns[] = $c`, the value of which the add methods return. */
    method Store(c: Column) returns (r: Column)
      requires Valid() && c !in ColumnObjects(columns) && c !in DroppedObjects(dropped)
      modifies this
      ensures Valid() && r == c
      ensures columns == old(columns) + [(Pos(old(nextIndex)), c)]
      ensures Snap() == AddSpec(old(Snap()), c.Def())
    {
      ValidAfterAppend(columns, nextIndex, dropped, c);
      EntryDefsAppend(columns, [(Pos(nextIndex), c)]);
      columns := columns + [(Pos(nextIndex), c)];
      nextIndex := nextIndex + 1;
      r := c;
      assert EntryDefs(old(columns)) == old(EntryDefs(columns));
      assert DroppedDefs(dropped) == old(DroppedDefs(dropped));
    }

    method AddPrimary(name: string, autoIncrement: bool := true) returns (c: Column)
      requires Valid()
      modifies this
      ensures Valid() && fresh(c) && columns == old(columns) + [(Pos(old(nextIndex)), c)]
      ensures Snap() == AddSpec(old(Snap()), PrimaryDef(name, autoIncrement))
    {
      c := new Column(name, TypeName(ColumnTypes.INTEGER), -1, if autoIncrement then [] else ["AUTO INCREMENT"], true);
      c := Store(c);
    }

    method AddInteger(name: string) returns (c: Column)
      requires Valid()
      modifies this
      ensures Valid() && fresh(c) && columns == old(columns) + [(Pos(old(nextIndex)), c)]
      ensures Snap() == AddSpec(old(Snap()), IntegerDef(name))
    {
      c := new Column(name, TypeName(ColumnTypes.INTEGER));
      c := Store(c);
    }

    method AddString(name: string, length: int := -1) returns (c: Column)
      requires Valid()
      modifies this
      ensures Valid() && fresh(c) && columns == old(columns) + [(Pos(old(nextIndex)), c)]
      ensures Snap() == AddSpec(old(Snap()), StringDef(name, length))
    {
      c := new Column(name, TypeName(ColumnTypes.VARCHAR), length);
      c := Store(c);
    }

    /** `getColumn($column)`: the column under that key, or null. */
    method GetColumn(column: string) returns (c: Option<Column>)
      ensures c == Lookup(columns, KeyOf(column))
      ensures c.Some? ==> Lookup(Snap().columns, KeyOf(column)) == Some(c.value.Def())
      ensures c.None? ==> Lookup(Snap().columns, KeyOf(column)) == None
    {
      c := Lookup(columns, KeyOf(column));
      LookupOfDefs(columns, KeyOf(column));
    }

    /** `dropColumn($column)`. */
    method DropColumn(column: string) returns (outcome: DropOutcome)
      requires Valid()
      modifies this
      ensures Valid() && (Snap(), outcome) == DropSpec(old(Snap()), column)
      ensures outcome == Overwrote ==> dropped.Overwritten? && fresh(dropped.stub)
      ensures ColumnObjects(columns) <= old(ColumnObjects(columns))
    {
      var k := KeyOf(column);
      var found := Lookup(columns, k);
      LookupOfDefs(columns, k);
      if found.None? {
        StubDropped(column);
        outcome := Overwrote;
      } else if dropped.Overwritten? {
        // PHP: "Cannot use object of type Column as array"
        outcome := Threw;
      } else {
        MoveColumn(k);
        RemoveObjects(old(columns), k);
        outcome := Moved;
      }
    }

    /** `$this->droppedColumns[$k] = $this->columns[$k]; unset($this->columns[$k]);` */
    method MoveColumn(k: Key)
      requires Valid() && dropped.Entries? && Lookup(columns, k).Some?
      modifies this
      ensures Valid() && columns == Remove(old(columns), k)
      ensures Snap() == old(Snap()).(columns := Remove(old(Snap()).columns, k),
                                    dropped := DroppedEntries(Put(old(Snap()).dropped.entries, k, old(Lookup(columns, k).value.Def()))))
    {
      var moved := Lookup(columns, k).value;
      ValidAfterMove(columns, nextIndex, dropped.entries, k);
      RemoveOfDefs(columns, k);
      PutOfDefs(dropped.entries, k, moved);
      var kept, moves := Remove(columns, k), Put(dropped.entries, k, moved);
      Reassign(kept, Entries(moves));
    }

    /** Both arrays replaced at once, keeping the table valid. */
    method Reassign(cols: seq<(Key, Column)>, d: Dropped)
      requires KeysWf(cols, nextIndex) && DistinctObjects(cols) && ColumnObjects(cols) !! DroppedObjects(d)
      modifies this
      ensures Valid() && columns == cols && dropped == d
      ensures name == old(name) && isNew == old(isNew) && nextIndex == old(nextIndex)
      ensures EntryDefs(cols) == old(EntryDefs(cols)) && DroppedDefs(d) == old(DroppedDefs(d))
    {
      columns := cols;
      dropped := d;
    }

    /** `$this->droppedColumns = new Column($column, null)`. */
    method StubDropped(column: string)
      requires Valid()
      modifies this
      ensures Valid() && dropped.Overwritten? && fresh(dropped.stub) && columns == old(columns)
      ensures Snap() == old(Snap()).(dropped := DroppedStub(StubDef(column)))
    {
      var stub := new Column(column, None);
      dropped := Overwritten(stub);
      assert EntryDefs(columns) == old(EntryDefs(columns));
      assert ColumnObjects(columns) !! DroppedObjects(dropped);
    }

    /** One edit of a callable. */
    method ApplyOne(edit: Edit) returns (threw: bool)
      requires Valid()
      modifies this
      ensures Valid() && (Snap(), threw) == EditSpec(old(Snap()), edit)
      ensures forall c :: c in ColumnObjects(columns) ==> c in old(ColumnObjects(columns)) || fresh(c)
    {
      ghost var before, next := columns, nextIndex;
      threw := false;
      match edit {
        case AddPrimaryEdit(n, a) =>
          var c := AddPrimary(n, a);
          AppendObjects(before, Pos(next), c);
        case AddIntegerEdit(n) =>
          var c := AddInteger(n);
          AppendObjects(before, Pos(next), c);
        case AddStringEdit(n, length) =>
          var c := AddString(n, length);
          AppendObjects(before, Pos(next), c);
        case DropColumnEdit(n) =>
          var outcome := DropColumn(n);
          threw := outcome == Threw;
      }
    }

    /** Runs the edits of a callable; an Error stops it. */
    method Apply(edits: seq<Edit>) returns (threw: bool)
      requires Valid()
      modifies this
      ensures Valid() && (Snap(), threw) == ApplySpec(old(Snap()), edits)
      ensures forall c :: c in ColumnObjects(columns) ==> c in old(ColumnObjects(columns)) || fresh(c)
    {
      var i := 0;
      threw := false;
      while i < |edits| && !threw
        invariant 0 <= i <= |edits| && Valid()
        invariant ApplySpec(old(Snap()), edits) == if threw then (Snap(), true) else ApplySpec(Snap(), edits[i..])
        invariant forall c :: c in ColumnObjects(columns) ==> c in old(ColumnObjects(columns)) || fresh(c)
      {
        assert edits[i..][0] == edits[i] && edits[i..][1..] == edits[i + 1..];
        threw := ApplyOne(edits[i]);
        i := i + 1;
      }
      if !threw {
        assert edits[i..] == [];
      }
    }
  }

  /** Storing a column that is in neither list keeps a table valid. */
  lemma ValidAfterAppend(e: seq<(Key, Column)>, next: int, d: Dropped, c: Column)
    requires KeysWf(e, next) && DistinctObjects(e) && ColumnObjects(e) !! DroppedObjects(d)
    requires c !in ColumnObjects(e) && c !in DroppedObjects(d)
    ensures KeysWf(e + [(Pos(next), c)], next + 1) && DistinctObjects(e + [(Pos(next), c)])
    ensures ColumnObjects(e + [(Pos(next), c)]) !! DroppedObjects(d)
  {
    AppendObjects(e, Pos(next), c);
    KeysWfAfterAppend(e, next, c);
    DistinctAfterAppend(e, Pos(next), c);
  }

  /** Moving the column of a key to the dropped list keeps a table valid. */
  lemma ValidAfterMove(e: seq<(Key, Column)>, next: int, d: seq<(Key, Column)>, k: Key)
    requires KeysWf(e, next) && DistinctObjects(e) && ColumnObjects(e) !! ColumnObjects(d) && Lookup(e, k).Some?
    ensures KeysWf(Remove(e, k), next) && DistinctObjects(Remove(e, k))
    ensures ColumnObjects(Remove(e, k)) !! ColumnObjects(Put(d, k, Lookup(e, k).value))
  {
    var i := Find(e, k).value;
    var moved := e[i].1;
    RemoveObjects(e, k);
    PutObjects(d, k, moved);
    forall x | x in ColumnObjects(Remove(e, k))
      ensures x != moved && x !in ColumnObjects(d)
    {
      var j :| 0 <= j < |e| && e[j].0 != k && e[j].1 == x;
      assert j != i;
      assert x in ColumnObjects(e);
    }
    KeysWfAfterRemove(e, next, k);
    DistinctAfterRemove(e, k);
  }

  lemma KeysWfAfterAppend(e: seq<(Key, Column)>, next: int, c: Column)
    requires KeysWf(e, next)
    ensures KeysWf(e + [(Pos(next), c)], next + 1)
  {
  }

  lemma DistinctAfterAppend(e: seq<(Key, Column)>, k: Key, c: Column)
    requires DistinctObjects(e) && c !in ColumnObjects(e)
    ensures DistinctObjects(e + [(k, c)])
  {
    var r := e + [(k, c)];
    forall a, b | 0 <= a < b < |r|
      ensures r[a].1 != r[b].1
    {
      assert r[a] == e[a];
      if b == |e| {
        assert e[a].1 in ColumnObjects(e);
      } else {
        assert r[b] == e[b];
      }
    }
  }

  lemma KeysWfAfterRemove(e: seq<(Key, Column)>, next: int, k: Key)
    requires KeysWf(e, next)
    ensures KeysWf(Remove(e, k), next)
  {
    RemoveKeepsDistinct(e, k);
    RemoveLength(e, k);
    if Find(e, k).Some? {
      var r := Remove(e, k);
      forall a | 0 <= a < |r|
        ensures r[a].0.Pos? && r[a].0.index < next
      {
        RemoveIndex(e, k, Find(e, k).value, a);
      }
    } else {
      RemoveOfMissing(e, k);
    }
  }

  lemma DistinctAfterRemove(e: seq<(Key, Column)>, k: Key)
    requires DistinctKeys(e) && DistinctObjects(e)
    ensures DistinctObjects(Remove(e, k))
  {
    RemoveLength(e, k);
    if Find(e, k).Some? {
      var i := Find(e, k).value;
      var r := Remove(e, k);
      forall a, b | 0 <= a < b < |r|
        ensures r[a].1 != r[b].1
      {
        RemoveIndex(e, k, i, a);
        RemoveIndex(e, k, i, b);
      }
    } else {
      RemoveOfMissing(e, k);
    }
  }

  // ------------------------------------------------------------ registry

  /** The static `$tables` and `$dropped` maps of Table, keyed by table name. */
  class Registry {
    var tables: map<string, Table>
    var dropped: map<string, Table>
    /** Every live table and every column it holds. */
    ghost var objects: set<object>

    ghost predicate Valid()
      reads this, tables.Values
    {
      forall n :: n in tables ==> tables[n].Valid() && tables[n] in objects && ColumnObjects(tables[n].columns) <= objects
    }

    constructor()
      ensures Valid() && tables == map[] && dropped == map[] && objects == {}
    {
      tables := map[];
      dropped := map[];
      objects := {};
    }

    /** The live table of that name, if there is one. */
    function Named(name: string): set<Table>
      reads this
    {
      if name in tables then {tables[name]} else {}
    }

    /** The columns of that live table. */
    function NamedColumns(name: string): set<Column>
      reads this, Named(name)
    {
      if name in tables then ColumnObjects(tables[name].columns) else {}
    }

    /** The dropped list of that live table. */
    function NamedDropped(name: string): set<Column>
      reads this, Named(name)
    {
      if name in tables then DroppedObjects(tables[name].dropped) else {}
    }

    /** What `get` hands to a callable: the live table, or a new one. */
    function Prior(name: string): TableData
      reads this, Named(name), NamedColumns(name), NamedDropped(name)
    {
      if name in tables then tables[name].Snap() else Fresh(name, true)
    }

    /** `Table::get($name)`: the live table of that name, created new on first use. */
    method Get(name: string) returns (t: Table)
      requires Valid()
      modifies this
      ensures Valid() && t.Valid() && name in tables && tables[name] == t && dropped == old(dropped)
      ensures name in old(tables) ==> t == old(tables)[name] && tables == old(tables)
      ensures name !in old(tables) ==> fresh(t) && t.Snap() == Fresh(name, true) && tables == old(tables)[name := t]
      ensures old(objects) <= objects && fresh(objects - old(objects))
    {
      if name !in tables {
        t := new Table(name, true);
        tables := tables[name := t];
        objects := objects + {t};
      } else {
        t := tables[name];
      }
    }

    /**
     * `Table::drop($name)`: a live table moves to the dropped map; an unknown
     * name records a new table that is not marked new.
     */
    method Drop(name: string)
      requires Valid()
      modifies this
      ensures Valid() && objects == old(objects)
      ensures name in old(tables) ==> tables == old(tables) - {name} && dropped == old(dropped)[name := old(tables)[name]]
      ensures name !in old(tables) ==>
        tables == old(tables) && name in dropped && fresh(dropped[name]) && dropped[name].Snap() == Fresh(name, false)
        && dropped == old(dropped)[name := dropped[name]]
    {
      if name in tables {
        dropped := dropped[name := tables[name]];
        tables := tables - {name};
      } else {
        var t := new Table(name);
        dropped := dropped[name := t];
      }
    }

    /** `Table::with($name, $callable)`: the callable's edits on the table `get` returns. */
    method With(name: string, edits: seq<Edit>) returns (t: Table, threw: bool)
      requires Valid()
      modifies this, Named(name)
      ensures Valid() && name in tables && tables[name] == t && dropped == old(dropped)
      ensures old(objects) <= objects && fresh(objects - old(objects))
      ensures forall c :: c in ColumnObjects(t.columns) ==> c in old(NamedColumns(name)) || fresh(c)
      ensures name in old(tables) ==> t == old(tables)[name] && tables == old(tables)
      ensures name !in old(tables) ==> fresh(t) && tables == old(tables)[name := t]
      ensures (t.Snap(), threw) == ApplySpec(old(Prior(name)), edits)
    {
      ghost var prior := Prior(name);
      t := Get(name);
      assert t.Snap() == prior;
      threw := EditTable(name, t, edits);
    }

    /** The callable's edits on one table, which changes no other. */
    method EditTable(name: string, t: Table, edits: seq<Edit>) returns (threw: bool)
      requires Valid() && name in tables && tables[name] == t
      modifies this, t
      ensures Valid() && tables == old(tables) && dropped == old(dropped)
      ensures (t.Snap(), threw) == ApplySpec(old(t.Snap()), edits)
      ensures forall c :: c in ColumnObjects(t.columns) ==> c in old(ColumnObjects(t.columns)) || fresh(c)
      ensures old(objects) <= objects && fresh(objects - old(objects))
    {
      threw := t.Apply(edits);
      assert forall n :: n in tables && tables[n] != t ==> tables[n].columns == old(tables[n].columns);
      Absorb(t);
    }

    /** Records the columns of a table the edits changed. */
    method Absorb(t: Table)
      requires t.Valid() && t in objects
      requires forall n :: n in tables ==> tables[n].Valid() && tables[n] in objects
      requires forall n :: n in tables && tables[n] != t ==> ColumnObjects(tables[n].columns) <= objects
      modifies this
      ensures Valid() && objects == old(objects) + ColumnObjects(t.columns)
      ensures tables == old(tables) && dropped == old(dropped) && t.Snap() == old(t.Snap())
    {
      objects := objects + ColumnObjects(t.columns);
    }
  }
}
