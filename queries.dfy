/**
 * The fluent query builder of Query.php. A Query object accumulates a kind,
 * a column list, a WHERE constraint tree, a limit and the bound parameters;
 * each builder method changes those fields in place and returns the object
 * itself. The pure functions below state what each method leaves behind, and
 * the lemmas relate the parameters to the placeholders Dialects renders: each
 * parameter is recorded with the column or comparison it was bound with, and
 * the k-th parameter's owner is the owner of the statement's k-th '?'.
 */
module Queries {
  import opened Wrappers
  import opened Decimal
  import opened Constraints
  import opened Dialects
  import opened Slots
  import Str

  // ------------------------------------------------------------ specification

  /** `select($columns)`: the kind and the column list are replaced. */
  function SelectSpec(q: QueryData, columns: seq<string>): QueryData
  {
    q.(kind := Select, columns := Some(columns))
  }

  /** The keys of an associative array, in order (`array_keys`). */
  function Keys(data: seq<(string, Value)>): (r: seq<string>)
    ensures |r| == |data| && forall k :: 0 <= k < |data| ==> r[k] == data[k].0
  {
    if data == [] then [] else [data[0].0] + Keys(data[1..])
  }

  /** The values of an associative array, in order (`array_values`). */
  function Values(data: seq<(string, Value)>): (r: seq<Value>)
    ensures |r| == |data| && forall k :: 0 <= k < |data| ==> r[k] == data[k].1
  {
    if data == [] then [] else [data[0].1] + Values(data[1..])
  }

  /** `insert($data)` / `update($changes)`: the params are replaced, the WHERE tree is kept. */
  function AssignSpec(q: QueryData, kind: Kind, data: seq<(string, Value)>): QueryData
  {
    q.(kind := kind, columns := Some(Keys(data)), params := Values(data))
  }

  /**
   * PHP's loose `in_array($operator, $comparisonOperators)`: a string is
   * found when it is listed (the operators are not numeric strings, so loose
   * and strict comparison agree), and null is found when "" is listed.
   */
  predicate Recognised(operators: set<string>, operator: Option<string>)
  {
    match operator
    case Some(s) => s in operators
    case None => "" in operators
  }

  /** The value a non-operator takes when it is reinterpreted as the compared value. */
  function AsValue(operator: Option<string>): Value
  {
    match operator
    case Some(s) => Text(s)
    case None => Null
  }

  /** `addWhere`: one comparison and one parameter, both at the end. */
  function AddLeaf(q: QueryData, column: string, operator: string, value: Value, b: BoolOp): QueryData
  {
    q.(where := q.where + [Leaf(column, operator, b)], params := q.params + [value])
  }

  /**
   * `where($column, $operator, $value, $bool)` for a scalar column: an
   * unrecognised operator becomes the value and "=" the operator; a
   * recognised null operator is replaced by "=" as well.
   */
  function WhereSpec(operators: set<string>, q: QueryData, column: string, operator: Option<string>, value: Value, b: BoolOp): QueryData
  {
    if Recognised(operators, operator) then
      AddLeaf(q, column, if operator.Some? then operator.value else "=", value, b)
    else
      AddLeaf(q, column, "=", AsValue(operator), b)
  }

  /** `addNestedWhere($query, $bool)`: the child's tree as one node, its params after ours. */
  function NestedSpec(q: QueryData, child: QueryData, b: BoolOp): QueryData
  {
    q.(where := q.where + [Group(child.where, b)], params := q.params + child.params)
  }

  /**
   * One comparison tuple of the array overload: a column followed by the
   * remaining elements of the PHP array.
   */
  datatype Comparison = Comparison(column: string, rest: seq<Value>)

  /** `count($comp)`. */
  function Arity(t: Comparison): nat { 1 + |t.rest| }

  /** The operator argument `$comp[1]` takes as a `?string` parameter. */
  function AsOperator(v: Value): Option<string>
  {
    match v
    case Null => None
    case Int(i) => Some(IntToString(i))
    case Text(s) => Some(s)
  }

  /**
   * The call one tuple makes: `[c, v]` is `where(c, '=', v)` and
   * `[c, op, v, ...]` is `where(c, op, v)`; the boolean is always AND.
   */
  function TupleSpec(operators: set<string>, q: QueryData, t: Comparison): QueryData
    requires Arity(t) >= 2
  {
    if Arity(t) == 2 then WhereSpec(operators, q, t.column, Some("="), t.rest[0], And)
    else WhereSpec(operators, q, t.column, AsOperator(t.rest[0]), t.rest[1], And)
  }

  datatype QueryError = MalformedConstraint(message: string)

  const MalformedMessage := "Invalid comparison array count (must be 2-3)"

  /**
   * The array overload: the tuples are applied in order; a tuple with fewer
   * than two elements raises MalformedConstraintException, after the tuples
   * before it have already been applied.
   */
  function WhereAllSpec(operators: set<string>, q: QueryData, tuples: seq<Comparison>): (QueryData, Option<QueryError>)
    decreases tuples
  {
    if tuples == [] then (q, None)
    else if Arity(tuples[0]) < 2 then (q, Some(MalformedConstraint(MalformedMessage)))
    else WhereAllSpec(operators, TupleSpec(operators, q, tuples[0]), tuples[1..])
  }

  /** `delete($column, $operator, $value)`. */
  function DeleteSpec(operators: set<string>, q: QueryData, column: Option<string>, operator: Option<string>, value: Value): QueryData
  {
    var d := q.(kind := Delete);
    if column.Some? then WhereSpec(operators, d, column.value, operator, value, And) else d
  }

  /** `limit($count)`. */
  function LimitSpec(q: QueryData, count: int): QueryData
  {
    q.(limit := Some(count))
  }

  // ------------------------------------------------------------ the builder

  class Query {
    /** The dialect the query is rendered with; Query.php never reassigns it. */
    const dialect: Dialect
    var kind: Kind
    var columns: Option<seq<string>>
    var where: seq<Constraint>
    var limit: Option<int>
    var params: seq<Value>
    /** For each parameter, the column or comparison it was bound with. */
    ghost var owners: seq<Owner>

    function Data(): QueryData
      reads this
    {
      QueryData(kind, columns, where, limit, params)
    }

    /** A new Query: SELECT, columns unset, no constraints, no limit, no params. */
    constructor (dialect: Dialect)
      ensures this.dialect == dialect && Data() == Initial && owners == []
    {
      this.dialect := dialect;
      kind := Kind.Select;
      columns := None;
      where := [];
      limit := None;
      params := [];
      owners := [];
    }

    /** `new()`: a fresh Query with the same dialect. */
    method New() returns (q: Query)
      ensures fresh(q) && q.dialect == dialect && q.Data() == Initial && q.owners == []
    {
      q := new Query(dialect);
    }

    method Select(columns: seq<string> := ["*"]) returns (q: Query)
      modifies this
      ensures q == this && Data() == SelectSpec(old(Data()), columns) && owners == old(owners)
    {
      kind := Kind.Select;
      this.columns := Some(columns);
      q := this;
    }

    method Insert(data: seq<(string, Value)>) returns (q: Query)
      modifies this
      ensures q == this && Data() == AssignSpec(old(Data()), Kind.Insert, data)
      ensures owners == Assigns(Keys(data))
    {
      kind := Kind.Insert;
      columns := Some(Keys(data));
      params := Values(data);
      owners := Assigns(Keys(data));
      q := this;
    }

    method Update(changes: seq<(string, Value)>) returns (q: Query)
      modifies this
      ensures q == this && Data() == AssignSpec(old(Data()), Kind.Update, changes)
      ensures owners == Assigns(Keys(changes))
    {
      kind := Kind.Update;
      columns := Some(Keys(changes));
      params := Values(changes);
      owners := Assigns(Keys(changes));
      q := this;
    }

    method Delete(column: Option<string> := None, operator: Option<string> := None, value: Value := Null) returns (q: Query)
      modifies this
      ensures q == this && Data() == DeleteSpec(dialect.comparisonOperators, old(Data()), column, operator, value)
      ensures column.None? ==> owners == old(owners)
      ensures column.Some? ==> |where| == |old(where)| + 1 && owners == old(owners) + [Compare(where[|old(where)|])]
    {
      kind := Kind.Delete;
      q := this;
      if column.Some? {
        q := Where(column.value, operator, value, BoolOp.And);
      }
    }

    /** `addWhere`. */
    method AddWhere(column: string, operator: string, value: Value, b: BoolOp) returns (q: Query)
      modifies this
      ensures q == this && Data() == AddLeaf(old(Data()), column, operator, value, b)
      ensures owners == old(owners) + [Compare(Leaf(column, operator, b))]
    {
      where := where + [Leaf(column, operator, b)];
      params := params + [value];
      owners := owners + [Compare(Leaf(column, operator, b))];
      q := this;
    }

    /** `where` with a scalar column. */
    method Where(column: string, operator: Option<string>, value: Value := Null, b: BoolOp := BoolOp.And) returns (q: Query)
      modifies this
      ensures q == this && Data() == WhereSpec(dialect.comparisonOperators, old(Data()), column, operator, value, b)
      ensures |where| == |old(where)| + 1 && owners == old(owners) + [Compare(where[|old(where)|])]
    {
      var op := operator;
      var v := value;
      if !Recognised(dialect.comparisonOperators, op) {
        op, v := Some("="), AsValue(operator);
      }
      q := AddWhere(column, if op.Some? then op.value else "=", v, b);
    }

    method And(column: string, operator: Option<string>, value: Value := Null) returns (q: Query)
      modifies this
      ensures q == this && Data() == WhereSpec(dialect.comparisonOperators, old(Data()), column, operator, value, BoolOp.And)
      ensures |where| == |old(where)| + 1 && owners == old(owners) + [Compare(where[|old(where)|])]
    {
      q := Where(column, operator, value, BoolOp.And);
    }

    method Or(column: string, operator: Option<string>, value: Value := Null) returns (q: Query)
      modifies this
      ensures q == this && Data() == WhereSpec(dialect.comparisonOperators, old(Data()), column, operator, value, BoolOp.Or)
      ensures |where| == |old(where)| + 1 && owners == old(owners) + [Compare(where[|old(where)|])]
    {
      q := Where(column, operator, value, BoolOp.Or);
    }

    /**
     * `where` with an array of comparison tuples. On a malformed tuple the
     * error is returned and the tuples before it stay applied.
     */
    method WhereAll(tuples: seq<Comparison>) returns (q: Query, error: Option<QueryError>)
      modifies this
      ensures q == this
      ensures (Data(), error) == WhereAllSpec(dialect.comparisonOperators, old(Data()), tuples)
      ensures |old(where)| <= |where| && owners == old(owners) + Compares(where[|old(where)|..])
    {
      q := this;
      error := None;
      var i := 0;
      while i < |tuples|
        invariant 0 <= i <= |tuples|
        invariant q == this && error == None
        invariant WhereAllSpec(dialect.comparisonOperators, old(Data()), tuples)
               == WhereAllSpec(dialect.comparisonOperators, Data(), tuples[i..])
        invariant |old(where)| <= |where| && owners == old(owners) + Compares(where[|old(where)|..])
      {
        var t := tuples[i];
        assert tuples[i..][0] == t;
        if Arity(t) < 2 {
          error := Some(MalformedConstraint(MalformedMessage));
          return;
        }
        assert tuples[i..][1..] == tuples[i + 1..];
        ghost var before := where;
        if Arity(t) == 2 {
          q := Where(t.column, Some("="), t.rest[0]);
        } else {
          q := Where(t.column, AsOperator(t.rest[0]), t.rest[1]);
        }
        assert where[|old(where)|..] == before[|old(where)|..] + [where[|before|]];
        i := i + 1;
      }
      assert tuples[i..] == [];
    }

    /**
     * `where` with a nested group: `child` is the Query the callable returned
     * for the fresh Query it was given.
     */
    method WhereGroup(child: Query, b: BoolOp := BoolOp.And) returns (q: Query)
      modifies this
      ensures q == this && Data() == NestedSpec(old(Data()), old(child.Data()), b)
      ensures owners == old(owners) + old(child.owners)
    {
      var nested := child.where;
      var childParams := child.params;
      ghost var childOwners := child.owners;
      where := where + [Group(nested, b)];
      params := params + childParams;
      owners := owners + childOwners;
      q := this;
    }

    method Limit(count: int) returns (q: Query)
      modifies this
      ensures q == this && Data() == LimitSpec(old(Data()), count) && owners == old(owners)
    {
      limit := Some(count);
      q := this;
    }

    /** `build()`: the statement text of the dialect's composer for this kind. */
    method Build() returns (r: Result<string, BuildError>)
      ensures r == Dialects.Build(dialect, Data())
      ensures CleanDialect(dialect) && CleanTree(where) && (columns.Some? ==> CleanColumns(columns.value)) && r.Ok?
              ==> Count('?', r.value) == Placeholders(Data())
      ensures CleanDialect(dialect) && CleanTree(where) && (columns.Some? ==> CleanColumns(columns.value))
              && Aligned(Data(), owners) && r.Ok?
              ==> Shaped(r.value, Tags(dialect, kind, owners))
    {
      if CleanDialect(dialect) && CleanTree(where) && (columns.Some? ==> CleanColumns(columns.value)) {
        BuildPlaceholders(dialect, Data());
        BuildShaped(dialect, Data());
      }
      r := Dialects.Build(dialect, Data());
    }
  }

  // ------------------------------------------------------------ properties

  /**
   * A bound value for every placeholder of the statement, each bound with
   * the owner of its placeholder: `owners` records, parameter by parameter,
   * the column or comparison it was bound with.
   */
  predicate Aligned(q: QueryData, owners: seq<Owner>)
  {
    |owners| == |q.params| && owners == SlotOwners(q)
  }

  lemma LeafCountAppend(cs: seq<Constraint>, c: Constraint)
    ensures |Leaves(cs + [c])| == |Leaves(cs)| + |Leaves([c])|
  {
    LeavesAppend(cs, [c]);
  }

  /**
   * A scalar `where` adds exactly one comparison and one parameter at the
   * end; the operator is the argument when it is a recognised non-null
   * operator, and otherwise "=", with the argument as the value.
   */
  lemma WhereAddsOneLeaf(operators: set<string>, q: QueryData, column: string, operator: Option<string>, value: Value, b: BoolOp)
    ensures var r := WhereSpec(operators, q, column, operator, value, b);
      && r.kind == q.kind && r.columns == q.columns && r.limit == q.limit
      && |r.where| == |q.where| + 1 && r.where[..|q.where|] == q.where
      && |r.params| == |q.params| + 1 && r.params[..|q.params|] == q.params
      && r.where[|q.where|] == Leaf(column, r.where[|q.where|].op, b)
      && (operator.Some? && operator.value in operators ==> r.where[|q.where|].op == operator.value && r.params[|q.params|] == value)
      && (!Recognised(operators, operator) ==> r.where[|q.where|].op == "=" && r.params[|q.params|] == AsValue(operator))
      && (operator.None? && "" in operators ==> r.where[|q.where|].op == "=" && r.params[|q.params|] == value)
      && |Leaves(r.where)| == |Leaves(q.where)| + 1
  {
    var r := WhereSpec(operators, q, column, operator, value, b);
    LeafCountAppend(q.where, r.where[|q.where|]);
    assert r.where == q.where + [r.where[|q.where|]];
  }

  /** `and`/`or` differ from each other only in the boolean of the new comparison. */
  lemma AndOrDiffer(operators: set<string>, q: QueryData, column: string, operator: Option<string>, value: Value)
    ensures var a := WhereSpec(operators, q, column, operator, value, And);
            var o := WhereSpec(operators, q, column, operator, value, Or);
      a.params == o.params && |a.where| == |o.where| == |q.where| + 1
      && a.where[..|q.where|] == o.where[..|q.where|]
      && a.where[|q.where|] == o.where[|q.where|].(boolOp := And)
      && a.where[|q.where|].boolOp == And && o.where[|q.where|].boolOp == Or
  {
  }

  /** A nested group is one node holding the child's whole tree; its params follow ours. */
  lemma NestedAddsOneNode(q: QueryData, child: QueryData, b: BoolOp)
    ensures var r := NestedSpec(q, child, b);
      && |r.where| == |q.where| + 1 && r.where[|q.where|] == Group(child.where, b)
      && r.params[..|q.params|] == q.params && r.params[|q.params|..] == child.params
      && Leaves(r.where) == Leaves(q.where) + Leaves(child.where)
  {
    var r := NestedSpec(q, child, b);
    LeavesAppend(q.where, [Group(child.where, b)]);
    assert [Group(child.where, b)][1..] == [];
    assert Leaves([Group(child.where, b)]) == Leaves(child.where) + Leaves([]);
  }

  /** insert/update: columns are the keys, params the values, pairwise. */
  lemma AssignPairs(q: QueryData, kind: Kind, data: seq<(string, Value)>)
    ensures var r := AssignSpec(q, kind, data);
      && r.columns.Some? && |r.columns.value| == |r.params| == |data|
      && (forall k :: 0 <= k < |data| ==> (r.columns.value[k], r.params[k]) == data[k])
      && r.where == q.where && r.limit == q.limit && r.kind == kind
  {
  }

  /** A tuple `[c, v]` is the tuple `[c, '=', v]`. */
  lemma PairIsEquality(operators: set<string>, q: QueryData, column: string, v: Value)
    ensures TupleSpec(operators, q, Comparison(column, [v])) == TupleSpec(operators, q, Comparison(column, [Text("="), v]))
  {
  }

  /** Elements after the third of a tuple are ignored. */
  lemma LongTupleIgnoresTail(operators: set<string>, q: QueryData, t: Comparison, extra: seq<Value>)
    requires Arity(t) >= 3
    ensures TupleSpec(operators, q, Comparison(t.column, t.rest + extra)) == TupleSpec(operators, q, t)
  {
  }

  /** Every comparison the array overload adds is joined with AND. */
  lemma {:induction false} WhereAllUsesAnd(operators: set<string>, q: QueryData, tuples: seq<Comparison>)
    requires forall k :: 0 <= k < |q.where| ==> q.where[k].boolOp == And
    ensures var r := WhereAllSpec(operators, q, tuples).0;
      forall k :: 0 <= k < |r.where| ==> r.where[k].boolOp == And
    decreases tuples
  {
    if tuples != [] && Arity(tuples[0]) >= 2 {
      var t := tuples[0];
      if Arity(t) == 2 {
        WhereAddsOneLeaf(operators, q, t.column, Some("="), t.rest[0], And);
      } else {
        WhereAddsOneLeaf(operators, q, t.column, AsOperator(t.rest[0]), t.rest[1], And);
      }
      var next := TupleSpec(operators, q, t);
      assert forall k :: 0 <= k < |q.where| ==> next.where[k] == q.where[k];
      assert next.where[|q.where|].boolOp == And;
      assert forall k :: 0 <= k < |next.where| ==> next.where[k].boolOp == And;
      WhereAllUsesAnd(operators, next, tuples[1..]);
      assert WhereAllSpec(operators, q, tuples) == WhereAllSpec(operators, next, tuples[1..]);
    }
  }

  /**
   * The array overload fails exactly when some tuple has fewer than two
   * elements; otherwise one comparison and one parameter per tuple.
   */
  lemma {:induction false} WhereAllCounts(operators: set<string>, q: QueryData, tuples: seq<Comparison>)
    ensures var (r, error) := WhereAllSpec(operators, q, tuples);
      && (error.None? <==> forall k :: 0 <= k < |tuples| ==> Arity(tuples[k]) >= 2)
      && (error.None? ==> |r.where| == |q.where| + |tuples| && |r.params| == |q.params| + |tuples|
                          && |Leaves(r.where)| == |Leaves(q.where)| + |tuples|)
      && r.kind == q.kind && r.columns == q.columns && r.limit == q.limit
    decreases tuples
  {
    if tuples != [] && Arity(tuples[0]) >= 2 {
      var t := tuples[0];
      var next := TupleSpec(operators, q, t);
      if Arity(t) == 2 {
        WhereAddsOneLeaf(operators, q, t.column, Some("="), t.rest[0], And);
      } else {
        WhereAddsOneLeaf(operators, q, t.column, AsOperator(t.rest[0]), t.rest[1], And);
      }
      WhereAllCounts(operators, next, tuples[1..]);
      assert forall k :: 1 <= k < |tuples| ==> tuples[k] == tuples[1..][k - 1];
    }
  }

  /** `delete()` without a column adds no constraint; with one it adds one AND comparison. */
  lemma DeleteConstraint(operators: set<string>, q: QueryData, column: Option<string>, operator: Option<string>, value: Value)
    ensures var r := DeleteSpec(operators, q, column, operator, value);
      && r.kind == Delete
      && (column.None? ==> r.where == q.where && r.params == q.params)
      && (column.Some? ==> |r.where| == |q.where| + 1 && r.where[|q.where|].Leaf?
                           && r.where[|q.where|].column == column.value && r.where[|q.where|].boolOp == And
                           && |r.params| == |q.params| + 1)
  {
  }

  // ------------------------------------------------------------ alignment

  /** A fresh Query is aligned. */
  lemma InitialAligned()
    ensures Aligned(Initial, [])
  {
  }

  /** insert binds each value with its own column, which owns the placeholder at its place. */
  lemma InsertAligned(q: QueryData, data: seq<(string, Value)>)
    ensures Aligned(AssignSpec(q, Insert, data), Assigns(Keys(data)))
  {
  }

  /**
   * update replaces the params with the new values, so it is aligned exactly
   * when no comparison was added before it.
   */
  lemma UpdateAligned(q: QueryData, data: seq<(string, Value)>)
    ensures Aligned(AssignSpec(q, Update, data), Assigns(Keys(data))) <==> Leaves(q.where) == []
  {
    var r := AssignSpec(q, Update, data);
    assert |SlotOwners(r)| == |data| + |Leaves(q.where)|;
  }

  /** select on a SELECT or DELETE keeps the placeholders and the params. */
  lemma SelectAligned(q: QueryData, owners: seq<Owner>, columns: seq<string>)
    requires q.kind == Select || q.kind == Delete
    ensures Aligned(SelectSpec(q, columns), owners) <==> Aligned(q, owners)
  {
  }

  /**
   * A scalar comparison keeps an aligned SELECT, UPDATE or DELETE aligned,
   * its parameter owned by the new comparison; on an INSERT, whose statement
   * renders no WHERE, it breaks alignment.
   */
  lemma WherePreservesAlignment(operators: set<string>, q: QueryData, owners: seq<Owner>, column: string, operator: Option<string>, value: Value, b: BoolOp)
    requires Aligned(q, owners)
    ensures var r := WhereSpec(operators, q, column, operator, value, b);
      |r.where| == |q.where| + 1 && (q.kind != Insert <==> Aligned(r, owners + [Compare(r.where[|q.where|])]))
  {
    var r := WhereSpec(operators, q, column, operator, value, b);
    var leaf := r.where[|q.where|];
    assert r.where == q.where + [leaf] && r.kind == q.kind && r.columns == q.columns && |r.params| == |q.params| + 1;
    LeavesAppend(q.where, [leaf]);
    assert Leaves([leaf]) == [leaf] + Leaves([]);
    OwnersOfMoreLeaves(q, r, [leaf]);
  }

  /**
   * A nested group keeps a SELECT, UPDATE or DELETE aligned when the child,
   * read as the SELECT that `new()` made it, is aligned; the child's owners
   * follow ours.
   */
  lemma NestedPreservesAlignment(q: QueryData, owners: seq<Owner>, child: QueryData, childOwners: seq<Owner>, b: BoolOp)
    requires Aligned(q, owners) && q.kind != Insert
    requires Aligned(child.(kind := Select), childOwners)
    ensures Aligned(NestedSpec(q, child, b), owners + childOwners)
  {
    NestedAddsOneNode(q, child, b);
    OwnersOfMoreLeaves(q, NestedSpec(q, child, b), Leaves(child.where));
  }

  /** The array overload only appends to the WHERE list. */
  lemma {:induction false} WhereAllExtends(operators: set<string>, q: QueryData, tuples: seq<Comparison>)
    ensures var r := WhereAllSpec(operators, q, tuples).0;
      |q.where| <= |r.where| && r.where[..|q.where|] == q.where
    decreases tuples
  {
    if tuples != [] && Arity(tuples[0]) >= 2 {
      var t := tuples[0];
      var next := TupleSpec(operators, q, t);
      if Arity(t) == 2 {
        WhereAddsOneLeaf(operators, q, t.column, Some("="), t.rest[0], And);
      } else {
        WhereAddsOneLeaf(operators, q, t.column, AsOperator(t.rest[0]), t.rest[1], And);
      }
      WhereAllExtends(operators, next, tuples[1..]);
      var r := WhereAllSpec(operators, q, tuples).0;
      assert r.where[..|q.where|] == r.where[..|next.where|][..|q.where|];
    }
  }

  lemma SliceStep<T>(r: seq<T>, n: seq<T>, i: nat)
    requires |n| == i + 1 && |n| <= |r| && r[..|n|] == n
    ensures r[i..] == [n[i]] + r[|n|..]
  {
    assert r[i] == n[i];
  }

  /**
   * The array overload keeps a SELECT, UPDATE or DELETE aligned; the new
   * parameters are owned by the new comparisons, in order.
   */
  lemma {:induction false} WhereAllPreservesAlignment(operators: set<string>, q: QueryData, owners: seq<Owner>, tuples: seq<Comparison>)
    requires Aligned(q, owners) && q.kind != Insert
    ensures var r := WhereAllSpec(operators, q, tuples).0;
      |q.where| <= |r.where| && Aligned(r, owners + Compares(r.where[|q.where|..]))
    decreases tuples
  {
    WhereAllExtends(operators, q, tuples);
    var r := WhereAllSpec(operators, q, tuples).0;
    if tuples == [] || Arity(tuples[0]) < 2 {
      assert r.where[|q.where|..] == [];
      assert owners + Compares([]) == owners;
    } else {
      var t := tuples[0];
      var next := TupleSpec(operators, q, t);
      if Arity(t) == 2 {
        WherePreservesAlignment(operators, q, owners, t.column, Some("="), t.rest[0], And);
      } else {
        WherePreservesAlignment(operators, q, owners, t.column, AsOperator(t.rest[0]), t.rest[1], And);
      }
      var added := [Compare(next.where[|q.where|])];
      WhereAllPreservesAlignment(operators, next, owners + added, tuples[1..]);
      WhereAllExtends(operators, next, tuples[1..]);
      SliceStep(r.where, next.where, |q.where|);
      ComparesCons(next.where[|q.where|], r.where[|next.where|..]);
      assert owners + added + Compares(r.where[|next.where|..]) == owners + Compares(r.where[|q.where|..]);
    }
  }

  /** limit changes neither the placeholders nor the params. */
  lemma LimitPreservesAlignment(q: QueryData, owners: seq<Owner>, count: int)
    ensures Aligned(LimitSpec(q, count), owners) <==> Aligned(q, owners)
  {
  }

  /**
   * An aligned query builds to a statement with one '?' per parameter, and
   * the text in front of the k-th '?' ends with the k-th parameter's owner:
   * the quoted column and operator of its comparison, the quoted column and
   * "=" of its UPDATE assignment, or, for the k-th INSERT value, "VALUES ("
   * or "," in the VALUES list that follows the column list.
   */
  lemma AlignedBuild(d: Dialect, q: QueryData, owners: seq<Owner>)
    requires CleanDialect(d) && CleanTree(q.where)
    requires q.columns.Some? ==> CleanColumns(q.columns.value)
    requires Aligned(q, owners)
    ensures Build(d, q).Ok? ==> Count('?', Build(d, q).value) == |q.params|
    ensures Build(d, q).Ok? ==>
      var pieces := Str.Explode('?', Build(d, q).value);
      |pieces| == |q.params| + 1
      && forall k :: 0 <= k < |q.params| ==> EndsWith(pieces[k], Tag(d, q.kind, k, owners[k]))
  {
    BuildPlaceholders(d, q);
    BuildShaped(d, q);
  }
}
