/**
 * The data a Query accumulates (Query.php): its kind, its column list, the
 * WHERE constraint tree, the limit and the bound parameters. The Dialect
 * renders this data and the Query builder produces it.
 */
module Constraints {
  import opened Wrappers

  /** QueryTypes: SELECT, INSERT, UPDATE, DELETE. */
  datatype Kind = Select | Insert | Update | Delete

  /** The boolean that links a constraint to the one before it. */
  datatype BoolOp = And | Or

  function BoolText(b: BoolOp): string
  {
    match b
    case And => "AND"
    case Or => "OR"
  }

  /** A value bound to a placeholder: PHP null, an int or a string. */
  datatype Value = Null | Int(i: int) | Text(s: string)

  /**
   * One entry of `Query::$where`: a comparison `[column, operator, bool]` or
   * a nested group `[constraints, bool]`.
   */
  datatype Constraint =
    | Leaf(column: string, op: string, boolOp: BoolOp)
    | Group(children: seq<Constraint>, boolOp: BoolOp)

  /** The comparisons of a constraint list, depth first and left to right. */
  function Leaves(cs: seq<Constraint>): seq<Constraint>
  {
    if cs == [] then []
    else
      (match cs[0]
       case Leaf(_, _, _) => [cs[0]]
       case Group(children, _) => Leaves(children))
      + Leaves(cs[1..])
  }

  /** Appending to a constraint list appends to its depth-first leaves. */
  lemma {:induction false} LeavesAppend(a: seq<Constraint>, b: seq<Constraint>)
    ensures Leaves(a + b) == Leaves(a) + Leaves(b)
  {
    if a != [] {
      LeavesAppend(a[1..], b);
      assert (a + b)[1..] == a[1..] + b;
    } else {
      assert a + b == b;
    }
  }

  /** Every element of Leaves is a comparison. */
  lemma {:induction false} LeavesAreLeaves(cs: seq<Constraint>)
    ensures forall k :: 0 <= k < |Leaves(cs)| ==> Leaves(cs)[k].Leaf?
  {
    if cs != [] {
      LeavesAreLeaves(cs[1..]);
      if cs[0].Group? {
        LeavesAreLeaves(cs[0].children);
      }
    }
  }

  /** The state of a Query: `type`, `columns`, `where`, `limit`, `params`. */
  datatype QueryData = QueryData(
    kind: Kind,
    columns: Option<seq<string>>,
    where: seq<Constraint>,
    limit: Option<int>,
    params: seq<Value>)

  /** A freshly constructed Query: SELECT, no columns yet, nothing else. */
  const Initial: QueryData := QueryData(Select, None, [], None, [])
}
