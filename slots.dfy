/**
 * Which bound parameter each `?` of a built statement stands for.
 *
 * Splitting a statement at its '?' marks (PHP `explode`) gives one piece in
 * front of every mark, and the text after the last mark. The piece in front
 * of a WHERE mark ends with the quoted column and the operator of its
 * comparison (Dialect.php renders `column operator ?`), and the piece in front
 * of an UPDATE mark ends with the quoted column and "=" of its assignment.
 * The owners of the marks, in order, are the comparisons of the WHERE tree
 * depth first for SELECT and DELETE, the columns for INSERT, and the columns followed by
 * the comparisons for UPDATE.
 */
module Slots {
  import opened Wrappers
  import opened Constraints
  import opened Dialects
  import Str

  /** What a bound parameter belongs to: an assigned column, or a comparison. */
  datatype Owner = Assign(name: string) | Compare(leaf: Constraint)

  function Assigns(columns: seq<string>): seq<Owner>
  {
    seq(|columns|, k requires 0 <= k < |columns| => Assign(columns[k]))
  }

  function Compares(leaves: seq<Constraint>): seq<Owner>
  {
    seq(|leaves|, k requires 0 <= k < |leaves| => Compare(leaves[k]))
  }

  /** The owners of a statement's marks, one per placeholder, in order. */
  function SlotOwners(q: QueryData): (r: seq<Owner>)
    ensures |r| == Placeholders(q)
  {
    var columns := if q.columns.Some? then q.columns.value else [];
    match q.kind
    case Select => Compares(Leaves(q.where))
    case Insert => Assigns(columns)
    case Update => Assigns(columns) + Compares(Leaves(q.where))
    case Delete => Compares(Leaves(q.where))
  }

  /** Comparisons added to the tree add owners at the end, except on an INSERT, which renders no WHERE. */
  lemma OwnersOfMoreLeaves(q: QueryData, r: QueryData, extra: seq<Constraint>)
    requires r.kind == q.kind && r.columns == q.columns && Leaves(r.where) == Leaves(q.where) + extra
    ensures SlotOwners(r) == if q.kind == Insert then SlotOwners(q) else SlotOwners(q) + Compares(extra)
  {
    assert Compares(Leaves(q.where) + extra) == Compares(Leaves(q.where)) + Compares(extra);
  }

  /** The text of a comparison in front of its mark: quoted column, then operator. */
  function CompareTag(d: Dialect, c: Constraint): string
  {
    if c.Leaf? then QuoteIdentifier(d, c.column) + c.op else ""
  }

  /**
   * The text that ends the piece in front of the k-th mark of a statement
   * of the given kind, when `o` owns that mark. The marks of an INSERT sit
   * in its VALUES list: the first follows "VALUES (" and the others ",", and
   * the k-th column of the column list before it is the owner.
   */
  function Tag(d: Dialect, kind: Kind, k: nat, o: Owner): string
  {
    match o
    case Compare(leaf) => CompareTag(d, leaf)
    case Assign(name) =>
      if kind == Update then QuoteIdentifier(d, name) + "="
      else if k == 0 then "VALUES (" else ","
  }

  function Tags(d: Dialect, kind: Kind, owners: seq<Owner>): seq<string>
  {
    seq(|owners|, k requires 0 <= k < |owners| => Tag(d, kind, k, owners[k]))
  }

  predicate EndsWith(s: string, t: string) { |t| <= |s| && s[|s| - |t|..] == t }

  /**
   * `s` holds one '?' per tag, and the piece of `s` in front of the k-th
   * '?' ends with tags[k].
   */
  predicate Shaped(s: string, tags: seq<string>)
  {
    var pieces := Str.Explode('?', s);
    |pieces| == |tags| + 1 && forall k :: 0 <= k < |tags| ==> EndsWith(pieces[k], tags[k])
  }

  // ------------------------------------------------------------ explode

  /** One step of `explode`: a leading '?' starts a new piece, another character extends the first. */
  lemma ExplodeStep(s: string)
    requires s != []
    ensures var rest := Str.Explode('?', s[1..]);
      Str.Explode('?', s) == if s[0] == '?' then [""] + rest else [[s[0]] + rest[0]] + rest[1..]
  {
  }

  lemma MergeAfterMark(ra: seq<string>, y: string, tail: seq<string>)
    requires ra != []
    ensures var pa := [""] + ra;
      [""] + (ra[..|ra| - 1] + [ra[|ra| - 1] + y] + tail) == pa[..|pa| - 1] + [pa[|pa| - 1] + y] + tail
  {
    var pa := [""] + ra;
    assert pa[..|pa| - 1] == [""] + ra[..|ra| - 1];
  }

  lemma MergeAfterChar(c: char, ra: seq<string>, y: string, tail: seq<string>)
    requires ra != []
    ensures var pa := [[c] + ra[0]] + ra[1..];
      var r := ra[..|ra| - 1] + [ra[|ra| - 1] + y] + tail;
      [[c] + r[0]] + r[1..] == pa[..|pa| - 1] + [pa[|pa| - 1] + y] + tail
  {
    var pa := [[c] + ra[0]] + ra[1..];
    var r := ra[..|ra| - 1] + [ra[|ra| - 1] + y] + tail;
    if |ra| == 1 {
      assert r[0] == ra[0] + y && r[1..] == tail;
      assert [c] + (ra[0] + y) == [c] + ra[0] + y;
    } else {
      assert r[0] == ra[0];
      assert r[1..] == ra[1..|ra| - 1] + [ra[|ra| - 1] + y] + tail;
      assert pa[..|pa| - 1] == [[c] + ra[0]] + ra[1..|ra| - 1];
    }
  }

  /** Exploding a + b merges the last piece of `a` with the first of `b`. */
  predicate AppendLaw(a: string, b: string)
  {
    var pa, pb := Str.Explode('?', a), Str.Explode('?', b);
    Str.Explode('?', a + b) == pa[..|pa| - 1] + [pa[|pa| - 1] + pb[0]] + pb[1..]
  }

  lemma {:induction false} ExplodeAppend(a: string, b: string)
    ensures AppendLaw(a, b)
  {
    if a == [] {
      ExplodeEmptyAppend(b);
    } else {
      ExplodeAppend(a[1..], b);
      AppendStep(a, b);
    }
  }

  lemma ExplodeEmptyAppend(b: string)
    ensures AppendLaw([], b)
  {
    var pa, pb := Str.Explode('?', []), Str.Explode('?', b);
    assert [] + b == b && pa == [""];
    assert pa[..|pa| - 1] == [] && pa[|pa| - 1] + pb[0] == pb[0];
    assert [] + [pb[0]] + pb[1..] == pb;
  }

  lemma AppendStep(a: string, b: string)
    requires a != [] && AppendLaw(a[1..], b)
    ensures AppendLaw(a, b)
  {
    var pb := Str.Explode('?', b);
    var ab := a + b;
    assert ab[1..] == a[1..] + b && ab[0] == a[0];
    ExplodeStep(a);
    ExplodeStep(ab);
    if a[0] == '?' {
      MergeAfterMark(Str.Explode('?', a[1..]), pb[0], pb[1..]);
    } else {
      MergeAfterChar(a[0], Str.Explode('?', a[1..]), pb[0], pb[1..]);
    }
  }

  /** A string without '?' is one piece. */
  lemma {:induction false} ExplodePlain(s: string)
    requires NoMark(s)
    ensures Str.Explode('?', s) == [s]
  {
    if s != [] {
      assert s[0] != '?' && NoMark(s[1..]);
      ExplodePlain(s[1..]);
      assert [s[0]] + s[1..] == s;
    }
  }

  lemma PlainShaped(s: string)
    requires NoMark(s)
    ensures Shaped(s, [])
  {
    ExplodePlain(s);
  }

  lemma MarkShaped(t: string)
    requires NoMark(t)
    ensures Shaped(t + "?", [t])
  {
    ExplodePlain(t);
    ExplodeAppend(t, "?");
    assert "?"[1..] == "";
    assert Str.Explode('?', "?") == ["", ""];
  }

  lemma ComparesCons(x: Constraint, rest: seq<Constraint>)
    ensures Compares([x] + rest) == [Compare(x)] + Compares(rest)
  {
  }

  lemma EndsWithPrefixed(x: string, s: string, t: string)
    requires EndsWith(s, t)
    ensures EndsWith(x + s, t)
  {
    assert (x + s)[|x + s| - |t|..] == s[|s| - |t|..];
  }

  /** Shapes compose: the tags of a concatenation are the tags of its parts. */
  lemma ShapedAppend(a: string, ta: seq<string>, b: string, tb: seq<string>)
    requires Shaped(a, ta) && Shaped(b, tb)
    ensures Shaped(a + b, ta + tb)
  {
    ExplodeAppend(a, b);
    var pa, pb := Str.Explode('?', a), Str.Explode('?', b);
    var p := Str.Explode('?', a + b);
    forall k | 0 <= k < |ta + tb|
      ensures EndsWith(p[k], (ta + tb)[k])
    {
      if k < |ta| {
        assert p[k] == pa[k];
      } else if k == |ta| {
        assert p[k] == pa[|pa| - 1] + pb[0];
        EndsWithPrefixed(pa[|pa| - 1], pb[0], tb[0]);
      } else {
        assert p[k] == pb[k - |ta|];
      }
    }
  }

  lemma ShapedThen(a: string, ta: seq<string>, b: string)
    requires Shaped(a, ta) && NoMark(b)
    ensures Shaped(a + b, ta)
  {
    PlainShaped(b);
    ShapedAppend(a, ta, b, []);
    assert ta + [] == ta;
  }

  lemma ShapedAfter(a: string, b: string, tb: seq<string>)
    requires NoMark(a) && Shaped(b, tb)
    ensures Shaped(a + b, tb)
  {
    PlainShaped(a);
    ShapedAppend(a, [], b, tb);
    assert [] + tb == tb;
  }

  /** A mark after clean text: one slot, ending with `t`. */
  lemma PrefixedMark(pre: string, t: string)
    requires NoMark(pre) && NoMark(t)
    ensures Shaped(pre + t + "?", [t])
  {
    MarkShaped(t);
    ShapedAfter(pre, t + "?", [t]);
    assert pre + t + "?" == pre + (t + "?");
  }

  /** Joining one more entry in front puts its slots first. */
  lemma ConsShaped(glue: string, x: string, tx: seq<string>, rest: seq<string>, tr: seq<string>)
    requires NoMark(glue) && Shaped(x, tx) && Shaped(Join(glue, rest), tr)
    ensures Shaped(Join(glue, [x] + rest), tx + tr)
  {
    JoinCons(glue, x, rest);
    if rest == [] {
      assert Str.Explode('?', "") == [""];
      assert tr == [] && tx + [] == tx;
    } else {
      ShapedThen(x, tx, glue);
      ShapedAppend(x + glue, tx, Join(glue, rest), tr);
    }
  }

  /** The shape of `compose`'s output: fragments joined by spaces, then ';'. */
  lemma ComposedShaped(a: string, b: string, tb: seq<string>, w: string, tw: seq<string>, e: string)
    requires NoMark(a) && Shaped(b, tb) && Shaped(w, tw) && NoMark(e)
    ensures Shaped(a + (" " + b) + w + e + ";", tb + tw)
  {
    BoolTextNoMark(And);
    ShapedAfter(" ", b, tb);
    ShapedAfter(a, " " + b, tb);
    ShapedAppend(a + (" " + b), tb, w, tw);
    NoMarkChars(";");
    NoMarkConcat(e, ";");
    ShapedThen(a + (" " + b) + w, tb + tw, e + ";");
    assert a + (" " + b) + w + e + ";" == a + (" " + b) + w + (e + ";");
  }

  // ------------------------------------------------------------ WHERE

  function LeafTags(d: Dialect, leaves: seq<Constraint>): seq<string>
  {
    seq(|leaves|, k requires 0 <= k < |leaves| => CompareTag(d, leaves[k]))
  }

  lemma LeafTagsAppend(d: Dialect, a: seq<Constraint>, b: seq<Constraint>)
    ensures LeafTags(d, a + b) == LeafTags(d, a) + LeafTags(d, b)
  {
  }

  lemma LeafConditionText(d: Dialect, column: string, comparison: string, b: BoolOp, idx: nat)
    ensures Condition(d, Leaf(column, comparison, b), idx, "")
         == (if idx > 0 then BoolText(b) + " " else "") + (QuoteIdentifier(d, column) + comparison) + "?"
  {
  }

  lemma LeafConditionShaped(d: Dialect, column: string, comparison: string, b: BoolOp, idx: nat)
    requires CleanDialect(d) && NoMark(column) && NoMark(comparison)
    ensures Shaped(Condition(d, Leaf(column, comparison, b), idx, ""), [QuoteIdentifier(d, column) + comparison])
  {
    BoolTextNoMark(b);
    var pre := if idx > 0 then BoolText(b) + " " else "";
    var t := QuoteIdentifier(d, column) + comparison;
    QuoteNoMark(d, column, true);
    NoMarkConcat(QuoteIdentifier(d, column), comparison);
    PrefixedMark(pre, t);
    LeafConditionText(d, column, comparison, b, idx);
  }

  lemma GroupConditionShaped(d: Dialect, children: seq<Constraint>, b: BoolOp, idx: nat, nested: string, tags: seq<string>)
    requires Shaped(nested, tags)
    ensures Shaped(Condition(d, Group(children, b), idx, nested), tags)
  {
    BoolTextNoMark(b);
    var pre := if idx > 0 then BoolText(b) else "";
    NoMarkConcat(pre, " (");
    ShapedAfter(pre + " (", nested, tags);
    ShapedThen(pre + " (" + nested, tags, ")");
  }

  /** The first entry of a WHERE list carries the marks of its own comparisons. */
  lemma {:induction false} ConditionShaped(d: Dialect, cs: seq<Constraint>, idx: nat)
    requires cs != [] && CleanDialect(d) && CleanTree(cs)
    ensures Shaped(Conditions(d, cs, idx)[0], LeafTags(d, Leaves([cs[0]])))
    decreases cs, 0
  {
    assert [cs[0]][1..] == [];
    match cs[0]
    case Leaf(column, comparison, b) =>
      LeafConditionShaped(d, column, comparison, b, idx);
      assert Leaves([cs[0]]) == [cs[0]];
      assert LeafTags(d, [cs[0]]) == [QuoteIdentifier(d, column) + comparison];
    case Group(children, b) =>
      WhereShaped(d, children, false);
      GroupConditionShaped(d, children, b, idx, OrEmpty(PrepareWhere(d, children, false)), LeafTags(d, Leaves(children)));
      assert Leaves([cs[0]]) == Leaves(children) + Leaves([]);
  }

  lemma {:induction false} ConditionsShaped(d: Dialect, cs: seq<Constraint>, idx: nat)
    requires CleanDialect(d) && CleanTree(cs)
    ensures Shaped(Join(" ", Conditions(d, cs, idx)), LeafTags(d, Leaves(cs)))
    decreases cs, 1
  {
    if cs == [] {
      PlainShaped("");
      assert LeafTags(d, []) == [];
    } else {
      var parts := Conditions(d, cs, idx);
      var rest := Conditions(d, cs[1..], idx + 1);
      assert parts == [parts[0]] + rest;
      LeavesOfList(cs);
      LeafTagsAppend(d, Leaves([cs[0]]), Leaves(cs[1..]));
      ConditionShaped(d, cs, idx);
      ConditionsShaped(d, cs[1..], idx + 1);
      BoolTextNoMark(And);
      ConsShaped(" ", parts[0], LeafTags(d, Leaves([cs[0]])), rest, LeafTags(d, Leaves(cs[1..])));
    }
  }

  /**
   * The rendered WHERE has one mark per comparison of the whole tree, depth
   * first, and the piece in front of the k-th mark ends with the k-th
   * comparison's quoted column and operator.
   */
  lemma {:induction false} WhereShaped(d: Dialect, cs: seq<Constraint>, withKeyword: bool)
    requires CleanDialect(d) && CleanTree(cs)
    ensures Shaped(OrEmpty(PrepareWhere(d, cs, withKeyword)), LeafTags(d, Leaves(cs)))
    decreases cs, 2
  {
    if cs == [] {
      PlainShaped("");
      assert LeafTags(d, []) == [];
    } else {
      ConditionsShaped(d, cs, 0);
      BoolTextNoMark(And);
      NoMarkChars("");
      ShapedAfter(if withKeyword then "WHERE " else "", Join(" ", Conditions(d, cs, 0)), LeafTags(d, Leaves(cs)));
    }
  }

  lemma SpacedWhere(d: Dialect, cs: seq<Constraint>)
    requires CleanDialect(d) && CleanTree(cs)
    ensures Shaped(Spaced(PrepareWhere(d, cs)), LeafTags(d, Leaves(cs)))
  {
    WhereShaped(d, cs, true);
    if cs == [] {
      PlainShaped("");
    } else {
      BoolTextNoMark(And);
      ShapedAfter(" ", OrEmpty(PrepareWhere(d, cs)), LeafTags(d, Leaves(cs)));
    }
  }

  // ------------------------------------------------------------ statements

  lemma SelectShaped(d: Dialect, q: QueryData)
    requires CleanDialect(d) && CleanTree(q.where)
    requires q.columns.Some? ==> CleanColumns(q.columns.value)
    ensures Shaped(ComposeSelect(d, q), LeafTags(d, Leaves(q.where)))
  {
    var a := PrepareSelect(d, q.columns);
    var b := "FROM " + QuoteIdentifier(d, d.table, false);
    var tags := LeafTags(d, Leaves(q.where));
    ComposeOfFour(a, b, PrepareWhere(d, q.where), PrepareLimit(q.limit));
    SelectListNoMark(d, q.columns);
    NoMarkChars("FROM ");
    PrefixedNoMark("FROM ", d, d.table, false);
    PlainShaped(b);
    SpacedWhere(d, q.where);
    LimitNoMark(q.limit);
    BoolTextNoMark(And);
    if q.limit.Some? {
      NoMarkConcat(" ", PrepareLimit(q.limit).value);
    } else {
      NoMarkChars("");
    }
    ComposedShaped(a, b, [], Spaced(PrepareWhere(d, q.where)), tags, Spaced(PrepareLimit(q.limit)));
    assert [] + tags == tags;
  }

  function AssignTags(d: Dialect, columns: seq<string>): seq<string>
  {
    seq(|columns|, k requires 0 <= k < |columns| => QuoteIdentifier(d, columns[k]) + "=")
  }

  lemma AssignmentShaped(d: Dialect, column: string)
    requires CleanDialect(d) && NoMark(column)
    ensures Shaped(QuoteIdentifier(d, column) + "=?", [QuoteIdentifier(d, column) + "="])
  {
    var q := QuoteIdentifier(d, column);
    QuoteNoMark(d, column, true);
    NoMarkChars("=");
    NoMarkConcat(q, "=");
    MarkShaped(q + "=");
    assert q + "=" + "?" == q + "=?";
  }

  lemma AssignmentsCons(d: Dialect, columns: seq<string>)
    requires columns != []
    ensures Assignments(d, columns) == [QuoteIdentifier(d, columns[0]) + "=?"] + Assignments(d, columns[1..])
  {
  }

  lemma AssignTagsCons(d: Dialect, columns: seq<string>)
    requires columns != []
    ensures AssignTags(d, columns) == [QuoteIdentifier(d, columns[0]) + "="] + AssignTags(d, columns[1..])
  {
    var t, r := AssignTags(d, columns), AssignTags(d, columns[1..]);
    forall k | 0 < k < |columns|
      ensures t[k] == r[k - 1]
    {
      assert columns[1..][k - 1] == columns[k];
    }
  }

  lemma {:induction false} AssignmentsShaped(d: Dialect, columns: seq<string>)
    requires CleanDialect(d) && CleanColumns(columns)
    ensures Shaped(Join(",", Assignments(d, columns)), AssignTags(d, columns))
  {
    if columns == [] {
      PlainShaped("");
      assert AssignTags(d, []) == [];
    } else {
      var x := QuoteIdentifier(d, columns[0]) + "=?";
      var rest := Assignments(d, columns[1..]);
      var t := QuoteIdentifier(d, columns[0]) + "=";
      AssignmentsCons(d, columns);
      AssignTagsCons(d, columns);
      AssignmentShaped(d, columns[0]);
      AssignmentsShaped(d, columns[1..]);
      NoMarkChars(",");
      ConsShaped(",", x, [t], rest, AssignTags(d, columns[1..]));
    }
  }

  lemma SetShaped(d: Dialect, columns: seq<string>)
    requires CleanDialect(d) && CleanColumns(columns)
    ensures Shaped("SET " + PrepareList(Assignments(d, columns), false), AssignTags(d, columns))
  {
    var set_ := "SET ";
    NoMarkChars(set_);
    AssignmentsShaped(d, columns);
    ShapedAfter(set_, Join(",", Assignments(d, columns)), AssignTags(d, columns));
  }

  /** An UPDATE's marks: the assignments in column order, then the WHERE comparisons. */
  lemma UpdateShaped(d: Dialect, columns: seq<string>, where: seq<Constraint>)
    requires CleanDialect(d) && CleanColumns(columns) && CleanTree(where)
    ensures Shaped(ComposeUpdate(d, columns, where), AssignTags(d, columns) + LeafTags(d, Leaves(where)))
  {
    var a := "UPDATE " + QuoteIdentifier(d, d.table, false);
    var b := "SET " + PrepareList(Assignments(d, columns), false);
    var w := Spaced(PrepareWhere(d, where));
    var empty := "";
    ComposeOfThree(a, b, PrepareWhere(d, where));
    NoMarkChars("UPDATE ");
    PrefixedNoMark("UPDATE ", d, d.table, false);
    NoMarkChars(empty);
    SetShaped(d, columns);
    SpacedWhere(d, where);
    ComposedShaped(a, b, AssignTags(d, columns), w, LeafTags(d, Leaves(where)), empty);
    assert a + (" " + b) + w + empty + ";" == a + (" " + b) + w + ";";
  }

  function ValueTags(n: nat): seq<string>
  {
    seq(n, k requires 0 <= k < n => if k == 0 then "VALUES (" else ",")
  }

  function Commas(n: nat): seq<string>
  {
    seq(n, k => ",")
  }

  /** `p` followed by n comma-separated marks: the first mark follows p, the others ','. */
  lemma {:induction false} MarksShaped(p: string, n: nat)
    requires NoMark(p) && n > 0
    ensures Shaped(p + Join(",", Marks(n)), [p] + Commas(n - 1))
  {
    if n == 1 {
      assert Marks(1) == ["?"];
      MarkShaped(p);
      assert [p] + Commas(0) == [p];
    } else {
      MarksShaped(p, n - 1);
      MarksStep(p, n);
    }
  }

  lemma MarksStep(p: string, n: nat)
    requires n > 1 && Shaped(p + Join(",", Marks(n - 1)), [p] + Commas(n - 2))
    ensures Shaped(p + Join(",", Marks(n)), [p] + Commas(n - 1))
  {
    var prev := p + Join(",", Marks(n - 1));
    JoinSnoc(",", Marks(n - 1), "?");
    NoMarkChars(",");
    MarkShaped(",");
    ShapedAppend(prev, [p] + Commas(n - 2), "," + "?", [","]);
    assert p + Join(",", Marks(n)) == prev + ("," + "?");
    assert Commas(n - 2) + [","] == Commas(n - 1);
  }

  lemma ValuesText(n: nat)
    ensures "VALUES " + PrepareList(Marks(n)) == "VALUES (" + Join(",", Marks(n)) + ")"
  {
    assert "VALUES " + "(" == "VALUES (";
  }

  lemma ValuesShaped(n: nat)
    ensures Shaped("VALUES " + PrepareList(Marks(n)), ValueTags(n))
  {
    var open, close := "VALUES (", ")";
    var list := Join(",", Marks(n));
    ValuesText(n);
    NoMarkChars(close);
    if n == 0 {
      NoValuesShaped();
    } else {
      NoMarkChars(open);
      MarksShaped(open, n);
      ValueTagsSplit(n);
      ShapedThen(open + list, ValueTags(n), close);
    }
  }

  lemma ValueTagsSplit(n: nat)
    requires n > 0
    ensures ValueTags(n) == ["VALUES ("] + Commas(n - 1)
  {
    var v, c := ValueTags(n), ["VALUES ("] + Commas(n - 1);
    forall k | 0 <= k < n
      ensures v[k] == c[k]
    {
    }
  }

  lemma NoValuesShaped()
    ensures Shaped("VALUES " + PrepareList(Marks(0)), ValueTags(0))
  {
    ValuesPlaceholders(0);
    PlainShaped("VALUES " + PrepareList(Marks(0)));
    assert ValueTags(0) == [];
  }

  /** An INSERT's marks: the first after "VALUES (", each further one after ','. */
  lemma InsertShaped(d: Dialect, columns: seq<string>)
    requires CleanDialect(d) && CleanColumns(columns)
    ensures Shaped(ComposeInsert(d, columns), ValueTags(|columns|))
  {
    var n := |columns|;
    var a := "INSERT INTO " + QuoteIdentifier(d, d.table, false);
    var b := PrepareColumns(d, columns, false, true);
    var c := "VALUES " + PrepareList(Marks(n));
    ComposeOfThree(a, b, Some(c));
    ValuesShaped(n);
    InsertIntoNoMark(d);
    ColumnListNoMark(d, columns);
    PlainShaped(b);
    BoolTextNoMark(And);
    ShapedAfter(" ", c, ValueTags(n));
    NoMarkChars("");
    ComposedShaped(a, b, [], " " + c, ValueTags(n), "");
    assert [] + ValueTags(n) == ValueTags(n);
    assert a + (" " + b) + (" " + c) + "" + ";" == a + (" " + b) + Spaced(Some(c)) + ";";
  }

  /**
   * Every statement Build produces splits at its '?' marks into one piece
   * per slot owner, and the piece in front of the k-th mark ends with the
   * k-th owner's tag, provided no identifier, operator or quote holds a '?'
   * of its own.
   */
  lemma BuildShaped(d: Dialect, q: QueryData)
    requires CleanDialect(d) && CleanTree(q.where)
    requires q.columns.Some? ==> CleanColumns(q.columns.value)
    ensures Build(d, q).Ok? ==> Shaped(Build(d, q).value, Tags(d, q.kind, SlotOwners(q)))
  {
    match q.kind
    case Select =>
      SelectShaped(d, q);
      TagsOfCompares(d, Select, Leaves(q.where));
    case Insert =>
      if q.columns.Some? {
        InsertShaped(d, q.columns.value);
        TagsOfInsert(d, q.columns.value);
      }
    case Update =>
      if q.columns.Some? {
        UpdateShaped(d, q.columns.value, q.where);
        TagsOfUpdate(d, q.columns.value, Leaves(q.where));
      }
    case Delete =>
  }

  lemma TagsOfCompares(d: Dialect, kind: Kind, leaves: seq<Constraint>)
    ensures Tags(d, kind, Compares(leaves)) == LeafTags(d, leaves)
  {
  }

  lemma TagsOfInsert(d: Dialect, columns: seq<string>)
    ensures Tags(d, Insert, Assigns(columns)) == ValueTags(|columns|)
  {
  }

  lemma TagsOfUpdate(d: Dialect, columns: seq<string>, leaves: seq<Constraint>)
    ensures Tags(d, Update, Assigns(columns) + Compares(leaves)) == AssignTags(d, columns) + LeafTags(d, leaves)
  {
  }
}
