/**
 * The SQL renderer of Dialect.php and its MySQL instance
 * (dialects/MySqlDialect.php). Every function here is pure: it turns the data
 * of a Query into statement text with `?` placeholders.
 */
module Dialects {
  import opened Wrappers
  import opened Decimal
  import opened Constraints

  /**
   * A dialect bound to one table. `identifierQuotes` holds one quote
   * character, or two when the opening and closing quotes differ.
   * `comparisonOperators` is the dialect's list of recognised comparison
   * operators, which Query.php consults; Dialect.php does not declare it, so
   * it is a parameter here.
   */
  datatype Dialect = Dialect(identifierQuotes: string, table: string, comparisonOperators: set<string>)

  const StandardOperators: set<string> := {"=", "<", ">", "<=", ">="}

  /** The base Dialect: double quotes around identifiers. */
  function Standard(table: string, operators: set<string> := StandardOperators): Dialect
  {
    Dialect("\"", table, operators)
  }

  /** MySqlDialect overrides the identifier quote with a backtick and nothing else. */
  function MySql(table: string, operators: set<string> := StandardOperators): Dialect
  {
    Dialect("`", table, operators)
  }

  /** `identifierQuotes[0]` (an empty quote string reads as ""). */
  function OpenQuote(d: Dialect): string
  {
    if |d.identifierQuotes| > 0 then d.identifierQuotes[..1] else ""
  }

  /** `identifierQuotes[1] ?? identifierQuotes[0]`. */
  function CloseQuote(d: Dialect): string
  {
    if |d.identifierQuotes| > 1 then d.identifierQuotes[1..2] else OpenQuote(d)
  }

  /** PHP truthiness of a string: only "" and "0" are false. */
  predicate Truthy(s: string) { s != "" && s != "0" }

  /** The quoting half of quoteIdentifier: `*` is left alone. */
  function Wrapped(d: Dialect, value: string): string
  {
    if value == "*" then value else OpenQuote(d) + value + CloseQuote(d)
  }

  /** The `tablePrefix` the constructor computes once from the table name. */
  function TablePrefix(d: Dialect): string
  {
    (if Truthy(d.table) then Wrapped(d, d.table) else "") + "."
  }

  /** `quoteIdentifier(value, prefix)`. */
  function QuoteIdentifier(d: Dialect, value: string, prefix: bool := true): string
  {
    (if prefix then TablePrefix(d) else "") + Wrapped(d, value)
  }

  /** `implode(glue, parts)`. */
  function Join(glue: string, parts: seq<string>): string
  {
    if parts == [] then ""
    else if |parts| == 1 then parts[0]
    else parts[0] + glue + Join(glue, parts[1..])
  }

  /** `prepareList(values, parentheses)`. */
  function PrepareList(values: seq<string>, parentheses: bool := true): string
  {
    var sql := Join(",", values);
    if parentheses then "(" + sql + ")" else sql
  }

  /** `array_map` of quoteIdentifier over a column list. */
  function QuoteAll(d: Dialect, columns: seq<string>, prefix: bool): (r: seq<string>)
    ensures |r| == |columns| && forall i :: 0 <= i < |columns| ==> r[i] == QuoteIdentifier(d, columns[i], prefix)
  {
    if columns == [] then [] else [QuoteIdentifier(d, columns[0], prefix)] + QuoteAll(d, columns[1..], prefix)
  }

  /** `prepareColumns(columns, prefix, parentheses)`. */
  function PrepareColumns(d: Dialect, columns: seq<string>, prefix: bool := true, parentheses: bool := false): string
  {
    PrepareList(QuoteAll(d, columns, prefix), parentheses)
  }

  /** `prepareSelect(columns)`: a Query whose columns were never set selects ''. */
  function PrepareSelect(d: Dialect, columns: Option<seq<string>>): string
  {
    match columns
    case None => "SELECT ''"
    case Some(cs) => "SELECT " + PrepareColumns(d, cs)
  }

  /**
   * One entry of the WHERE list at position `idx`; `nested` is the rendering
   * of a group's children. The boolean is written only after the first entry.
   */
  function Condition(d: Dialect, c: Constraint, idx: nat, nested: string): string
  {
    match c
    case Group(_, b) => (if idx > 0 then BoolText(b) else "") + " (" + nested + ")"
    case Leaf(column, comparison, b) => (if idx > 0 then BoolText(b) + " " else "") + QuoteIdentifier(d, column) + comparison + "?"
  }

  function OrEmpty(s: Option<string>): string
  {
    match s
    case None => ""
    case Some(t) => t
  }

  /** The entries of a constraint list, numbered from `idx`. */
  function Conditions(d: Dialect, cs: seq<Constraint>, idx: nat): (r: seq<string>)
    ensures |r| == |cs|
    decreases cs, 0
  {
    if cs == [] then []
    else
      var nested := match cs[0] case Group(children, _) => OrEmpty(PrepareWhere(d, children, false)) case Leaf(_, _, _) => "";
      [Condition(d, cs[0], idx, nested)] + Conditions(d, cs[1..], idx + 1)
  }

  /** `prepareWhere(constraints, withKeyword)`: null when there are no constraints. */
  function PrepareWhere(d: Dialect, constraints: seq<Constraint>, withKeyword: bool := true): Option<string>
    decreases constraints, 1
  {
    if constraints == [] then None
    else Some((if withKeyword then "WHERE " else "") + Join(" ", Conditions(d, constraints, 0)))
  }

  /** `prepareLimit(limit)`. */
  function PrepareLimit(limit: Option<int>): Option<string>
  {
    match limit
    case None => None
    case Some(n) => Some("LIMIT " + IntToString(n))
  }

  /** The non-null arguments, in order. */
  function Present(args: seq<Option<string>>): (r: seq<string>)
    ensures |r| <= |args|
  {
    if args == [] then []
    else match args[0]
      case None => Present(args[1..])
      case Some(s) => [s] + Present(args[1..])
  }

  /** `compose(...args)`: nulls are dropped, the rest joined by spaces and ended by ';'. */
  function Compose(args: seq<Option<string>>): string
  {
    Join(" ", Present(args)) + ";"
  }

  /** compose keeps every non-null fragment, empty ones included, in order. */
  lemma {:induction false} PresentKeepsOrder(args: seq<Option<string>>, k: nat)
    requires k < |args| && args[k].Some?
    ensures |Present(args[..k])| < |Present(args)| && Present(args)[|Present(args[..k])|] == args[k].value
  {
    if k > 0 {
      PresentKeepsOrder(args[1..], k - 1);
      assert args[1..][..k - 1] == args[..k][1..];
      assert Present(args[..k]) == (if args[0].Some? then [args[0].value] else []) + Present(args[1..][..k - 1]);
    } else {
      assert args[..0] == [];
    }
  }

  lemma {:induction false} PresentDropsNull(args: seq<Option<string>>)
    ensures (forall k :: 0 <= k < |args| ==> args[k].Some?) ==> |Present(args)| == |args|
    ensures (forall k :: 0 <= k < |args| ==> args[k].None?) <==> Present(args) == []
  {
    if args != [] {
      PresentDropsNull(args[1..]);
      assert forall k :: 1 <= k < |args| ==> args[k] == args[1..][k - 1];
    }
  }

  lemma PresentCons(o: Option<string>, rest: seq<Option<string>>)
    ensures Present([o] + rest) == (if o.Some? then [o.value] else []) + Present(rest)
  {
    assert ([o] + rest)[1..] == rest;
  }

  lemma {:induction false} JoinSnoc(glue: string, parts: seq<string>, x: string)
    requires parts != []
    ensures Join(glue, parts + [x]) == Join(glue, parts) + glue + x
  {
    if |parts| == 1 {
      assert (parts + [x])[1..] == [x];
    } else {
      JoinSnoc(glue, parts[1..], x);
      assert (parts + [x])[1..] == parts[1..] + [x];
    }
  }

  function Opt(o: Option<string>): seq<string>
  {
    if o.Some? then [o.value] else []
  }

  function Spaced(o: Option<string>): string
  {
    if o.Some? then " " + o.value else ""
  }

  lemma JoinOpt(parts: seq<string>, o: Option<string>)
    requires parts != []
    ensures Join(" ", parts + Opt(o)) == Join(" ", parts) + Spaced(o)
  {
    if o.Some? {
      JoinSnoc(" ", parts, o.value);
    } else {
      assert parts + [] == parts;
    }
  }

  lemma JoinCons(glue: string, x: string, rest: seq<string>)
    ensures Join(glue, [x] + rest) == if rest == [] then x else x + glue + Join(glue, rest)
  {
    assert ([x] + rest)[1..] == rest;
  }

  lemma PresentOfThree(a: string, b: string, c: Option<string>)
    ensures Present([Some(a), Some(b), c]) == [a, b] + Opt(c)
  {
    PresentCons(c, []);
    PresentCons(Some(b), [c]);
    PresentCons(Some(a), [Some(b), c]);
    assert [Some(a)] + [Some(b), c] == [Some(a), Some(b), c] && [Some(b)] + [c] == [Some(b), c] && [c] + [] == [c];
  }

  lemma PresentOfFour(a: string, b: string, c: Option<string>, e: Option<string>)
    ensures Present([Some(a), Some(b), c, e]) == [a, b] + Opt(c) + Opt(e)
  {
    PresentOfTwo(c, e);
    PresentCons(Some(b), [c, e]);
    PresentCons(Some(a), [Some(b), c, e]);
    assert [Some(a)] + [Some(b), c, e] == [Some(a), Some(b), c, e] && [Some(b)] + [c, e] == [Some(b), c, e];
    Regroup(a, b, Opt(c), Opt(e));
  }

  lemma PresentOfTwo(c: Option<string>, e: Option<string>)
    ensures Present([c, e]) == Opt(c) + Opt(e)
  {
    PresentCons(e, []);
    PresentCons(c, [e]);
    assert [c] + [e] == [c, e] && [e] + [] == [e] && Opt(e) + [] == Opt(e);
  }

  lemma Regroup<T>(a: T, b: T, x: seq<T>, y: seq<T>)
    ensures [a] + ([b] + (x + y)) == [a, b] + x + y
  {
  }

  lemma JoinTwo(a: string, b: string)
    ensures Join(" ", [a, b]) == a + (" " + b)
  {
    JoinSnoc(" ", [a], b);
    assert [a] + [b] == [a, b];
    assert a + " " + b == a + (" " + b);
  }

  lemma ComposeOfThree(a: string, b: string, c: Option<string>)
    ensures Compose([Some(a), Some(b), c]) == a + (" " + b) + Spaced(c) + ";"
  {
    calc {
      Compose([Some(a), Some(b), c]);
      Join(" ", Present([Some(a), Some(b), c])) + ";";
      { PresentOfThree(a, b, c); }
      Join(" ", [a, b] + Opt(c)) + ";";
      { JoinOpt([a, b], c); }
      Join(" ", [a, b]) + Spaced(c) + ";";
      { JoinTwo(a, b); }
      a + (" " + b) + Spaced(c) + ";";
    }
  }

  lemma ComposeOfFour(a: string, b: string, c: Option<string>, e: Option<string>)
    ensures Compose([Some(a), Some(b), c, e]) == a + (" " + b) + Spaced(c) + Spaced(e) + ";"
  {
    calc {
      Compose([Some(a), Some(b), c, e]);
      Join(" ", Present([Some(a), Some(b), c, e])) + ";";
      { PresentOfFour(a, b, c, e); }
      Join(" ", [a, b] + Opt(c) + Opt(e)) + ";";
      { JoinOpt([a, b] + Opt(c), e); }
      Join(" ", [a, b] + Opt(c)) + Spaced(e) + ";";
      { JoinOpt([a, b], c); }
      Join(" ", [a, b]) + Spaced(c) + Spaced(e) + ";";
      { JoinTwo(a, b); }
      a + (" " + b) + Spaced(c) + Spaced(e) + ";";
    }
  }

  function ComposeSelect(d: Dialect, q: QueryData): string
  {
    Compose([
      Some(PrepareSelect(d, q.columns)),
      Some("FROM " + QuoteIdentifier(d, d.table, false)),
      PrepareWhere(d, q.where),
      PrepareLimit(q.limit)])
  }

  /** `array_fill(0, n, '?')`. */
  function Marks(n: nat): (r: seq<string>)
    ensures |r| == n && forall i :: 0 <= i < n ==> r[i] == "?"
  {
    if n == 0 then [] else Marks(n - 1) + ["?"]
  }

  function ComposeInsert(d: Dialect, columns: seq<string>): string
  {
    Compose([
      Some("INSERT INTO " + QuoteIdentifier(d, d.table, false)),
      Some(PrepareColumns(d, columns, false, true)),
      Some("VALUES " + PrepareList(Marks(|columns|)))])
  }

  /** `quoteIdentifier(column) . "=?"` for every column. */
  function Assignments(d: Dialect, columns: seq<string>): (r: seq<string>)
    ensures |r| == |columns| && forall i :: 0 <= i < |columns| ==> r[i] == QuoteIdentifier(d, columns[i]) + "=?"
  {
    if columns == [] then [] else [QuoteIdentifier(d, columns[0]) + "=?"] + Assignments(d, columns[1..])
  }

  function ComposeUpdate(d: Dialect, columns: seq<string>, where: seq<Constraint>): string
  {
    Compose([
      Some("UPDATE " + QuoteIdentifier(d, d.table, false)),
      Some("SET " + PrepareList(Assignments(d, columns), false)),
      PrepareWhere(d, where)])
  }

  /**
   * Why `Query::build` produces no text: there is no `composeDelete`, and
   * `composeInsert`/`composeUpdate` cannot take a column list that was never
   * set (PHP raises a TypeError).
   */
  datatype BuildError = NoComposer(kind: Kind) | ColumnsNotSet

  /** `Query::build`: dispatch on the query kind to the matching composer. */
  function Build(d: Dialect, q: QueryData): Result<string, BuildError>
  {
    match q.kind
    case Select => Ok(ComposeSelect(d, q))
    case Insert => if q.columns.None? then Err(ColumnsNotSet) else Ok(ComposeInsert(d, q.columns.value))
    case Update => if q.columns.None? then Err(ColumnsNotSet) else Ok(ComposeUpdate(d, q.columns.value, q.where))
    case Delete => Err(NoComposer(Delete))
  }

  // ------------------------------------------------------------ quoting

  /** quoteIdentifier wraps every value except `*` as open + value + close. */
  lemma QuoteIdentifierShape(d: Dialect, value: string, prefix: bool)
    ensures value != "*" ==>
      QuoteIdentifier(d, value, prefix) == (if prefix then TablePrefix(d) else "") + OpenQuote(d) + value + CloseQuote(d)
    ensures value == "*" ==> QuoteIdentifier(d, value, prefix) == (if prefix then TablePrefix(d) + "*" else "*")
    ensures |d.identifierQuotes| == 1 ==> CloseQuote(d) == OpenQuote(d) == d.identifierQuotes
    ensures |d.identifierQuotes| >= 2 ==> OpenQuote(d) == [d.identifierQuotes[0]] && CloseQuote(d) == [d.identifierQuotes[1]]
  {
  }

  /** The table prefix is the quoted table name and a dot, or just a dot. */
  lemma TablePrefixShape(d: Dialect)
    ensures Truthy(d.table) && d.table != "*" ==> TablePrefix(d) == OpenQuote(d) + d.table + CloseQuote(d) + "."
    ensures !Truthy(d.table) ==> TablePrefix(d) == "."
  {
  }

  /** MySQL quotes with one backtick on both sides and prefixes with the quoted table. */
  lemma MySqlQuoting(table: string, operators: set<string>, value: string)
    requires value != "*"
    ensures QuoteIdentifier(MySql(table, operators), value, false) == "`" + value + "`"
    ensures Truthy(table) && table != "*" ==>
      QuoteIdentifier(MySql(table, operators), value) == "`" + table + "`.`" + value + "`"
  {
    var d := MySql(table, operators);
    assert OpenQuote(d) == "`" && CloseQuote(d) == "`";
    assert "" + ("`" + value + "`") == "`" + value + "`";
    if Truthy(table) && table != "*" {
      assert "`" + "." + "`" == "`.`";
      PrefixedText("`", table, value);
    }
  }

  /** The base dialect quotes with one double quote on both sides. */
  lemma StandardQuoting(table: string, operators: set<string>, value: string)
    requires value != "*"
    ensures QuoteIdentifier(Standard(table, operators), value, false) == "\"" + value + "\""
    ensures Truthy(table) && table != "*" ==>
      QuoteIdentifier(Standard(table, operators), value) == "\"" + table + "\".\"" + value + "\""
  {
    var d := Standard(table, operators);
    assert OpenQuote(d) == "\"" && CloseQuote(d) == "\"";
    assert "" + ("\"" + value + "\"") == "\"" + value + "\"";
    if Truthy(table) && table != "*" {
      assert "\"" + "." + "\"" == "\".\"";
      PrefixedText("\"", table, value);
    }
  }

  /** A prefixed identifier regrouped: the quote, dot and quote between table and column. */
  lemma PrefixedText(q: string, t: string, v: string)
    ensures (q + t + q + ".") + (q + v + q) == q + t + (q + "." + q) + v + q
  {
  }

  /** MySqlDialect is the base Dialect with only the quote character changed. */
  lemma MySqlOnlyChangesQuotes(table: string, operators: set<string>)
    ensures MySql(table, operators) == Standard(table, operators).(identifierQuotes := "`")
    ensures MySql(table, operators).table == table && MySql(table, operators).comparisonOperators == operators
  {
  }

  // ------------------------------------------------------------ WHERE

  /** No constraints render to null; the keyword is written only when asked for. */
  lemma PrepareWhereKeyword(d: Dialect, cs: seq<Constraint>)
    ensures cs == [] <==> PrepareWhere(d, cs, true).None?
    ensures cs == [] <==> PrepareWhere(d, cs, false).None?
    ensures cs != [] ==> PrepareWhere(d, cs, true).value == "WHERE " + PrepareWhere(d, cs, false).value
  {
  }

  /**
   * The boolean of an entry is written exactly when the entry is not the
   * first of its list; a comparison gets a space after it, a group does not,
   * so a group in first place renders as " (...)".
   */
  lemma BoolOnlyAfterFirst(d: Dialect, c: Constraint, idx: nat, nested: string)
    ensures Condition(d, c, idx, nested)
         == (if idx > 0 then BoolText(c.boolOp) + (if c.Leaf? then " " else "") else "") + Condition(d, c, 0, nested)
    ensures c.Group? ==> Condition(d, c, 0, nested) == " (" + nested + ")"
    ensures c.Leaf? ==> Condition(d, c, 0, nested) == QuoteIdentifier(d, c.column) + c.op + "?"
  {
    match c
    case Group(_, b) =>
      assert "" + " (" + nested + ")" == " (" + nested + ")";
    case Leaf(column, comparison, b) =>
      var q := QuoteIdentifier(d, column);
      assert "" + q + comparison + "?" == q + comparison + "?";
      if idx > 0 {
        assert BoolText(b) + " " + q + comparison + "?" == (BoolText(b) + " ") + (q + comparison + "?");
      }
  }

  /** Entry `k` of a list is rendered with position `idx + k`. */
  lemma {:induction false} ConditionsAt(d: Dialect, cs: seq<Constraint>, idx: nat, k: nat)
    requires k < |cs|
    ensures Conditions(d, cs, idx)[k]
         == Condition(d, cs[k], idx + k, match cs[k] case Group(ch, _) => OrEmpty(PrepareWhere(d, ch, false)) case Leaf(_, _, _) => "")
  {
    if k > 0 {
      ConditionsAt(d, cs[1..], idx + 1, k - 1);
    }
  }

  /** A list of comparisons renders as its entries joined by single spaces. */
  lemma WhereOfOneLeaf(d: Dialect, cs: seq<Constraint>)
    requires |cs| == 1 && cs[0].Leaf?
    ensures PrepareWhere(d, cs) == Some("WHERE " + (QuoteIdentifier(d, cs[0].column) + cs[0].op + "?"))
  {
    var entry := QuoteIdentifier(d, cs[0].column) + cs[0].op + "?";
    ConditionsOfOneLeaf(d, cs);
    assert Join(" ", [entry]) == entry;
  }

  lemma ConditionsOfOneLeaf(d: Dialect, cs: seq<Constraint>)
    requires |cs| == 1 && cs[0].Leaf?
    ensures Conditions(d, cs, 0) == [QuoteIdentifier(d, cs[0].column) + cs[0].op + "?"]
  {
    assert cs[1..] == [];
    BoolOnlyAfterFirst(d, cs[0], 0, "");
  }

  lemma ConditionsOfTwoLeaves(d: Dialect, cs: seq<Constraint>)
    requires |cs| == 2 && cs[0].Leaf? && cs[1].Leaf?
    ensures Conditions(d, cs, 0)
         == [QuoteIdentifier(d, cs[0].column) + cs[0].op + "?",
             BoolText(cs[1].boolOp) + " " + QuoteIdentifier(d, cs[1].column) + cs[1].op + "?"]
  {
    assert Conditions(d, cs[1..][1..], 2) == [];
    assert Conditions(d, cs[1..], 1) == [Condition(d, cs[1], 1, "")];
    BoolOnlyAfterFirst(d, cs[0], 0, "");
    BoolOnlyAfterFirst(d, cs[1], 1, "");
  }

  lemma WhereOfTwoLeaves(d: Dialect, cs: seq<Constraint>)
    requires |cs| == 2 && cs[0].Leaf? && cs[1].Leaf?
    ensures PrepareWhere(d, cs)
         == Some("WHERE " + (QuoteIdentifier(d, cs[0].column) + cs[0].op + "?") + " "
                 + (BoolText(cs[1].boolOp) + " " + QuoteIdentifier(d, cs[1].column) + cs[1].op + "?"))
  {
    ConditionsOfTwoLeaves(d, cs);
    var parts := Conditions(d, cs, 0);
    JoinSnoc(" ", [parts[0]], parts[1]);
    assert [parts[0]] + [parts[1]] == parts;
    assert "WHERE " + (parts[0] + " " + parts[1]) == "WHERE " + parts[0] + " " + parts[1];
  }

  // ------------------------------------------------------------ placeholders

  /** Occurrences of a character. */
  function Count(c: char, s: string): nat
  {
    if s == [] then 0 else (if s[0] == c then 1 else 0) + Count(c, s[1..])
  }

  lemma {:induction false} CountAppend(c: char, a: string, b: string)
    ensures Count(c, a + b) == Count(c, a) + Count(c, b)
  {
    if a != [] {
      CountAppend(c, a[1..], b);
      assert (a + b)[1..] == a[1..] + b;
    } else {
      assert a + b == b;
    }
  }

  predicate NoMark(s: string) { Count('?', s) == 0 }

  /** Count of '?' in the joined parts: the parts' counts, glue included. */
  function CountAll(parts: seq<string>): nat
  {
    if parts == [] then 0 else Count('?', parts[0]) + CountAll(parts[1..])
  }

  lemma {:induction false} CountJoin(glue: string, parts: seq<string>)
    requires NoMark(glue)
    ensures Count('?', Join(glue, parts)) == CountAll(parts)
  {
    if |parts| > 1 {
      CountJoin(glue, parts[1..]);
      CountAppend('?', parts[0] + glue, Join(glue, parts[1..]));
      CountAppend('?', parts[0], glue);
    } else if |parts| == 1 {
      assert CountAll(parts) == Count('?', parts[0]) + CountAll([]);
    }
  }

  /** The dialect's quotes and table contain no '?'. */
  predicate CleanDialect(d: Dialect) { NoMark(d.identifierQuotes) && NoMark(d.table) }

  /** No column name or operator in the tree contains '?'. */
  predicate CleanTree(cs: seq<Constraint>)
  {
    cs != [] ==>
      (match cs[0]
       case Leaf(column, comparison, _) => NoMark(column) && NoMark(comparison)
       case Group(children, _) => CleanTree(children))
      && CleanTree(cs[1..])
  }

  /** No column name contains '?'. */
  predicate CleanColumns(columns: seq<string>) { forall k :: 0 <= k < |columns| ==> NoMark(columns[k]) }

  lemma CountSlice(q: string, i: nat, j: nat)
    requires NoMark(q) && i <= j <= |q|
    ensures NoMark(q[i..j])
  {
    assert q == q[..i] + q[i..j] + q[j..];
    CountAppend('?', q[..i] + q[i..j], q[j..]);
    CountAppend('?', q[..i], q[i..j]);
  }

  /** A string has no '?' exactly when none of its characters is '?'. */
  lemma {:induction false} NoMarkChars(s: string)
    ensures NoMark(s) <==> forall i :: 0 <= i < |s| ==> s[i] != '?'
  {
    if s != [] {
      NoMarkChars(s[1..]);
      assert forall i :: 1 <= i < |s| ==> s[i] == s[1..][i - 1];
    }
  }

  lemma BoolTextNoMark(b: BoolOp)
    ensures NoMark(BoolText(b)) && NoMark(BoolText(b) + " ") && NoMark(" (") && NoMark(")") && NoMark(" ") && NoMark("WHERE ")
  {
    NoMarkChars(BoolText(b));
    NoMarkChars(BoolText(b) + " ");
    NoMarkChars(" (");
    NoMarkChars(")");
    NoMarkChars(" ");
    NoMarkChars("WHERE ");
  }

  lemma QuoteNoMark(d: Dialect, value: string, prefix: bool)
    requires CleanDialect(d) && NoMark(value)
    ensures NoMark(QuoteIdentifier(d, value, prefix))
  {
    if |d.identifierQuotes| > 0 {
      CountSlice(d.identifierQuotes, 0, 1);
    }
    if |d.identifierQuotes| > 1 {
      CountSlice(d.identifierQuotes, 1, 2);
    }
    assert NoMark(OpenQuote(d)) && NoMark(CloseQuote(d));
    CountAppend('?', OpenQuote(d), value);
    CountAppend('?', OpenQuote(d) + value, CloseQuote(d));
    CountAppend('?', Wrapped(d, d.table), ".");
    CountAppend('?', OpenQuote(d), d.table);
    CountAppend('?', OpenQuote(d) + d.table, CloseQuote(d));
    assert "."[1..] == "";
    assert NoMark(TablePrefix(d));
    CountAppend('?', if prefix then TablePrefix(d) else "", Wrapped(d, value));
  }

  lemma LeavesOfList(cs: seq<Constraint>)
    requires cs != []
    ensures Leaves(cs) == Leaves([cs[0]]) + Leaves(cs[1..])
  {
    LeavesAppend([cs[0]], cs[1..]);
    assert [cs[0]] + cs[1..] == cs;
  }

  /**
   * The '?' marks of the WHERE entries are exactly one per comparison in the
   * tree, when no identifier, operator or quote contains '?' itself.
   */
  lemma {:induction false} ConditionsPlaceholders(d: Dialect, cs: seq<Constraint>, idx: nat)
    requires CleanDialect(d) && CleanTree(cs)
    ensures CountAll(Conditions(d, cs, idx)) == |Leaves(cs)|
    decreases cs, 0
  {
    if cs != [] {
      LeavesOfList(cs);
      BoolTextNoMark(cs[0].boolOp);
      ConditionsPlaceholders(d, cs[1..], idx + 1);
      assert [cs[0]][1..] == [];
      var rest := Conditions(d, cs, idx)[1..];
      assert rest == Conditions(d, cs[1..], idx + 1);
      match cs[0]
      case Leaf(column, comparison, b) =>
        QuoteNoMark(d, column, true);
        var pre := if idx > 0 then BoolText(b) + " " else "";
        var q := QuoteIdentifier(d, column);
        assert NoMark(pre);
        CountAppend('?', pre, q);
        CountAppend('?', pre + q, comparison);
        CountAppend('?', pre + q + comparison, "?");
      case Group(children, b) =>
        WherePlaceholders(d, children, false);
        var pre := if idx > 0 then BoolText(b) else "";
        var nested := OrEmpty(PrepareWhere(d, children, false));
        assert NoMark(pre);
        CountAppend('?', pre, " (");
        CountAppend('?', pre + " (", nested);
        CountAppend('?', pre + " (" + nested, ")");
    }
  }

  lemma {:induction false} WherePlaceholders(d: Dialect, cs: seq<Constraint>, withKeyword: bool)
    requires CleanDialect(d) && CleanTree(cs)
    ensures Count('?', OrEmpty(PrepareWhere(d, cs, withKeyword))) == |Leaves(cs)|
    decreases cs, 1
  {
    if cs != [] {
      ConditionsPlaceholders(d, cs, 0);
      BoolTextNoMark(And);
      CountJoin(" ", Conditions(d, cs, 0));
      CountAppend('?', if withKeyword then "WHERE " else "", Join(" ", Conditions(d, cs, 0)));
    }
  }

  // ------------------------------------------------------------ statements

  /**
   * The number of placeholders a built statement carries: the WHERE
   * comparisons for SELECT (and DELETE, which has no composer), one per
   * column for INSERT, and one per column followed by the WHERE comparisons
   * for UPDATE.
   */
  function Placeholders(q: QueryData): nat
  {
    var columns := if q.columns.Some? then |q.columns.value| else 0;
    match q.kind
    case Select => |Leaves(q.where)|
    case Insert => columns
    case Update => columns + |Leaves(q.where)|
    case Delete => |Leaves(q.where)|
  }

  lemma NoMarkConcat(a: string, b: string)
    requires NoMark(a) && NoMark(b)
    ensures NoMark(a + b)
  {
    CountAppend('?', a, b);
  }

  /** Marks of the non-null fragments. */
  function CountPresent(args: seq<Option<string>>): nat
  {
    if args == [] then 0 else OptCount(args[0]) + CountPresent(args[1..])
  }

  lemma {:induction false} PresentCount(args: seq<Option<string>>)
    ensures CountAll(Present(args)) == CountPresent(args)
  {
    if args != [] {
      PresentCount(args[1..]);
    }
  }

  lemma ComposeCount(args: seq<Option<string>>)
    ensures Count('?', Compose(args)) == CountPresent(args)
  {
    PresentCount(args);
    BoolTextNoMark(And);
    CountJoin(" ", Present(args));
    CountAppend('?', Join(" ", Present(args)), ";");
    NoMarkChars(";");
  }

  function OptCount(o: Option<string>): nat
  {
    if o.Some? then Count('?', o.value) else 0
  }

  lemma ComposeCount3(a: Option<string>, b: Option<string>, c: Option<string>)
    ensures Count('?', Compose([a, b, c])) == OptCount(a) + OptCount(b) + OptCount(c)
  {
    ComposeCount([a, b, c]);
    assert [a, b, c][1..] == [b, c] && [b, c][1..] == [c] && [c][1..] == [];
    assert CountPresent([c]) == OptCount(c);
    assert CountPresent([b, c]) == OptCount(b) + OptCount(c);
  }

  lemma ComposeCount4(a: Option<string>, b: Option<string>, c: Option<string>, e: Option<string>)
    ensures Count('?', Compose([a, b, c, e])) == OptCount(a) + OptCount(b) + OptCount(c) + OptCount(e)
  {
    ComposeCount([a, b, c, e]);
    assert [a, b, c, e][1..] == [b, c, e] && [b, c, e][1..] == [c, e] && [c, e][1..] == [e] && [e][1..] == [];
    assert CountPresent([e]) == OptCount(e);
    assert CountPresent([c, e]) == OptCount(c) + OptCount(e);
    assert CountPresent([b, c, e]) == OptCount(b) + OptCount(c) + OptCount(e);
  }

  lemma {:induction false} QuoteAllCount(d: Dialect, columns: seq<string>, prefix: bool)
    requires CleanDialect(d) && CleanColumns(columns)
    ensures CountAll(QuoteAll(d, columns, prefix)) == 0
  {
    if columns != [] {
      QuoteNoMark(d, columns[0], prefix);
      QuoteAllCount(d, columns[1..], prefix);
      assert QuoteAll(d, columns, prefix)[1..] == QuoteAll(d, columns[1..], prefix);
    }
  }

  lemma ListCount(values: seq<string>, parentheses: bool)
    ensures Count('?', PrepareList(values, parentheses)) == CountAll(values)
  {
    NoMarkChars(",");
    NoMarkChars("(");
    NoMarkChars(")");
    CountJoin(",", values);
    CountAppend('?', "(", Join(",", values));
    CountAppend('?', "(" + Join(",", values), ")");
  }

  lemma {:induction false} MarksCount(n: nat)
    ensures CountAll(Marks(n)) == n
  {
    NoMarkChars("");
    if n > 0 {
      MarksCount(n - 1);
      CountAllAppend(Marks(n - 1), ["?"]);
    }
  }

  lemma {:induction false} CountAllAppend(a: seq<string>, b: seq<string>)
    ensures CountAll(a + b) == CountAll(a) + CountAll(b)
  {
    if a != [] {
      CountAllAppend(a[1..], b);
      assert (a + b)[1..] == a[1..] + b;
    } else {
      assert a + b == b;
    }
  }

  lemma {:induction false} AssignmentsCount(d: Dialect, columns: seq<string>)
    requires CleanDialect(d) && CleanColumns(columns)
    ensures CountAll(Assignments(d, columns)) == |columns|
  {
    if columns != [] {
      QuoteNoMark(d, columns[0], true);
      CountAppend('?', QuoteIdentifier(d, columns[0]), "=?");
      assert "=?"[1..] == "?" && "?"[1..] == "";
      AssignmentsCount(d, columns[1..]);
      assert Assignments(d, columns)[1..] == Assignments(d, columns[1..]);
    }
  }

  lemma PrefixedNoMark(keyword: string, d: Dialect, value: string, prefix: bool)
    requires CleanDialect(d) && NoMark(value) && NoMark(keyword)
    ensures NoMark(keyword + QuoteIdentifier(d, value, prefix))
  {
    QuoteNoMark(d, value, prefix);
    NoMarkConcat(keyword, QuoteIdentifier(d, value, prefix));
  }

  lemma SelectListNoMark(d: Dialect, columns: Option<seq<string>>)
    requires CleanDialect(d)
    requires columns.Some? ==> CleanColumns(columns.value)
    ensures NoMark(PrepareSelect(d, columns))
  {
    if columns.Some? {
      QuoteAllCount(d, columns.value, true);
      ListCount(QuoteAll(d, columns.value, true), false);
      NoMarkChars("SELECT ");
      NoMarkConcat("SELECT ", PrepareColumns(d, columns.value));
    } else {
      NoMarkChars("SELECT ''");
    }
  }

  lemma LimitNoMark(limit: Option<int>)
    ensures OptCount(PrepareLimit(limit)) == 0
  {
    if limit.Some? {
      IntToStringRoundTrip(limit.value);
      NoMarkChars(IntToString(limit.value));
      NoMarkChars("LIMIT ");
      NoMarkConcat("LIMIT ", IntToString(limit.value));
    }
  }

  lemma SelectPlaceholders(d: Dialect, q: QueryData)
    requires CleanDialect(d) && CleanTree(q.where)
    requires q.columns.Some? ==> CleanColumns(q.columns.value)
    ensures Count('?', ComposeSelect(d, q)) == |Leaves(q.where)|
  {
    SelectListNoMark(d, q.columns);
    NoMarkChars("FROM ");
    PrefixedNoMark("FROM ", d, d.table, false);
    WherePlaceholders(d, q.where, true);
    LimitNoMark(q.limit);
    ComposeCount4(Some(PrepareSelect(d, q.columns)), Some("FROM " + QuoteIdentifier(d, d.table, false)), PrepareWhere(d, q.where), PrepareLimit(q.limit));
  }

  /** The VALUES clause of an insert holds one placeholder per column. */
  lemma ValuesPlaceholders(n: nat)
    ensures Count('?', "VALUES " + PrepareList(Marks(n))) == n
  {
    MarksCount(n);
    ListCount(Marks(n), true);
    NoMarkChars("VALUES ");
    CountAppend('?', "VALUES ", PrepareList(Marks(n)));
  }

  lemma InsertIntoNoMark(d: Dialect)
    requires CleanDialect(d)
    ensures Count('?', "INSERT INTO " + QuoteIdentifier(d, d.table, false)) == 0
  {
    NoMarkChars("INSERT INTO ");
    PrefixedNoMark("INSERT INTO ", d, d.table, false);
  }

  lemma ColumnListNoMark(d: Dialect, columns: seq<string>)
    requires CleanDialect(d) && CleanColumns(columns)
    ensures Count('?', PrepareColumns(d, columns, false, true)) == 0
  {
    QuoteAllCount(d, columns, false);
    ListCount(QuoteAll(d, columns, false), true);
  }

  lemma InsertPlaceholders(d: Dialect, columns: seq<string>)
    requires CleanDialect(d) && CleanColumns(columns)
    ensures Count('?', ComposeInsert(d, columns)) == |columns|
  {
    var into := "INSERT INTO " + QuoteIdentifier(d, d.table, false);
    var names := PrepareColumns(d, columns, false, true);
    var values := "VALUES " + PrepareList(Marks(|columns|));
    InsertIntoNoMark(d);
    ColumnListNoMark(d, columns);
    ValuesPlaceholders(|columns|);
    ComposeCount3(Some(into), Some(names), Some(values));
  }

  lemma UpdatePlaceholders(d: Dialect, columns: seq<string>, where: seq<Constraint>)
    requires CleanDialect(d) && CleanColumns(columns) && CleanTree(where)
    ensures Count('?', ComposeUpdate(d, columns, where)) == |columns| + |Leaves(where)|
  {
    NoMarkChars("UPDATE ");
    PrefixedNoMark("UPDATE ", d, d.table, false);
    AssignmentsCount(d, columns);
    ListCount(Assignments(d, columns), false);
    NoMarkChars("SET ");
    CountAppend('?', "SET ", PrepareList(Assignments(d, columns), false));
    WherePlaceholders(d, where, true);
    ComposeCount3(Some("UPDATE " + QuoteIdentifier(d, d.table, false)), Some("SET " + PrepareList(Assignments(d, columns), false)), PrepareWhere(d, where));
  }

  /**
   * The placeholder count of every statement Build produces is
   * Placeholders(q), provided no identifier, operator or quote holds a '?'
   * of its own; Build fails exactly for DELETE and for INSERT or UPDATE
   * without columns.
   */
  lemma BuildPlaceholders(d: Dialect, q: QueryData)
    requires CleanDialect(d) && CleanTree(q.where)
    requires q.columns.Some? ==> CleanColumns(q.columns.value)
    ensures Build(d, q).Ok? ==> Count('?', Build(d, q).value) == Placeholders(q)
    ensures Build(d, q).Err? <==> q.kind == Delete || (q.kind in {Insert, Update} && q.columns.None?)
  {
    match q.kind
    case Select => SelectPlaceholders(d, q);
    case Insert => if q.columns.Some? { InsertPlaceholders(d, q.columns.value); }
    case Update => if q.columns.Some? { UpdatePlaceholders(d, q.columns.value, q.where); }
    case Delete =>
  }
}
