/**
 * Concrete statements built with the Query builder and rendered by the
 * dialects: the select example of the Query documentation and the
 * statements of the feed example application (its article listing, and its
 * article insert and update). Request data (`$_POST`, `$_GET`) are parameters.
 */
module Feed {
  import opened Wrappers
  import opened Decimal
  import opened Constraints
  import opened Dialects
  import opened Queries

  // ------------------------------------------------------------ shapes

  lemma TenToString()
    ensures IntToString(10) == "10"
  {
    assert DigitChar(1) == '1' && DigitChar(0) == '0';
    assert NatToString(1) == "1";
    assert 10 / 10 == 1 && 10 % 10 == 0;
    assert NatToString(10) == NatToString(1) + [DigitChar(0)];
  }

  lemma JoinTwo(glue: string, x: string, y: string)
    ensures Join(glue, [x, y]) == x + glue + y
  {
    JoinSnoc(glue, [x], y);
    assert [x] + [y] == [x, y];
  }

  /** Two quoted columns joined by a comma. */
  lemma ColumnsOfTwo(d: Dialect, a: string, b: string, prefix: bool)
    ensures PrepareColumns(d, [a, b], prefix, false) == QuoteIdentifier(d, a, prefix) + "," + QuoteIdentifier(d, b, prefix)
    ensures PrepareColumns(d, [a, b], prefix, true) == "(" + (QuoteIdentifier(d, a, prefix) + "," + QuoteIdentifier(d, b, prefix)) + ")"
  {
    var qs := QuoteAll(d, [a, b], prefix);
    assert qs == [QuoteIdentifier(d, a, prefix), QuoteIdentifier(d, b, prefix)];
    JoinTwo(",", qs[0], qs[1]);
  }

  /** A SELECT of two columns with two AND-joined comparisons and a limit. */
  lemma SelectOfTwo(d: Dialect, q: QueryData, c1: string, c2: string, x: string, o1: string, y: string, o2: string, n: int)
    requires q.kind == Select && q.columns == Some([c1, c2]) && q.limit == Some(n)
    requires q.where == [Leaf(x, o1, And), Leaf(y, o2, And)]
    ensures Build(d, q)
         == Ok(("SELECT " + (QuoteIdentifier(d, c1) + "," + QuoteIdentifier(d, c2)))
               + (" " + ("FROM " + QuoteIdentifier(d, d.table, false)))
               + (" " + ("WHERE " + (QuoteIdentifier(d, x) + o1 + "?") + " " + ("AND" + " " + QuoteIdentifier(d, y) + o2 + "?")))
               + (" " + ("LIMIT " + IntToString(n))) + ";")
  {
    ColumnsOfTwo(d, c1, c2, true);
    WhereOfTwoLeaves(d, q.where);
    ComposeOfFour(PrepareSelect(d, q.columns), "FROM " + QuoteIdentifier(d, d.table, false), PrepareWhere(d, q.where), PrepareLimit(q.limit));
  }

  /** A SELECT of three columns with no constraint and no limit. */
  lemma SelectOfThree(d: Dialect, q: QueryData, c1: string, c2: string, c3: string)
    requires q.kind == Select && q.columns == Some([c1, c2, c3]) && q.where == [] && q.limit == None
    ensures Build(d, q)
         == Ok(("SELECT " + (QuoteIdentifier(d, c1) + "," + (QuoteIdentifier(d, c2) + "," + QuoteIdentifier(d, c3))))
               + (" " + ("FROM " + QuoteIdentifier(d, d.table, false))) + ";")
  {
    var qs := QuoteAll(d, [c1, c2, c3], true);
    assert qs == [QuoteIdentifier(d, c1), QuoteIdentifier(d, c2), QuoteIdentifier(d, c3)];
    JoinTwo(",", qs[1], qs[2]);
    JoinCons(",", qs[0], qs[1..]);
    assert [qs[0]] + qs[1..] == qs && qs[1..] == [qs[1], qs[2]];
    var a, b := PrepareSelect(d, q.columns), "FROM " + QuoteIdentifier(d, d.table, false);
    assert PrepareWhere(d, q.where) == None && PrepareLimit(q.limit) == None;
    ComposeOfFour(a, b, None, None);
    assert a + (" " + b) + Spaced(None) + Spaced(None) + ";" == a + (" " + b) + ";";
  }

  /** A SELECT of one column with no constraint and no limit. */
  lemma SelectOfOne(d: Dialect, q: QueryData, c: string)
    requires q.kind == Select && q.columns == Some([c]) && q.where == [] && q.limit == None
    ensures Build(d, q) == Ok(("SELECT " + QuoteIdentifier(d, c)) + (" " + ("FROM " + QuoteIdentifier(d, d.table, false))) + ";")
  {
    assert QuoteAll(d, [c], true) == [QuoteIdentifier(d, c)];
    assert PrepareSelect(d, q.columns) == "SELECT " + QuoteIdentifier(d, c);
    var a, b := PrepareSelect(d, q.columns), "FROM " + QuoteIdentifier(d, d.table, false);
    assert PrepareWhere(d, q.where) == None && PrepareLimit(q.limit) == None;
    assert a + (" " + b) + Spaced(None) + Spaced(None) + ";" == a + (" " + b) + ";";
    ComposeOfFour(PrepareSelect(d, q.columns), "FROM " + QuoteIdentifier(d, d.table, false), None, None);
  }

  /** An UPDATE of two columns with one comparison. */
  lemma UpdateOfTwo(d: Dialect, q: QueryData, c1: string, c2: string, x: string, o: string)
    requires q.kind == Update && q.columns == Some([c1, c2]) && q.where == [Leaf(x, o, And)]
    ensures Build(d, q)
         == Ok(("UPDATE " + QuoteIdentifier(d, d.table, false))
               + (" " + ("SET " + (QuoteIdentifier(d, c1) + "=?" + "," + (QuoteIdentifier(d, c2) + "=?"))))
               + (" " + ("WHERE " + (QuoteIdentifier(d, x) + o + "?"))) + ";")
  {
    var sets := Assignments(d, [c1, c2]);
    assert sets == [QuoteIdentifier(d, c1) + "=?", QuoteIdentifier(d, c2) + "=?"];
    JoinTwo(",", sets[0], sets[1]);
    WhereOfOneLeaf(d, q.where);
    ComposeOfThree("UPDATE " + QuoteIdentifier(d, d.table, false), "SET " + PrepareList(sets, false), PrepareWhere(d, q.where));
  }

  /** An INSERT of two columns. */
  lemma InsertOfTwo(d: Dialect, q: QueryData, c1: string, c2: string)
    requires q.kind == Insert && q.columns == Some([c1, c2])
    ensures Build(d, q)
         == Ok(("INSERT INTO " + QuoteIdentifier(d, d.table, false))
               + (" " + ("(" + (QuoteIdentifier(d, c1, false) + "," + QuoteIdentifier(d, c2, false)) + ")"))
               + (" " + ("VALUES " + ("(" + ("?" + "," + "?") + ")"))) + ";")
  {
    ColumnsOfTwo(d, c1, c2, false);
    var marks := Marks(2);
    assert marks == ["?", "?"];
    JoinTwo(",", "?", "?");
    ComposeOfThree("INSERT INTO " + QuoteIdentifier(d, d.table, false), PrepareColumns(d, [c1, c2], false, true), Some("VALUES " + PrepareList(marks)));
  }

  // ------------------------------------------------------------ text

  lemma PairKeys(k1: string, v1: Value, k2: string, v2: Value)
    ensures Keys([(k1, v1), (k2, v2)]) == [k1, k2] && Values([(k1, v1), (k2, v2)]) == [v1, v2]
  {
    var data := [(k1, v1), (k2, v2)];
    assert Keys(data)[0] == k1 && Keys(data)[1] == k2;
    assert Values(data)[0] == v1 && Values(data)[1] == v2;
  }

  // Quoted names of the examples.

  lemma StandardPrefix()
    ensures TablePrefix(Standard("t")) == "\"t\"."
  {
  }

  lemma StandardId()
    ensures QuoteIdentifier(Standard("t"), "id") == "\"t\".\"id\""
  {
    StandardPrefix();
    StandardQuoting("t", StandardOperators, "id");
    assert "\"t\".\"id\"" == "\"t\"." + "\"id\"";
  }

  lemma StandardName()
    ensures QuoteIdentifier(Standard("t"), "name") == "\"t\".\"name\""
  {
    StandardPrefix();
    StandardQuoting("t", StandardOperators, "name");
    assert "\"t\".\"name\"" == "\"t\"." + "\"name\"";
  }

  lemma StandardAge()
    ensures QuoteIdentifier(Standard("t"), "age") == "\"t\".\"age\""
  {
    StandardPrefix();
    StandardQuoting("t", StandardOperators, "age");
    assert "\"t\".\"age\"" == "\"t\"." + "\"age\"";
  }

  lemma StandardTable()
    ensures QuoteIdentifier(Standard("t"), "t", false) == "\"t\""
  {
    StandardQuoting("t", StandardOperators, "t");
  }

  lemma ArticlesPrefix()
    ensures TablePrefix(MySql("articles")) == "`articles`."
  {
  }

  lemma ArticlesStar()
    ensures QuoteIdentifier(MySql("articles"), "*") == "`articles`.*"
  {
  }

  lemma ArticlesTable()
    ensures QuoteIdentifier(MySql("articles"), "articles", false) == "`articles`"
  {
    MySqlQuoting("articles", StandardOperators, "articles");
  }

  lemma ArticlesTitle()
    ensures QuoteIdentifier(MySql("articles"), "title") == "`articles`.`title`"
  {
    ArticlesPrefix();
    MySqlQuoting("articles", StandardOperators, "title");
    assert "`articles`.`title`" == "`articles`." + "`title`";
  }

  lemma ArticlesContent()
    ensures QuoteIdentifier(MySql("articles"), "content") == "`articles`.`content`"
  {
    ArticlesPrefix();
    MySqlQuoting("articles", StandardOperators, "content");
    assert "`articles`.`content`" == "`articles`." + "`content`";
  }

  lemma ArticlesId()
    ensures QuoteIdentifier(MySql("articles"), "id") == "`articles`.`id`"
  {
    ArticlesPrefix();
    MySqlQuoting("articles", StandardOperators, "id");
    assert "`articles`.`id`" == "`articles`." + "`id`";
  }

  lemma BareTitle()
    ensures QuoteIdentifier(MySql("articles"), "title", false) == "`title`"
  {
    MySqlQuoting("articles", StandardOperators, "title");
  }

  lemma BareContent()
    ensures QuoteIdentifier(MySql("articles"), "content", false) == "`content`"
  {
    MySqlQuoting("articles", StandardOperators, "content");
  }

  /** The SELECT fragments once the keywords and their spaces are merged. */
  lemma SelectTwoText(a: string, b: string, t: string, x: string, y: string, n: string)
    ensures ("SELECT " + (a + "," + b)) + (" " + ("FROM " + t))
            + (" " + ("WHERE " + (x + ">" + "?") + " " + ("AND" + " " + y + "=" + "?"))) + (" " + ("LIMIT " + n)) + ";"
         == ("SELECT " + a + "," + b) + (" FROM " + t) + (" WHERE " + x + ">?" + " AND " + y + "=?") + (" LIMIT " + n) + ";"
  {
    assert " " + ("FROM " + t) == " FROM " + t;
    assert " " + ("LIMIT " + n) == " LIMIT " + n;
    assert " " + ("WHERE " + (x + ">" + "?") + " " + ("AND" + " " + y + "=" + "?")) == " WHERE " + x + ">?" + " AND " + y + "=?";
  }

  lemma SelectThreeText(a: string, b: string, c: string, t: string)
    ensures ("SELECT " + (a + "," + (b + "," + c))) + (" " + ("FROM " + t)) + ";" == ("SELECT " + a + "," + b + "," + c) + (" FROM " + t) + ";"
  {
    assert " " + ("FROM " + t) == " FROM " + t;
  }

  lemma SelectOneText(a: string, t: string)
    ensures ("SELECT " + a) + (" " + ("FROM " + t)) + ";" == ("SELECT " + a) + (" FROM " + t) + ";"
  {
    assert " " + ("FROM " + t) == " FROM " + t;
  }

  lemma UpdateTwoText(t: string, a: string, b: string, x: string)
    ensures ("UPDATE " + t) + (" " + ("SET " + (a + "=?" + "," + (b + "=?")))) + (" " + ("WHERE " + (x + "=" + "?"))) + ";"
         == ("UPDATE " + t) + (" SET " + a + "=?," + b + "=?") + (" WHERE " + x + "=?") + ";"
  {
    assert " " + ("SET " + (a + "=?" + "," + (b + "=?"))) == " SET " + a + "=?," + b + "=?";
    assert " " + ("WHERE " + (x + "=" + "?")) == " WHERE " + x + "=?";
  }

  lemma InsertTwoText(t: string, a: string, b: string)
    ensures ("INSERT INTO " + t) + (" " + ("(" + (a + "," + b) + ")")) + (" " + ("VALUES " + ("(" + ("?" + "," + "?") + ")"))) + ";"
         == ("INSERT INTO " + t) + (" (" + a + "," + b + ")") + " VALUES (?,?)" + ";"
  {
    assert " " + ("(" + (a + "," + b) + ")") == " (" + a + "," + b + ")";
    assert " " + ("VALUES " + ("(" + ("?" + "," + "?") + ")")) == " VALUES (?,?)";
  }

  // ------------------------------------------------------------ statements

  /**
   * With double quotes and table `t`,
   * `select(['id','name'])->where('age','>',21)->and('name','x')->limit(10)`:
   * `'x'` is not an operator, so it becomes the value compared with "=".
   */
  method StandardSelect() returns (sql: Result<string, BuildError>, params: seq<Value>)
    ensures sql == Ok(("SELECT " + "\"t\".\"id\"" + "," + "\"t\".\"name\"") + (" FROM " + "\"t\"")
                      + (" WHERE " + "\"t\".\"age\"" + ">?" + " AND " + "\"t\".\"name\"" + "=?") + (" LIMIT " + "10") + ";")
    ensures params == [Int(21), Text("x")]
  {
    var d := Standard("t");
    var q := new Query(d);
    q := q.Select(["id", "name"]);
    q := q.Where("age", Some(">"), Int(21));
    q := q.And("name", Some("x"));
    q := q.Limit(10);
    SelectOfTwo(d, q.Data(), "id", "name", "age", ">", "name", "=", 10);
    SelectTwoText(QuoteIdentifier(d, "id"), QuoteIdentifier(d, "name"), QuoteIdentifier(d, "t", false),
                  QuoteIdentifier(d, "age"), QuoteIdentifier(d, "name"), IntToString(10));
    StandardId(); StandardName(); StandardAge(); StandardTable();
    TenToString();
    sql := q.Build();
    params := q.params;
  }

  /** The article listing, `table('articles')->select('id', 'title', 'content')`, on MySQL. */
  method ArticlesIndex() returns (sql: Result<string, BuildError>, params: seq<Value>)
    ensures sql == Ok(("SELECT " + "`articles`.`id`" + "," + "`articles`.`title`" + "," + "`articles`.`content`") + (" FROM " + "`articles`") + ";")
    ensures params == []
  {
    var d := MySql("articles");
    var q := new Query(d);
    q := q.Select(["id", "title", "content"]);
    SelectOfThree(d, q.Data(), "id", "title", "content");
    SelectThreeText(QuoteIdentifier(d, "id"), QuoteIdentifier(d, "title"), QuoteIdentifier(d, "content"), QuoteIdentifier(d, "articles", false));
    ArticlesId(); ArticlesTitle(); ArticlesContent(); ArticlesTable();
    sql := q.Build();
    params := q.params;
  }

  /** `table('articles')->select()` on MySQL: the star is prefixed but not quoted. */
  method ArticlesSelectAll() returns (sql: Result<string, BuildError>, params: seq<Value>)
    ensures sql == Ok(("SELECT " + "`articles`.*") + (" FROM " + "`articles`") + ";")
    ensures params == []
  {
    var d := MySql("articles");
    var q := new Query(d);
    q := q.Select();
    SelectOfOne(d, q.Data(), "*");
    SelectOneText(QuoteIdentifier(d, "*"), QuoteIdentifier(d, "articles", false));
    ArticlesStar(); ArticlesTable();
    sql := q.Build();
    params := q.params;
  }

  /**
   * The article update: the new title and content, then the id from the
   * request, which is the operator argument of `where` and so becomes the
   * compared value unless it happens to be an operator itself.
   */
  method ArticleUpdate(title: string, content: string, id: string) returns (sql: Result<string, BuildError>, params: seq<Value>)
    ensures id !in StandardOperators ==>
      sql == Ok(("UPDATE " + "`articles`") + (" SET " + "`articles`.`title`" + "=?," + "`articles`.`content`" + "=?")
                + (" WHERE " + "`articles`.`id`" + "=?") + ";")
      && params == [Text(title), Text(content), Text(id)]
    ensures id in StandardOperators ==> params == [Text(title), Text(content), Null]
  {
    var d := MySql("articles");
    var q := new Query(d);
    q := q.Update([("title", Text(title)), ("content", Text(content))]);
    PairKeys("title", Text(title), "content", Text(content));
    q := q.Where("id", Some(id));
    if id !in StandardOperators {
      UpdateOfTwo(d, q.Data(), "title", "content", "id", "=");
      UpdateTwoText(QuoteIdentifier(d, "articles", false), QuoteIdentifier(d, "title"), QuoteIdentifier(d, "content"), QuoteIdentifier(d, "id"));
      ArticlesTable(); ArticlesTitle(); ArticlesContent(); ArticlesId();
    }
    sql := q.Build();
    params := q.params;
  }

  /** The article insert: columns unprefixed, one mark per value. */
  method ArticleInsert(title: string, content: string) returns (sql: Result<string, BuildError>, params: seq<Value>)
    ensures sql == Ok(("INSERT INTO " + "`articles`") + (" (" + "`title`" + "," + "`content`" + ")") + " VALUES (?,?)" + ";")
    ensures params == [Text(title), Text(content)]
  {
    var d := MySql("articles");
    var q := new Query(d);
    q := q.Insert([("title", Text(title)), ("content", Text(content))]);
    PairKeys("title", Text(title), "content", Text(content));
    InsertOfTwo(d, q.Data(), "title", "content");
    InsertTwoText(QuoteIdentifier(d, "articles", false), QuoteIdentifier(d, "title", false), QuoteIdentifier(d, "content", false));
    ArticlesTable(); BareTitle(); BareContent();
    sql := q.Build();
    params := q.params;
  }
}
