/** The SQL export (hooks/useExport.ts, `exportToSql`): the text of the
    `.sql` file offered for download. A `CREATE TABLE` statement built from
    the first row's keys, then one `INSERT` per row.

    Next to the text builders sits a reader for the text they produce
    (`ParseScript`); the round trip through it is what the quoting and the
    statement layout promise. */
module SqlExport {
  import opened Seqs
  import opened Types

  // ---------------------------------------------------------------------
  // Quoting: `s.replace(/q/g, qq)` between two `q`s.

  function Escape(q: char, s: string): string
  {
    if s == [] then [] else (if s[0] == q then [q, q] else [s[0]]) + Escape(q, s[1..])
  }

  function Quote(q: char, s: string): string {
    [q] + Escape(q, s) + [q]
  }

  /** Backtick quoting of a table or column name. */
  function QuoteIdent(name: string): string {
    Quote('`', name)
  }

  /** Reads a quoted body whose opening quote is already consumed: a doubled
      `q` stands for one `q`, and the first lone `q` closes it. Returns the
      body and the text after the closing quote. */
  function ParseQuoted(q: char, t: string): (r: Option<(string, string)>)
    ensures r.Some? ==> |r.value.1| < |t|
    decreases |t|
  {
    if t == [] then None
    else if t[0] == q then
      if |t| >= 2 && t[1] == q then
        match ParseQuoted(q, t[2..])
        case None => None
        case Some((s, rest)) => Some(([q] + s, rest))
      else Some(([], t[1..]))
    else
      match ParseQuoted(q, t[1..])
      case None => None
      case Some((s, rest)) => Some(([t[0]] + s, rest))
  }

  /** Reads back one quoted name or string literal. */
  function Unquote(q: char, t: string): Option<string>
  {
    if |t| > 0 && t[0] == q then
      match ParseQuoted(q, t[1..])
      case Some((s, rest)) => if rest == [] then Some(s) else None
      case None => None
    else None
  }

  /** The first lone quote after an escaped body is the one that closes it:
      an escaped body holds no lone quote. */
  lemma {:induction false} ParseEscaped(q: char, s: string, rest: string)
    requires rest == [] || rest[0] != q
    ensures ParseQuoted(q, Escape(q, s) + [q] + rest) == Some((s, rest))
  {
    if s == [] {
      assert Escape(q, s) + [q] + rest == [q] + rest;
      assert ([q] + rest)[1..] == rest;
    } else {
      ParseEscaped(q, s[1..], rest);
      EscapeSplit(q, s, rest);
      var u := Escape(q, s[1..]) + [q] + rest;
      if s[0] == q {
        ParseDoubled(q, u, s[1..], rest);
      } else {
        ParsePlain(q, s[0], u, s[1..], rest);
      }
      assert [s[0]] + s[1..] == s;
    }
  }

  /** The escaped text seen as its first escaped character and the rest. */
  lemma EscapeSplit(q: char, s: string, rest: string)
    requires s != []
    ensures Escape(q, s) + [q] + rest
         == (if s[0] == q then [q, q] else [s[0]]) + (Escape(q, s[1..]) + [q] + rest)
  {
  }

  /** A doubled quote reads as one quote of the body. */
  lemma ParseDoubled(q: char, u: string, body: string, rest: string)
    requires ParseQuoted(q, u) == Some((body, rest))
    ensures ParseQuoted(q, [q, q] + u) == Some(([q] + body, rest))
  {
    assert ([q, q] + u)[2..] == u;
  }

  /** Any other character is kept in the body. */
  lemma ParsePlain(q: char, c: char, u: string, body: string, rest: string)
    requires c != q
    requires ParseQuoted(q, u) == Some((body, rest))
    ensures ParseQuoted(q, [c] + u) == Some(([c] + body, rest))
  {
    assert ([c] + u)[1..] == u;
  }

  /** Unquoting recovers the original name or string, whatever quotes it holds. */
  lemma UnquoteQuote(q: char, s: string)
    ensures Unquote(q, Quote(q, s)) == Some(s)
  {
    ParseEscaped(q, s, []);
    assert Quote(q, s)[1..] == Escape(q, s) + [q] + [];
  }

  /** Escaping doubles every quote and keeps every other character. */
  lemma {:induction false} EscapeCounts(q: char, s: string)
    ensures multiset(Escape(q, s))[q] == 2 * multiset(s)[q]
    ensures forall c :: c != q ==> multiset(Escape(q, s))[c] == multiset(s)[c]
  {
    if s != [] {
      EscapeCounts(q, s[1..]);
      assert s == [s[0]] + s[1..];
    }
  }

  // ---------------------------------------------------------------------
  // Lists of quoted items, and their reader.

  /** How a list is laid out: the quote character, the text around each
      quoted item, and the separator. An absent item is written `NULL`. */
  datatype Layout = Layout(q: char, pre: string, post: string, sep: string)

  /** Column names in an `INSERT`: `` `a`, `b` ``. */
  const ColumnLayout: Layout := Layout('`', "", "", ", ")

  /** Column definitions in the `CREATE` statement, one per line. */
  const DefinitionLayout: Layout := Layout('`', "  ", " TEXT", ",\n")

  /** Values in an `INSERT`: `'x', NULL`. */
  const ValueLayout: Layout := Layout('\'', "", "", ", ")

  /** Nothing in a layout can be mistaken for the quote or for `NULL`. */
  predicate Unambiguous(f: Layout) {
    && |f.sep| > 0 && f.sep[0] != f.q
    && (f.post == [] || f.post[0] != f.q)
    && (f.pre + [f.q])[0] != 'N'
  }

  function RenderItem(f: Layout, x: Option<string>): string {
    match x
    case None => "NULL"
    case Some(s) => f.pre + Quote(f.q, s) + f.post
  }

  function RenderList(f: Layout, xs: seq<Option<string>>): string {
    Join(seq(|xs|, i requires 0 <= i < |xs| => RenderItem(f, xs[i])), f.sep)
  }

  function ParseItem(f: Layout, t: string): (r: Option<(Option<string>, string)>)
    ensures r.Some? ==> |r.value.1| < |t|
  {
    if StartsWith(t, "NULL") then Some((None, t[4..]))
    else if StartsWith(t, f.pre + [f.q]) then
      match ParseQuoted(f.q, t[|f.pre| + 1..])
      case None => None
      case Some((s, rest)) =>
        if StartsWith(rest, f.post) then Some((Some(s), rest[|f.post|..])) else None
    else None
  }

  /** Reads as many separated items as there are; returns them and the rest. */
  function ParseList(f: Layout, t: string): (r: (seq<Option<string>>, string))
    ensures |r.1| <= |t|
    decreases |t|
  {
    match ParseItem(f, t)
    case None => ([], t)
    case Some((x, rest)) =>
      if |f.sep| > 0 && StartsWith(rest, f.sep) then
        var (xs, rest') := ParseList(f, rest[|f.sep|..]);
        ([x] + xs, rest')
      else ([x], rest)
  }

  /** Text that can follow a list: it cannot begin an item or a separator. */
  predicate EndsList(f: Layout, rest: string) {
    |rest| > 0 && |f.sep| > 0 && rest[0] != 'N' && rest[0] != f.q && rest[0] != f.sep[0]
    && rest[0] != (f.pre + [f.q])[0]
  }

  lemma ParseRenderedItem(f: Layout, x: Option<string>, rest: string)
    requires Unambiguous(f)
    requires rest == [] || rest[0] != f.q
    ensures ParseItem(f, RenderItem(f, x) + rest) == Some((x, rest))
  {
    var t := RenderItem(f, x) + rest;
    match x {
      case None =>
        assert t[..4] == "NULL" && t[4..] == rest;
      case Some(s) =>
        var opening := f.pre + [f.q];
        var body := Escape(f.q, s) + [f.q] + (f.post + rest);
        QuotedItemShape(f, s, rest);
        assert !StartsWith(t, "NULL") by {
          assert t[0] == opening[0];
        }
        Literal(opening, body);
        ParseEscaped(f.q, s, f.post + rest);
        Literal(f.post, rest);
    }
  }

  /** A quoted item followed by `rest`: its opening, then the escaped body. */
  lemma QuotedItemShape(f: Layout, s: string, rest: string)
    ensures RenderItem(f, Some(s)) + rest
         == (f.pre + [f.q]) + (Escape(f.q, s) + [f.q] + (f.post + rest))
  {
  }

  /** Reading a rendered list gives back its items, absent ones included,
      and stops exactly where the list ends. */
  lemma {:induction false} ParseRenderedList(f: Layout, xs: seq<Option<string>>, rest: string)
    requires Unambiguous(f) && EndsList(f, rest)
    ensures ParseList(f, RenderList(f, xs) + rest) == (xs, rest)
    decreases |xs|
  {
    if |xs| == 0 {
      assert RenderList(f, xs) + rest == rest;
      assert !StartsWith(rest, "NULL");
      assert !StartsWith(rest, f.pre + [f.q]);
    } else if |xs| == 1 {
      assert RenderList(f, xs) == RenderItem(f, xs[0]);
      ParseRenderedItem(f, xs[0], rest);
      assert !StartsWith(rest, f.sep);
      assert xs == [xs[0]];
    } else {
      ParseRenderedList(f, xs[1..], rest);
      ParseListCons(f, xs, rest);
    }
  }

  /** A rendered list of two or more items is its first item, a separator
      and the rendered rest. */
  lemma RenderListCons(f: Layout, xs: seq<Option<string>>)
    requires |xs| > 1
    ensures RenderList(f, xs) == RenderItem(f, xs[0]) + f.sep + RenderList(f, xs[1..])
  {
    var parts := seq(|xs|, i requires 0 <= i < |xs| => RenderItem(f, xs[i]));
    assert parts[1..] == seq(|xs| - 1, i requires 0 <= i < |xs| - 1 => RenderItem(f, xs[1..][i]));
  }

  /** The step of `ParseRenderedList`: the first item, then the separator,
      then the rest of the list. */
  lemma ParseListCons(f: Layout, xs: seq<Option<string>>, rest: string)
    requires Unambiguous(f) && EndsList(f, rest) && |xs| > 1
    requires ParseList(f, RenderList(f, xs[1..]) + rest) == (xs[1..], rest)
    ensures ParseList(f, RenderList(f, xs) + rest) == (xs, rest)
  {
    var after := RenderList(f, xs[1..]) + rest;
    var t := RenderList(f, xs) + rest;
    RenderListCons(f, xs);
    ReassociateThree(RenderItem(f, xs[0]), f.sep, RenderList(f, xs[1..]), rest);
    ParseRenderedItem(f, xs[0], f.sep + after);
    assert ParseItem(f, t) == Some((xs[0], f.sep + after));
    Literal(f.sep, after);
    assert ParseList(f, t) == ([xs[0]] + xs[1..], rest);
    assert [xs[0]] + xs[1..] == xs;
  }

  // ---------------------------------------------------------------------
  // The statements.

  /** `String(value)` for a parsed JSON value. An array joins its elements
      with `,`, writing `null` elements as empty text. */
  function JsString(v: Json): (s: string)
    ensures v.JArr? && |v.items| == 1 && !v.items[0].JNull? ==> s == JsString(v.items[0])
    ensures v.JArr? && |v.items| == 0 ==> s == ""
    decreases v
  {
    match v
    case JStr(s) => s
    case JNum(repr) => repr
    case JBool(b) => if b then "true" else "false"
    case JNull => "null"
    case JObj(_) => "[object Object]"
    case JArr(items) =>
      Join(seq(|items|, i requires 0 <= i < |items| =>
             if items[i].JNull? then "" else JsString(items[i])), ",")
  }

  /** What a value contributes to an `INSERT`: nothing for `null`, else its text. */
  function SqlText(v: Json): Option<string> {
    if v.JNull? then None else Some(JsString(v))
  }

  function SqlTexts(row: Row): (texts: seq<Option<string>>)
    ensures |texts| == |row|
  {
    seq(|row|, i requires 0 <= i < |row| => SqlText(row[i].1))
  }

  function Names(keys: seq<string>): (names: seq<Option<string>>)
    ensures |names| == |keys|
  {
    seq(|keys|, i requires 0 <= i < |keys| => Some(keys[i]))
  }

  /** A value as the export writes it: `NULL`, or single-quoted with every
      `'` doubled. */
  function RenderValue(v: Json): string {
    if v.JNull? then "NULL" else "'" + Escape('\'', JsString(v)) + "'"
  }

  /** `columns`: the backticked names joined by `, `. */
  function ColumnList(keys: seq<string>): string {
    Join(seq(|keys|, i requires 0 <= i < |keys| => QuoteIdent(keys[i])), ", ")
  }

  /** The column lines of the `CREATE` statement joined by `,\n`. */
  function ColumnDefinitions(keys: seq<string>): string {
    Join(seq(|keys|, i requires 0 <= i < |keys| => "  " + QuoteIdent(keys[i]) + " TEXT"), ",\n")
  }

  /** `values`: the row's own values, rendered and joined by `, `. */
  function ValueList(row: Row): string {
    Join(seq(|row|, i requires 0 <= i < |row| => RenderValue(row[i].1)), ", ")
  }

  /** The table name `exportToSql` uses when given none. */
  const DefaultTableName: string := "imported_data"

  const CreatePrefix: string := "CREATE TABLE IF NOT EXISTS "
  const InsertPrefix: string := "INSERT INTO "

  function CreateStatement(table: string, keys: seq<string>): string {
    CreatePrefix + QuoteIdent(table) + " (\n" + ColumnDefinitions(keys) + "\n);\n\n"
  }

  function InsertStatement(table: string, columns: string, row: Row): string {
    InsertPrefix + QuoteIdent(table) + " (" + columns + ") VALUES (" + ValueList(row) + ");"
  }

  /** The text `exportToSql(data, table)` downloads; nothing for no rows. */
  function SqlScript(data: seq<Row>, table: string): (script: Option<string>)
    ensures script.None? <==> |data| == 0
  {
    if |data| == 0 then None
    else
      var columns := ColumnList(Keys(data[0]));
      Some(CreateStatement(table, Keys(data[0]))
           + Join(seq(|data|, i requires 0 <= i < |data| => InsertStatement(table, columns, data[i])), "\n"))
  }


  /** `exportToSql(data, tableName)`: `sql` starts as the `CREATE` header,
      grows by the column definitions and the closing line, then by the
      joined `INSERT`s. An absent `tableName` takes the default. */
  method ExportToSql(data: seq<Row>, tableName: Option<string>) returns (sql: Option<string>)
    ensures sql == SqlScript(data, if tableName.Some? then tableName.value else DefaultTableName)
    ensures sql.None? <==> |data| == 0
  {
    if |data| == 0 {
      return None;
    }
    var table := if tableName.Some? then tableName.value else DefaultTableName;
    var keys := Keys(data[0]);
    var columns := ColumnList(keys);
    var safeTableName := QuoteIdent(table);
    var text := CreatePrefix + safeTableName + " (\n";
    text := text + ColumnDefinitions(keys);
    text := text + "\n);\n\n";
    assert text == CreateStatement(table, keys);
    var insertStatements := Join(seq(|data|, i requires 0 <= i < |data| => InsertStatement(table, columns, data[i])), "\n");
    text := text + insertStatements;
    sql := Some(text);
  }

  // ---------------------------------------------------------------------
  // Reading the script back, one piece of a statement at a time.

  /** `CREATE TABLE IF NOT EXISTS <table> (\n<definitions>\n);\n\n`:
      the table, the columns and the text after the statement. */
  function ParseCreate(text: string): Option<(string, seq<Option<string>>, string)>
  {
    if !StartsWith(text, CreatePrefix) then None
    else
      match ParseItem(ColumnLayout, text[|CreatePrefix|..])
      case Some((Some(table), r1)) => ParseDefinitions(table, r1)
      case _ => None
  }

  function ParseDefinitions(table: string, t: string): Option<(string, seq<Option<string>>, string)>
  {
    if !StartsWith(t, " (\n") then None
    else
      var (columns, r) := ParseList(DefinitionLayout, t[3..]);
      if StartsWith(r, "\n);\n\n") then Some((table, columns, r[5..])) else None
  }

  /** One `INSERT INTO <table> (<columns>) VALUES (<values>);`. */
  datatype Insert = Insert(table: string, columns: seq<Option<string>>, values: seq<Option<string>>)

  function ParseInsert(text: string): (r: Option<(Insert, string)>)
    ensures r.Some? ==> |r.value.1| < |text|
  {
    if !StartsWith(text, InsertPrefix) then None
    else
      match ParseItem(ColumnLayout, text[|InsertPrefix|..])
      case Some((Some(table), r1)) => ParseInsertColumns(table, r1)
      case _ => None
  }

  function ParseInsertColumns(table: string, t: string): (r: Option<(Insert, string)>)
    ensures r.Some? ==> |r.value.1| <= |t|
  {
    if !StartsWith(t, " (") then None
    else
      var (columns, r) := ParseList(ColumnLayout, t[2..]);
      ParseInsertValues(table, columns, r)
  }

  function ParseInsertValues(table: string, columns: seq<Option<string>>, t: string): (r: Option<(Insert, string)>)
    ensures r.Some? ==> |r.value.1| <= |t|
  {
    if !StartsWith(t, ") VALUES (") then None
    else
      var (values, r) := ParseList(ValueLayout, t[10..]);
      if StartsWith(r, ");") then Some((Insert(table, columns, values), r[2..])) else None
  }

  /** `INSERT` statements separated by single newlines, up to the end. */
  function ParseInserts(text: string): Option<seq<Insert>>
    decreases |text|
  {
    match ParseInsert(text)
    case None => None
    case Some((statement, rest)) =>
      if rest == [] then Some([statement])
      else if rest[0] == '\n' then
        match ParseInserts(rest[1..])
        case None => None
        case Some(more) => Some([statement] + more)
      else None
  }

  datatype Script = Script(table: string, columns: seq<Option<string>>, inserts: seq<Insert>)

  function ParseScript(text: string): Option<Script>
  {
    match ParseCreate(text)
    case None => None
    case Some((table, columns, rest)) =>
      match ParseInserts(rest)
      case None => None
      case Some(inserts) => Some(Script(table, columns, inserts))
  }

  // ---------------------------------------------------------------------
  // Round trips.

  /** Concatenation regrouped to the right, so that a statement can be
      read piece by piece. */
  lemma Reassociate(a: string, b: string, c: string, d: string, e: string, f: string, g: string, rest: string)
    ensures a + b + c + d + e + f + g + rest == a + (b + (c + (d + (e + (f + (g + rest))))))
  {
  }

  lemma ReassociateThree(a: string, b: string, c: string, rest: string)
    ensures a + b + c + rest == a + (b + (c + rest))
  {
  }

  lemma ReassociateFive(a: string, b: string, c: string, d: string, e: string, rest: string)
    ensures a + b + c + d + e + rest == a + (b + (c + (d + (e + rest))))
  {
  }

  lemma Literal(p: string, x: string)
    ensures StartsWith(p + x, p) && (p + x)[|p|..] == x
  {
    assert (p + x)[..|p|] == p;
  }

  lemma ColumnListIsRendered(keys: seq<string>)
    ensures ColumnList(keys) == RenderList(ColumnLayout, Names(keys))
  {
    var a := seq(|keys|, i requires 0 <= i < |keys| => QuoteIdent(keys[i]));
    var b := seq(|keys|, i requires 0 <= i < |keys| => RenderItem(ColumnLayout, Names(keys)[i]));
    forall i | 0 <= i < |keys| ensures a[i] == b[i] {
      assert "" + Quote('`', keys[i]) + "" == Quote('`', keys[i]);
    }
    assert a == b;
  }

  lemma DefinitionsAreRendered(keys: seq<string>)
    ensures ColumnDefinitions(keys) == RenderList(DefinitionLayout, Names(keys))
  {
    var a := seq(|keys|, i requires 0 <= i < |keys| => "  " + QuoteIdent(keys[i]) + " TEXT");
    var b := seq(|keys|, i requires 0 <= i < |keys| => RenderItem(DefinitionLayout, Names(keys)[i]));
    assert a == b;
  }

  lemma ValueListIsRendered(row: Row)
    ensures ValueList(row) == RenderList(ValueLayout, SqlTexts(row))
  {
    var a := seq(|row|, i requires 0 <= i < |row| => RenderValue(row[i].1));
    var b := seq(|row|, i requires 0 <= i < |row| => RenderItem(ValueLayout, SqlTexts(row)[i]));
    forall i | 0 <= i < |row| ensures a[i] == b[i] {
      var v := row[i].1;
      if !v.JNull? {
        assert "" + Quote('\'', JsString(v)) + "" == "'" + Escape('\'', JsString(v)) + "'";
      }
    }
    assert a == b;
  }

  lemma ParseRenderedValues(table: string, columns: seq<Option<string>>, row: Row, rest: string)
    ensures ParseInsertValues(table, columns, ") VALUES (" + (ValueList(row) + (");" + rest)))
         == Some((Insert(table, columns, SqlTexts(row)), rest))
  {
    ValueListIsRendered(row);
    Literal(") VALUES (", ValueList(row) + (");" + rest));
    ParseRenderedList(ValueLayout, SqlTexts(row), ");" + rest);
    Literal(");", rest);
  }

  lemma ParseRenderedColumns(table: string, keys: seq<string>, row: Row, rest: string)
    ensures ParseInsertColumns(table, " (" + (ColumnList(keys) + (") VALUES (" + (ValueList(row) + (");" + rest)))))
         == Some((Insert(table, Names(keys), SqlTexts(row)), rest))
  {
    var r := ") VALUES (" + (ValueList(row) + (");" + rest));
    ColumnListIsRendered(keys);
    Literal(" (", ColumnList(keys) + r);
    ParseRenderedList(ColumnLayout, Names(keys), r);
    ParseRenderedValues(table, Names(keys), row, rest);
  }

  /** An `INSERT` reads back as its table, the given columns and the row's
      own values, in order, absent for `null`. */
  lemma ParseInsertStatement(table: string, keys: seq<string>, row: Row, rest: string)
    requires rest == [] || rest[0] == '\n'
    ensures ParseInsert(InsertStatement(table, ColumnList(keys), row) + rest)
         == Some((Insert(table, Names(keys), SqlTexts(row)), rest))
  {
    var r1 := " (" + (ColumnList(keys) + (") VALUES (" + (ValueList(row) + (");" + rest))));
    var quoted := RenderItem(ColumnLayout, Some(table));
    assert quoted == QuoteIdent(table);
    Reassociate(InsertPrefix, quoted, " (", ColumnList(keys), ") VALUES (", ValueList(row), ");", rest);
    Literal(InsertPrefix, quoted + r1);
    ParseRenderedItem(ColumnLayout, Some(table), r1);
    ParseRenderedColumns(table, keys, row, rest);
  }

  /** The `CREATE` statement reads back as its table and columns. */
  lemma ParseCreateStatement(table: string, keys: seq<string>, rest: string)
    ensures ParseCreate(CreateStatement(table, keys) + rest) == Some((table, Names(keys), rest))
  {
    var r2 := "\n);\n\n" + rest;
    var r1 := " (\n" + (ColumnDefinitions(keys) + r2);
    var quoted := RenderItem(ColumnLayout, Some(table));
    assert quoted == QuoteIdent(table);
    ReassociateFive(CreatePrefix, quoted, " (\n", ColumnDefinitions(keys), "\n);\n\n", rest);
    Literal(CreatePrefix, quoted + r1);
    ParseRenderedItem(ColumnLayout, Some(table), r1);
    DefinitionsAreRendered(keys);
    Literal(" (\n", ColumnDefinitions(keys) + r2);
    ParseRenderedList(DefinitionLayout, Names(keys), r2);
    Literal("\n);\n\n", rest);
  }

  /** `statement`, followed by the end of the text or a newline, reads back as `insert`. */
  ghost predicate ReadsAs(statement: string, insert: Insert) {
    forall rest :: (rest == [] || rest[0] == '\n') ==> ParseInsert(statement + rest) == Some((insert, rest))
  }

  lemma ParseLastInsert(statement: string, insert: Insert)
    requires ReadsAs(statement, insert)
    ensures ParseInserts(statement) == Some([insert])
  {
    assert ParseInsert(statement + []) == Some((insert, []));
    assert statement + [] == statement;
  }

  lemma ParseNextInsert(statement: string, insert: Insert, after: string, more: seq<Insert>)
    requires ReadsAs(statement, insert)
    requires ParseInserts(after) == Some(more)
    ensures ParseInserts(statement + ("\n" + after)) == Some([insert] + more)
  {
    var rest := "\n" + after;
    assert rest[0] == '\n' && rest[1..] == after;
    assert ParseInsert(statement + rest) == Some((insert, rest));
  }

  /** Statements that each read back on their own read back when joined by newlines. */
  lemma {:induction false} ParseJoinedInserts(statements: seq<string>, inserts: seq<Insert>)
    requires |statements| == |inserts| > 0
    requires forall i :: 0 <= i < |statements| ==> ReadsAs(statements[i], inserts[i])
    ensures ParseInserts(Join(statements, "\n")) == Some(inserts)
    decreases |statements|
  {
    if |statements| == 1 {
      ParseLastInsert(statements[0], inserts[0]);
      assert inserts == [inserts[0]];
    } else {
      TailReadsAs(statements, inserts);
      ParseJoinedInserts(statements[1..], inserts[1..]);
      ParseJoinedStep(statements, inserts);
    }
  }

  lemma ParseJoinedStep(statements: seq<string>, inserts: seq<Insert>)
    requires |statements| == |inserts| > 1
    requires ReadsAs(statements[0], inserts[0])
    requires ParseInserts(Join(statements[1..], "\n")) == Some(inserts[1..])
    ensures ParseInserts(Join(statements, "\n")) == Some(inserts)
  {
    JoinNewline(statements);
    ParseNextInsert(statements[0], inserts[0], Join(statements[1..], "\n"), inserts[1..]);
    assert inserts == [inserts[0]] + inserts[1..];
  }

  lemma JoinNewline(statements: seq<string>)
    requires |statements| > 1
    ensures Join(statements, "\n") == statements[0] + ("\n" + Join(statements[1..], "\n"))
  {
  }

  lemma TailReadsAs(statements: seq<string>, inserts: seq<Insert>)
    requires |statements| == |inserts| > 1
    requires forall i :: 0 <= i < |statements| ==> ReadsAs(statements[i], inserts[i])
    ensures forall i :: 0 <= i < |statements| - 1 ==> ReadsAs(statements[1..][i], inserts[1..][i])
  {
    forall i | 0 <= i < |statements| - 1
      ensures ReadsAs(statements[1..][i], inserts[1..][i])
    {
      assert statements[1..][i] == statements[i + 1] && inserts[1..][i] == inserts[i + 1];
    }
  }

  /** Every row's `INSERT` reads back, so all of them do. */
  lemma ParseInsertStatements(table: string, keys: seq<string>, data: seq<Row>)
    requires |data| > 0
    ensures ParseInserts(Join(seq(|data|, i requires 0 <= i < |data| => InsertStatement(table, ColumnList(keys), data[i])), "\n"))
         == Some(seq(|data|, i requires 0 <= i < |data| => Insert(table, Names(keys), SqlTexts(data[i]))))
  {
    var statements := seq(|data|, i requires 0 <= i < |data| => InsertStatement(table, ColumnList(keys), data[i]));
    var inserts := seq(|data|, i requires 0 <= i < |data| => Insert(table, Names(keys), SqlTexts(data[i])));
    forall i | 0 <= i < |statements|
      ensures ReadsAs(statements[i], inserts[i])
    {
      forall rest | rest == [] || rest[0] == '\n'
        ensures ParseInsert(statements[i] + rest) == Some((inserts[i], rest))
      {
        ParseInsertStatement(table, keys, data[i], rest);
      }
    }
    ParseJoinedInserts(statements, inserts);
  }

  /** The whole export reads back: the table, the first row's keys as the
      columns, and one `INSERT` per row in row order, each naming the same
      table and the first row's columns and carrying that row's OWN values
      (so a row whose keys differ from the first row's is misaligned). */
  lemma ExportRoundTrip(data: seq<Row>, table: string)
    requires |data| > 0
    ensures SqlScript(data, table).Some?
    ensures ParseScript(SqlScript(data, table).value)
         == Some(Script(table, Names(Keys(data[0])),
                        seq(|data|, i requires 0 <= i < |data| => Insert(table, Names(Keys(data[0])), SqlTexts(data[i])))))
  {
    var keys := Keys(data[0]);
    var inserts := Join(seq(|data|, i requires 0 <= i < |data| => InsertStatement(table, ColumnList(keys), data[i])), "\n");
    assert SqlScript(data, table).value == CreateStatement(table, keys) + inserts;
    ParseInsertStatements(table, keys, data);
    ParseCreateStatement(table, keys, inserts);
  }

  lemma QuoteOneChar(q: char, c: char)
    requires c != q
    ensures Quote(q, [c]) == [q, c, q]
  {
    assert [c][1..] == [];
    assert Escape(q, [c]) == [c] + Escape(q, []);
  }

  lemma JoinTwo(x: string, y: string, sep: string)
    ensures Join([x, y], sep) == x + sep + y
  {
    assert [x, y][1..] == [y];
  }

  lemma ExampleColumns()
    ensures ColumnList(["a", "b"]) == "`a`, `b`"
  {
    QuoteOneChar('`', 'a');
    QuoteOneChar('`', 'b');
    var keys := ["a", "b"];
    var names := seq(|keys|, i requires 0 <= i < |keys| => QuoteIdent(keys[i]));
    assert names == ["`a`", "`b`"];
    JoinTwo("`a`", "`b`", ", ");
  }

  lemma ExampleEscape()
    ensures Escape('\'', "O'Brien") == "O''Brien"
  {
    var tail := "Brien";
    assert Escape('\'', tail[4..]) == "n" by { assert tail[4..][1..] == []; }
    assert Escape('\'', tail[3..]) == "en" by { assert tail[3..][1..] == tail[4..]; }
    assert Escape('\'', tail[2..]) == "ien" by { assert tail[2..][1..] == tail[3..]; }
    assert Escape('\'', tail[1..]) == "rien" by { assert tail[1..][1..] == tail[2..]; }
    assert Escape('\'', tail) == "Brien" by { assert tail[1..] == tail[1..]; }
    assert "'Brien"[1..] == tail;
    assert "O'Brien"[1..] == "'Brien";
  }

  lemma ExampleValues()
    ensures ValueList([("a", JStr("O'Brien")), ("b", JNull)]) == "'O''Brien', NULL"
  {
    ExampleEscape();
    var row := [("a", JStr("O'Brien")), ("b", JNull)];
    var values := seq(|row|, i requires 0 <= i < |row| => RenderValue(row[i].1));
    assert values[0] == "'O''Brien'";
    assert values == ["'O''Brien'", "NULL"];
    JoinTwo("'O''Brien'", "NULL", ", ");
  }

  lemma ExampleText()
    ensures InsertPrefix + "`t`" + " (" + "`a`, `b`" + ") VALUES (" + "'O''Brien', NULL" + ");"
         == "INSERT INTO `t` (`a`, `b`) VALUES ('O''Brien', NULL);"
  {
    ExampleHead();
    ExampleOpening();
    ExampleFilled();
  }

  lemma ExampleHead()
    ensures InsertPrefix + "`t`" + " (" + "`a`, `b`" == "INSERT INTO `t` (`a`, `b`"
  {
  }

  lemma ExampleOpening()
    ensures "INSERT INTO `t` (`a`, `b`" + ") VALUES (" == "INSERT INTO `t` (`a`, `b`) VALUES ("
  {
  }

  lemma ExampleFilled()
    ensures "INSERT INTO `t` (`a`, `b`) VALUES (" + "'O''Brien', NULL" + ");"
         == "INSERT INTO `t` (`a`, `b`) VALUES ('O''Brien', NULL);"
  {
  }

  lemma ExampleInsert()
    ensures InsertStatement("t", ColumnList(["a", "b"]), [("a", JStr("O'Brien")), ("b", JNull)])
         == "INSERT INTO `t` (`a`, `b`) VALUES ('O''Brien', NULL);"
  {
    QuoteOneChar('`', 't');
    ExampleColumns();
    ExampleValues();
    ExampleText();
  }

  lemma ExampleDefinitions()
    ensures ColumnDefinitions(["a", "b"]) == "  `a` TEXT,\n  `b` TEXT"
  {
    var keys := ["a", "b"];
    var lines := seq(|keys|, i requires 0 <= i < |keys| => "  " + QuoteIdent(keys[i]) + " TEXT");
    DefinitionLine('a');
    DefinitionLine('b');
    assert lines == ["  `a` TEXT", "  `b` TEXT"];
    JoinTwo("  `a` TEXT", "  `b` TEXT", ",\n");
  }

  lemma DefinitionLine(c: char)
    requires c != '`'
    ensures "  " + QuoteIdent([c]) + " TEXT" == [' ', ' ', '`', c, '`', ' ', 'T', 'E', 'X', 'T']
  {
    QuoteOneChar('`', c);
  }

  lemma ExampleCreate()
    ensures CreateStatement("t", ["a", "b"]) == "CREATE TABLE IF NOT EXISTS `t` (\n  `a` TEXT,\n  `b` TEXT\n);\n\n"
  {
    QuoteOneChar('`', 't');
    ExampleDefinitions();
    CreateHead();
    CreateFilled();
  }

  lemma CreateHead()
    ensures CreatePrefix + "`t`" + " (\n" == "CREATE TABLE IF NOT EXISTS `t` (\n"
  {
  }

  lemma CreateFilled()
    ensures "CREATE TABLE IF NOT EXISTS `t` (\n" + "  `a` TEXT,\n  `b` TEXT" + "\n);\n\n"
         == "CREATE TABLE IF NOT EXISTS `t` (\n  `a` TEXT,\n  `b` TEXT\n);\n\n"
  {
  }

  /** The whole export of one row holding a value with an apostrophe next to
      a `null`, into table `t`. */
  lemma ApostropheExample()
    ensures SqlScript([[("a", JStr("O'Brien")), ("b", JNull)]], "t")
         == Some("CREATE TABLE IF NOT EXISTS `t` (\n  `a` TEXT,\n  `b` TEXT\n);\n\n"
                 + "INSERT INTO `t` (`a`, `b`) VALUES ('O''Brien', NULL);")
  {
    var row := [("a", JStr("O'Brien")), ("b", JNull)];
    assert Keys(row) == ["a", "b"];
    ExampleCreate();
    ExampleInsert();
    SingleRowScript(row, "t");
  }

  /** The script of a single row is its `CREATE` followed by its one `INSERT`. */
  lemma SingleRowScript(row: Row, table: string)
    ensures SqlScript([row], table)
         == Some(CreateStatement(table, Keys(row)) + InsertStatement(table, ColumnList(Keys(row)), row))
  {
    var data := [row];
    var statements := seq(|data|, i requires 0 <= i < |data| => InsertStatement(table, ColumnList(Keys(data[0])), data[i]));
    assert statements == [InsertStatement(table, ColumnList(Keys(row)), row)];
  }
}
