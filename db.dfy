/**
  The database layer: an in-memory model of the Supabase client's tables
  (insert, select with an equality filter, update with an equality
  filter), the `Database.execute` adapter that maps a SQL-like query
  string onto it by its prefix, the table-name extraction that adapter
  uses, and the `SupabaseResult` wrapper.
 */
module Db {
  import opened Base
  import opened Json
  import opened Text

  /** The tables by name; a table never written to is empty. */
  type Tables = map<string, seq<Row>>

  function Rows(t: Tables, table: string): seq<Row> {
    if table in t then t[table] else []
  }

  /** `.eq(column, value)`: the row has the column and it holds the value. */
  predicate Matches(row: Row, column: string, value: Value) {
    column in row && row[column] == value
  }

  /** The rows a filtered select returns, in table order. */
  function Filter(rows: seq<Row>, column: string, value: Value): seq<Row>
    decreases |rows|
  {
    if rows == [] then []
    else if Matches(rows[0], column, value) then [rows[0]] + Filter(rows[1..], column, value)
    else Filter(rows[1..], column, value)
  }

  /** A filtered select returns exactly the matching rows, and no more rows than the table holds. */
  lemma {:induction false} FilterIff(rows: seq<Row>, column: string, value: Value)
    ensures forall r :: r in Filter(rows, column, value) <==> r in rows && Matches(r, column, value)
    ensures |Filter(rows, column, value)| <= |rows|
    decreases |rows|
  {
    if rows != [] {
      FilterIff(rows[1..], column, value);
      assert forall r :: r in rows <==> r == rows[0] || r in rows[1..];
    }
  }

  /** Filtering distributes over appending rows to a table. */
  lemma {:induction false} FilterAppend(a: seq<Row>, b: seq<Row>, column: string, value: Value)
    ensures Filter(a + b, column, value) == Filter(a, column, value) + Filter(b, column, value)
    decreases |a|
  {
    if a == [] {
      assert a + b == b;
    } else {
      assert (a + b)[1..] == a[1..] + b;
      FilterAppend(a[1..], b, column, value);
    }
  }

  /** A filter keeps a table whose every row matches. */
  lemma {:induction false} FilterKeepsAll(rows: seq<Row>, column: string, value: Value)
    requires forall k :: 0 <= k < |rows| ==> Matches(rows[k], column, value)
    ensures Filter(rows, column, value) == rows
    decreases |rows|
  {
    if rows != [] {
      assert forall k :: 1 <= k < |rows| ==> rows[1..][k - 1] == rows[k];
      FilterKeepsAll(rows[1..], column, value);
    }
  }

  /** `.update(changes).eq(column, value)`: the matching rows take the new values, others are kept. */
  function Update(rows: seq<Row>, column: string, value: Value, changes: Row): (r: seq<Row>)
    ensures |r| == |rows|
    ensures forall k :: 0 <= k < |rows| ==>
              r[k] == (if Matches(rows[k], column, value) then rows[k] + changes else rows[k])
  {
    seq(|rows|, k requires 0 <= k < |rows| => if Matches(rows[k], column, value) then rows[k] + changes else rows[k])
  }

  /**
    A select by the same equality after the update returns the rows it
    returned before, each merged with the changes, when the changes leave
    the filtered column alone.
   */
  lemma {:induction false} UpdateThenFilter(rows: seq<Row>, column: string, value: Value, changes: Row)
    requires column !in changes
    ensures var before := Filter(rows, column, value);
            var after := Filter(Update(rows, column, value, changes), column, value);
            && |after| == |before|
            && forall k :: 0 <= k < |after| ==> after[k] == before[k] + changes
    decreases |rows|
  {
    if rows != [] {
      var u := Update(rows, column, value, changes);
      assert u[1..] == Update(rows[1..], column, value, changes);
      assert Matches(u[0], column, value) <==> Matches(rows[0], column, value);
      UpdateThenFilter(rows[1..], column, value, changes);
    }
  }

  /** An updated row keeps the keys it had and gains the changed ones, which hold the new values. */
  lemma UpdatedRow(row: Row, changes: Row)
    ensures (row + changes).Keys == row.Keys + changes.Keys
    ensures forall k :: k in changes ==> (row + changes)[k] == changes[k]
    ensures forall k :: k in row && k !in changes ==> (row + changes)[k] == row[k]
  {
  }

  /**
    The row as the database stores it. Rows inserted without an "id" get
    one from the database; the model numbers them by position.
   */
  function Stored(row: Row, position: nat): Row {
    if "id" in row then row else row["id" := Str(Decimal(position))]
  }

  /** The Supabase client, holding the tables it reads and writes. */
  class Client {
    var tables: Tables

    constructor (initial: Tables)
      ensures tables == initial
    {
      tables := initial;
    }

    /** `table(t).insert(row).execute()`: appends the stored row and returns it. */
    method Insert(table: string, row: Row) returns (inserted: seq<Row>)
      modifies this
      ensures var stored := Stored(row, |Rows(old(tables), table)|);
              && tables == old(tables)[table := Rows(old(tables), table) + [stored]]
              && inserted == [stored]
    {
      var stored := Stored(row, |Rows(tables, table)|);
      tables := tables[table := Rows(tables, table) + [stored]];
      inserted := [stored];
    }

    /** `table(t).select("*").execute()`. */
    function SelectAll(table: string): (rows: seq<Row>)
      reads this
      ensures table !in tables ==> rows == []
    {
      Rows(tables, table)
    }

    /** `table(t).select("*").eq(column, value).execute()`. */
    function SelectWhere(table: string, column: string, value: Value): (rows: seq<Row>)
      reads this
      ensures forall r :: r in rows <==> r in Rows(tables, table) && Matches(r, column, value)
    {
      FilterIff(Rows(tables, table), column, value);
      Filter(Rows(tables, table), column, value)
    }

    /** `table(t).update(changes).eq(column, value).execute()`. */
    method UpdateWhere(table: string, column: string, value: Value, changes: Row)
      modifies this
      ensures tables == old(tables)[table := Update(Rows(old(tables), table), column, value, changes)]
    {
      tables := tables[table := Update(Rows(tables, table), column, value, changes)];
    }
  }

  /** The raw result's `data`, absent when the response has none. */
  datatype QueryResult = QueryResult(data: seq<Row>)

  /** `SupabaseResult(result)`: a missing `data` reads as the empty list. */
  function FromRaw(raw: Option<seq<Row>>): (r: QueryResult)
    ensures raw.None? ==> r.data == []
    ensures raw.Some? ==> r.data == raw.value
  {
    QueryResult(raw.GetOr([]))
  }

  function FetchOne(r: QueryResult): Option<Row> {
    if |r.data| > 0 then Some(r.data[0]) else None
  }

  function FetchAll(r: QueryResult): seq<Row> {
    r.data
  }

  /** `fetchone` is None exactly when `fetchall` is empty, and otherwise the first of its rows. */
  lemma FetchOneFirstOfAll(r: QueryResult)
    ensures FetchOne(r).None? <==> FetchAll(r) == []
    ensures FetchOne(r).Some? ==> FetchOne(r).value == FetchAll(r)[0]
  {
  }

  datatype QueryKind = InsertQuery | SelectQuery | Unsupported

  /** The dispatch on the stripped, upper-cased query. */
  function Classify(query: string): (k: QueryKind)
    ensures k == InsertQuery <==> StartsWith(Upper(Strip(query)), "INSERT INTO")
    ensures k == SelectQuery <==> !StartsWith(Upper(Strip(query)), "INSERT INTO") && StartsWith(Upper(Strip(query)), "SELECT")
  {
    var u := Upper(Strip(query));
    if StartsWith(u, "INSERT INTO") then InsertQuery
    else if StartsWith(u, "SELECT") then SelectQuery
    else Unsupported
  }

  /** The dispatch ignores white space around the query. */
  lemma ClassifyIgnoresPadding(front: string, query: string, back: string)
    requires forall k :: 0 <= k < |front| ==> front[k] in Whitespace
    requires forall k :: 0 <= k < |back| ==> back[k] in Whitespace
    ensures Classify(front + query + back) == Classify(query)
  {
    StripPadded(front, query, back);
  }

  /** The dispatch ignores the letter case of the query. */
  lemma ClassifyIgnoresCase(query: string)
    ensures Classify(Lower(query)) == Classify(query)
  {
    StripLower(query);
    UpperLower(Strip(query));
  }

  const Parens: set<char> := {'(', ')'}

  /** The first space-separated token of a stripped segment. */
  function FirstToken(segment: string): (t: string)
    ensures !Contains(t, " ")
  {
    Split(Strip(segment), " ")[0]
  }

  /**
    `_extract_table_name`: the first token after the first "INTO" (or,
    without one, after the first "FROM") of the upper-cased query, lower-cased;
    the INTO form also drops surrounding parentheses. Neither keyword: "files".
   */
  function ExtractTableName(query: string): string {
    var u := Upper(query);
    if Contains(u, "INTO") then Trim(Lower(FirstToken(Split(u, "INTO")[1])), Parens)
    else if Contains(u, "FROM") then Lower(FirstToken(Split(u, "FROM")[1]))
    else "files"
  }

  /** Lower-casing neither adds nor removes spaces. */
  lemma LowerKeepsNoSpace(s: string)
    requires !Contains(s, " ")
    ensures !Contains(Lower(s), " ")
  {
    ContainsChar(s, ' ');
    ContainsChar(Lower(s), ' ');
    assert forall k :: 0 <= k < |s| ==> Lower(s)[k] == LowerChar(s[k]) != ' ';
  }

  lemma LowerHasNoUpper(s: string)
    ensures NoUpperAscii(Lower(s))
  {
  }

  predicate NoUpperAscii(s: string) {
    forall k :: 0 <= k < |s| ==> !('A' <= s[k] <= 'Z')
  }

  /** A slice of text without upper-case letters has none either. */
  lemma SliceNoUpper(l: string, i: nat, j: nat)
    requires i <= j <= |l| && NoUpperAscii(l)
    ensures NoUpperAscii(l[i..j])
  {
    forall k | 0 <= k < j - i ensures !('A' <= l[i..j][k] <= 'Z') {
      assert l[i..j][k] == l[i + k];
    }
  }

  /** Trimming keeps text free of upper-case letters: it only drops characters. */
  lemma TrimKeepsNoUpper(l: string, drop: set<char>)
    requires NoUpperAscii(l)
    ensures NoUpperAscii(Trim(l, drop))
  {
    var i := |l| - |TrimStart(l, drop)|;
    TrimIsSlice(l, drop);
    SliceNoUpper(l, i, i + |Trim(l, drop)|);
  }

  /** The INTO form's name: a lower-cased token without surrounding parentheses. */
  lemma TrimmedTokenShape(token: string)
    requires !Contains(token, " ")
    ensures var t := Trim(Lower(token), Parens);
            && !Contains(t, " ") && NoUpperAscii(t)
            && (t == "" || (t[0] !in Parens && t[|t| - 1] !in Parens))
  {
    var l := Lower(token);
    LowerKeepsNoSpace(token);
    LowerHasNoUpper(token);
    TrimKeepsAbsence(l, Parens, " ");
    TrimKeepsNoUpper(l, Parens);
    TrimEnds(l, Parens);
  }

  lemma DefaultTableShape()
    ensures !Contains("files", " ") && NoUpperAscii("files")
  {
    var f := "files";
    assert |f| == 5 && f[0] == 'f' && f[1] == 'i' && f[2] == 'l' && f[3] == 'e' && f[4] == 's';
    assert forall k :: 0 <= k < |f| ==> f[k] != ' ' && !('A' <= f[k] <= 'Z');
    ContainsChar(f, ' ');
  }

  /**
    An extracted table name is a single token: no space, no upper-case
    ASCII letter, and in the INTO form no parenthesis at either end. A query
    holding neither keyword maps to "files".
   */
  lemma TableNameShape(query: string)
    ensures var t := ExtractTableName(query);
            !Contains(t, " ") && NoUpperAscii(t)
    ensures Contains(Upper(query), "INTO") ==>
              var t := ExtractTableName(query); t == "" || (t[0] !in Parens && t[|t| - 1] !in Parens)
    ensures !Contains(Upper(query), "INTO") && !Contains(Upper(query), "FROM") ==> ExtractTableName(query) == "files"
  {
    var u := Upper(query);
    if Contains(u, "INTO") {
      TrimmedTokenShape(FirstToken(Split(u, "INTO")[1]));
    } else if Contains(u, "FROM") {
      LowerKeepsNoSpace(FirstToken(Split(u, "FROM")[1]));
      LowerHasNoUpper(FirstToken(Split(u, "FROM")[1]));
    } else {
      DefaultTableShape();
    }
  }

  /** A table name as the services write it: lower-case ASCII letters, digits and underscores. */
  predicate PlainName(name: string) {
    forall k :: 0 <= k < |name| ==> ('a' <= name[k] <= 'z' || '0' <= name[k] <= '9' || name[k] == '_')
  }

  const InsertPrefix := "INSERT INTO "

  lemma InsertPrefixFacts()
    ensures |InsertPrefix| == 12
    ensures Upper(InsertPrefix) == InsertPrefix
    ensures OccursAt(InsertPrefix, "INTO", 7)
    ensures forall j :: 0 <= j < 7 ==> !OccursAt(InsertPrefix, "INTO", j)
  {
    var p := InsertPrefix;
    assert p[0] == 'I' && p[1] == 'N' && p[2] == 'S' && p[3] == 'E' && p[4] == 'R' && p[5] == 'T';
    assert p[6] == ' ' && p[7] == 'I' && p[8] == 'N' && p[9] == 'T' && p[10] == 'O' && p[11] == ' ';
    var w := "INTO";
    assert |w| == 4 && w[0] == 'I' && w[1] == 'N' && w[2] == 'T' && w[3] == 'O';
    assert forall k :: 0 <= k < |p| ==> Upper(p)[k] == UpperChar(p[k]) == p[k];
    assert forall j :: 1 <= j < 7 ==> p[j] != w[0];
    assert p[0 + 2] != w[2];
  }

  lemma UpperConcat(a: string, b: string)
    ensures Upper(a + b) == Upper(a) + Upper(b)
  {
    assert forall k :: 0 <= k < |a + b| ==> Upper(a + b)[k] == (Upper(a) + Upper(b))[k];
  }

  /** An upper-cased plain name holds no white space at all. */
  lemma PlainNameNoSpace(name: string)
    requires PlainName(name)
    ensures !Contains(Upper(name), " ")
    ensures forall k :: 0 <= k < |Upper(name)| ==> !IsSpace(Upper(name)[k])
  {
    var n := Upper(name);
    assert forall k :: 0 <= k < |n| ==> n[k] == UpperChar(name[k]);
    assert forall k :: 0 <= k < |n| ==> ('A' <= n[k] <= 'Z' || '0' <= n[k] <= '9' || n[k] == '_');
    assert forall c :: ('A' <= c <= 'Z' || '0' <= c <= '9' || c == '_') ==> c !in Whitespace;
    ContainsChar(n, ' ');
  }

  lemma PlainNameLowerUpper(name: string)
    requires PlainName(name)
    ensures Lower(Upper(name)) == name
  {
    assert forall k :: 0 <= k < |name| ==> Lower(Upper(name))[k] == name[k];
  }

  lemma PlainNameStrip(name: string)
    requires PlainName(name)
    ensures Strip(Upper(name)) == Upper(name)
  {
    PlainNameNoSpace(name);
    var n := Upper(name);
    assert TrimStart(n, Whitespace) == n;
  }

  lemma PlainNameNoParens(name: string)
    requires PlainName(name)
    ensures Trim(name, Parens) == name
  {
    assert TrimStart(name, Parens) == name;
  }

  /** The first "INTO" of the upper-cased query is the one of the prefix. */
  lemma InsertPrefixFind(name: string)
    ensures Find(Upper(InsertPrefix + name), "INTO") == Some(7)
    ensures Upper(InsertPrefix + name)[11..] == [' '] + Upper(name)
  {
    var n := Upper(name);
    InsertPrefixFacts();
    UpperConcat(InsertPrefix, name);
    var u := InsertPrefix + n;
    assert forall k :: 0 <= k < 12 ==> u[k] == InsertPrefix[k];
    assert forall j :: 0 <= j < 7 ==> (OccursAt(u, "INTO", j) <==> OccursAt(InsertPrefix, "INTO", j));
    assert OccursAt(u, "INTO", 7);
  }

  /** What follows the prefix's "INTO" holds no further "INTO". */
  lemma SegmentAfterInto(name: string)
    requires !Contains(Upper(name), "INTO")
    ensures !Contains([' '] + Upper(name), "INTO")
  {
    var rest := [' '] + Upper(name);
    assert rest[1..] == Upper(name);
    ShiftOccurrence(rest, "INTO");
    ContainsIff(rest, "INTO");
    ContainsIff(Upper(name), "INTO");
    assert "INTO"[0] == 'I';
    assert !OccursAt(rest, "INTO", 0);
  }

  /**
    The query the file service sends, "INSERT INTO " followed by a plain
    table name, is an insert into that very table (unless the name holds
    "into", which would cut it short).
   */
  lemma InsertIntoTable(name: string)
    requires PlainName(name) && !Contains(Upper(name), "INTO")
    ensures ExtractTableName(InsertPrefix + name) == name
  {
    var n := Upper(name);
    var u := Upper(InsertPrefix + name);
    InsertPrefixFind(name);
    SplitSecond(u, "INTO");
    var rest := [' '] + n;
    SegmentAfterInto(name);
    SplitFirst(rest, "INTO");
    assert Split(u, "INTO")[1] == rest;
    PlainNameNoSpace(name);
    PlainNameStrip(name);
    assert rest[1..] == n;
    assert TrimStart(rest, Whitespace) == TrimStart(n, Whitespace);
    assert Strip(rest) == n;
    SplitFirst(n, " ");
    assert FirstToken(rest) == n;
    PlainNameLowerUpper(name);
    PlainNameNoParens(name);
  }

  lemma FilesIsPlain()
    ensures PlainName("files") && !Contains(Upper("files"), "INTO")
  {
    var f := "files";
    assert |f| == 5 && f[0] == 'f' && f[1] == 'i' && f[2] == 'l' && f[3] == 'e' && f[4] == 's';
    var F := Upper(f);
    assert F[0] == 'F' && F[1] == 'I' && F[2] == 'L';
    assert "INTO"[0] == 'I' && "INTO"[1] == 'N';
    assert !OccursAt(F, "INTO", 0) && !OccursAt(F, "INTO", 1);
    ContainsIff(F, "INTO");
  }

  lemma FilesQueryIsInsert()
    ensures Classify(InsertPrefix + "files") == InsertQuery
  {
    var q := InsertPrefix + "files";
    InsertPrefixFacts();
    assert "files"[4] == 's';
    assert |q| == 17 && q[0] == 'I' && q[16] == "files"[4];
    assert !IsSpace('s') && !IsSpace('I');
    assert TrimStart(q, Whitespace) == q;
    assert TrimEnd(q, Whitespace) == q;
    UpperConcat(InsertPrefix, "files");
    assert Upper(q)[..11] == InsertPrefix[..11];
    assert InsertPrefix[..11] == "INSERT INTO";
  }

  /** `execute("INSERT INTO files", …)` is an insert into the table "files". */
  lemma FilesInsertQuery()
    ensures Classify(InsertPrefix + "files") == InsertQuery
    ensures ExtractTableName(InsertPrefix + "files") == "files"
  {
    FilesIsPlain();
    InsertIntoTable("files");
    FilesQueryIsInsert();
  }

  /** What a failed `execute` raises. */
  datatype DbError = ClientMissing | UnsupportedQuery(query: string)

  function ErrorMessage(e: DbError): string {
    match e
    case ClientMissing => "Supabase client not initialized"
    case UnsupportedQuery(q) => "Unsupported query type: " + q
  }

  /** The adapter; its client is None when the Supabase credentials were missing. */
  class Database {
    const client: Client?

    constructor (client: Client?)
      ensures this.client == client
    {
      this.client := client;
    }

    /**
      `execute(query, values)`: with no client, an error; an INSERT INTO
      query inserts `values` into the extracted table and returns the
      inserted row; a SELECT query returns every row of the extracted table,
      whatever else the query says; any other query is unsupported.
     */
    method Execute(query: string, values: Row) returns (r: Result<QueryResult, DbError>)
      modifies client
      ensures client == null ==> r == Err(ClientMissing)
      ensures client != null && Classify(query) == InsertQuery ==>
                var t := ExtractTableName(query);
                var stored := Stored(values, |Rows(old(client.tables), t)|);
                && client.tables == old(client.tables)[t := Rows(old(client.tables), t) + [stored]]
                && r == Ok(QueryResult([stored]))
      ensures client != null && Classify(query) == SelectQuery ==>
                && client.tables == old(client.tables)
                && r == Ok(QueryResult(Rows(client.tables, ExtractTableName(query))))
      ensures client != null && Classify(query) == Unsupported ==>
                client.tables == old(client.tables) && r == Err(UnsupportedQuery(query))
    {
      if client == null {
        return Err(ClientMissing);
      }
      match Classify(query)
      case InsertQuery =>
        var inserted := client.Insert(ExtractTableName(query), values);
        return Ok(FromRaw(Some(inserted)));
      case SelectQuery =>
        var rows := client.SelectAll(ExtractTableName(query));
        return Ok(FromRaw(Some(rows)));
      case Unsupported =>
        return Err(UnsupportedQuery(query));
    }
  }
}
