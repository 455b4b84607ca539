/** `find_last_kbar_date` (count_symbols.py): which tables are analysed, which of their columns
    count as dates and as symbols, and the statements issued for each table, in order. What the
    catalogue reports about a table's columns enters as `columnsOf`; the values the statements
    return are not modelled. */
module SchemaReport {
  import opened Outcomes
  import opened Seqs
  import opened Text
  import opened SqlIdentifier

  const KbarMarker: string := "kbar"
  const DateTypeMarkers: seq<string> := ["date", "time", "timestamp"]
  const DateNameMarkers: seq<string> := ["date", "time", "ts", "dt"]
  const SymbolMarker: string := "symbol"

  /** A row of `information_schema.columns`: `column_name` and `data_type`, in ordinal order. */
  datatype Column = Column(name: string, dataType: string)

  predicate IsKbarTable(name: string)
  {
    Contains(Lower(name), KbarMarker)
  }

  /** `kbar_tables`: the tables whose lower-cased name contains "kbar", or every table when none does. */
  function KbarTables(tables: seq<string>): (r: seq<string>)
    ensures |r| <= |tables|
    ensures forall t :: t in r ==> t in tables
    ensures r == [] <==> tables == []
  {
    var kbar := Filter(tables, IsKbarTable);
    if kbar == [] then tables else kbar
  }

  predicate HasDateType(c: Column)
  {
    ContainsAny(Lower(c.dataType), DateTypeMarkers)
  }

  predicate HasDateName(c: Column)
  {
    ContainsAny(Lower(c.name), DateNameMarkers)
  }

  predicate HasSymbolName(c: Column)
  {
    Contains(Lower(c.name), SymbolMarker)
  }

  function Names(cols: seq<Column>): (r: seq<string>)
    ensures |r| == |cols| && forall i :: 0 <= i < |cols| ==> r[i] == cols[i].name
  {
    seq(|cols|, i requires 0 <= i < |cols| => cols[i].name)
  }

  /** `date_columns`: the columns whose type looks like a date; only when there is none, the
      columns whose name does. */
  function DateColumns(cols: seq<Column>): (r: seq<string>)
    ensures |r| <= |cols|
    ensures r == [] <==> forall c :: c in cols ==> !HasDateType(c) && !HasDateName(c)
  {
    FilterEmpty(cols, HasDateType);
    FilterEmpty(cols, HasDateName);
    var byType := Filter(cols, HasDateType);
    if byType != [] then Names(byType) else Names(Filter(cols, HasDateName))
  }

  /** `symbol_columns`: the columns whose lower-cased name contains "symbol". */
  function SymbolColumns(cols: seq<Column>): (r: seq<string>)
    ensures |r| <= |cols|
    ensures r == [] <==> forall c :: c in cols ==> !HasSymbolName(c)
  {
    FilterEmpty(cols, HasSymbolName);
    Names(Filter(cols, HasSymbolName))
  }

  /** The test that decides the date columns of a table. */
  function DateTest(cols: seq<Column>): Column -> bool
  {
    if exists c :: c in cols && HasDateType(c) then HasDateType else HasDateName
  }

  /** The names in `Names(Filter(cols, p))` are the names of the columns passing `p`, in ordinal order. */
  lemma NamesOfSelection(cols: seq<Column>, p: Column -> bool)
    ensures var r, ix := Names(Filter(cols, p)), Positions(cols, p);
      && |ix| == |r|
      && Ascending(ix)
      && (forall k :: 0 <= k < |r| ==> ix[k] < |cols| && r[k] == cols[ix[k]].name && p(cols[ix[k]]))
      && (forall i :: 0 <= i < |cols| && p(cols[i]) ==> i in ix)
  {
    FilterPositions(cols, p);
  }

  /** The analysed tables are the "kbar" tables in their listed order, or all tables when there is
      none: a table is analysed exactly when it is listed and it, or no table at all, is a "kbar" table. */
  lemma KbarTablesSelection(tables: seq<string>)
    ensures (exists t :: t in tables && IsKbarTable(t)) ==> KbarTables(tables) == Filter(tables, IsKbarTable)
    ensures (forall t :: t in tables ==> !IsKbarTable(t)) ==> KbarTables(tables) == tables
    ensures forall t :: t in KbarTables(tables) <==>
      t in tables && (IsKbarTable(t) || forall u :: u in tables ==> !IsKbarTable(u))
  {
    FilterEmpty(tables, IsKbarTable);
    FilterPositions(tables, IsKbarTable);
    var kbar := Filter(tables, IsKbarTable);
    forall t | t in tables && IsKbarTable(t) ensures t in kbar {
      var i :| 0 <= i < |tables| && tables[i] == t;
      var ix := Positions(tables, IsKbarTable);
      var k :| 0 <= k < |ix| && ix[k] == i;
    }
  }

  /** Date columns are selected by type, in ordinal order; names are consulted only when no type
      matches, and then the columns with a date-like name are selected, in ordinal order. */
  lemma DateColumnsRule(cols: seq<Column>)
    ensures var r, p := DateColumns(cols), DateTest(cols);
      var ix := Positions(cols, p);
      && |ix| == |r|
      && Ascending(ix)
      && (forall k :: 0 <= k < |r| ==> ix[k] < |cols| && r[k] == cols[ix[k]].name && p(cols[ix[k]]))
      && (forall i :: 0 <= i < |cols| && p(cols[i]) ==> i in ix)
    ensures (exists c :: c in cols && HasDateType(c)) ==> DateTest(cols) == HasDateType
    ensures (forall c :: c in cols ==> !HasDateType(c)) ==> DateTest(cols) == HasDateName
  {
    FilterEmpty(cols, HasDateType);
    NamesOfSelection(cols, DateTest(cols));
  }

  /** Symbol columns are the columns whose name contains "symbol", in ordinal order, whatever the
      date detection found. */
  lemma SymbolColumnsRule(cols: seq<Column>)
    ensures var r, ix := SymbolColumns(cols), Positions(cols, HasSymbolName);
      && |ix| == |r|
      && Ascending(ix)
      && (forall k :: 0 <= k < |r| ==> ix[k] < |cols| && r[k] == cols[ix[k]].name && HasSymbolName(cols[ix[k]]))
      && (forall i :: 0 <= i < |cols| && HasSymbolName(cols[i]) ==> i in ix)
  {
    NamesOfSelection(cols, HasSymbolName);
  }

  /** The "timestamp" marker adds nothing: every type containing it contains "time". */
  lemma TimestampMarkerRedundant(c: Column)
    ensures HasDateType(c) <==> Contains(Lower(c.dataType), "date") || Contains(Lower(c.dataType), "time")
  {
    var ty := Lower(c.dataType);
    if Contains(ty, "timestamp") {
      ContainsPrefix(ty, "timestamp", "time");
    }
    assert "date" in DateTypeMarkers && "time" in DateTypeMarkers;
  }

  /** An `integer` column is never taken for a date by its type. */
  lemma IntegerIsNotDateTyped(name: string)
    ensures !HasDateType(Column(name, "integer"))
  {
    LowerKeepsSmall("integer");
    AbsentCharacter("integer", "date", 0);
    AbsentCharacter("integer", "time", 2);
    AbsentCharacter("integer", "timestamp", 2);
    assert forall m :: m in DateTypeMarkers ==> !Contains("integer", m);
  }

  /** A column named `id` is never taken for a date by its name. */
  lemma IdIsNotDateNamed(ty: string)
    ensures !HasDateName(Column("id", ty))
  {
    LowerKeepsSmall("id");
    AbsentCharacter("id", "date", 1);
    AbsentCharacter("id", "time", 2);
    AbsentCharacter("id", "ts", 0);
    AbsentCharacter("id", "dt", 1);
  }

  /** A column named `counts` is taken for a date by its name: it contains "ts". */
  lemma CountsIsDateNamed(ty: string)
    ensures HasDateName(Column("counts", ty))
  {
    LowerKeepsSmall("counts");
    assert OccursAt("counts", "ts", 4);
    ContainsAt("counts", "ts");
    assert "ts" in DateNameMarkers;
  }

  /** The name fallback matches any name containing "ts" or "dt": with no date-typed column, an
      integer column named "counts" is taken for a date column. */
  lemma CountsTakenForDate()
    ensures DateColumns([Column("id", "integer"), Column("counts", "integer")]) == ["counts"]
  {
    var cols := [Column("id", "integer"), Column("counts", "integer")];
    IntegerIsNotDateTyped("id");
    IntegerIsNotDateTyped("counts");
    IdIsNotDateNamed("integer");
    CountsIsDateNamed("integer");
    assert cols[..1] == [cols[0]];
    assert cols[..1][..0] == [];
    assert Filter(cols, HasDateType) == [];
    assert Filter(cols, HasDateName) == [cols[1]];
  }

  /** The statements the script issues; the table and column names are the identifiers it formats in. */
  datatype Query =
    | ListTables
    | ListColumns(table: string)
    | CountRows(table: string)
    | CountDistinct(table: string, column: string)
    | MaxOf(table: string, column: string)
    | MinOf(table: string, column: string)
    | LatestFive(table: string, orderBy: string)

  /** The names a statement formats in with `sql.Identifier`; `ListColumns` passes its table as a
      bound parameter instead. */
  function Identifiers(q: Query): seq<string>
  {
    match q
    case ListTables => []
    case ListColumns(_) => []
    case CountRows(t) => [t]
    case CountDistinct(t, c) => [c, t]
    case MaxOf(t, c) => [c, t]
    case MinOf(t, c) => [c, t]
    case LatestFive(t, c) => [t, c]
  }

  /** The SQL text of the statements built with `sql.SQL(...).format(...)`. */
  function Render(q: Query): string
  {
    match q
    case ListTables =>
      "SELECT table_name FROM information_schema.tables WHERE table_schema = 'public' AND table_type = 'BASE TABLE'"
    case ListColumns(_) =>
      "SELECT column_name, data_type FROM information_schema.columns WHERE table_name = %s ORDER BY ordinal_position"
    case CountRows(t) => "SELECT COUNT(*) FROM " + Quote(t)
    case CountDistinct(t, c) => "SELECT COUNT(DISTINCT " + Quote(c) + ") FROM " + Quote(t)
    case MaxOf(t, c) => "SELECT MAX(" + Quote(c) + ") FROM " + Quote(t)
    case MinOf(t, c) => "SELECT MIN(" + Quote(c) + ") FROM " + Quote(t)
    case LatestFive(t, c) => "SELECT * FROM " + Quote(t) + " ORDER BY " + Quote(c) + " DESC LIMIT 5"
  }

  /** In the row count statement the table name reads back whole and ends the statement. */
  lemma CountRowsReadsBack(t: string)
    ensures ReadQuoted(Render(CountRows(t))[|"SELECT COUNT(*) FROM "|..]) == Some((t, []))
  {
    assert Render(CountRows(t)) == "SELECT COUNT(*) FROM " + Quote(t) + [];
    ReadsBackAfter("SELECT COUNT(*) FROM ", t, []);
  }

  /** In the distinct count statement the column and then the table read back whole. */
  lemma CountDistinctReadsBack(t: string, c: string)
    ensures var text := Render(CountDistinct(t, c));
      && ReadQuoted(text[|"SELECT COUNT(DISTINCT "|..]) == Some((c, ") FROM " + Quote(t)))
      && ReadQuoted(text[|"SELECT COUNT(DISTINCT "| + |Quote(c)| + |") FROM "|..]) == Some((t, []))
  {
    TwoReadBack("SELECT COUNT(DISTINCT ", c, ") FROM ", t);
  }

  /** In the MAX statement the column and then the table read back whole. */
  lemma MaxOfReadsBack(t: string, c: string)
    ensures var text := Render(MaxOf(t, c));
      && ReadQuoted(text[|"SELECT MAX("|..]) == Some((c, ") FROM " + Quote(t)))
      && ReadQuoted(text[|"SELECT MAX("| + |Quote(c)| + |") FROM "|..]) == Some((t, []))
  {
    TwoReadBack("SELECT MAX(", c, ") FROM ", t);
  }

  /** In the MIN statement the column and then the table read back whole. */
  lemma MinOfReadsBack(t: string, c: string)
    ensures var text := Render(MinOf(t, c));
      && ReadQuoted(text[|"SELECT MIN("|..]) == Some((c, ") FROM " + Quote(t)))
      && ReadQuoted(text[|"SELECT MIN("| + |Quote(c)| + |") FROM "|..]) == Some((t, []))
  {
    TwoReadBack("SELECT MIN(", c, ") FROM ", t);
  }

  /** Two identifiers separated by `mid` each read back whole. */
  lemma TwoReadBack(head: string, a: string, mid: string, b: string)
    requires mid != [] && mid[0] != '"'
    ensures var text := head + Quote(a) + mid + Quote(b);
      && ReadQuoted(text[|head|..]) == Some((a, mid + Quote(b)))
      && ReadQuoted(text[|head| + |Quote(a)| + |mid|..]) == Some((b, []))
  {
    var text := head + Quote(a) + mid + Quote(b);
    assert text == head + Quote(a) + (mid + Quote(b));
    ReadsBackAfter(head, a, mid + Quote(b));
    assert text == (head + Quote(a) + mid) + Quote(b) + [];
    ReadsBackAfter(head + Quote(a) + mid, b, []);
  }

  /** In the sample statement the table and the ordering column each read back whole, and what
      follows them is the statement's own text. */
  lemma LatestFiveReadsBack(t: string, c: string)
    ensures var text := Render(LatestFive(t, c));
      var head := "SELECT * FROM ";
      && head <= text
      && ReadQuoted(text[|head|..]) == Some((t, " ORDER BY " + Quote(c) + " DESC LIMIT 5"))
      && ReadQuoted((" ORDER BY " + Quote(c) + " DESC LIMIT 5")[|" ORDER BY "|..]) == Some((c, " DESC LIMIT 5"))
  {
    var tail := " ORDER BY " + Quote(c) + " DESC LIMIT 5";
    assert Render(LatestFive(t, c)) == "SELECT * FROM " + Quote(t) + tail;
    ReadsBackAfter("SELECT * FROM ", t, tail);
    ReadsBackAfter(" ORDER BY ", c, " DESC LIMIT 5");
  }

  /** A quoted identifier placed after `head` reads back whole, leaving `rest`. */
  lemma ReadsBackAfter(head: string, name: string, rest: string)
    requires rest == [] || rest[0] != '"'
    ensures head <= head + Quote(name) + rest
    ensures ReadQuoted((head + Quote(name) + rest)[|head|..]) == Some((name, rest))
  {
    assert (head + Quote(name) + rest)[|head|..] == Quote(name) + rest;
    QuoteRoundTrip(name, rest);
  }

  /** One `COUNT(DISTINCT ...)` per symbol column, in order. */
  function DistinctQueries(t: string, symbols: seq<string>): seq<Query>
  {
    if symbols == [] then []
    else DistinctQueries(t, symbols[..|symbols| - 1]) + [CountDistinct(t, symbols[|symbols| - 1])]
  }

  /** `MAX` then `MIN` for each date column, in order. */
  function ExtremeQueries(t: string, dates: seq<string>): seq<Query>
  {
    if dates == [] then []
    else ExtremeQueries(t, dates[..|dates| - 1]) + [MaxOf(t, dates[|dates| - 1]), MinOf(t, dates[|dates| - 1])]
  }

  /** The statements for a table with the given symbol and date columns: the column listing, the
      row count, the distinct counts, then MAX and MIN per date column and the sample ordered by
      the first one. */
  function PlanFor(t: string, symbols: seq<string>, dates: seq<string>): seq<Query>
  {
    [ListColumns(t), CountRows(t)]
    + DistinctQueries(t, symbols)
    + (if dates == [] then [] else ExtremeQueries(t, dates) + [LatestFive(t, dates[0])])
  }

  /** The statements issued for one table, given the columns the catalogue lists for it. */
  function TablePlan(t: string, cols: seq<Column>): (plan: seq<Query>)
    ensures |plan| >= 2 && plan[0] == ListColumns(t) && plan[1] == CountRows(t)
    ensures |plan| == 2 + |SymbolColumns(cols)| + (if DateColumns(cols) == [] then 0 else 2 * |DateColumns(cols)| + 1)
  {
    PlanForSize(t, SymbolColumns(cols), DateColumns(cols));
    PlanFor(t, SymbolColumns(cols), DateColumns(cols))
  }

  /** `acc` followed by the statements for each table of `tables`, in order. */
  function IssueAll(acc: seq<Query>, tables: seq<string>, columnsOf: string -> seq<Column>): (r: seq<Query>)
    ensures acc <= r
    ensures |r| >= |acc| + 2 * |tables|
    decreases |tables|
  {
    if tables == [] then acc
    else IssueAll(acc + TablePlan(tables[0], columnsOf(tables[0])), tables[1..], columnsOf)
  }

  /** Every statement of one run of the report, in order: the table listing, then the statements
      of each analysed table in turn. */
  function ReportPlan(tables: seq<string>, columnsOf: string -> seq<Column>): (r: seq<Query>)
    ensures |r| >= 1 + 2 * |KbarTables(tables)| && r[0] == ListTables
  {
    IssueAll([ListTables], KbarTables(tables), columnsOf)
  }

  lemma {:induction false} DistinctQueriesAt(t: string, symbols: seq<string>)
    ensures |DistinctQueries(t, symbols)| == |symbols|
    ensures forall i :: 0 <= i < |symbols| ==> DistinctQueries(t, symbols)[i] == CountDistinct(t, symbols[i])
  {
    if symbols != [] {
      DistinctQueriesAt(t, symbols[..|symbols| - 1]);
    }
  }

  lemma {:induction false} ExtremeQueriesAt(t: string, dates: seq<string>)
    ensures |ExtremeQueries(t, dates)| == 2 * |dates|
    ensures forall j :: 0 <= j < |dates| ==>
      ExtremeQueries(t, dates)[2 * j] == MaxOf(t, dates[j]) && ExtremeQueries(t, dates)[2 * j + 1] == MinOf(t, dates[j])
  {
    if dates != [] {
      ExtremeQueriesAt(t, dates[..|dates| - 1]);
    }
  }

  lemma PlanForLayout(t: string, syms: seq<string>, dates: seq<string>)
    ensures var plan := PlanFor(t, syms, dates);
      && |plan| == 2 + |syms| + (if dates == [] then 0 else 2 * |dates| + 1)
      && plan[0] == ListColumns(t) && plan[1] == CountRows(t)
      && (forall i :: 0 <= i < |syms| ==> plan[2 + i] == CountDistinct(t, syms[i]))
      && (forall j :: 0 <= j < |dates| ==>
            plan[2 + |syms| + 2 * j] == MaxOf(t, dates[j]) && plan[2 + |syms| + 2 * j + 1] == MinOf(t, dates[j]))
      && (dates != [] ==> plan[|plan| - 1] == LatestFive(t, dates[0]))
  {
    PlanForSize(t, syms, dates);
    PlanForHead(t, syms, dates);
    if dates != [] {
      PlanForDates(t, syms, dates);
    }
  }

  /** The plan's length, and its first two statements: the column listing and the row count. */
  lemma PlanForSize(t: string, syms: seq<string>, dates: seq<string>)
    ensures var plan := PlanFor(t, syms, dates);
      && |plan| == 2 + |syms| + (if dates == [] then 0 else 2 * |dates| + 1)
      && plan[0] == ListColumns(t) && plan[1] == CountRows(t)
  {
    DistinctQueriesAt(t, syms);
    ExtremeQueriesAt(t, dates);
  }

  /** The distinct counts follow the first two statements, one per symbol column. */
  lemma PlanForHead(t: string, syms: seq<string>, dates: seq<string>)
    ensures var plan := PlanFor(t, syms, dates);
      && |plan| >= 2 + |syms|
      && (forall i :: 0 <= i < |syms| ==> plan[2 + i] == CountDistinct(t, syms[i]))
  {
    var plan := PlanFor(t, syms, dates);
    var head := [ListColumns(t), CountRows(t)];
    var distinct := DistinctQueries(t, syms);
    var rest := if dates == [] then [] else ExtremeQueries(t, dates) + [LatestFive(t, dates[0])];
    DistinctQueriesAt(t, syms);
    assert plan == head + (distinct + rest);
    forall i | 0 <= i < |syms|
      ensures plan[2 + i] == CountDistinct(t, syms[i])
    {
      assert plan[|head| + i] == (distinct + rest)[i] == distinct[i];
    }
  }

  /** MAX and MIN per date column, then the sample, close the plan. */
  lemma PlanForDates(t: string, syms: seq<string>, dates: seq<string>)
    requires dates != []
    ensures var plan := PlanFor(t, syms, dates);
      && |plan| == 2 + |syms| + 2 * |dates| + 1
      && (forall j :: 0 <= j < |dates| ==>
            plan[2 + |syms| + 2 * j] == MaxOf(t, dates[j]) && plan[2 + |syms| + 2 * j + 1] == MinOf(t, dates[j]))
      && plan[|plan| - 1] == LatestFive(t, dates[0])
  {
    var plan := PlanFor(t, syms, dates);
    var pre := [ListColumns(t), CountRows(t)] + DistinctQueries(t, syms);
    var ext := ExtremeQueries(t, dates);
    var rest := ext + [LatestFive(t, dates[0])];
    DistinctQueriesAt(t, syms);
    ExtremeQueriesAt(t, dates);
    assert plan == pre + rest;
    forall j | 0 <= j < |dates|
      ensures plan[2 + |syms| + 2 * j] == MaxOf(t, dates[j]) && plan[2 + |syms| + 2 * j + 1] == MinOf(t, dates[j])
    {
      assert plan[|pre| + 2 * j] == rest[2 * j] == ext[2 * j];
      assert plan[|pre| + 2 * j + 1] == rest[2 * j + 1] == ext[2 * j + 1];
    }
  }

  /** The order of statements for a table: the column listing, the row count, one distinct count
      per symbol column, MAX then MIN per date column, and last the five latest rows ordered by
      the first date column; with no date column the last two parts are absent. */
  lemma TablePlanLayout(t: string, cols: seq<Column>)
    ensures var plan, syms, dates := TablePlan(t, cols), SymbolColumns(cols), DateColumns(cols);
      && |plan| == 2 + |syms| + (if dates == [] then 0 else 2 * |dates| + 1)
      && plan[0] == ListColumns(t) && plan[1] == CountRows(t)
      && (forall i :: 0 <= i < |syms| ==> plan[2 + i] == CountDistinct(t, syms[i]))
      && (forall j :: 0 <= j < |dates| ==>
            plan[2 + |syms| + 2 * j] == MaxOf(t, dates[j]) && plan[2 + |syms| + 2 * j + 1] == MinOf(t, dates[j]))
      && (dates != [] ==> plan[|plan| - 1] == LatestFive(t, dates[0]))
  {
    PlanForLayout(t, SymbolColumns(cols), DateColumns(cols));
  }

  /** With no date column the row count is still issued, and no MAX, MIN or sample statement is. */
  lemma NoDateColumnsNoExtremes(t: string, cols: seq<Column>)
    requires DateColumns(cols) == []
    ensures CountRows(t) in TablePlan(t, cols)
    ensures forall q :: q in TablePlan(t, cols) ==> !q.MaxOf? && !q.MinOf? && !q.LatestFive?
  {
    TablePlanLayout(t, cols);
    var plan, syms := TablePlan(t, cols), SymbolColumns(cols);
    assert plan[1] == CountRows(t);
    forall q | q in plan ensures !q.MaxOf? && !q.MinOf? && !q.LatestFive? {
      var i :| 0 <= i < |plan| && plan[i] == q;
      if i >= 2 {
        assert q == CountDistinct(t, syms[i - 2]);
      }
    }
  }

  /** The column names selected from `cols` are names of `cols`. */
  lemma SelectedNamesListed(cols: seq<Column>)
    ensures forall n :: n in SymbolColumns(cols) ==> n in Names(cols)
    ensures forall n :: n in DateColumns(cols) ==> n in Names(cols)
  {
    SelectionListed(cols, HasSymbolName);
    SelectionListed(cols, HasDateType);
    SelectionListed(cols, HasDateName);
  }

  lemma SelectionListed(cols: seq<Column>, p: Column -> bool)
    ensures forall n :: n in Names(Filter(cols, p)) ==> n in Names(cols)
  {
    NamesOfSelection(cols, p);
    var r, ix := Names(Filter(cols, p)), Positions(cols, p);
    forall n | n in r ensures n in Names(cols) {
      var k :| 0 <= k < |r| && r[k] == n;
      assert Names(cols)[ix[k]] == n;
    }
  }

  lemma {:induction false} DistinctQueriesMembers(t: string, symbols: seq<string>)
    ensures forall q :: q in DistinctQueries(t, symbols) ==> q.CountDistinct? && q.table == t && q.column in symbols
  {
    if symbols != [] {
      DistinctQueriesMembers(t, symbols[..|symbols| - 1]);
      assert forall s :: s in symbols[..|symbols| - 1] ==> s in symbols;
    }
  }

  lemma {:induction false} ExtremeQueriesMembers(t: string, dates: seq<string>)
    ensures forall q :: q in ExtremeQueries(t, dates) ==> (q.MaxOf? || q.MinOf?) && q.table == t && q.column in dates
  {
    if dates != [] {
      ExtremeQueriesMembers(t, dates[..|dates| - 1]);
      assert forall d :: d in dates[..|dates| - 1] ==> d in dates;
    }
  }

  lemma PlanForIdentifiers(t: string, symbols: seq<string>, dates: seq<string>, names: seq<string>)
    requires forall n :: n in symbols ==> n in names
    requires forall n :: n in dates ==> n in names
    ensures forall q :: q in PlanFor(t, symbols, dates) ==>
      !q.ListTables? && q.table == t && forall n :: n in Identifiers(q) ==> n == t || n in names
  {
    DistinctQueriesMembers(t, symbols);
    ExtremeQueriesMembers(t, dates);
    assert dates != [] ==> dates[0] in dates;
  }

  /** Every statement for a table concerns that table, and every identifier it formats in is the
      table's name or one of the names the catalogue listed for it. */
  lemma TablePlanIdentifiers(t: string, cols: seq<Column>)
    ensures forall q :: q in TablePlan(t, cols) ==>
      !q.ListTables? && q.table == t && forall n :: n in Identifiers(q) ==> n == t || n in Names(cols)
  {
    SelectedNamesListed(cols);
    PlanForIdentifiers(t, SymbolColumns(cols), DateColumns(cols), Names(cols));
  }

  /** The statements already issued stay first, and each one added for `tables` concerns one of
      them and formats in only that table's name or the names of its listed columns. */
  lemma {:induction false} IssueAllIdentifiers(acc: seq<Query>, tables: seq<string>, columnsOf: string -> seq<Column>)
    ensures acc <= IssueAll(acc, tables, columnsOf)
    ensures forall q :: q in IssueAll(acc, tables, columnsOf) ==>
      || q in acc
      || (&& !q.ListTables? && q.table in tables
          && forall n :: n in Identifiers(q) ==> n == q.table || n in Names(columnsOf(q.table)))
    decreases |tables|
  {
    if tables != [] {
      var t := tables[0];
      var next := acc + TablePlan(t, columnsOf(t));
      IssueAllIdentifiers(next, tables[1..], columnsOf);
      TablePlanIdentifiers(t, columnsOf(t));
      assert forall u :: u in tables[1..] ==> u in tables;
      assert forall q :: q in next ==> q in acc || q in TablePlan(t, columnsOf(t));
    }
  }

  /** Across the whole report: the table listing comes first, and every other statement concerns a
      listed table and formats in only that table's name or the names of its listed columns. */
  lemma ReportPlanIdentifiers(tables: seq<string>, columnsOf: string -> seq<Column>)
    ensures [ListTables] <= ReportPlan(tables, columnsOf)
    ensures forall q :: q in ReportPlan(tables, columnsOf) ==>
      || q == ListTables
      || (&& q.table in tables
          && forall n :: n in Identifiers(q) ==> n == q.table || n in Names(columnsOf(q.table)))
  {
    IssueAllIdentifiers([ListTables], KbarTables(tables), columnsOf);
  }

  /** The body of the table loop of `find_last_kbar_date`: the statements it issues for one table. */
  method IssueTableQueries(tableName: string, columns: seq<Column>) returns (issued: seq<Query>)
    ensures issued == TablePlan(tableName, columns)
  {
    issued := [ListColumns(tableName)];
    var dateColumns := DateColumns(columns);
    issued := issued + [CountRows(tableName)];
    var symbolColumns := SymbolColumns(columns);
    for j := 0 to |symbolColumns|
      invariant issued == [ListColumns(tableName), CountRows(tableName)] + DistinctQueries(tableName, symbolColumns[..j])
    {
      assert symbolColumns[..j + 1][..j] == symbolColumns[..j];
      issued := issued + [CountDistinct(tableName, symbolColumns[j])];
    }
    assert symbolColumns[..|symbolColumns|] == symbolColumns;
    if dateColumns != [] {
      ghost var mid := issued;
      for j := 0 to |dateColumns|
        invariant issued == mid + ExtremeQueries(tableName, dateColumns[..j])
      {
        assert dateColumns[..j + 1][..j] == dateColumns[..j];
        issued := issued + [MaxOf(tableName, dateColumns[j]), MinOf(tableName, dateColumns[j])];
      }
      assert dateColumns[..|dateColumns|] == dateColumns;
      var mainDateCol := dateColumns[0];
      issued := issued + [LatestFive(tableName, mainDateCol)];
      assert issued == mid + (ExtremeQueries(tableName, dateColumns) + [LatestFive(tableName, dateColumns[0])]);
    }
    assert issued == PlanFor(tableName, symbolColumns, dateColumns);
  }

  /** `find_last_kbar_date`: the table listing, then for each analysed table in order its column
      listing and the statements built from its columns. */
  method FindLastKbarDate(tables: seq<string>, columnsOf: string -> seq<Column>) returns (plan: seq<Query>)
    ensures plan == ReportPlan(tables, columnsOf)
  {
    plan := [ListTables];
    var kbarTables := KbarTables(tables);
    for n := 0 to |kbarTables|
      invariant IssueAll(plan, kbarTables[n..], columnsOf) == ReportPlan(tables, columnsOf)
    {
      var tableName := kbarTables[n];
      assert kbarTables[n..][1..] == kbarTables[n + 1..];
      var issued := IssueTableQueries(tableName, columnsOf(tableName));
      plan := plan + issued;
    }
  }

}
