# Taiwan stock K-bar ingestion, modelled in Dafny

This project models two scripts of a small market-data tool.

- `fetch_and_insert_kbars.py` does the following:
  - reads a list of stock symbols from `symbols.txt`;
  - resolves the date window from the command line;
  - asks the Shioaji provider for each symbol's one-minute price bars (K-bars);
  - corrects each bar's timestamp back by eight hours;
  - upserts each bar into the PostgreSQL table `stock_kbars`, keyed on `(symbol, time)`;
  - prints a summary of rows written, symbols that succeeded and symbols that failed.
- `count_symbols.py` (`find_last_kbar_date`) inspects the database:
  - it picks the tables whose name contains "kbar";
  - for each table it detects date-like and symbol-like columns;
  - it issues a fixed sequence of statements (row count, distinct symbols, MAX/MIN per date column, a sample of the latest five rows), formatting identifiers with `psycopg2.sql.Identifier`.

The modules follow the scripts:

| module | file | what it holds |
|---|---|---|
| `Outcomes` | outcomes.dfy | `Option` |
| `Seqs` | seqs.dfy | list-comprehension filtering (`Filter`), the positions it keeps, `Sum` |
| `Text` | text.dfy | `str.strip()` over Python's whitespace set, ASCII `lower()`, substring `in` |
| `SymbolSource` | symbol_source.dfy | `read_symbols`: universal newlines, line iteration, strip and drop blanks |
| `TimeWindow` | time_window.dfy | the `__main__` argument dispatch and the date-window defaulting |
| `Kbars` | kbars.dfy | raw and corrected bars, the eight-hour shift, the per-row `float()`/`int()` conversions |
| `KbarTable` | kbar_table.dfy | the `stock_kbars` table as a map with a SERIAL sequence, the upsert, `insert_kbars_data` as a class method |
| `Ingestor` | ingestor.dfy | the per-symbol loop, its summary accounting and the whole run |
| `SqlIdentifier` | sql_identifier.dfy | double-quoted identifiers and how SQL reads them back |
| `SchemaReport` | schema_report.dfy | `find_last_kbar_date`: table and column selection and the statement plan |

The provider, the clock and the file system enter as parameters:

- `api(window, i, symbol)` is the provider's answer for the i-th symbol;
- `clock(i)` is the transaction time its rows are written at;
- `today` is the current date;
- `parse` stands in for `strptime`;
- `symbolFile` is the decoded file text, or `None` when the file cannot be opened;
- `columnsOf(table)` is the catalogue's column listing.

`insert_kbars_data` updates the database step by step. It is therefore the method `KbarDatabase.InsertKbarsData`, whose `rows` map and `nextId` counter it changes in place. That method is proved equal to the function `InsertAll`, and the properties of the table are proved about `InsertAll`. The symbol loop (`FetchAndInsertKbars`) and the report's statement loops (`IssueTableQueries`, `FindLastKbarDate`) are methods too, each proved equal to a specification function.

## Model

| member | source | states |
|---|---|---|
| Text.TrimStartSpec | fetch_and_insert_kbars.py:27 | dropping leading whitespace leaves a suffix that starts with non-whitespace, and everything dropped is whitespace |
| Text.TrimEndSpec | fetch_and_insert_kbars.py:27 | dropping trailing whitespace leaves a prefix that ends with non-whitespace, and everything dropped is whitespace |
| Text.StripSpec | fetch_and_insert_kbars.py:27 | `line.strip()` is a slice of the line whose two cut-off ends are all whitespace; the result neither starts nor ends with whitespace |
| Text.StripEmptyIffBlank | fetch_and_insert_kbars.py:27 | `line.strip()` is empty exactly when the line is all whitespace, which is the comprehension's filter |
| Text.StripIdempotent | fetch_and_insert_kbars.py:27 | stripping a stripped symbol changes nothing |
| Text.Lower | count_symbols.py:47 | `lower()` keeps the length, maps each capital A–Z to its small letter, and changes no other character |
| Text.ContainsAt | count_symbols.py:47 | `needle in hay` holds exactly when the needle occurs at some position of the haystack |
| Text.ContainsPrefix | count_symbols.py:70 | a string containing a word contains every prefix of that word |
| SymbolSource.TranslateNewlines | fetch_and_insert_kbars.py:26 | text mode leaves no carriage return in what the file yields |
| SymbolSource.NewlineWidth | fetch_and_insert_kbars.py:26 | a line break takes two characters exactly when it is "\r\n", otherwise one |
| SymbolSource.TranslateKeepsPlainText | fetch_and_insert_kbars.py:26 | text without a carriage return is read exactly as stored |
| SymbolSource.TranslateAppend | fetch_and_insert_kbars.py:26 | translation works piece by piece wherever the cut does not split a "\r\n" |
| SymbolSource.TranslateCrLf | fetch_and_insert_kbars.py:26 | each "\r\n" is read as one "\n", with the text on either side translated unchanged |
| SymbolSource.TranslateLoneCr | fetch_and_insert_kbars.py:26 | a "\r" not followed by "\n" is read as one "\n" |
| SymbolSource.TranslateLoneCrFirst | fetch_and_insert_kbars.py:26 | a text starting with a lone "\r" reads as "\n" followed by the rest |
| SymbolSource.LinesRoundTrip | fetch_and_insert_kbars.py:27 | the lines iteration yields, put back together, are the whole text |
| SymbolSource.LinesShape | fetch_and_insert_kbars.py:27 | each yielded line is non-empty with a newline at most at its end; every line but the last ends in a newline |
| SymbolSource.CleanSymbolsSelects | fetch_and_insert_kbars.py:27 | the symbols are the stripped non-blank lines, in file order, each taken from an ascending line position; every line left out is blank |
| SymbolSource.CleanSymbolsTrimmed | fetch_and_insert_kbars.py:27 | no symbol is empty or has whitespace at either end |
| SymbolSource.CleanSymbolsOneLine | fetch_and_insert_kbars.py:27 | no symbol taken from a line contains a newline |
| SymbolSource.CleanSymbols | fetch_and_insert_kbars.py:27 | the comprehension yields at most one non-empty symbol per line, and nothing exactly when every line is blank |
| SymbolSource.ReadSymbols | fetch_and_insert_kbars.py:24-28 | a list is returned exactly when the file can be opened, with at most one symbol per line |
| SymbolSource.ReadSymbolsWellFormed | fetch_and_insert_kbars.py:24-28 | an openable file always yields a list; each symbol in it is non-empty, trimmed and within one line |
| TimeWindow.Dispatch | fetch_and_insert_kbars.py:226-241 | the script runs exactly when it gets zero, one or two arguments; otherwise it prints usage and exits with status 1 |
| TimeWindow.DispatchRoundTrip | fetch_and_insert_kbars.py:226-234 | the dispatch reads back exactly the dates the command line carries, and every accepted command line has that form |
| TimeWindow.ResolveWindow | fetch_and_insert_kbars.py:108-118 | a failure names a given date text that does not parse; a resolved window starts at the parsed start date whenever one was given |
| TimeWindow.CommandLineWindow | fetch_and_insert_kbars.py:108-118 | no date gives today..today, one date gives that day only, and two dates are used as given |
| TimeWindow.ResolveFailsOnlyOnBadText | fetch_and_insert_kbars.py:113-118 | resolution fails exactly when a date it reads does not parse, naming the start date first; an end date without a start date is never read |
| TimeWindow.SingleDayUnlessRange | fetch_and_insert_kbars.py:109-116 | a window spans more than one day only when both dates were given |
| TimeWindow.InvertedWindowForwarded | fetch_and_insert_kbars.py:113-121 | an end date earlier than the start date is not rejected and is forwarded inverted |
| Kbars.LocalTime | fetch_and_insert_kbars.py:181 | the corrected time is earlier than the raw timestamp by exactly 8 × 60 × 60 × 10⁹ nanoseconds |
| Kbars.LocalTimeShift | fetch_and_insert_kbars.py:181 | the correction subtracts exactly eight hours of nanoseconds; it is undone by adding them, keeps bar order and never merges two timestamps |
| Kbars.Normalize | fetch_and_insert_kbars.py:181-182 | the corrected frame has one bar per raw bar; its time plus eight hours is the raw `ts`, and its prices and volume are unchanged |
| Kbars.Convert | fetch_and_insert_kbars.py:90-94 | the parameter tuple is built exactly when no cell's conversion raises; a missing cell binds NULL and a present one its value |
| KbarTable.Upsert | fetch_and_insert_kbars.py:73-82 | the conflict path overwrites the five value columns and keeps `id` and `created_at`; the insert path adds a row stamped `now` with a fresh id; other rows are unchanged; ids stay unique; the sequence advances on both paths |
| KbarTable.Written | fetch_and_insert_kbars.py:84-99 | the count returned never exceeds the number of rows in the frame |
| KbarTable.InsertAll | fetch_and_insert_kbars.py:85-99 | after the row loop ids are still unique, and the sequence has advanced by exactly the count returned |
| KbarTable.InsertAllKeys | fetch_and_insert_kbars.py:85-99 | afterwards the table holds exactly its old keys plus the `(symbol, time)` keys of convertible bars |
| KbarTable.InsertAllLastWriteWins | fetch_and_insert_kbars.py:76-81 | a written key holds the values of the last convertible bar at its time |
| KbarTable.InsertAllKeepsIdentity | fetch_and_insert_kbars.py:73-82 | old rows keep `id` and `created_at`; rows no bar writes are untouched; new rows carry `now` and an id the table never used |
| KbarTable.InsertAllKeepsOld | fetch_and_insert_kbars.py:76-81 | every old row survives with its `id` and `created_at` |
| KbarTable.InsertAllUntouched | fetch_and_insert_kbars.py:73-82 | a row whose key no bar writes is left exactly as it was |
| KbarTable.InsertAllStampsNew | fetch_and_insert_kbars.py:45 | each new row is stamped with the transaction time and a sequence value not yet used |
| KbarTable.InsertAllAppend | fetch_and_insert_kbars.py:85 | inserting the frame `a + b` is inserting `a` and then `b` |
| KbarTable.SkippedRowHasNoEffect | fetch_and_insert_kbars.py:97-99 | a row whose conversion raises leaves the table as if it were not in the frame |
| KbarTable.InsertAllIdempotent | fetch_and_insert_kbars.py:73-82 | re-ingesting the same frame leaves the same rows, with no duplicates and the same ids and creation times |
| KbarTable.WrittenAll | fetch_and_insert_kbars.py:96-99 | the count equals the frame length exactly when no row's conversion raises |
| KbarTable.KbarDatabase.constructor | fetch_and_insert_kbars.py:36-47 | a new table is empty and its sequence starts at 1 |
| KbarTable.KbarDatabase.ExecuteUpsert | fetch_and_insert_kbars.py:87-95 | one `cur.execute` changes the table as `Upsert` says |
| KbarTable.KbarDatabase.InsertKbarsData | fetch_and_insert_kbars.py:66-103 | the table afterwards is `InsertAll` of the table before, and the count returned is the number of convertible rows (0 for an empty frame) |
| Ingestor.OutcomeOf | fetch_and_insert_kbars.py:163-200 | a symbol fails exactly when the lookup or fetch raises, is skipped exactly when the frame is empty, and otherwise reports at most one row per bar |
| Ingestor.Attempts | fetch_and_insert_kbars.py:158-170 | one attempt per symbol, in file order, each holding the provider's answer for that symbol and position |
| Ingestor.Tally | fetch_and_insert_kbars.py:154-201 | successful plus failed never exceeds the number of symbols, and every failed entry is one of the run's symbols |
| Ingestor.TallyAccounting | fetch_and_insert_kbars.py:154-201 | each symbol counts once as succeeded, failed or empty; `failed_symbols` lists the failed symbols in run order; `total_rows` sums the counts of succeeded symbols |
| Ingestor.TallyCounts | fetch_and_insert_kbars.py:175-200 | the successful count, the failed list and the empty symbols together account for every symbol |
| Ingestor.TallyRows | fetch_and_insert_kbars.py:187-188 | `total_rows` is the sum of what `insert_kbars_data` returned for each symbol |
| Ingestor.SymbolCountBound | fetch_and_insert_kbars.py:211-213 | successful plus failed is at most the number of symbols, with equality exactly when no symbol returned an empty frame |
| Ingestor.FailedSymbolsInOrder | fetch_and_insert_kbars.py:195-200 | the failed list holds, in input order, exactly the symbols at positions whose fetch failed |
| Ingestor.AllRowsRejectedStillSucceeds | fetch_and_insert_kbars.py:187-189 | a symbol whose every row fails conversion succeeds with zero rows; after any earlier symbols it adds one success and changes nothing else in the summary |
| Ingestor.ExampleRun | fetch_and_insert_kbars.py:158-201 | with "2330" giving one good bar and "9999NOTFOUND" unknown, the summary is one row, one success and `["9999NOTFOUND"]` failed |
| Ingestor.Ingested | fetch_and_insert_kbars.py:186-188 | after the loop ids are still unique, and the sequence has advanced by exactly the reported `total_rows` |
| Ingestor.FetchAndInsertKbars | fetch_and_insert_kbars.py:154-201 | the loop's summary is `Tally` of the provider's answers, and the table is each symbol's frame inserted in order |
| Ingestor.Run | fetch_and_insert_kbars.py:226-241 | a run that stops on usage, a bad date or an unreadable symbol file leaves the table unchanged; a completed run reports the summary and leaves the ingested table |
| Ingestor.RunOutcome | fetch_and_insert_kbars.py:226-241 | a completed run had a valid argument count and a readable symbol file, and its summary accounts for at most all of its symbols |
| Ingestor.RunChecksInOrder | fetch_and_insert_kbars.py:109-126 | usage errors happen exactly for a wrong argument count; a bad date names one of the arguments and is reported whether or not the symbol file can be read; a symbol-file error happens only after the window resolved |
| SqlIdentifier.EscapeSpec | count_symbols.py:79 | escaping never shortens a name, and leaves a name without double quotes as it is |
| SqlIdentifier.Quote | count_symbols.py:79 | a formatted identifier begins and ends with a double quote |
| SqlIdentifier.ReadBodyEscape | count_symbols.py:79 | the escaped body followed by the closing quote reads back as the name |
| SqlIdentifier.QuoteRoundTrip | count_symbols.py:79 | SQL reads a quoted identifier back as exactly the name, leaving the rest of the statement intact |
| SqlIdentifier.QuoteInjective | count_symbols.py:79 | distinct names format to distinct identifiers |
| SchemaReport.KbarTables | count_symbols.py:47-51 | the analysed tables are listed tables, no more of them than listed, and none only when no table is listed |
| SchemaReport.DateColumns | count_symbols.py:70-74 | the date columns are at most the listed columns, and none only when no column is date-like by type or by name |
| SchemaReport.SymbolColumns | count_symbols.py:85 | the symbol columns are at most the listed columns, and none exactly when no column name contains "symbol" |
| SchemaReport.NamesOfSelection | count_symbols.py:70-74 | the selected column names are the names of the matching columns, in ordinal order |
| SchemaReport.KbarTablesSelection | count_symbols.py:47-51 | the analysed tables are the "kbar" tables in listed order, or every table when none matches |
| SchemaReport.DateColumnsRule | count_symbols.py:70-74 | date columns are selected by type in ordinal order; names are consulted only when no type matches |
| SchemaReport.SymbolColumnsRule | count_symbols.py:85 | symbol columns are exactly the columns whose lower-cased name contains "symbol", in ordinal order |
| SchemaReport.TimestampMarkerRedundant | count_symbols.py:70 | the "timestamp" marker adds nothing to "date" and "time" |
| SchemaReport.IntegerIsNotDateTyped | count_symbols.py:70 | an `integer` column is never date-typed |
| SchemaReport.IdIsNotDateNamed | count_symbols.py:74 | a column named `id` is never date-named |
| SchemaReport.CountsIsDateNamed | count_symbols.py:74 | a column named `counts` is date-named, because it contains "ts" |
| SchemaReport.CountsTakenForDate | count_symbols.py:70-74 | for columns `id integer, counts integer` the name fallback selects `counts` as the date column |
| SchemaReport.CountRowsReadsBack | count_symbols.py:79 | in the row count statement the table name reads back whole and ends the statement |
| SchemaReport.CountDistinctReadsBack | count_symbols.py:88-91 | in the distinct count statement the column and then the table read back whole |
| SchemaReport.MaxOfReadsBack | count_symbols.py:100-103 | in the MAX statement the column and then the table read back whole |
| SchemaReport.MinOfReadsBack | count_symbols.py:109-112 | in the MIN statement the column and then the table read back whole |
| SchemaReport.LatestFiveReadsBack | count_symbols.py:120-123 | in the sample statement the table and the ordering column each read back whole |
| SchemaReport.TwoReadBack | count_symbols.py:88-112 | two identifiers separated by a fixed text each read back whole |
| SchemaReport.ReadsBackAfter | count_symbols.py:79 | an identifier formatted after any statement text reads back whole |
| SchemaReport.DistinctQueriesAt | count_symbols.py:87-91 | one distinct-count statement per symbol column, in order |
| SchemaReport.ExtremeQueriesAt | count_symbols.py:99-115 | a MAX statement and then a MIN statement for each date column, in order |
| SchemaReport.PlanForLayout | count_symbols.py:59-123 | the statements for a table are the column listing, the row count, the distinct counts, MAX/MIN pairs and the sample ordered by the first date column |
| SchemaReport.TablePlan | count_symbols.py:59-123 | every analysed table gets the column listing and then the row count, and one statement per symbol column, plus two per date column and the sample when it has date columns |
| SchemaReport.IssueAll | count_symbols.py:53-123 | the statements already issued stay first, and each table adds at least two |
| SchemaReport.ReportPlan | count_symbols.py:30-123 | the report starts with the table listing and issues at least two statements per analysed table |
| SchemaReport.TablePlanLayout | count_symbols.py:59-123 | that layout, for the columns the catalogue lists |
| SchemaReport.NoDateColumnsNoExtremes | count_symbols.py:97 | with no date column the row count is still issued, and no MAX, MIN or sample statement is |
| SchemaReport.SelectedNamesListed | count_symbols.py:70-85 | every selected date or symbol column is a listed column of the table |
| SchemaReport.SelectionListed | count_symbols.py:70-85 | the names a column filter selects are names of listed columns |
| SchemaReport.DistinctQueriesMembers | count_symbols.py:87-91 | every distinct-count statement concerns the table and one of its symbol columns |
| SchemaReport.ExtremeQueriesMembers | count_symbols.py:99-112 | every MAX and MIN statement concerns the table and one of its date columns |
| SchemaReport.PlanForIdentifiers | count_symbols.py:79-123 | a table's statements format in only the table name and the selected column names |
| SchemaReport.TablePlanIdentifiers | count_symbols.py:79-123 | a table's statements format in only its own name and names the catalogue lists for it |
| SchemaReport.IssueAllIdentifiers | count_symbols.py:53-123 | earlier statements stay first; each later one concerns one of the tables and formats in only its name and its column names |
| SchemaReport.ReportPlanIdentifiers | count_symbols.py:30-123 | the table listing comes first, and every other statement concerns a listed table and only its own identifiers |
| SchemaReport.IssueTableQueries | count_symbols.py:58-123 | the per-table loop issues exactly `TablePlan` of the listed columns |
| SchemaReport.FindLastKbarDate | count_symbols.py:15-134 | the report issues exactly `ReportPlan`: the table listing, then each analysed table's statements in turn |

## Left out

- The Shioaji session (login, contract loading, `time.sleep`, logout) and the HTTP requests behind `api.kbars` are not modelled. The provider's answer per symbol is the parameter `api`. The `KeyError` from the contract lookup is `SymbolNotFound`. Every other exception from the fetch or the frame building is the single case `FetchError`.
- Connecting to PostgreSQL, `conn.commit`, `cur.close` and `create_kbars_table` are left out. `CREATE TABLE IF NOT EXISTS` is modelled only by its effect. When no table exists it creates an empty one with its sequence at 1 (`KbarDatabase.constructor`). Otherwise it leaves the existing table as it is, rows and sequence position included, which is why `Run` and `FetchAndInsertKbars` accept any valid table. The three indexes do not change what is stored.
- A database error from `cur.execute` inside the row loop is not modelled. It aborts the PostgreSQL transaction, so later rows of that symbol fail too. The `conn.commit()` at fetch_and_insert_kbars.py:101 then ends the aborted transaction as a rollback. That discards the symbol's earlier rows as well, while `inserted_count` still counts them. Only conversion failures (`float()` or `int()` raising before the statement is sent) are modelled as skipped rows.
- KbarTable.Key: `time` is kept in nanoseconds, while the `TIMESTAMP` column keeps microseconds. Two bars of one symbol within the same microsecond are one row in PostgreSQL and two rows in the model.
- KbarTable.Upsert: `nextId` is unbounded, while `id SERIAL` is a 32-bit sequence. Exhausting it, which the conflict path hastens because it also draws ids, is not modelled.
- `Kbars.Convert`: prices are reals and volumes are unbounded integers. Float rounding, `NUMERIC(10,2)` rounding or overflow, and the `BIGINT` range are not modelled. `VARCHAR(20)` overflow of long symbols is not modelled either.
- `Kbars.LocalTime`: `pd.to_datetime` range limits (out-of-bounds nanosecond timestamps) are not modelled. Timestamps are unbounded integers.
- `strptime` and `strftime` are the parameter `parse`. The window is kept as dates, and its `YYYY-MM-DD` rendering is not modelled.
- `Text.Lower` covers ASCII capitals only. Python's full Unicode `lower()` mapping is not modelled.
- `SymbolSource.ReadSymbols` takes the decoded file text. Locale decoding errors, and a default path other than `symbols.txt`, are not modelled.
- All `print` output, including the summary lines and tracebacks, is left out. What is printed is the `Summary` datatype.
- `SchemaReport`: the values the statements return are not modelled (row counts, MAX/MIN dates, sample rows), and neither is whether a statement errors at run time. The broad `except` at count_symbols.py:140-143 would end the report early. The model is the plan of statements the script issues when none of them fails.
- `SchemaReport.ListColumns` passes the table name as a bound parameter, not as an identifier. Its statement text is constant, so it carries no formatted identifier.
