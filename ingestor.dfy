/** `fetch_and_insert_kbars` and the `__main__` block (fetch_and_insert_kbars.py). The provider
    enters as the oracle `api`: for the window, the position of a symbol in the run and the symbol,
    it answers as `api.Contracts.Stocks[symbol]` followed by `api.kbars(...)` would. `clock(i)` is
    the transaction time the i-th symbol's rows are written at. */
module Ingestor {
  import opened Outcomes
  import opened Seqs
  import opened Kbars
  import opened KbarTable
  import opened TimeWindow
  import opened SymbolSource

  /** The provider's answer for one symbol: the contract lookup raised KeyError, some other
      exception was raised while fetching or framing, or the bars came back (possibly none). */
  datatype Fetched = SymbolNotFound | FetchError | Bars(raw: seq<RawBar>)

  /** How one symbol ends: written (with the count `insert_kbars_data` returned), failed, or
      skipped because no data came back. */
  datatype Outcome = Succeeded(inserted: nat) | Failed | NoData

  function OutcomeOf(f: Fetched): (o: Outcome)
    ensures o.Failed? <==> !f.Bars?
    ensures o.NoData? <==> f == Bars([])
    ensures o.Succeeded? ==> o.inserted <= |f.raw|
  {
    match f
    case SymbolNotFound => Failed
    case FetchError => Failed
    case Bars(raw) => if raw == [] then NoData else Succeeded(Written(Normalize(raw)))
  }

  datatype Attempt = Attempt(symbol: string, fetched: Fetched)

  /** The symbols of the run, each with the provider's answer for it. */
  function Attempts(symbols: seq<string>, w: Window, api: (Window, nat, string) -> Fetched): (r: seq<Attempt>)
    ensures |r| == |symbols|
    ensures forall i :: 0 <= i < |symbols| ==> r[i].symbol == symbols[i]
    ensures forall i :: 0 <= i < |symbols| ==> r[i].fetched == api(w, i, symbols[i])
  {
    seq(|symbols|, i requires 0 <= i < |symbols| => Attempt(symbols[i], api(w, i, symbols[i])))
  }

  /** The totals printed in the summary. */
  datatype Summary = Summary(totalRows: nat, successful: nat, failed: seq<string>)

  /** The accounting of the symbol loop: `total_rows += inserted` and `successful_symbols += 1` for
      a written symbol, `failed_symbols.append(symbol)` for a failed one, nothing for an empty one. */
  function Tally(attempts: seq<Attempt>): (s: Summary)
    ensures s.successful + |s.failed| <= |attempts|
    ensures forall x :: x in s.failed ==> exists a :: a in attempts && a.symbol == x
  {
    if attempts == [] then Summary(0, 0, [])
    else
      var s := Tally(attempts[..|attempts| - 1]);
      var a := attempts[|attempts| - 1];
      match OutcomeOf(a.fetched)
      case Succeeded(n) => s.(totalRows := s.totalRows + n, successful := s.successful + 1)
      case Failed => s.(failed := s.failed + [a.symbol])
      case NoData => s
  }

  predicate IsSuccess(a: Attempt) { OutcomeOf(a.fetched).Succeeded? }
  predicate IsFailure(a: Attempt) { OutcomeOf(a.fetched).Failed? }
  predicate IsNoData(a: Attempt) { OutcomeOf(a.fetched).NoData? }

  /** The rows `insert_kbars_data` reported for one symbol; nothing unless it succeeded. */
  function InsertedBy(a: Attempt): nat
  {
    match OutcomeOf(a.fetched)
    case Succeeded(n) => n
    case _ => 0
  }

  function SymbolsOf(attempts: seq<Attempt>): seq<string>
  {
    seq(|attempts|, i requires 0 <= i < |attempts| => attempts[i].symbol)
  }

  /** The summary counts each symbol exactly once as written, failed or empty; the failed list is
      the failed symbols in run order; the row total sums what each written symbol reported. */
  lemma TallyAccounting(attempts: seq<Attempt>)
    ensures var s := Tally(attempts);
      && s.successful == |Filter(attempts, IsSuccess)|
      && s.failed == SymbolsOf(Filter(attempts, IsFailure))
      && s.successful + |s.failed| + |Filter(attempts, IsNoData)| == |attempts|
      && s.totalRows == Sum(seq(|attempts|, i requires 0 <= i < |attempts| => InsertedBy(attempts[i])))
  {
    TallyCounts(attempts);
    TallyRows(attempts);
  }

  lemma {:induction false} TallyCounts(attempts: seq<Attempt>)
    ensures var s := Tally(attempts);
      && s.successful == |Filter(attempts, IsSuccess)|
      && s.failed == SymbolsOf(Filter(attempts, IsFailure))
      && s.successful + |s.failed| + |Filter(attempts, IsNoData)| == |attempts|
  {
    if attempts != [] {
      TallyCounts(attempts[..|attempts| - 1]);
    }
  }

  lemma {:induction false} TallyRows(attempts: seq<Attempt>)
    ensures Tally(attempts).totalRows == Sum(seq(|attempts|, i requires 0 <= i < |attempts| => InsertedBy(attempts[i])))
  {
    if attempts != [] {
      var init := attempts[..|attempts| - 1];
      TallyRows(init);
      var per := seq(|attempts|, i requires 0 <= i < |attempts| => InsertedBy(attempts[i]));
      assert per[..|per| - 1] == seq(|init|, i requires 0 <= i < |init| => InsertedBy(init[i]));
    }
  }

  /** `successful_symbols + len(failed_symbols) <= len(symbols)`; the gap is the symbols that
      returned no data. */
  lemma SymbolCountBound(attempts: seq<Attempt>)
    ensures Tally(attempts).successful + |Tally(attempts).failed| <= |attempts|
    ensures Tally(attempts).successful + |Tally(attempts).failed| == |attempts| <==>
      forall a :: a in attempts ==> !IsNoData(a)
  {
    TallyAccounting(attempts);
    FilterKeepsAll(attempts, (a: Attempt) => !IsNoData(a));
    NoDataComplement(attempts);
  }

  lemma {:induction false} NoDataComplement(attempts: seq<Attempt>)
    ensures |Filter(attempts, IsNoData)| + |Filter(attempts, (a: Attempt) => !IsNoData(a))| == |attempts|
  {
    if attempts != [] {
      NoDataComplement(attempts[..|attempts| - 1]);
    }
  }

  /** `failed_symbols` holds input symbols only, in input order: the k-th entry is the symbol at
      the k-th of an ascending run of positions, and every failed position is listed. */
  lemma FailedSymbolsInOrder(symbols: seq<string>, w: Window, api: (Window, nat, string) -> Fetched)
    ensures var failed, ix := Tally(Attempts(symbols, w, api)).failed, Positions(Attempts(symbols, w, api), IsFailure);
      && |ix| == |failed|
      && Ascending(ix)
      && (forall k :: 0 <= k < |ix| ==>
            ix[k] < |symbols| && failed[k] == symbols[ix[k]] && OutcomeOf(api(w, ix[k], symbols[ix[k]])).Failed?)
      && (forall i :: 0 <= i < |symbols| && OutcomeOf(api(w, i, symbols[i])).Failed? ==> i in ix)
  {
    var attempts := Attempts(symbols, w, api);
    TallyAccounting(attempts);
    FilterPositions(attempts, IsFailure);
    forall i | 0 <= i < |symbols| && OutcomeOf(api(w, i, symbols[i])).Failed?
      ensures i in Positions(attempts, IsFailure)
    {
      assert IsFailure(attempts[i]);
    }
  }

  /** A symbol whose every row fails conversion still counts as successful, with no rows: the
      run's summary gains one success and nothing else. */
  lemma AllRowsRejectedStillSucceeds(prev: seq<Attempt>, a: Attempt)
    requires a.fetched.Bars? && a.fetched.raw != []
    requires forall b :: b in Normalize(a.fetched.raw) ==> !Convertible(b)
    ensures OutcomeOf(a.fetched) == Succeeded(0)
    ensures Tally(prev + [a]) == Tally(prev).(successful := Tally(prev).successful + 1)
  {
    var bars := Normalize(a.fetched.raw);
    FilterKeepsAll(bars, (b: Bar) => !Convertible(b));
    RejectedCount(bars);
    assert (prev + [a])[..|prev + [a]| - 1] == prev;
  }

  lemma {:induction false} RejectedCount(bars: seq<Bar>)
    ensures |Filter(bars, Convertible)| + |Filter(bars, (b: Bar) => !Convertible(b))| == |bars|
  {
    if bars != [] {
      RejectedCount(bars[..|bars| - 1]);
    }
  }

  /** A provider that knows "2330", for which it returns one complete bar, and no other symbol. */
  function ExampleApi(ts: int, p: real, v: int): (Window, nat, string) -> Fetched
  {
    (w: Window, i: nat, s: string) =>
      if s == "2330" then Bars([RawBar(ts, Present(p), Present(p), Present(p), Present(p), Present(v))])
      else SymbolNotFound
  }

  /** The example run: "2330" returns one good bar and "9999NOTFOUND" is unknown, so one row is
      written, one symbol succeeds and the unknown one is listed as failed. */
  lemma ExampleRun(w: Window, ts: int, p: real, v: int)
    ensures Tally(Attempts(["2330", "9999NOTFOUND"], w, ExampleApi(ts, p, v))) == Summary(1, 1, ["9999NOTFOUND"])
  {
    var attempts := Attempts(["2330", "9999NOTFOUND"], w, ExampleApi(ts, p, v));
    var raw := [RawBar(ts, Present(p), Present(p), Present(p), Present(p), Present(v))];
    assert attempts[0].fetched == Bars(raw);
    assert attempts[1].fetched == SymbolNotFound;
    var bars := Normalize(raw);
    assert Convertible(bars[0]);
    assert bars[..0] == [];
    assert Written(bars) == 1;
    assert attempts[..1][..0] == [];
    assert Tally(attempts[..1]) == Summary(1, 1, []);
    assert attempts[..|attempts| - 1] == attempts[..1];
  }

  /** The table after the symbol loop: each symbol with data has its frame written through
      `insert_kbars_data`; failed and empty symbols touch nothing. */
  function Ingested(t: Table, attempts: seq<Attempt>, clock: nat -> int): (u: Table)
    requires WellFormed(t)
    ensures WellFormed(u)
    ensures u.nextId == t.nextId + Tally(attempts).totalRows
  {
    if attempts == [] then t
    else
      var v := Ingested(t, attempts[..|attempts| - 1], clock);
      var a := attempts[|attempts| - 1];
      match a.fetched
      case Bars(raw) =>
        if raw == [] then v else InsertAll(v, a.symbol, Normalize(raw), clock(|attempts| - 1))
      case _ => v
  }

  /** The per-symbol loop of `fetch_and_insert_kbars`. */
  method FetchAndInsertKbars(db: KbarDatabase, symbols: seq<string>, w: Window,
                             api: (Window, nat, string) -> Fetched, clock: nat -> int)
    returns (summary: Summary)
    requires db.Valid()
    modifies db
    ensures db.Valid()
    ensures summary == Tally(Attempts(symbols, w, api))
    ensures db.State() == Ingested(old(db.State()), Attempts(symbols, w, api), clock)
  {
    var totalRows, successful, failed := 0, 0, [];
    ghost var attempts := Attempts(symbols, w, api);
    for i := 0 to |symbols|
      invariant db.Valid()
      invariant Summary(totalRows, successful, failed) == Tally(attempts[..i])
      invariant db.State() == Ingested(old(db.State()), attempts[..i], clock)
    {
      var symbol := symbols[i];
      assert attempts[..i + 1][..i] == attempts[..i];
      match api(w, i, symbol) {
        case SymbolNotFound =>
          failed := failed + [symbol];
        case FetchError =>
          failed := failed + [symbol];
        case Bars(raw) =>
          if raw != [] {
            var inserted := db.InsertKbarsData(symbol, Normalize(raw), clock(i));
            totalRows := totalRows + inserted;
            successful := successful + 1;
          }
      }
    }
    assert attempts[..|symbols|] == attempts;
    summary := Summary(totalRows, successful, failed);
  }

  /** How a run ends: the usage message (exit status 1), a date `strptime` rejects, an unreadable
      symbol file, or the summary of a completed run. */
  datatype RunResult =
    | UsageError
    | InvalidDate(text: string)
    | SymbolFileError
    | Completed(window: Window, symbols: seq<string>, summary: Summary)

  /** The outcome of a run: the checks happen in the order the script makes them, all before the
      provider or the database is touched. */
  function RunOutcome(argv: seq<string>, today: Date, symbolFile: Option<string>,
                      parse: string -> Option<Date>, api: (Window, nat, string) -> Fetched): (r: RunResult)
    ensures r.Completed? ==>
      && 1 <= |argv| <= 3 && symbolFile.Some?
      && r.summary.successful + |r.summary.failed| <= |r.symbols|
  {
    match Dispatch(argv)
    case None => UsageError
    case Some(args) =>
      match ResolveWindow(today, args, parse)
      case BadDate(text) => InvalidDate(text)
      case Resolved(w) =>
        match ReadSymbols(symbolFile)
        case None => SymbolFileError
        case Some(symbols) => Completed(w, symbols, Tally(Attempts(symbols, w, api)))
  }

  /** The script run end to end: argument dispatch, window, symbol file, then the symbol loop. */
  method Run(db: KbarDatabase, argv: seq<string>, today: Date, symbolFile: Option<string>,
             parse: string -> Option<Date>, api: (Window, nat, string) -> Fetched, clock: nat -> int)
    returns (r: RunResult)
    requires db.Valid()
    modifies db
    ensures db.Valid()
    ensures r == RunOutcome(argv, today, symbolFile, parse, api)
    ensures !r.Completed? ==> db.State() == old(db.State())
    ensures r.Completed? ==>
      db.State() == Ingested(old(db.State()), Attempts(r.symbols, r.window, api), clock)
  {
    var args := Dispatch(argv);
    if args.None? {
      return UsageError;
    }
    var resolution := ResolveWindow(today, args.value, parse);
    if resolution.BadDate? {
      return InvalidDate(resolution.text);
    }
    var symbols := ReadSymbols(symbolFile);
    if symbols.None? {
      return SymbolFileError;
    }
    var summary := FetchAndInsertKbars(db, symbols.value, resolution.window, api, clock);
    r := Completed(resolution.window, symbols.value, summary);
  }

  /** A run stops with the usage message exactly for a wrong argument count, and it reports a bad
      date before it ever reads the symbol file. */
  lemma RunChecksInOrder(argv: seq<string>, today: Date, symbolFile: Option<string>,
                         parse: string -> Option<Date>, api: (Window, nat, string) -> Fetched)
    ensures var r := RunOutcome(argv, today, symbolFile, parse, api);
      && (r.UsageError? <==> !(1 <= |argv| <= 3))
      && (r.InvalidDate? ==> 2 <= |argv| && r.text in argv[1..])
      && (r.SymbolFileError? ==> symbolFile.None?)
      && (symbolFile.None? && 1 <= |argv| <= 3 ==> r.InvalidDate? || r.SymbolFileError?)
    ensures Dispatch(argv).Some? && ResolveWindow(today, Dispatch(argv).value, parse).BadDate? ==>
      RunOutcome(argv, today, symbolFile, parse, api) == InvalidDate(ResolveWindow(today, Dispatch(argv).value, parse).text)
    ensures RunOutcome(argv, today, symbolFile, parse, api).SymbolFileError? ==>
      Dispatch(argv).Some? && ResolveWindow(today, Dispatch(argv).value, parse).Resolved?
  {
    var r := RunOutcome(argv, today, symbolFile, parse, api);
    if r.InvalidDate? {
      assert |argv| == 3 ==> argv[1..] == [argv[1], argv[2]];
      assert |argv| == 2 ==> argv[1..] == [argv[1]];
    }
  }

}
