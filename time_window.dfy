/** The command line of fetch_and_insert_kbars.py and the date window it resolves to. Parsing
    "YYYY-MM-DD" (`datetime.strptime`) is library behaviour and enters as the parameter `parse`,
    which answers `None` where `strptime` raises; the current date enters as `today`. */
module TimeWindow {
  import opened Outcomes

  /** A calendar date. */
  datatype Date = Date(year: int, month: int, day: int)

  /** `a` is a strictly earlier calendar date than `b`. */
  predicate Before(a: Date, b: Date)
  {
    || a.year < b.year
    || (a.year == b.year && (a.month < b.month || (a.month == b.month && a.day < b.day)))
  }

  /** The inclusive range of dates requested from the provider. */
  datatype Window = Window(start: Date, end: Date)

  /** The positional date arguments, as passed to `fetch_and_insert_kbars(start_date, end_date)`. */
  datatype Args = Args(start: Option<string>, end: Option<string>)

  /** The `__main__` dispatch: `argv[0]` is the script; one or two dates may follow. `None` is the
      usage message with exit status 1. */
  function Dispatch(argv: seq<string>): (r: Option<Args>)
    ensures r.Some? <==> 1 <= |argv| <= 3
  {
    if |argv| == 1 then Some(Args(None, None))
    else if |argv| == 2 then Some(Args(Some(argv[1]), None))
    else if |argv| == 3 then Some(Args(Some(argv[1]), Some(argv[2])))
    else None
  }

  /** The command line that passes `args` (an end date only ever follows a start date). */
  function CommandLine(program: string, args: Args): (argv: seq<string>)
    requires args.end.Some? ==> args.start.Some?
  {
    [program]
    + (if args.start.Some? then [args.start.value] else [])
    + (if args.end.Some? then [args.end.value] else [])
  }

  /** The dispatch reads back exactly the arguments the command line carries, and every accepted
      command line is of that form. */
  lemma DispatchRoundTrip(program: string, args: Args, argv: seq<string>)
    requires args.end.Some? ==> args.start.Some?
    ensures Dispatch(CommandLine(program, args)) == Some(args)
    ensures Dispatch(argv).Some? ==> CommandLine(argv[0], Dispatch(argv).value) == argv
  {
    if Dispatch(argv).Some? {
      assert |argv| == 1 ==> argv == [argv[0]];
      assert |argv| == 2 ==> argv == [argv[0]] + [argv[1]];
      assert |argv| == 3 ==> argv == [argv[0]] + [argv[1]] + [argv[2]];
    }
  }

  /** Either the resolved window or the argument text `strptime` rejected. */
  datatype Resolution = Resolved(window: Window) | BadDate(text: string)

  /** The defaulting at the top of `fetch_and_insert_kbars`. An end date given without a start
      date is ignored. */
  function ResolveWindow(today: Date, args: Args, parse: string -> Option<Date>): (r: Resolution)
    ensures r.BadDate? ==>
      && args.start.Some? && parse(r.text).None?
      && (r.text == args.start.value || (args.end.Some? && r.text == args.end.value))
    ensures r.Resolved? && args.start.Some? ==> Some(r.window.start) == parse(args.start.value)
  {
    match args.start
    case None => Resolved(Window(today, today))
    case Some(s) =>
      match parse(s)
      case None => BadDate(s)
      case Some(start) =>
        match args.end
        case None => Resolved(Window(start, start))
        case Some(e) =>
          match parse(e)
          case None => BadDate(e)
          case Some(end) => Resolved(Window(start, end))
  }

  /** The documented rule for each command line: no date means today only, one date means that
      day only, two dates are used as given. */
  lemma CommandLineWindow(today: Date, argv: seq<string>, parse: string -> Option<Date>)
    requires Dispatch(argv).Some?
    ensures var r := ResolveWindow(today, Dispatch(argv).value, parse);
      && (|argv| == 1 ==> r == Resolved(Window(today, today)))
      && (|argv| == 2 && parse(argv[1]).Some? ==>
            r == Resolved(Window(parse(argv[1]).value, parse(argv[1]).value)))
      && (|argv| == 3 && parse(argv[1]).Some? && parse(argv[2]).Some? ==>
            r == Resolved(Window(parse(argv[1]).value, parse(argv[2]).value)))
  {
  }

  /** Resolution fails exactly when a date it reads does not parse, and it names the first such
      text; the end date is read only after the start date. */
  lemma ResolveFailsOnlyOnBadText(today: Date, args: Args, parse: string -> Option<Date>)
    ensures var r := ResolveWindow(today, args, parse);
      && (r.BadDate? <==>
            args.start.Some? && (parse(args.start.value).None? ||
                                 (args.end.Some? && parse(args.end.value).None?)))
      && (r.BadDate? ==>
            r.text == if parse(args.start.value).None? then args.start.value else args.end.value)
  {
  }

  /** A window covers more than one day only when both dates were given. */
  lemma SingleDayUnlessRange(today: Date, args: Args, parse: string -> Option<Date>)
    ensures var r := ResolveWindow(today, args, parse);
      r.Resolved? && r.window.start != r.window.end ==> args.start.Some? && args.end.Some?
  {
  }

  /** The start is never compared with the end: an inverted pair of dates resolves to an inverted
      window, which is forwarded to the provider as it is. */
  lemma InvertedWindowForwarded(today: Date, s: string, e: string, parse: string -> Option<Date>)
    requires parse(s).Some? && parse(e).Some?
    requires Before(parse(e).value, parse(s).value)
    ensures var r := ResolveWindow(today, Args(Some(s), Some(e)), parse);
      r.Resolved? && Before(r.window.end, r.window.start)
  {
  }

}
