/**
 The command-line entry point: choose the adapter, read and check the date
 window, run the adapter. Argument parsing beyond the source choice and the
 two dates, printing and writing the JSON file are not modelled.
 */
module Cli {
  import opened Wrappers
  import opened Dates
  import opened Scraper

  /** Why the program exits with a usage error instead of scraping. */
  datatype UsageError =
    | UnknownSource        // `--source` outside the three choices
    | InvalidDateFormat    // a date argument that is not `YYYY-MM-DD`
    | StartAfterEnd        // a start date later than the end date

  /** The validated inclusive date window. */
  datatype Window = Window(start: Date, end: Date)

  /** The `--source` choice as typed on the command line. */
  function SourceName(src: Source): string {
    match src
    case G2 => "g2"
    case Capterra => "capterra"
    case TrustRadius => "trustradius"
  }

  /** The adapter a `--source` value selects; anything else is refused. */
  function ParseSource(name: string): (r: Option<Source>)
    ensures r.Some? <==> name == "g2" || name == "capterra" || name == "trustradius"
    ensures r.Some? ==> SourceName(r.value) == name
  {
    if name == "g2" then Some(G2)
    else if name == "capterra" then Some(Capterra)
    else if name == "trustradius" then Some(TrustRadius)
    else None
  }

  /** Each choice selects exactly one adapter, and only the three choices are accepted. */
  lemma ParseSourceRoundTrip(src: Source)
    ensures ParseSource(SourceName(src)) == Some(src)
  {
  }

  /** Both date arguments are parsed first; only then are they compared. */
  function ResolveWindow(startText: string, endText: string): (r: Result<Window, UsageError>)
    ensures r.Success? ==> Valid(r.value.start) && Valid(r.value.end) && NotAfter(r.value.start, r.value.end)
    ensures r.Success? ==> FormatIso(r.value.start) == startText && FormatIso(r.value.end) == endText
    ensures r.Failure? ==> r.error != UnknownSource
    ensures ParseIso(startText).None? || ParseIso(endText).None? ==> r == Failure(InvalidDateFormat)
  {
    match (ParseIso(startText), ParseIso(endText))
    case (Some(start), Some(end)) =>
      if Before(end, start) then Failure(StartAfterEnd)
      else
        FormatParseIso(startText);
        FormatParseIso(endText);
        Success(Window(start, end))
    case _ => Failure(InvalidDateFormat)
  }

  /**
   The window check of the entry point: a start after the end is refused, a
   start equal to the end is accepted, and any other pair of well-formed
   dates in order is accepted.
   */
  lemma WindowCheck(start: Date, end: Date)
    requires Valid(start) && Valid(end)
    ensures ResolveWindow(FormatIso(start), FormatIso(end)) ==
      if Before(end, start) then Failure(StartAfterEnd) else Success(Window(start, end))
    ensures start == end ==> ResolveWindow(FormatIso(start), FormatIso(end)).Success?
  {
    ParseFormatIso(start);
    ParseFormatIso(end);
  }

  /**
   The program run on one set of arguments, `responses[k]` standing for what
   the chosen site returns for listing page k + 1.
   */
  function Run(sourceName: string, startText: string, endText: string, responses: seq<Page>)
    : (r: Result<seq<Review>, UsageError>)
    ensures r.Success? <==> ParseSource(sourceName).Some? && ResolveWindow(startText, endText).Success?
    ensures ParseSource(sourceName).None? ==> r == Failure(UnknownSource)
    ensures ParseSource(sourceName).Some? && ResolveWindow(startText, endText).Failure? ==>
      r == Failure(ResolveWindow(startText, endText).error)
    ensures r.Success? ==>
      r.value == Scrape(responses, ResolveWindow(startText, endText).value.start,
                        ResolveWindow(startText, endText).value.end, ParseSource(sourceName).value)
    ensures r.Success? ==> forall rec :: rec in r.value ==>
      Admissible(rec, ResolveWindow(startText, endText).value.start,
                 ResolveWindow(startText, endText).value.end, ParseSource(sourceName).value)
  {
    match ParseSource(sourceName)
    case None => Failure(UnknownSource)
    case Some(src) =>
      match ResolveWindow(startText, endText)
      case Failure(e) => Failure(e)
      case Success(w) => Success(Scrape(responses, w.start, w.end, src))
  }

  /** A refused command line is refused before any page is fetched: the responses play no part. */
  lemma RefusalPrecedesFetching(sourceName: string, startText: string, endText: string, a: seq<Page>, b: seq<Page>)
    requires Run(sourceName, startText, endText, a).Failure?
    ensures Run(sourceName, startText, endText, b) == Run(sourceName, startText, endText, a)
  {
  }
}
