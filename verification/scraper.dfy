/**
 The pagination driver shared by the three site adapters (`scrape_g2`,
 `scrape_capterra`, `scrape_trustradius`). HTTP and markup selection are
 abstracted away: the server's answers arrive as a finite sequence of pages,
 `pages[k]` being the response to listing page k + 1, and each review block
 arrives either already taken apart into title, body and date or as
 `Malformed` when one of its fields is missing or its date text does not parse.
 */
module Scraper {
  import opened Dates

  /** The three review sites; the adapters differ only in URL, selectors and this label. */
  datatype Source = G2 | Capterra | TrustRadius

  /** The `source` value every record from an adapter carries. */
  function Label(src: Source): string {
    match src
    case G2 => "G2"
    case Capterra => "Capterra"
    case TrustRadius => "TrustRadius"
  }

  /** One review block of a listing page. */
  datatype Block = Malformed | Entry(title: string, body: string, date: Date)

  /** A block the adapter turns into a review: all fields present and the date a real calendar date. */
  predicate WellFormed(b: Block) {
    b.Entry? && Valid(b.date)
  }

  /** The only status code that lets the adapter read a page. */
  const StatusOk: int := 200

  datatype Page = Page(status: int, blocks: seq<Block>)

  /** A page that ends pagination: an unsuccessful response or one with no review blocks. */
  predicate Ends(p: Page) {
    p.status != StatusOk || |p.blocks| == 0
  }

  /** One output record: `{title, review, date, source}`. */
  datatype Review = Review(title: string, review: string, date: Date, source: string)

  function ToReview(b: Block, src: Source): Review
    requires b.Entry?
  {
    Review(b.title, b.body, b.date, Label(src))
  }

  /** What scanning a run of blocks yields: the records found and whether a block predating the window stopped the scrape. */
  datatype Scan = Scan(found: seq<Review>, exited: bool)

  /** Every record lies in the window, carries a real date and the adapter's label. */
  predicate Admissible(r: Review, start: Date, end: Date, src: Source) {
    WithinRange(r.date, start, end) && Valid(r.date) && r.source == Label(src)
  }

  /** The inner `for block in review_blocks` loop, over the blocks of one page. */
  function ScanBlocks(blocks: seq<Block>, start: Date, end: Date, src: Source): (s: Scan)
    ensures forall r :: r in s.found ==> Admissible(r, start, end, src)
    ensures |s.found| <= |blocks|
  {
    if |blocks| == 0 then
      Scan([], false)
    else
      var b := blocks[0];
      if !WellFormed(b) then
        ScanBlocks(blocks[1..], start, end, src)
      else if Before(b.date, start) then
        Scan([], true)
      else
        var rest := ScanBlocks(blocks[1..], start, end, src);
        if WithinRange(b.date, start, end) then
          Scan([ToReview(b, src)] + rest.found, rest.exited)
        else
          rest
  }

  /**
   The whole adapter: pages in order until one ends pagination, the early exit
   fires, or the supplied pages run out.
   */
  function Scrape(pages: seq<Page>, start: Date, end: Date, src: Source): (out: seq<Review>)
    ensures forall r :: r in out ==> Admissible(r, start, end, src)
  {
    if |pages| == 0 || Ends(pages[0]) then
      []
    else
      var s := ScanBlocks(pages[0].blocks, start, end, src);
      if s.exited then s.found else s.found + Scrape(pages[1..], start, end, src)
  }

  /** What the scrape still returns once a page's remaining blocks scan to `s`, with `later` pages after it. */
  function Resume(s: Scan, later: seq<Page>, start: Date, end: Date, src: Source): seq<Review> {
    if s.exited then s.found else s.found + Scrape(later, start, end, src)
  }

  /** How one block advances `Resume`: skipped, stopping, recorded, or dropped. */
  lemma ResumeStep(blocks: seq<Block>, k: int, later: seq<Page>, start: Date, end: Date, src: Source)
    requires 0 <= k < |blocks|
    ensures
      var b := blocks[k];
      var here := Resume(ScanBlocks(blocks[k..], start, end, src), later, start, end, src);
      var next := Resume(ScanBlocks(blocks[k + 1..], start, end, src), later, start, end, src);
      if !WellFormed(b) then here == next
      else if Before(b.date, start) then here == []
      else if WithinRange(b.date, start, end) then here == [ToReview(b, src)] + next
      else here == next
  {
  }

  /** The adapter loop as the program writes it: a page counter, an accumulator, `break` and an early `return`. */
  method RunAdapter(pages: seq<Page>, start: Date, end: Date, src: Source) returns (reviews: seq<Review>)
    ensures reviews == Scrape(pages, start, end, src)
  {
    reviews := [];
    var page := 0;
    while page < |pages|
      invariant 0 <= page <= |pages|
      invariant Scrape(pages, start, end, src) == reviews + Scrape(pages[page..], start, end, src)
    {
      var response := pages[page];
      if response.status != StatusOk {
        break;
      }
      var blocks := response.blocks;
      if |blocks| == 0 {
        break;
      }
      assert pages[page..][1..] == pages[page + 1..];
      var k := 0;
      while k < |blocks|
        invariant 0 <= k <= |blocks|
        invariant Scrape(pages, start, end, src) ==
          reviews + Resume(ScanBlocks(blocks[k..], start, end, src), pages[page + 1..], start, end, src)
      {
        var block := blocks[k];
        ResumeStep(blocks, k, pages[page + 1..], start, end, src);
        if WellFormed(block) {
          if Before(block.date, start) {
            return;
          }
          if WithinRange(block.date, start, end) {
            reviews := reviews + [ToReview(block, src)];
          }
        }
        k := k + 1;
      }
      page := page + 1;
    }
  }

  // ---------------------------------------------------------------------------
  // Composition: how scans and scrapes split over concatenated input

  /** Scanning two runs of blocks back to back: the second counts only if the first did not exit. */
  lemma {:induction false} ScanAppend(a: seq<Block>, b: seq<Block>, start: Date, end: Date, src: Source)
    ensures ScanBlocks(a + b, start, end, src) ==
      var sa := ScanBlocks(a, start, end, src);
      var sb := ScanBlocks(b, start, end, src);
      if sa.exited then sa else Scan(sa.found + sb.found, sb.exited)
  {
    if |a| == 0 {
      assert a + b == b;
    } else {
      assert (a + b)[1..] == a[1..] + b;
      ScanAppend(a[1..], b, start, end, src);
    }
  }

  /** The pages stop the scrape before they run out: some page ends pagination or exits early. */
  predicate Halts(pages: seq<Page>, start: Date, end: Date, src: Source) {
    |pages| > 0 &&
    (Ends(pages[0]) || ScanBlocks(pages[0].blocks, start, end, src).exited || Halts(pages[1..], start, end, src))
  }

  /** Scraping pages p then q: q contributes only if p did not stop the scrape. */
  lemma {:induction false} ScrapeAppend(p: seq<Page>, q: seq<Page>, start: Date, end: Date, src: Source)
    ensures Scrape(p + q, start, end, src) ==
      if Halts(p, start, end, src) then Scrape(p, start, end, src)
      else Scrape(p, start, end, src) + Scrape(q, start, end, src)
  {
    if |p| == 0 {
      assert p + q == q;
    } else {
      assert (p + q)[0] == p[0];
      assert (p + q)[1..] == p[1..] + q;
      ScrapeAppend(p[1..], q, start, end, src);
    }
  }

  /** Records are never withdrawn: the result on a prefix of the pages is a prefix of the result. */
  lemma ScrapeExtends(p: seq<Page>, q: seq<Page>, start: Date, end: Date, src: Source)
    ensures Scrape(p, start, end, src) <= Scrape(p + q, start, end, src)
  {
    ScrapeAppend(p, q, start, end, src);
  }

  // ---------------------------------------------------------------------------
  // Stopping conditions

  /**
   A non-200 page, or a page without review blocks, ends the scrape with exactly
   the records of the pages before it.
   */
  lemma StopAtEndingPage(pages: seq<Page>, i: int, start: Date, end: Date, src: Source)
    requires 0 <= i < |pages| && Ends(pages[i])
    ensures Scrape(pages, start, end, src) == Scrape(pages[..i], start, end, src)
  {
    assert pages == pages[..i] + pages[i..];
    ScrapeAppend(pages[..i], pages[i..], start, end, src);
  }

  /**
   Early exit within a page: a well-formed block dated before the window start
   ends the page's scan with exactly the records of the blocks before it,
   whatever follows it.
   */
  lemma ScanExitsAt(blocks: seq<Block>, j: int, start: Date, end: Date, src: Source)
    requires 0 <= j < |blocks| && WellFormed(blocks[j]) && Before(blocks[j].date, start)
    requires !ScanBlocks(blocks[..j], start, end, src).exited
    ensures ScanBlocks(blocks, start, end, src) == Scan(ScanBlocks(blocks[..j], start, end, src).found, true)
  {
    assert blocks == blocks[..j] + blocks[j..];
    ScanAppend(blocks[..j], blocks[j..], start, end, src);
  }

  /** A well-formed block dated before the start makes every scan that reaches it exit. */
  lemma ExitBlockExits(blocks: seq<Block>, j: int, start: Date, end: Date, src: Source)
    requires 0 <= j < |blocks| && WellFormed(blocks[j]) && Before(blocks[j].date, start)
    ensures ScanBlocks(blocks[..j + 1], start, end, src).exited
  {
    assert blocks[..j + 1] == blocks[..j] + [blocks[j]];
    ScanAppend(blocks[..j], [blocks[j]], start, end, src);
  }

  /**
   Early exit across pages: once page i's block j is well-formed and predates
   the window, no later block of that page and no later page contributes;
   replacing them with anything leaves the result unchanged.
   */
  lemma EarlyExitIgnoresRest(pages: seq<Page>, i: int, j: int, laterBlocks: seq<Block>, laterPages: seq<Page>,
                             start: Date, end: Date, src: Source)
    requires 0 <= i < |pages| && pages[i].status == StatusOk && 0 <= j < |pages[i].blocks|
    requires WellFormed(pages[i].blocks[j]) && Before(pages[i].blocks[j].date, start)
    ensures
      var head := pages[i].blocks[..j + 1];
      Scrape(pages, start, end, src) ==
      Scrape(pages[..i] + [Page(StatusOk, head + laterBlocks)] + laterPages, start, end, src)
  {
    var head := pages[i].blocks[..j + 1];
    var original := [pages[i]] + pages[i + 1..];
    var replaced := [Page(StatusOk, head + laterBlocks)] + laterPages;
    ExitBlockExits(pages[i].blocks, j, start, end, src);
    assert pages[i].blocks == head + pages[i].blocks[j + 1..];
    ScanAppend(head, pages[i].blocks[j + 1..], start, end, src);
    ScanAppend(head, laterBlocks, start, end, src);
    assert original[1..] == pages[i + 1..];
    assert replaced[1..] == laterPages;
    assert Scrape(original, start, end, src) == Scrape(replaced, start, end, src);
    assert pages == pages[..i] + original;
    assert pages[..i] + [Page(StatusOk, head + laterBlocks)] + laterPages == pages[..i] + replaced;
    ScrapeAppend(pages[..i], original, start, end, src);
    ScrapeAppend(pages[..i], replaced, start, end, src);
  }

  // ---------------------------------------------------------------------------
  // Blocks that do not matter

  /**
   A block that yields nothing and does not stop the scan: malformed, or
   well-formed but dated after the window (and not before its start).
   */
  predicate Inert(b: Block, start: Date, end: Date) {
    !WellFormed(b) || (!Before(b.date, start) && !WithinRange(b.date, start, end))
  }

  lemma InertScansEmpty(b: Block, start: Date, end: Date, src: Source)
    requires Inert(b, start, end)
    ensures ScanBlocks([b], start, end, src) == Scan([], false)
  {
    assert [b][1..] == [];
  }

  /** Removing an inert block from a page leaves that page's scan unchanged. */
  lemma ScanSkipsInert(blocks: seq<Block>, j: int, start: Date, end: Date, src: Source)
    requires 0 <= j < |blocks| && Inert(blocks[j], start, end)
    ensures ScanBlocks(blocks, start, end, src) == ScanBlocks(blocks[..j] + blocks[j + 1..], start, end, src)
  {
    var a, b := blocks[..j], blocks[j + 1..];
    assert blocks == a + ([blocks[j]] + b);
    ScanAppend(a, [blocks[j]] + b, start, end, src);
    ScanAppend([blocks[j]], b, start, end, src);
    InertScansEmpty(blocks[j], start, end, src);
    ScanAppend(a, b, start, end, src);
  }

  /** A page with one block removed, keeping its status. */
  function WithoutBlock(p: Page, j: int): Page
    requires 0 <= j < |p.blocks|
  {
    Page(p.status, p.blocks[..j] + p.blocks[j + 1..])
  }

  /**
   A malformed block, or one dated after the window, changes nothing: the
   scrape with it removed returns the same records, provided the page keeps at
   least one block (an emptied page would end pagination instead).
   */
  lemma ScrapeSkipsInert(pages: seq<Page>, i: int, j: int, start: Date, end: Date, src: Source)
    requires 0 <= i < |pages| && 0 <= j < |pages[i].blocks| && |pages[i].blocks| > 1
    requires Inert(pages[i].blocks[j], start, end)
    ensures Scrape(pages, start, end, src) == Scrape(pages[i := WithoutBlock(pages[i], j)], start, end, src)
  {
    var p' := WithoutBlock(pages[i], j);
    var original := [pages[i]] + pages[i + 1..];
    var replaced := [p'] + pages[i + 1..];
    ScanSkipsInert(pages[i].blocks, j, start, end, src);
    assert original[1..] == pages[i + 1..] == replaced[1..];
    assert Scrape(original, start, end, src) == Scrape(replaced, start, end, src);
    assert pages == pages[..i] + original;
    assert pages[i := p'] == pages[..i] + replaced;
    ScrapeAppend(pages[..i], original, start, end, src);
    ScrapeAppend(pages[..i], replaced, start, end, src);
  }

  /**
   A page full of malformed blocks is not an empty page: it adds nothing, and
   scraping moves on to the next page.
   */
  lemma MalformedPageContinues(pages: seq<Page>, start: Date, end: Date, src: Source)
    requires |pages| > 0 && pages[0].status == StatusOk && |pages[0].blocks| > 0
    requires forall k :: 0 <= k < |pages[0].blocks| ==> !WellFormed(pages[0].blocks[k])
    ensures Scrape(pages, start, end, src) == Scrape(pages[1..], start, end, src)
  {
    MalformedBlocksScanEmpty(pages[0].blocks, start, end, src);
  }

  lemma {:induction false} MalformedBlocksScanEmpty(blocks: seq<Block>, start: Date, end: Date, src: Source)
    requires forall k :: 0 <= k < |blocks| ==> !WellFormed(blocks[k])
    ensures ScanBlocks(blocks, start, end, src) == Scan([], false)
  {
    if |blocks| > 0 {
      MalformedBlocksScanEmpty(blocks[1..], start, end, src);
    }
  }

  // ---------------------------------------------------------------------------
  // Reference definition: the records as a pipeline over all blocks reached

  /** The pages the adapter reads: those before the first page that ends pagination. */
  function Reached(pages: seq<Page>): (r: seq<Page>)
    ensures |r| <= |pages|
    ensures forall k :: 0 <= k < |r| ==> r[k] == pages[k] && !Ends(r[k])
    ensures |r| < |pages| ==> Ends(pages[|r|])
  {
    if |pages| == 0 || Ends(pages[0]) then [] else [pages[0]] + Reached(pages[1..])
  }

  /** All blocks of the given pages in discovery order: page order, then order within a page. */
  function Flatten(pages: seq<Page>): seq<Block> {
    if |pages| == 0 then [] else pages[0].blocks + Flatten(pages[1..])
  }

  /** The well-formed blocks, in order. */
  function Entries(blocks: seq<Block>): (r: seq<Block>)
    ensures forall k :: 0 <= k < |r| ==> WellFormed(r[k])
    ensures forall k :: 0 <= k < |blocks| && WellFormed(blocks[k]) ==> blocks[k] in r
    ensures forall x :: x in r ==> x in blocks
    ensures |r| <= |blocks|
  {
    if |blocks| == 0 then []
    else if WellFormed(blocks[0]) then [blocks[0]] + Entries(blocks[1..])
    else Entries(blocks[1..])
  }

  /** Some entry is dated before the window start. */
  predicate ExitsEarly(entries: seq<Block>, start: Date) {
    exists k :: 0 <= k < |entries| && entries[k].Entry? && Before(entries[k].date, start)
  }

  /** The entries before the first one dated before the window start. */
  function UntilBefore(entries: seq<Block>, start: Date): seq<Block> {
    if |entries| == 0 || (entries[0].Entry? && Before(entries[0].date, start)) then []
    else [entries[0]] + UntilBefore(entries[1..], start)
  }

  /** The records of the entries inside the window, in order. */
  function InWindow(entries: seq<Block>, start: Date, end: Date, src: Source): seq<Review> {
    if |entries| == 0 then []
    else if entries[0].Entry? && WithinRange(entries[0].date, start, end) then
      [ToReview(entries[0], src)] + InWindow(entries[1..], start, end, src)
    else InWindow(entries[1..], start, end, src)
  }

  lemma {:induction false} EntriesAppend(a: seq<Block>, b: seq<Block>)
    ensures Entries(a + b) == Entries(a) + Entries(b)
  {
    if |a| > 0 {
      assert (a + b)[1..] == a[1..] + b;
      EntriesAppend(a[1..], b);
    } else {
      assert a + b == b;
    }
  }

  lemma {:induction false} InWindowAppend(a: seq<Block>, b: seq<Block>, start: Date, end: Date, src: Source)
    ensures InWindow(a + b, start, end, src) == InWindow(a, start, end, src) + InWindow(b, start, end, src)
  {
    if |a| > 0 {
      assert (a + b)[1..] == a[1..] + b;
      InWindowAppend(a[1..], b, start, end, src);
    } else {
      assert a + b == b;
    }
  }

  lemma {:induction false} UntilBeforeAppend(a: seq<Block>, b: seq<Block>, start: Date)
    ensures UntilBefore(a + b, start) ==
      if ExitsEarly(a, start) then UntilBefore(a, start) else a + UntilBefore(b, start)
  {
    if |a| > 0 {
      assert (a + b)[1..] == a[1..] + b;
      UntilBeforeAppend(a[1..], b, start);
      if ExitsEarly(a[1..], start) {
        var k :| 0 <= k < |a[1..]| && a[1..][k].Entry? && Before(a[1..][k].date, start);
        assert a[k + 1] == a[1..][k];
      }
      if ExitsEarly(a, start) && !(a[0].Entry? && Before(a[0].date, start)) {
        var k :| 0 <= k < |a| && a[k].Entry? && Before(a[k].date, start);
        assert a[1..][k - 1] == a[k];
      }
    } else {
      assert a + b == b;
    }
  }

  /** One page's scan is the pipeline applied to that page's blocks. */
  lemma {:induction false} ScanMatchesReference(blocks: seq<Block>, start: Date, end: Date, src: Source)
    ensures ScanBlocks(blocks, start, end, src).exited == ExitsEarly(Entries(blocks), start)
    ensures ScanBlocks(blocks, start, end, src).found ==
      InWindow(UntilBefore(Entries(blocks), start), start, end, src)
  {
    if |blocks| > 0 {
      ScanMatchesReference(blocks[1..], start, end, src);
      var e := Entries(blocks[1..]);
      if WellFormed(blocks[0]) {
        var es := [blocks[0]] + e;
        assert es[1..] == e;
        if ExitsEarly(e, start) {
          var k :| 0 <= k < |e| && e[k].Entry? && Before(e[k].date, start);
          assert es[k + 1] == e[k];
        }
        if ExitsEarly(es, start) && !Before(blocks[0].date, start) {
          var k :| 0 <= k < |es| && es[k].Entry? && Before(es[k].date, start);
          assert e[k - 1] == es[k];
        }
      }
    }
  }

  /**
   The scrape returns the in-window well-formed entries of the pages it reaches,
   in discovery order, cut off at the first well-formed entry dated before the
   window start: nothing reordered, nothing duplicated.
   */
  lemma {:induction false} ScrapeMatchesReference(pages: seq<Page>, start: Date, end: Date, src: Source)
    ensures Scrape(pages, start, end, src) ==
      InWindow(UntilBefore(Entries(Flatten(Reached(pages))), start), start, end, src)
  {
    if |pages| > 0 && !Ends(pages[0]) {
      var b := pages[0].blocks;
      var later := Flatten(Reached(pages[1..]));
      var reached := Reached(pages);
      assert reached[0] == pages[0] && reached[1..] == Reached(pages[1..]);
      assert Flatten(reached) == b + later;
      ScrapeMatchesReference(pages[1..], start, end, src);
      ScanMatchesReference(b, start, end, src);
      EntriesAppend(b, later);
      UntilBeforeAppend(Entries(b), Entries(later), start);
      if !ExitsEarly(Entries(b), start) {
        UntilBeforeKeepsAll(Entries(b), start);
        InWindowAppend(Entries(b), UntilBefore(Entries(later), start), start, end, src);
      }
    }
  }

  lemma {:induction false} UntilBeforeKeepsAll(entries: seq<Block>, start: Date)
    requires !ExitsEarly(entries, start)
    ensures UntilBefore(entries, start) == entries
  {
    if |entries| > 0 {
      assert entries[0].Entry? ==> !Before(entries[0].date, start);
      UntilBeforeKeepsAll(entries[1..], start);
    }
  }
}
