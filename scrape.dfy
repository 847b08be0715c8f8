/** Scraping the AUR package listing into the cache (`scrapeAur`). The HTTP
    requests and the HTML parsing are not modelled: the text of the
    "pkglist-stats" paragraph of the first listing page is an input, and so are
    the (name, version) cells of the result rows of the listing page at each
    offset, as the function `rowsAt`. */
module Scrape {
  import opened Common
  import opened PyStr
  import opened PackageMaps

  /** The default `perPage` of `scrapeAur`. */
  const DefaultPerPage := 250

  /** A listing request: the URL template filled with `O=offset` and `PP=perPage`. */
  datatype Query = Query(offset: int, perPage: int)

  /** What a scrape did: the listing requests it sent, in order, the
      dictionary it wrote to the cache file (None when the write failed), and
      its boolean result. */
  datatype Scraped = Scraped(queries: seq<Query>, cache: Option<map<string, string>>, ok: bool)

  /** `int(...)` raised ValueError on the page-count text. */
  datatype ScrapeError = PagesTotalNotANumber(token: string)

  /** `text.split(" ")[-1].replace("\t", "").replace(".", "")`. */
  function PagesToken(stats: string): (t: string)
    ensures ' ' !in t && '\t' !in t && '.' !in t
  {
    RemoveAll(RemoveAll(LastField(stats, ' '), '\t'), '.')
  }

  /** `pagesTotal`, or None where `int()` raises: the token must strip to
      decimal digits with an optional sign. */
  function PagesTotal(stats: string): (r: Option<int>)
    ensures r.Some? <==> IsIntText(Strip(PagesToken(stats)))
    ensures r.Some? && AllDigits(Strip(PagesToken(stats))) ==> r.value == DigitsValue(Strip(PagesToken(stats)))
    ensures r.Some? && !AllDigits(Strip(PagesToken(stats))) ==>
              r.value == if Strip(PagesToken(stats))[0] == '-' then -(DigitsValue(Strip(PagesToken(stats))[1..]) as int)
                         else DigitsValue(Strip(PagesToken(stats))[1..])
  {
    ParseInt(PagesToken(stats))
  }

  lemma {:induction false} RemoveAllAbsent(s: string, c: char)
    requires c !in s
    ensures RemoveAll(s, c) == s
    decreases |s|
  {
    if s != [] {
      var front := s[..|s| - 1];
      assert s == front + [s[|s| - 1]];
      assert c !in front;
      RemoveAllAbsent(front, c);
    }
  }

  lemma RFindAfter(a: string, c: char, b: string)
    requires c !in b
    ensures RFind(a + [c] + b, c) == |a|
  {
    var s := a + [c] + b;
    assert s[|a|] == c && s[|a| + 1..] == b;
  }

  /** The page count is the number after the last space, with a trailing
      dot, tabs and line breaks dropped: "... Page 1 of 342.\n\t\t" gives 342. */
  lemma PagesTotalOfStats(prefix: string, n: nat, ws: string)
    requires forall k :: 0 <= k < |ws| ==> ws[k] in "\t\n\r"
    ensures PagesTotal(prefix + " " + Decimal(n) + "." + ws) == Some(n)
  {
    var digits := Decimal(n);
    var stats := prefix + " " + digits + "." + ws;
    var breaks := RemoveAll(ws, '\t');
    TailOfDigits(digits);
    var tail := digits + "." + ws;
    assert ' ' !in ws;
    assert stats == prefix + " " + tail;
    LastFieldOfStats(prefix, tail);
    DropTabs(digits, ws);
    LineBreaks(ws);
    DropDot(digits, breaks);
    assert RemoveAll(LastField(stats, ' '), '\t') == digits + "." + breaks;
    ParseDecimal(n, breaks);
  }

  lemma LastFieldOfStats(prefix: string, tail: string)
    requires ' ' !in tail
    ensures LastField(prefix + " " + tail, ' ') == tail
  {
    assert prefix + " " + tail == prefix + [' '] + tail;
    RFindAfter(prefix, ' ', tail);
  }

  lemma DropTabs(digits: string, ws: string)
    requires '\t' !in digits + "."
    ensures RemoveAll(digits + "." + ws, '\t') == digits + "." + RemoveAll(ws, '\t')
  {
    RemoveAllAppend(digits + ".", ws, '\t');
    RemoveAllAbsent(digits + ".", '\t');
  }

  /** Dropping the tabs of trailing whitespace leaves line breaks only. */
  lemma LineBreaks(ws: string)
    requires forall k :: 0 <= k < |ws| ==> ws[k] in "\t\n\r"
    ensures forall k :: 0 <= k < |RemoveAll(ws, '\t')| ==> RemoveAll(ws, '\t')[k] in "\n\r"
  {
    var breaks := RemoveAll(ws, '\t');
    forall k | 0 <= k < |breaks| ensures breaks[k] in "\n\r" {
      assert breaks[k] in breaks;
    }
  }

  lemma DropDot(digits: string, breaks: string)
    requires '.' !in digits
    requires forall k :: 0 <= k < |breaks| ==> breaks[k] in "\n\r"
    ensures RemoveAll(digits + "." + breaks, '.') == digits + breaks
  {
    RemoveAllAppend(digits + ".", breaks, '.');
    RemoveTrailingDot(digits);
    assert '.' !in breaks;
    RemoveAllAbsent(breaks, '.');
  }

  /** The stats paragraph as the listing indents it: the last field is
      "343.\n\t\t", and the page count is 343. */
  lemma IndentedStats()
    ensures PagesTotal("343 packages found.\n\t\tPage 1 of 343.\n\t\t") == Some(343)
  {
    assert Decimal(343) == "343" by {
      assert Decimal(3) == "3";
      assert Decimal(34) == "34";
    }
    assert "343 packages found.\n\t\tPage 1 of 343.\n\t\t"
        == "343 packages found.\n\t\tPage 1 of" + " " + Decimal(343) + "." + "\n\t\t";
    PagesTotalOfStats("343 packages found.\n\t\tPage 1 of", 343, "\n\t\t");
  }

  /** A decimal text followed by "." holds no space, tab or dot before the dot. */
  lemma TailOfDigits(digits: string)
    requires AllDigits(digits)
    ensures ' ' !in digits + "." && '\t' !in digits + "." && '.' !in digits
  {
    forall k | 0 <= k < |digits| ensures digits[k] != ' ' && digits[k] != '\t' && digits[k] != '.' {
      assert IsDigit(digits[k]);
    }
  }

  lemma RemoveTrailingDot(digits: string)
    requires '.' !in digits
    ensures RemoveAll(digits + ".", '.') == digits
  {
    var tail := digits + ".";
    assert tail[..|tail| - 1] == digits;
    RemoveAllAbsent(digits, '.');
  }

  /** The requests of `n` loop iterations: iteration k + 1 asks for offset
      k * perPage. */
  function PageQueries(n: nat, perPage: int): (qs: seq<Query>)
    ensures |qs| == n
    ensures forall k :: 0 <= k < n ==> qs[k] == Query(k * perPage, perPage)
  {
    seq(n, k => Query(k * perPage, perPage))
  }

  /** The result rows of the pages those requests return. */
  function PageRows(rowsAt: int -> seq<Pair>, n: nat, perPage: int): seq<seq<Pair>>
  {
    seq(n, k => rowsAt(k * perPage))
  }

  /** All rows of the pages, page after page. */
  function Flatten(pages: seq<seq<Pair>>): seq<Pair>
  {
    if pages == [] then [] else Flatten(pages[..|pages| - 1]) + pages[|pages| - 1]
  }

  lemma FlattenNext(rowsAt: int -> seq<Pair>, n: nat, perPage: int)
    ensures Flatten(PageRows(rowsAt, n + 1, perPage)) == Flatten(PageRows(rowsAt, n, perPage)) + rowsAt(n * perPage)
  {
    assert PageRows(rowsAt, n + 1, perPage)[..n] == PageRows(rowsAt, n, perPage);
  }

  lemma QueriesNext(n: nat, perPage: int)
    ensures PageQueries(n + 1, perPage) == PageQueries(n, perPage) + [Query(n * perPage, perPage)]
  {
  }

  /** The inner loop `for tr in rows: packages[name] = version`. */
  method StoreRows(packages: map<string, string>, ghost before: seq<Pair>, rows: seq<Pair>)
    returns (updated: map<string, string>)
    requires packages == Collected(before)
    ensures updated == Collected(before + rows)
  {
    updated := packages;
    assert before + rows[..0] == before;
    for j := 0 to |rows|
      invariant updated == Collected(before + rows[..j])
    {
      assert before + rows[..j + 1] == (before + rows[..j]) + [rows[j]];
      CollectedSnoc(before + rows[..j], rows[j]);
      updated := updated[rows[j].0 := rows[j].1];
    }
    assert rows[..|rows|] == rows;
  }

  /** `range(lo, hi)`. */
  function Range(lo: int, hi: int): (r: seq<int>)
    ensures |r| == if hi > lo then hi - lo else 0
    ensures forall k :: 0 <= k < |r| ==> r[k] == lo + k
  {
    if hi > lo then seq(hi - lo, k => lo + k) else []
  }

  lemma RangeMembers(lo: int, hi: int)
    ensures forall x :: x in Range(lo, hi) <==> lo <= x < hi
  {
    forall x | lo <= x < hi ensures x in Range(lo, hi) {
      assert Range(lo, hi)[x - lo] == x;
    }
  }

  /** Iterations of `for page in range(1, pagesEnd)`: the pages it visits
      are exactly 1 to that number. */
  function Iterations(pagesEnd: int): (n: nat)
    ensures n == |Range(1, pagesEnd)|
    ensures forall page :: page in Range(1, pagesEnd) <==> 1 <= page <= n
  {
    RangeMembers(1, pagesEnd);
    if pagesEnd > 1 then pagesEnd - 1 else 0
  }

  /** The page loop `for page in range(1, pagesEnd)`: each iteration requests
      the listing at `start`, stores every row's first cell as a key for its
      second cell, and only then advances `start` to `page * perPage`. */
  method FetchPages(pagesEnd: int, perPage: int, rowsAt: int -> seq<Pair>)
    returns (queries: seq<Query>, packages: map<string, string>)
    ensures queries == PageQueries(Iterations(pagesEnd), perPage)
    ensures packages == Collected(Flatten(PageRows(rowsAt, Iterations(pagesEnd), perPage)))
  {
    var start := 0;
    queries := [];
    packages := map[];
    var page := 1;
    while page < pagesEnd
      invariant page == 1 || 1 <= page <= pagesEnd
      invariant start == (page - 1) * perPage
      invariant queries == PageQueries(page - 1, perPage)
      invariant packages == Collected(Flatten(PageRows(rowsAt, page - 1, perPage)))
    {
      var packagesRaw := rowsAt(start);
      queries := queries + [Query(start, perPage)];
      QueriesNext(page - 1, perPage);
      FlattenNext(rowsAt, page - 1, perPage);
      packages := StoreRows(packages, Flatten(PageRows(rowsAt, page - 1, perPage)), packagesRaw);
      start := page * perPage;
      page := page + 1;
    }
  }

  /** `scrapeAur(aurUrl, cacheFile, perPage)`: one request at offset 0 to read
      the page count, then the page loop, then the whole dictionary written to
      the cache; the result is false exactly when that write fails. */
  method ScrapeAur(stats: string, perPage: int, rowsAt: int -> seq<Pair>, cacheWritable: bool)
    returns (r: Result<Scraped, ScrapeError>)
    ensures PagesTotal(stats).None? ==> r == Err(PagesTotalNotANumber(PagesToken(stats)))
    ensures PagesTotal(stats).Some? ==>
      var pagesTotal := PagesTotal(stats).value;
      var packages := Collected(Flatten(PageRows(rowsAt, Iterations(pagesTotal), perPage)));
      r == Ok(Scraped([Query(0, perPage)] + PageQueries(Iterations(pagesTotal), perPage),
                      if cacheWritable then Some(packages) else None,
                      cacheWritable))
  {
    var start := 0;
    var queries := [Query(start, perPage)];
    var pagesTotal := PagesTotal(stats);
    if pagesTotal.None? {
      return Err(PagesTotalNotANumber(PagesToken(stats)));
    }
    var loopQueries, packages := FetchPages(pagesTotal.value, perPage, rowsAt);
    queries := queries + loopQueries;
    if cacheWritable {
      r := Ok(Scraped(queries, Some(packages), true));
    } else {
      r := Ok(Scraped(queries, None, false));
    }
  }

  /** `scrapeAur` with the loop running `for page in range(1, pagesTotal + 1)`,
      so that every listing page is fetched. */
  method ScrapeAurAllPages(stats: string, perPage: int, rowsAt: int -> seq<Pair>, cacheWritable: bool)
    returns (r: Result<Scraped, ScrapeError>)
    ensures PagesTotal(stats).None? ==> r == Err(PagesTotalNotANumber(PagesToken(stats)))
    ensures PagesTotal(stats).Some? ==>
      var pagesTotal := PagesTotal(stats).value;
      var packages := Collected(Flatten(PageRows(rowsAt, Iterations(pagesTotal + 1), perPage)));
      r == Ok(Scraped([Query(0, perPage)] + PageQueries(Iterations(pagesTotal + 1), perPage),
                      if cacheWritable then Some(packages) else None,
                      cacheWritable))
  {
    var start := 0;
    var queries := [Query(start, perPage)];
    var pagesTotal := PagesTotal(stats);
    if pagesTotal.None? {
      return Err(PagesTotalNotANumber(PagesToken(stats)));
    }
    var loopQueries, packages := FetchPages(pagesTotal.value + 1, perPage, rowsAt);
    queries := queries + loopQueries;
    if cacheWritable {
      r := Ok(Scraped(queries, Some(packages), true));
    } else {
      r := Ok(Scraped(queries, None, false));
    }
  }

  /** With a positive page size the loop's offsets strictly increase, all with
      the same page size, and the first loop request repeats offset 0. */
  lemma {:induction false} LoopOffsetsIncrease(n: nat, perPage: int)
    requires perPage > 0
    ensures forall i, j :: 0 <= i < j < n ==> PageQueries(n, perPage)[i].offset < PageQueries(n, perPage)[j].offset
    ensures forall i :: 0 <= i < n ==> PageQueries(n, perPage)[i].perPage == perPage
    ensures n > 0 ==> PageQueries(n, perPage)[0].offset == 0
  {
    var qs := PageQueries(n, perPage);
    forall i, j | 0 <= i < j < n ensures qs[i].offset < qs[j].offset {
      MulStrict(i, j, perPage);
    }
  }

  lemma {:induction false} MulStrict(i: nat, j: nat, perPage: int)
    requires i < j && perPage > 0
    ensures i * perPage < j * perPage
    decreases j
  {
    if i + 1 < j {
      MulStrict(i, j - 1, perPage);
    }
    assert j * perPage == (j - 1) * perPage + perPage;
  }

  /** With at most one page nothing is accumulated. */
  lemma FewPagesNothingCached(rowsAt: int -> seq<Pair>, pagesTotal: int, perPage: int)
    requires pagesTotal <= 1
    ensures Collected(Flatten(PageRows(rowsAt, Iterations(pagesTotal), perPage))) == map[]
  {
    assert PageRows(rowsAt, 0, perPage) == [];
  }

  /** As written, the loop never requests the last listing page, at offset
      (pagesTotal - 1) * perPage; only the first request, whose rows are not
      read, may have asked for it. */
  lemma LastPageNeverRequested(pagesTotal: int, perPage: int)
    requires pagesTotal >= 1 && perPage > 0
    ensures Query((pagesTotal - 1) * perPage, perPage) !in PageQueries(Iterations(pagesTotal), perPage)
  {
    var qs := PageQueries(Iterations(pagesTotal), perPage);
    if Query((pagesTotal - 1) * perPage, perPage) in qs {
      var k :| 0 <= k < |qs| && qs[k] == Query((pagesTotal - 1) * perPage, perPage);
      MulStrict(k, pagesTotal - 1, perPage);
    }
  }

  /** A listing of a single page ("... Page 1 of 1.") leaves the cache empty
      even though that page has rows. */
  lemma SinglePageCachesNothing(rowsAt: int -> seq<Pair>, perPage: int)
    requires rowsAt(0) == [("augur", "1.0-1")]
    ensures PagesTotal("Page 1 of 1.") == Some(1)
    ensures Collected(Flatten(PageRows(rowsAt, Iterations(1), perPage))) == map[]
    ensures "augur" !in Collected(Flatten(PageRows(rowsAt, Iterations(1), perPage)))
  {
    assert Decimal(1) == "1";
    assert "Page 1 of 1." == "Page 1 of" + " " + Decimal(1) + "." + "";
    PagesTotalOfStats("Page 1 of", 1, "");
    FewPagesNothingCached(rowsAt, 1, perPage);
  }

  /** The default 250 rows per page on a 14-page listing: the loop's last
      request is at offset 3000, and offset 3250, where page 14 starts, is
      never asked for. */
  lemma DefaultListing()
    ensures Query(3000, DefaultPerPage) in PageQueries(Iterations(14), DefaultPerPage)
    ensures Query(3250, DefaultPerPage) !in PageQueries(Iterations(14), DefaultPerPage)
  {
    assert PageQueries(13, DefaultPerPage)[12] == Query(3000, DefaultPerPage);
    LastPageNeverRequested(14, DefaultPerPage);
  }

  /** With the corrected bound every listing page, offsets 0 to
      (pagesTotal - 1) * perPage, is requested and its rows are cached. */
  lemma AllPagesRequested(rowsAt: int -> seq<Pair>, pagesTotal: int, perPage: int, k: int)
    requires 0 <= k < pagesTotal
    ensures Query(k * perPage, perPage) in PageQueries(Iterations(pagesTotal + 1), perPage)
    ensures PageRows(rowsAt, Iterations(pagesTotal + 1), perPage)[k] == rowsAt(k * perPage)
  {
    assert PageQueries(Iterations(pagesTotal + 1), perPage)[k] == Query(k * perPage, perPage);
  }
}
