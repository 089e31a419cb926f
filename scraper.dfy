/**
 * MovieScraper.getMovies from the list of link targets on: extract the
 * identifiers, then write the report and name the thumbnail file each
 * movie's poster would be saved to.
 *
 * The page download and HTML parsing that produce the link targets, the
 * clock that produces the date, the environment that produces the API key
 * and the HTTP client that answers each request are parameters.
 */
module Scraper {
  import opened Wrappers
  import opened TitleLinks
  import opened Runs
  import opened Extraction
  import opened Report

  /** The file getMovies writes, stated without loops: one line per extracted movie plus five. */
  function MovieReport(hrefs: seq<string>, date: string, apiKey: string, fetch: string -> string): (ls: seq<string>)
    ensures |ls| == |ExtractedIds(hrefs)| + 5
  {
    ReportLines(date, Fetched(ExtractedIds(hrefs), apiKey, fetch))
  }

  /**
   * The whole run: `lines` are the lines printed to `movies.json` and
   * `thumbs` the files the posters would be saved to, in order.
   */
  method GetMovies(hrefs: seq<string>, date: string, apiKey: string, fetch: string -> string)
    returns (lines: seq<string>, thumbs: seq<string>)
    ensures lines == MovieReport(hrefs, date, apiKey, fetch)
    ensures thumbs == ThumbnailPaths(ExtractedIds(hrefs))
  {
    var ids := ExtractIds(hrefs);
    lines, thumbs := WriteReport(date, ids, apiKey, fetch);
  }

  /**
   * The file has one line per extracted movie plus five, so never more than
   * the number of links plus five, and reading it back gives the date and
   * one record per extracted movie, in order.
   */
  lemma {:induction false} MovieReportShape(hrefs: seq<string>, date: string, apiKey: string, fetch: string -> string)
    ensures |MovieReport(hrefs, date, apiKey, fetch)| == |ExtractedIds(hrefs)| + 5 <= |hrefs| + 5
    ensures ParseReport(MovieReport(hrefs, date, apiKey, fetch))
            == Some(MovieFile(date, Fetched(ExtractedIds(hrefs), apiKey, fetch)))
  {
    ReportShape(date, Fetched(ExtractedIds(hrefs), apiKey, fetch));
    ReportRoundTrip(date, Fetched(ExtractedIds(hrefs), apiKey, fetch));
    ExtractedIdsProperties(hrefs);
  }

  /** Two consecutive posters are never saved to the same file. */
  lemma {:induction false} ConsecutiveThumbnailsDiffer(hrefs: seq<string>)
    ensures NoAdjacentRepeats(ThumbnailPaths(ExtractedIds(hrefs)))
  {
    var ids := ExtractedIds(hrefs);
    ExtractedIdsProperties(hrefs);
    forall i, j | 0 <= i < j < |ids| && j == i + 1
      ensures ThumbnailPaths(ids)[i] != ThumbnailPaths(ids)[j]
    {
      ThumbnailPathsDistinguish(ids, i, j);
    }
  }

  /** Two consecutive requests never ask for the same movie. */
  lemma {:induction false} ConsecutiveRequestsDiffer(hrefs: seq<string>, apiKey: string)
    ensures var ids := ExtractedIds(hrefs);
      forall i, j :: 0 <= i < j < |ids| && j == i + 1 ==> RequestUrl(ids[i], apiKey) != RequestUrl(ids[j], apiKey)
  {
    var ids := ExtractedIds(hrefs);
    ExtractedIdsProperties(hrefs);
    ExtractedIdsAreWords(hrefs);
    forall i, j | 0 <= i < j < |ids| && j == i + 1
      ensures RequestUrl(ids[i], apiKey) != RequestUrl(ids[j], apiKey)
    {
      RequestUrlIdentifies(ids[i], ids[j], apiKey, apiKey);
    }
  }

}
