/**
 * The second half of MovieScraper.getMovies: the lines written to
 * `movies.json` and the thumbnail file each movie's poster is saved to.
 *
 * ReportLines is the reference definition of the file: a three-line header
 * with the date, one indented record line per movie with a comma on all but
 * the last, and a two-line footer. ParseReport reads such a file back, and
 * the two are proved inverse to each other in both directions, so the line
 * layout determines date and records exactly. WriteReport is the counted
 * loop that requests each movie, prints its line and names its thumbnail,
 * proved to produce ReportLines and ThumbnailPaths.
 *
 * The HTTP request together with the JSON parsing and re-serialising of its
 * answer is the parameter `fetch`, a function from the request URL to the
 * record text; the API key read from the environment is the parameter
 * `apiKey`; the formatted date is the parameter `date`.
 */
module Report {
  import opened Wrappers

  /** The output directory, `MOVIEDIR`. */
  const MovieDir: string := "external-movies"
  /** Everything of a thumbnail path before the identifier. */
  const ThumbsDir: string := MovieDir + "/thumbs/"
  const JpgSuffix: string := ".jpg"

  const Open: string := "{"
  const DatePrefix: string := "  \"date\": \""
  const DateSuffix: string := "\","
  const MoviesOpen: string := "  \"movies\": ["
  const Indent: string := "    "
  const MoviesClose: string := "  ]"
  const Close: string := "}"

  const OmdbQuery: string := "https://www.omdbapi.com/?i="
  const OmdbOptions: string := "&r=json&apikey="

  /** The contents of `movies.json`, as its date and the record text of each movie. */
  datatype MovieFile = MovieFile(date: string, records: seq<string>)

  // ---------------------------------------------------------------- thumbnails

  /** Where the poster of movie `id` is saved; the identifier can be read back from it. */
  function ThumbnailPath(id: string): (p: string)
    ensures ThumbnailId(p) == Some(id)
  {
    var p := MovieDir + "/thumbs/" + id + ".jpg";
    assert p == ThumbsDir + id + JpgSuffix;
    assert p[..|ThumbsDir|] == ThumbsDir;
    assert p[|p| - |JpgSuffix|..] == JpgSuffix;
    assert p[|ThumbsDir|..|p| - |JpgSuffix|] == id;
    p
  }

  /** The identifier a thumbnail path was made from, if it is one. */
  function ThumbnailId(path: string): Option<string> {
    var a, b := |ThumbsDir|, |JpgSuffix|;
    if |path| >= a + b && path[..a] == ThumbsDir && path[|path| - b..] == JpgSuffix
    then Some(path[a..|path| - b])
    else None
  }

  /** Every path ThumbnailId accepts is the thumbnail path of what it returns. */
  lemma {:induction false} ThumbnailIdSound(path: string)
    requires ThumbnailId(path).Some?
    ensures ThumbnailPath(ThumbnailId(path).value) == path
  {
  }

  /** Distinct movies never share a thumbnail file. */
  lemma {:induction false} ThumbnailPathInjective(a: string, b: string)
    ensures ThumbnailPath(a) == ThumbnailPath(b) <==> a == b
  {
  }

  /** The thumbnail path of every movie, in movie order. */
  function ThumbnailPaths(ids: seq<string>): (ps: seq<string>)
    ensures |ps| == |ids|
  {
    seq(|ids|, i requires 0 <= i < |ids| => ThumbnailPath(ids[i]))
  }

  /** Two movies share a thumbnail path exactly when they are the same movie. */
  lemma {:induction false} ThumbnailPathsDistinguish(ids: seq<string>, i: nat, j: nat)
    requires i < |ids| && j < |ids|
    ensures ThumbnailPaths(ids)[i] == ThumbnailPaths(ids)[j] <==> ids[i] == ids[j]
  {
    ThumbnailPathInjective(ids[i], ids[j]);
  }

  // ------------------------------------------------------------------ requests

  /**
   * The OMDb request for movie `id`: the identifier is the `i` parameter,
   * followed by the JSON format option and the key.
   */
  function RequestUrl(id: string, apiKey: string): (u: string)
    ensures |u| == |OmdbQuery| + |id| + |OmdbOptions| + |apiKey|
    ensures u[..|OmdbQuery|] == OmdbQuery
    ensures u[|OmdbQuery|..|OmdbQuery| + |id|] == id
    ensures u[|OmdbQuery| + |id|..] == OmdbOptions + apiKey
  {
    OmdbQuery + id + OmdbOptions + apiKey
  }

  /**
   * A request names one movie and one key: for identifiers free of `&`, the
   * identifier ends at the first `&`, so the URL determines both the
   * identifier and the key that follows the options.
   */
  lemma {:induction false} RequestUrlIdentifies(a: string, b: string, k1: string, k2: string)
    requires '&' !in a && '&' !in b
    ensures RequestUrl(a, k1) == RequestUrl(b, k2) <==> a == b && k1 == k2
  {
    if RequestUrl(a, k1) == RequestUrl(b, k2) {
      RequestUrlParts(a, k1);
      RequestUrlParts(b, k2);
      OptionsStartWithAmpersand();
      SplitAtAmpersand(OmdbQuery, OmdbOptions, a, b, k1, k2);
    }
  }

  /** The request, grouped from the right. */
  lemma {:induction false} RequestUrlParts(id: string, apiKey: string)
    ensures RequestUrl(id, apiKey) == OmdbQuery + (id + (OmdbOptions + apiKey))
  {
  }

  /** The options after the identifier begin with `&`. */
  lemma {:induction false} OptionsStartWithAmpersand()
    ensures OmdbOptions != [] && OmdbOptions[0] == '&'
  {
  }

  /**
   * Text, then `&`-free text, then options starting with `&`, then more
   * text: the `&`-free part and the tail are fixed by the whole.
   */
  lemma {:induction false} SplitAtAmpersand(q: string, o: string, a: string, b: string, k1: string, k2: string)
    requires '&' !in a && '&' !in b && o != [] && o[0] == '&'
    requires q + (a + (o + k1)) == q + (b + (o + k2))
    ensures a == b && k1 == k2
  {
    CancelPrefix(q, a + (o + k1), b + (o + k2));
    EndsAtAmpersand(a, b, o + k1, o + k2);
    CancelPrefix(a, o + k1, o + k2);
    CancelPrefix(o, k1, k2);
  }

  /** Equal texts with the same beginning are equal after it. */
  lemma {:induction false} CancelPrefix(p: string, s: string, t: string)
    requires p + s == p + t
    ensures s == t
  {
    assert s == (p + s)[|p|..];
    assert t == (p + t)[|p|..];
  }

  /**
   * Without the restriction to identifiers free of `&`, one URL can stand
   * for two different identifier and key pairs.
   */
  lemma {:induction false} RequestUrlAmbiguousWithAmpersand()
    ensures RequestUrl("x&r=json&apikey=y", "") == RequestUrl("x", "y&r=json&apikey=")
  {
  }

  /** Text free of `&` followed by text starting with `&` splits in only one way. */
  lemma {:induction false} EndsAtAmpersand(a: string, b: string, s: string, t: string)
    requires '&' !in a && '&' !in b
    requires s != [] && s[0] == '&' && t != [] && t[0] == '&'
    requires a + s == b + t
    ensures a == b
  {
    if a != [] && b != [] {
      assert a[0] == (a + s)[0] == (b + t)[0] == b[0];
      assert (a + s)[1..] == a[1..] + s;
      assert (b + t)[1..] == b[1..] + t;
      EndsAtAmpersand(a[1..], b[1..], s, t);
      assert a == [a[0]] + a[1..] && b == [b[0]] + b[1..];
    } else {
      assert (a + s)[0] == (b + t)[0];
    }
  }

  /** The record text of each movie, as `fetch` answers its request. */
  function Fetched(ids: seq<string>, apiKey: string, fetch: string -> string): (rs: seq<string>)
    ensures |rs| == |ids|
  {
    seq(|ids|, i requires 0 <= i < |ids| => fetch(RequestUrl(ids[i], apiKey)))
  }

  // --------------------------------------------------------------------- lines

  /** The `"date"` field line; the date can be read back from it. */
  function DateLine(date: string): (l: string)
    ensures ParseDateLine(l) == Some(date)
  {
    var l := DatePrefix + date + DateSuffix;
    assert l[..|DatePrefix|] == DatePrefix;
    assert l[|l| - |DateSuffix|..] == DateSuffix;
    assert l[|DatePrefix|..|l| - |DateSuffix|] == date;
    l
  }

  /**
   * A movie's line: indented record, then a comma unless it is the last
   * movie; the record can be read back from it.
   */
  function RecordLine(record: string, isLast: bool): (l: string)
    ensures ParseRecordLine(l, isLast) == Some(record)
  {
    var l := Indent + record + (if isLast then "" else ",");
    assert l[..|Indent|] == Indent;
    if isLast then
      assert l[|Indent|..] == record;
      l
    else
      assert l[|Indent|..|l| - 1] == record;
      l
  }

  function RecordLines(records: seq<string>): (ls: seq<string>)
    ensures |ls| == |records|
  {
    seq(|records|, i requires 0 <= i < |records| => RecordLine(records[i], i == |records| - 1))
  }

  function Header(date: string): seq<string> {
    [Open, DateLine(date), MoviesOpen]
  }

  function Footer(): seq<string> {
    [MoviesClose, Close]
  }

  /**
   * The lines of `movies.json` for a date and the movies' records, in order:
   * one JSON object, opening with `{`, closing with `}`, and five lines
   * besides the records.
   */
  function ReportLines(date: string, records: seq<string>): (ls: seq<string>)
    ensures |ls| == |records| + 5
    ensures ls[0] == Open && ls[|ls| - 1] == Close
  {
    Header(date) + RecordLines(records) + Footer()
  }

  /**
   * Line by line: `n + 5` lines, the header, the `n` records in order with a
   * comma after each but the last, and the footer.
   */
  lemma {:induction false} ReportShape(date: string, records: seq<string>)
    ensures var ls, n := ReportLines(date, records), |records|;
      && |ls| == n + 5
      && ls[0] == "{"
      && ls[1] == "  \"date\": \"" + date + "\","
      && ls[2] == "  \"movies\": ["
      && (forall i :: 0 <= i < n ==> ls[3 + i] == "    " + records[i] + (if i < n - 1 then "," else ""))
      && ls[n + 3] == "  ]"
      && ls[n + 4] == "}"
  {
  }

  /** No movies: the opening `"movies": [` line is directly followed by `]`. */
  lemma {:induction false} EmptyReport(date: string)
    ensures ReportLines(date, []) == ["{", "  \"date\": \"" + date + "\",", "  \"movies\": [", "  ]", "}"]
  {
  }

  // ------------------------------------------------------------------- reading

  function ParseDateLine(line: string): Option<string> {
    var a, b := |DatePrefix|, |DateSuffix|;
    if |line| >= a + b && line[..a] == DatePrefix && line[|line| - b..] == DateSuffix
    then Some(line[a..|line| - b])
    else None
  }

  /** Reads a record line back; a line that is not the last must end in the comma. */
  function ParseRecordLine(line: string, isLast: bool): Option<string> {
    var a := |Indent|;
    if |line| < a || line[..a] != Indent then None
    else if isLast then Some(line[a..])
    else if |line| > a && line[|line| - 1] == ',' then Some(line[a..|line| - 1])
    else None
  }

  function ParseRecordLines(ls: seq<string>): Option<seq<string>> {
    if ls == [] then Some([])
    else
      match ParseRecordLine(ls[0], |ls| == 1)
      case None => None
      case Some(r) =>
        match ParseRecordLines(ls[1..])
        case None => None
        case Some(rs) => Some([r] + rs)
  }

  /** Reads the whole file back: header, record lines, footer. */
  function ParseReport(lines: seq<string>): Option<MovieFile> {
    if |lines| < 5 || lines[0] != Open || lines[2] != MoviesOpen
       || lines[|lines| - 2] != MoviesClose || lines[|lines| - 1] != Close
    then None
    else
      match (ParseDateLine(lines[1]), ParseRecordLines(lines[3..|lines| - 2]))
      case (Some(date), Some(records)) => Some(MovieFile(date, records))
      case _ => None
  }

  lemma {:induction false} DateLineSound(line: string)
    requires ParseDateLine(line).Some?
    ensures DateLine(ParseDateLine(line).value) == line
  {
  }

  lemma {:induction false} RecordLineSound(line: string, isLast: bool)
    requires ParseRecordLine(line, isLast).Some?
    ensures RecordLine(ParseRecordLine(line, isLast).value, isLast) == line
  {
  }

  /** The record lines of `records` are the first record's line, then those of the rest. */
  lemma {:induction false} RecordLinesCons(records: seq<string>)
    requires records != []
    ensures RecordLines(records) == [RecordLine(records[0], |records| == 1)] + RecordLines(records[1..])
  {
  }

  lemma {:induction false} RecordLinesRoundTrip(records: seq<string>)
    ensures ParseRecordLines(RecordLines(records)) == Some(records)
  {
    if records != [] {
      RecordLinesCons(records);
      var ls := RecordLines(records);
      assert ls[1..] == RecordLines(records[1..]);
      RecordLinesRoundTrip(records[1..]);
      assert [records[0]] + records[1..] == records;
    }
  }

  lemma {:induction false} RecordLinesSound(ls: seq<string>)
    requires ParseRecordLines(ls).Some?
    ensures RecordLines(ParseRecordLines(ls).value) == ls
  {
    if ls != [] {
      var r := ParseRecordLine(ls[0], |ls| == 1).value;
      var rs := ParseRecordLines(ls[1..]).value;
      RecordLineSound(ls[0], |ls| == 1);
      RecordLinesSound(ls[1..]);
      var records := [r] + rs;
      assert records[1..] == rs;
      RecordLinesCons(records);
      assert [ls[0]] + ls[1..] == ls;
    }
  }

  /** Reading the written file gives back the date and the records. */
  lemma {:induction false} ReportRoundTrip(date: string, records: seq<string>)
    ensures ParseReport(ReportLines(date, records)) == Some(MovieFile(date, records))
  {
    var ls := ReportLines(date, records);
    var n := |records|;
    assert ls[1] == DateLine(date);
    assert ls[3..n + 3] == RecordLines(records);
    RecordLinesRoundTrip(records);
  }

  /** Whatever ParseReport accepts is exactly the file written for what it returns. */
  lemma {:induction false} ParseReportSound(lines: seq<string>)
    requires ParseReport(lines).Some?
    ensures ReportLines(ParseReport(lines).value.date, ParseReport(lines).value.records) == lines
  {
    var m := |lines|;
    var body := lines[3..m - 2];
    var date, records := ParseDateLine(lines[1]).value, ParseRecordLines(body).value;
    assert ParseReport(lines).value == MovieFile(date, records);
    DateLineSound(lines[1]);
    RecordLinesSound(body);
    assert lines[..3] == Header(date);
    assert lines[m - 2..] == Footer();
    assert lines == lines[..3] + body + lines[m - 2..];
  }

  // ---------------------------------------------------------------------- loop

  /**
   * The counted loop: request movie `i`, print its line with the comma
   * unless `i` is the last index, and name its thumbnail; then close the
   * list and the object.
   */
  method WriteReport(date: string, ids: seq<string>, apiKey: string, fetch: string -> string)
    returns (lines: seq<string>, thumbs: seq<string>)
    ensures lines == ReportLines(date, Fetched(ids, apiKey, fetch))
    ensures thumbs == ThumbnailPaths(ids)
  {
    lines := [Open, DateLine(date), MoviesOpen];
    thumbs := [];
    var movieCount := |ids|;
    for i := 0 to movieCount
      invariant lines == Header(date) + RecordLines(Fetched(ids, apiKey, fetch))[..i]
      invariant thumbs == ThumbnailPaths(ids)[..i]
    {
      var id := ids[i];
      var record := fetch(RequestUrl(id, apiKey));
      lines := lines + [RecordLine(record, i == movieCount - 1)];
      var movieImage := ThumbnailPath(id);
      thumbs := thumbs + [movieImage];
      assert RecordLines(Fetched(ids, apiKey, fetch))[..i + 1]
          == RecordLines(Fetched(ids, apiKey, fetch))[..i] + [RecordLine(record, i == movieCount - 1)];
      assert ThumbnailPaths(ids)[..i + 1] == ThumbnailPaths(ids)[..i] + [movieImage];
    }
    lines := lines + [MoviesClose];
    lines := lines + [Close];
    assert RecordLines(Fetched(ids, apiKey, fetch))[..movieCount] == RecordLines(Fetched(ids, apiKey, fetch));
    assert ThumbnailPaths(ids)[..movieCount] == ThumbnailPaths(ids);
  }
}
