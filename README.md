# IMDb Top 250 scraper: identifier extraction and report framing

This project models the logic of `MovieScraper.getMovies`, which scrapes
the IMDb Top 250 chart. The browser and HTML parser, the OMDb web
service, the environment and the clock are parameters: the link targets,
`fetch`, `apiKey` and `date`. Nothing is written to disk; the files the
run would write are returned instead, as the lines of `movies.json` and
the thumbnail paths. The model covers four parts.

- **Title links** (module `TitleLinks`). The anchored pattern
  `^/title/(\w+)` is matched against one link target. `\w` is Java's
  `[A-Za-z0-9_]`. The identifier is the text after the last `/` of the
  match, as `substring(lastIndexOf('/') + 1)` computes it. The model
  proves that this is exactly the greedy word run after `/title/`.
- **Extraction** (module `Extraction`, with module `Runs`). The loop over
  the link targets keeps a mutable `lastFoundId` and appends each
  identifier that differs from it. It is proved equal to a reference
  definition: match every target, keep the identifiers, then drop every
  identifier equal to its immediate predecessor (`CollapseRuns`). Run-length
  encoding pins down `CollapseRuns` in `Runs`. Two consequences are
  proved:
  - a link that does not match never separates two equal identifiers;
  - an identifier that comes back after a different one is kept, so the
    list can hold repeats.
- **Report** (module `Report`). The counted loop prints `movies.json` and
  names one thumbnail file per movie. It is proved equal to `ReportLines`
  and `ThumbnailPaths`. `ReportLines` has an inverse, `ParseReport`, and
  the two are proved inverse in both directions. Thumbnail paths have an
  inverse too, so distinct movies never share a thumbnail file.
- **Scraper** (module `Scraper`). `GetMovies` composes extraction and the
  report.

Three behaviours of `getMovies` worth knowing. The model reproduces the
first and the third, and leaves the second out (see below).

- Only adjacent duplicates are suppressed. An identifier that comes back
  after a different one is appended again (`NonAdjacentRepeatKept`).
- A record without a `Poster` field makes `rootNode.get("Poster")` return
  `null` (line 90). That line sits outside the `try` of lines 93-97, so the
  dereference aborts the whole run, not only that movie's image. The model
  leaves the poster step out (see below).
- A missing `OMDB_API_KEY` makes `System.getenv` return `null`, which the
  string concatenation of line 81 turns into the text `null`. The model
  takes the key as any string `apiKey`, and that case is `apiKey == "null"`.

## Model

| member | source | states |
|---|---|---|
| TitleLinks.IsTitleLink | app/src/main/java/com/toedter/movies/MovieScraper.java:54 | the anchored match condition; a matching target starts with `/` and has no `/` right after `/title/` |
| TitleLinks.FindTitle | app/src/main/java/com/toedter/movies/MovieScraper.java:58-60 | `find()` succeeds exactly when the match condition holds, and `group()` is the target up to the end of the greedy match |
| TitleLinks.WordRun | app/src/main/java/com/toedter/movies/MovieScraper.java:54 | the greedy `\w+` length: every character before it is a word character, and the one at it (if any) is not |
| TitleLinks.MatchEnd | app/src/main/java/com/toedter/movies/MovieScraper.java:54 | a successful match ends strictly after `/title/` and within the target |
| TitleLinks.LastIndexOf | app/src/main/java/com/toedter/movies/MovieScraper.java:61 | `lastIndexOf`: -1 exactly when the character is absent, otherwise a position holding it with no later occurrence |
| TitleLinks.TitleId | app/src/main/java/com/toedter/movies/MovieScraper.java:54-61 | a target yields an identifier exactly when it starts with `/title/` followed by a word character; the identifier is non-empty and is the text between `/title/` and the end of the greedy match |
| TitleLinks.TitleIdIsMaximalRun | app/src/main/java/com/toedter/movies/MovieScraper.java:54-61 | the identifier holds only word characters (so no `/`, `?`, `.` or `&`), the matched group is `/title/` plus it, and the character after the match is not a word character |
| TitleLinks.TitleIdOfLink | app/src/main/java/com/toedter/movies/MovieScraper.java:54-61 | the converse: `/title/` + a non-empty word run + anything not continuing the run yields exactly that run |
| TitleLinks.TitleIdOfBareLink | app/src/main/java/com/toedter/movies/MovieScraper.java:54-61 | `/title/` + a non-empty word run yields that run |
| TitleLinks.WordRunOf | app/src/main/java/com/toedter/movies/MovieScraper.java:54 | the greedy run over a word run followed by a non-word character has exactly the word run's length |
| TitleLinks.NoTitleIdWithoutPrefix | app/src/main/java/com/toedter/movies/MovieScraper.java:54-59 | the empty target, any target not starting with `/` (absolute URLs) and `/title//…` yield nothing |
| Runs.CollapseRuns | app/src/main/java/com/toedter/movies/MovieScraper.java:62-65 | dropping repeats never lengthens the sequence, and the last element, the final `lastFoundId`, survives |
| Runs.RunLengths | app/src/main/java/com/toedter/movies/MovieScraper.java:62-65 | a non-empty sequence has at least one run |
| Runs.RunLengthsShape | app/src/main/java/com/toedter/movies/MovieScraper.java:62-65 | one run length per kept element, and every run length is at least one |
| Runs.CollapseNoAdjacentRepeats | app/src/main/java/com/toedter/movies/MovieScraper.java:62-65 | no two consecutive kept elements are equal |
| Runs.CollapseKeepsFirst | app/src/main/java/com/toedter/movies/MovieScraper.java:46-63 | the first element is always kept |
| Runs.CollapseSameElements | app/src/main/java/com/toedter/movies/MovieScraper.java:62-65 | a value is kept exactly when it occurs in the input |
| Runs.CollapseFixesRepeatFree | app/src/main/java/com/toedter/movies/MovieScraper.java:62-65 | a sequence without adjacent repeats is left unchanged |
| Runs.CollapseIdempotent | app/src/main/java/com/toedter/movies/MovieScraper.java:62-65 | collapsing twice equals collapsing once |
| Runs.CollapseSnoc | app/src/main/java/com/toedter/movies/MovieScraper.java:62-65 | one more element is dropped exactly when it equals the previous one, and is appended otherwise |
| Runs.ExpandRunLengths | app/src/main/java/com/toedter/movies/MovieScraper.java:62-65 | round trip: repeating each kept element by its run length gives back the input |
| Runs.CollapseAppendRun | app/src/main/java/com/toedter/movies/MovieScraper.java:62-65 | appending a run of a value different from the last one adds exactly that value once |
| Runs.CollapseOfExpand | app/src/main/java/com/toedter/movies/MovieScraper.java:62-65 | uniqueness: a repeat-free sequence expanded by any positive run lengths collapses back to itself |
| Extraction.MatchedIds | app/src/main/java/com/toedter/movies/MovieScraper.java:56-61 | there are never more matched identifiers than links |
| Extraction.ExtractedIds | app/src/main/java/com/toedter/movies/MovieScraper.java:46-67 | the reference definition of the extracted list: never more identifiers than links, and never two equal neighbours |
| Extraction.ExtractIds | app/src/main/java/com/toedter/movies/MovieScraper.java:46-67 | the loop with `lastFoundId` returns exactly `CollapseRuns` of the matched identifiers in document order |
| Extraction.CollapseStep | app/src/main/java/com/toedter/movies/MovieScraper.java:46-65 | comparing with the last matched identifier, `""` before any match, decides the same as `CollapseRuns`, because identifiers are never empty |
| Extraction.MatchedIdsFromLinks | app/src/main/java/com/toedter/movies/MovieScraper.java:56-61 | every matched identifier is the identifier of some link |
| Extraction.MatchedIdsComplete | app/src/main/java/com/toedter/movies/MovieScraper.java:56-61 | every matching link contributes its identifier |
| Extraction.ExtractedIdsProperties | app/src/main/java/com/toedter/movies/MovieScraper.java:46-67 | the list is no longer than the links, has no two equal neighbours, and contains an identifier exactly when some link yields it |
| Extraction.ExtractedIdsAreWords | app/src/main/java/com/toedter/movies/MovieScraper.java:54-63 | every extracted identifier is a non-empty word run without `&` |
| Extraction.FirstMatchKept | app/src/main/java/com/toedter/movies/MovieScraper.java:46-63 | the first matching link's identifier is always the first entry |
| Extraction.ExtractedIdsRunLengths | app/src/main/java/com/toedter/movies/MovieScraper.java:56-67 | the matched identifiers are the list with each entry repeated by its run length |
| Extraction.AdjacentRepeatCollapsed | app/src/main/java/com/toedter/movies/MovieScraper.java:62-65 | `/title/A`, `/title/A`, `/title/B` gives `[A, B]` |
| Extraction.NonMatchingLinkDoesNotSeparate | app/src/main/java/com/toedter/movies/MovieScraper.java:56-66 | `/title/A`, a non-matching link, `/title/A` gives `[A]` |
| Extraction.NonAdjacentRepeatKept | app/src/main/java/com/toedter/movies/MovieScraper.java:62-65 | `/title/A`, `/title/B`, `/title/A` gives `[A, B, A]`: there is no global de-duplication |
| Extraction.ExtractedIdsOfThree | app/src/main/java/com/toedter/movies/MovieScraper.java:56-67 | the list for three links is the collapse of what each link yields, in order |
| Report.ThumbnailPath | app/src/main/java/com/toedter/movies/MovieScraper.java:92 | the path `MOVIEDIR` + `/thumbs/` + id + `.jpg`, from which the identifier is recovered exactly |
| Report.ThumbnailIdSound | app/src/main/java/com/toedter/movies/MovieScraper.java:92 | every path the inverse accepts is the thumbnail path of what it returns |
| Report.ThumbnailPathInjective | app/src/main/java/com/toedter/movies/MovieScraper.java:92 | two identifiers have the same thumbnail path exactly when they are equal |
| Report.ThumbnailPaths | app/src/main/java/com/toedter/movies/MovieScraper.java:76-92 | one thumbnail path per movie |
| Report.ThumbnailPathsDistinguish | app/src/main/java/com/toedter/movies/MovieScraper.java:76-92 | two movies of the list share a thumbnail path exactly when they are the same movie |
| Report.RequestUrl | app/src/main/java/com/toedter/movies/MovieScraper.java:81 | the request holds the identifier right after `?i=`, followed by `&r=json&apikey=` and the key |
| Report.RequestUrlIdentifies | app/src/main/java/com/toedter/movies/MovieScraper.java:80-81 | for identifiers without `&`, two requests are equal exactly when both the identifiers and the keys are equal: the identifier ends at the first `&` |
| Report.RequestUrlAmbiguousWithAmpersand | app/src/main/java/com/toedter/movies/MovieScraper.java:81 | without that restriction the concatenation is ambiguous: identifier `x&r=json&apikey=y` with an empty key gives the same request as `x` with key `y&r=json&apikey=` |
| Report.Fetched | app/src/main/java/com/toedter/movies/MovieScraper.java:76-85 | one record per movie |
| Report.RecordLines | app/src/main/java/com/toedter/movies/MovieScraper.java:76-88 | one line per record |
| Report.ReportLines | app/src/main/java/com/toedter/movies/MovieScraper.java:71-100 | the file is one object: it opens with `{`, closes with `}`, and has five lines besides the records |
| Report.ReportShape | app/src/main/java/com/toedter/movies/MovieScraper.java:71-100 | `n + 5` lines: `{`, the date line, `  "movies": [`, then record `i` indented by four spaces with `,` exactly when `i < n - 1`, then `  ]` and `}` |
| Report.EmptyReport | app/src/main/java/com/toedter/movies/MovieScraper.java:71-100 | with no movies, `  "movies": [` is directly followed by `  ]` |
| Report.DateLine | app/src/main/java/com/toedter/movies/MovieScraper.java:72 | the `"date"` line, from which the date is recovered exactly |
| Report.DateLineSound | app/src/main/java/com/toedter/movies/MovieScraper.java:72 | every line the date reader accepts is the date line of what it returns |
| Report.RecordLine | app/src/main/java/com/toedter/movies/MovieScraper.java:87-88 | a movie's line, from which the record is recovered exactly, the comma required unless it is the last line |
| Report.RecordLineSound | app/src/main/java/com/toedter/movies/MovieScraper.java:87-88 | every line the record reader accepts is the record line of what it returns |
| Report.RecordLinesCons | app/src/main/java/com/toedter/movies/MovieScraper.java:76-88 | the first record's line carries the comma exactly when more records follow |
| Report.RecordLinesRoundTrip | app/src/main/java/com/toedter/movies/MovieScraper.java:76-88 | the records are recovered from their lines |
| Report.RecordLinesSound | app/src/main/java/com/toedter/movies/MovieScraper.java:76-88 | every line sequence the reader accepts is the record lines of what it returns |
| Report.ReportRoundTrip | app/src/main/java/com/toedter/movies/MovieScraper.java:70-101 | reading the file back gives the date and every record, in order |
| Report.ParseReportSound | app/src/main/java/com/toedter/movies/MovieScraper.java:70-101 | every file the reader accepts is exactly the file written for what it returns, so the layout determines date and records |
| Report.WriteReport | app/src/main/java/com/toedter/movies/MovieScraper.java:70-101 | the counted loop prints exactly `ReportLines` for the fetched records and names exactly `ThumbnailPaths`, in movie order |
| Scraper.GetMovies | app/src/main/java/com/toedter/movies/MovieScraper.java:46-101 | the run writes the report of the extracted identifiers and names their thumbnails |
| Scraper.MovieReport | app/src/main/java/com/toedter/movies/MovieScraper.java:46-101 | the file of a run has one line per extracted movie plus five |
| Scraper.MovieReportShape | app/src/main/java/com/toedter/movies/MovieScraper.java:46-101 | the file has one line per extracted movie plus five, at most the number of links plus five, and reads back as the date and the records |
| Scraper.ConsecutiveThumbnailsDiffer | app/src/main/java/com/toedter/movies/MovieScraper.java:62-92 | two consecutive posters are never saved to the same file |
| Scraper.ConsecutiveRequestsDiffer | app/src/main/java/com/toedter/movies/MovieScraper.java:62-81 | two consecutive requests never ask for the same movie |

## Left out

- The Chrome browser session, the scroll script and the two-second wait
  (lines 33-41). These are browser automation and timing, so the page is
  not modelled.
- Jsoup parsing and the `a[href]` selection (lines 44, 51). The input is
  the sequence of `href` values in document order.
- The general regular-expression engine (lines 54, 58-59). The one pattern
  is written out as string functions.
- The OMDb request, the JSON parsing and `rootNode.toString()` (lines
  78-88). These are network I/O and a foreign library. They are the
  parameter `fetch`, a function from the request URL to the record text,
  so the same request always gives the same answer.
- The `OMDB_API_KEY` lookup (line 79) is the parameter `apiKey`.
- The `Poster` lookup, its `null` dereference when the field is missing,
  and `saveImage` with its `IOException` handler (lines 90, 93-97,
  104-118). These are a foreign library and stream and file I/O. The model
  records only the thumbnail path each poster would be saved to.
- `SimpleDateFormat` and `new Date()` (lines 30, 72). These are the clock
  and a library formatter, so the formatted date is the parameter `date`.
- Creating and closing the `PrintWriter` (lines 70, 101), the console
  message (line 69) and logging (line 96). The output is the sequence of
  lines printed.
- `main` (lines 120-123) only calls `getMovies`.
- Report.WriteReport and Scraper.GetMovies: a request that fails
  (`getForEntity`, lines 80-82, throws on a network error or an error
  status) or an answer that is not JSON (`readValue`, line 85) aborts the
  run after the lines printed so far, without reaching `close()` at line
  101. This is not modelled: `fetch` is total, so the contracts describe a
  run in which every request succeeds.
- Report.WriteReport and Scraper.GetMovies: `lines` and `thumbs` are two
  separate sequences, so the order in which the source interleaves printing
  line `i` and saving poster `i` is not represented.
- Report.ParseReport: reads the layout of the lines only. The record texts
  are opaque, so it does not check that the file is valid JSON.
