# GitHub trending developers scraper: a Dafny model of its decision core

The scraper fetches GitHub's "trending developers" page once, turns every
listing row (an `article.Box-row` element) into a developer record with eight
fields, keeps the records that have a name or a username, writes them to a CSV
file and a JSON file, and prints a preview table of the first ten.

This project models the deterministic part of that pipeline and proves what it
promises:

- **Row extraction with fallbacks** (`scraper.dfy`, module `Scraper`). A row is
  an abstract `Element`: either a `Row` whose optional fields say which of the
  sub-nodes the scraper looks for exist (the `h1.h3` name heading and its
  link, the `p.f4` paragraph and its link, the `img.avatar-user` image and its
  `src`, the nested repository `article` with its `h1.h4` heading and its
  description `div`), or a `Malformed` row whose parsing raises. `Candidate`
  builds the record field by field with the scraper's fallbacks; `ParseRow`
  applies the name-or-username filter; `ScrapeTrendingDevelopers` is the
  listing loop, proved against the specification function `Developers`. The
  lemmas prove that the rank is the row's 1-based position, assigned before
  filtering and never renumbered; that kept ranks strictly increase and lie in
  `1..|rows|`; that a row is kept exactly when it parses and has a name or a
  username; and that a row that raises is skipped with a warning naming its
  number, while the counter still advances.
- **Whitespace trimming** (`text.dfy`, module `Text`). `Strip` is Python's
  `str.strip()` over the exact character set of `str.isspace()`, with a
  specification that determines it uniquely. `NatToString` is `str(n)` and
  `ParseNat` reads it back.
- **Preview** (`display.dfy`, module `Display`). `Truncate` is the per-column
  rule with budgets 18 (username), 23 (name), 23 (popular repository) and 28
  (description): a longer string keeps its first `b` characters and gains
  `"..."`, so it is `b + 3` characters long. `DisplayResults` builds at most
  ten rows, in order, and the "N more" count, present only past ten records.
- **Writers** (`storage.dfy`, module `Storage`). Both writers refuse an empty
  list. The CSV table has the fixed eight-name header and one row per record;
  reading it back by column name gives the list again. The JSON envelope's
  `total_developers` is the list's length and its `developers` is the list
  unchanged.

The clock, the network and the file system are parameters: `Clock` gives the
timestamp a kept row receives (the value of `datetime.now().isoformat()` at
that moment), `Page` is either the fetched rows or a failure message, and each
writer takes the run timestamp and whether writing the file succeeds.

A truncated preview cell keeps its first `b` characters and then `"..."`, so
it is `b + 3` characters long (`Display.Truncate`,
`Display.TruncateUnchangedIff`).

## Model

| member | source | states |
|---|---|---|
| `Text.StripStartSpec` | main.py:56 | the leading part `strip()` removes is all whitespace, and what remains starts with a non-space |
| `Text.StripEndSpec` | main.py:56 | the trailing part `strip()` removes is all whitespace, and what remains ends with a non-space |
| `Text.Strip` | main.py:56 | the result of `strip()` has no whitespace at either edge and is no longer than its argument |
| `Text.StripSpec` | main.py:56 | the result of `strip()` is an infix of its argument with only whitespace on either side, which with `Strip`'s own contract determines it |
| `Text.StripStartAt` | main.py:56 | `strip()`'s leading cut ends exactly at the first non-space character |
| `Text.StripEndAt` | main.py:56 | `strip()`'s trailing cut starts exactly after the last non-space character |
| `Text.StripUnique` | main.py:56 | any infix of `s` with no edge whitespace and only whitespace around it is `strip(s)`: the specification of `Strip` has one solution |
| `Text.StripIdempotent` | main.py:56 | stripping twice is stripping once |
| `Text.StrippedIsFixed` | main.py:56 | a string without edge whitespace is left unchanged |
| `Text.NatToString` | main.py:160 | `str(rank)` is a non-empty string of decimal digits without a leading zero |
| `Text.ParseNatToString` | main.py:160 | reading back the decimal form of a number gives the number |
| `Scraper.Candidate` | main.py:50-91 | the fallback table: name and absolute profile link from a linked heading, heading text and no link from an unlinked one, both empty without a heading; username empty unless the paragraph and its link exist; avatar the image's `src` or empty; repository name from the link, else the heading text, else empty; description stripped or empty; both repository fields empty without the nested article; rank and timestamp as given |
| `Scraper.CandidateStripped` | main.py:56-88 | every extracted text field is trimmed at both edges |
| `Scraper.ParseRow` | main.py:49-99 | a row raises exactly when it is malformed; it is kept exactly when it parses and its name or its username is non-empty, and the kept record is the row's record under the given rank |
| `Scraper.Outcomes` | main.py:48-50 | one outcome per row, in document order (outcome `i` comes from row `i`), and every kept record's rank is its row's position plus one |
| `Scraper.ScrapeTrendingDevelopers` | main.py:37-108 | a failed fetch gives no records and no warnings; otherwise the loop returns exactly the kept records in document order and the numbers of the rows that raised |
| `Scraper.ExtractedRanks` | main.py:48-95 | kept ranks lie in `1..n` and strictly increase |
| `Scraper.ExtractedFromRow` | main.py:48-95 | every kept record is the accepted outcome of the row at position `rank - 1` |
| `Scraper.AcceptedKept` | main.py:93-95 | every accepted row's record is in the output |
| `Scraper.WarningsName` | main.py:97-99 | the warnings name exactly the rows that raised, and no more records and warnings come out than rows go in |
| `Scraper.DevelopersRanks` | main.py:48-95 | the returned records have strictly increasing ranks within `1..|rows|` |
| `Scraper.RetainedIff` | main.py:93-95 | a record of rank `i + 1` is returned if and only if row `i` is accepted, and it is then that row's record |
| `Scraper.WarningsIff` | main.py:97-99 | row `i` is named in a warning if and only if it raised |
| `Scraper.NamedRowAccepted` | main.py:52-57 | a row with only a linked name heading is kept |
| `Scraper.ThirdRowRaises` | main.py:48-99 | with three good rows and a failing third row, the kept ranks are 1, 2 and 4 and the warning names row 3 |
| `Scraper.ThirdOfFourRaised` | main.py:48-99 | over four outcomes where only the third raised, the kept ranks are 1, 2 and 4 and the single warning names 3 |
| `Scraper.MiddleOfThreeAnonymous` | main.py:93-95 | over three outcomes where only the middle one has no name and no username, the kept ranks are 1 and 3 and there are no warnings |
| `Scraper.MiddleRowDropped` | main.py:48-99 | a row without name and username between two good rows is dropped silently, and the kept ranks stay 1 and 3 |
| `Display.Truncate` | main.py:161-164 | a string over its budget becomes its first `b` characters and `"..."`, `b + 3` long; any other string is unchanged |
| `Display.TruncateUnchangedIff` | main.py:161-164 | a cell equals its string exactly when the string fits the budget or already is a `b`-character head followed by `"..."` |
| `Display.TruncateIdempotent` | main.py:161-164 | truncating a truncated cell changes nothing |
| `Display.RowFor` | main.py:159-165 | a preview row holds the rank in decimal, which reads back as the rank, and the four text columns cut to 18, 23, 23 and 28 |
| `Display.DisplayResults` | main.py:144-170 | an empty list gives only the "no developers" message; otherwise the first `min(n, 10)` records' rows, in order, and a "more" count present exactly when `n > 10`, equal to `n - 10` |
| `Storage.CsvRow` | main.py:114-120 | a record's CSV row is its rank in decimal, username, name, repository description, avatar URL, profile URL, popular repository and timestamp, in the header's column order |
| `Storage.SaveToCsv` | main.py:110-124 | an empty list is refused whatever the file system does; the writer reports success exactly when the list is non-empty and the write succeeds; the file has the fixed header and the records' rows |
| `Storage.FieldNamesDistinct` | main.py:114 | no column name appears twice in the header |
| `Storage.FieldColumns` | main.py:114 | the header order is rank, username, name, repo_description, avatar_url, profile_url, popular_repo, scraped_at |
| `Storage.DecodeCsvRow` | main.py:114-120 | every field of a record comes back from its CSV row under its column name |
| `Storage.CsvRoundTrip` | main.py:114-120 | a CSV file the writer produced reads back as the list it was given |
| `Storage.SaveToJson` | main.py:126-142 | an empty list is refused; success exactly when the list is non-empty and the write succeeds; the envelope's count is the list's length and its records are the list unchanged, under the run timestamp |
| `Storage.JsonRoundTrip` | main.py:130-134 | a written envelope's count agrees with its records, which are the input list, and is positive |
| `Storage.FormatsAgree` | main.py:110-134 | when both writers succeed on one list, the CSV and JSON files carry the same records in the same order |
| `Storage.ScrapeEnvelope` | main.py:130-134 | the JSON file of a scrape counts between 1 and `|rows|` records, with strictly increasing positional ranks |

## Left out

- The HTTP request (URL, headers, 30-second timeout, `raise_for_status`) is network I/O; a fetch that fails, and any other error raised before the row loop, is the `Page.Unavailable` case, which yields no records.
- An error raised inside the row loop but outside the per-row handler (for instance the warning print at main.py:98 itself failing on rich markup in the exception text) makes `scrape_trending_developers` return `[]` through main.py:106 and lose the records already kept; the model always records the warning and continues.
- The HTML parser and the semantics of `find`, `find_all` and class matching belong to a foreign library; each row is an abstract `Element` whose optional fields say which sub-nodes the searches would find.
- Which sub-structure makes a row raise is not modelled: a row that raises at any point is `Element.Malformed`, and since the partly built record is discarded, where it raised makes no difference.
- A heading's text is taken as given (`Heading.text`); how the parser joins the text of nested nodes is the library's.
- A link without an `href` attribute would give the profile link `"https://github.comNone"`; the model takes `href` to be a string.
- `datetime.now()` and the file-name timestamp are clock reads: per-record timestamps come from the `Clock` parameter, the JSON envelope's timestamp is the `runStamp` parameter, and file names are not modelled.
- File writing, directory creation, CSV quoting and JSON pretty-printing are file-system and serialisation-library work; whether a write succeeds is a boolean parameter of each writer, and the files are modelled as the table and the envelope they hold.
- The console output (panels, progress bar, colours, column widths 6/20/25/25/30 of the preview table) is UI; only the strings handed to the table and the "more" count are modelled. A truncated cell (`b + 3` characters) is one character wider than its column; the table library decides how it is shown.
- The orchestration in `main()` (the interruption and catch-all handlers, the success and failure messages) is control flow around I/O.
