/**
  The two writers: a CSV table with a fixed header and a JSON envelope
  around the record list. Both refuse an empty list before touching the file
  system. Whether the file can be written is a parameter; quoting,
  pretty-printing and the file names are left to the serialisation
  libraries.
 */
module Storage {
  import opened Options
  import opened Text
  import opened Scraper

  /** The CSV header, in column order. */
  const FieldNames: seq<string> :=
    ["rank", "username", "name", "repo_description", "avatar_url", "profile_url", "popular_repo", "scraped_at"]

  /** What a writer did: refused an empty list, failed to write, or wrote this document. */
  datatype Saved<T> = Refused | WriteFailed | Written(document: T) {
    /** The boolean the writer returns. */
    predicate Succeeded() {
      Written?
    }
  }

  /** A CSV file: the header row and one row of cells per record. */
  datatype CsvTable = CsvTable(header: seq<string>, rows: seq<seq<string>>)

  /** The JSON document: the run's timestamp, the record count and the records. */
  datatype Envelope = Envelope(scrapedAt: string, totalDevelopers: nat, developers: seq<Developer>)

  /**
    The text written for the record's entry under `key`; an unknown key gives
    the empty string, as the CSV writer's default for missing keys does.
   */
  function FieldValue(d: Developer, key: string): string {
    if key == "rank" then NatToString(d.rank)
    else if key == "username" then d.username
    else if key == "name" then d.name
    else if key == "repo_description" then d.repoDescription
    else if key == "avatar_url" then d.avatarUrl
    else if key == "profile_url" then d.profileUrl
    else if key == "popular_repo" then d.popularRepo
    else if key == "scraped_at" then d.scrapedAt
    else ""
  }

  /**
    The cells of one record, one per header column: the record's fields in the
    header's order, the rank written in decimal.
   */
  function CsvRow(d: Developer): (cells: seq<string>)
    ensures |cells| == |FieldNames|
    ensures forall k :: 0 <= k < |FieldNames| ==> cells[k] == FieldValue(d, FieldNames[k])
    ensures cells == [NatToString(d.rank), d.username, d.name, d.repoDescription,
                      d.avatarUrl, d.profileUrl, d.popularRepo, d.scrapedAt]
  {
    seq(|FieldNames|, k requires 0 <= k < |FieldNames| => FieldValue(d, FieldNames[k]))
  }

  /** The data rows of the table, one per record in order. */
  function CsvRows(developers: seq<Developer>): (rows: seq<seq<string>>)
    ensures |rows| == |developers|
    ensures forall j :: 0 <= j < |developers| ==> rows[j] == CsvRow(developers[j])
  {
    seq(|developers|, j requires 0 <= j < |developers| => CsvRow(developers[j]))
  }

  /** `save_to_csv`: refuses an empty list; otherwise the header and one row per record, in order. */
  function SaveToCsv(developers: seq<Developer>, writeSucceeds: bool): (r: Saved<CsvTable>)
    ensures developers == [] ==> r.Refused?
    ensures r.Succeeded() <==> developers != [] && writeSucceeds
    ensures r.Written? ==> r.document.header == FieldNames && r.document.rows == CsvRows(developers)
  {
    if developers == [] then Refused
    else if !writeSucceeds then WriteFailed
    else Written(CsvTable(FieldNames, CsvRows(developers)))
  }

  /** `save_to_json`: refuses an empty list; otherwise the envelope around the list. */
  function SaveToJson(developers: seq<Developer>, runStamp: string, writeSucceeds: bool): (r: Saved<Envelope>)
    ensures developers == [] ==> r.Refused?
    ensures r.Succeeded() <==> developers != [] && writeSucceeds
    ensures r.Written? ==> r.document.totalDevelopers == |developers| && r.document.developers == developers
    ensures r.Written? ==> r.document.scrapedAt == runStamp
  {
    if developers == [] then Refused
    else if !writeSucceeds then WriteFailed
    else Written(Envelope(runStamp, |developers|, developers))
  }

  /** The header names no column twice, so every key names one column. */
  lemma FieldNamesDistinct()
    ensures forall k, l :: 0 <= k < l < |FieldNames| ==> FieldNames[k] != FieldNames[l]
  {
  }

  /** The column a key names in a header, if any: the first one with that name. */
  function IndexOf(header: seq<string>, key: string): (k: Option<nat>)
    ensures k.Some? ==> k.value < |header| && header[k.value] == key
    ensures k.None? ==> key !in header
  {
    if header == [] then None
    else if header[0] == key then Some(0)
    else match IndexOf(header[1..], key)
         case None => None
         case Some(k) => Some(k + 1)
  }

  /** The cell under the column `key`, if the header has it and the row reaches it. */
  function Cell(header: seq<string>, cells: seq<string>, key: string): Option<string> {
    match IndexOf(header, key)
    case None => None
    case Some(k) => if k < |cells| then Some(cells[k]) else None
  }

  /** Reads one CSV row back into a record by its column names, as a dictionary reader would. */
  function DecodeRow(header: seq<string>, cells: seq<string>): Option<Developer> {
    var rank := Cell(header, cells, "rank");
    var username := Cell(header, cells, "username");
    var name := Cell(header, cells, "name");
    var description := Cell(header, cells, "repo_description");
    var avatar := Cell(header, cells, "avatar_url");
    var profile := Cell(header, cells, "profile_url");
    var repo := Cell(header, cells, "popular_repo");
    var stamp := Cell(header, cells, "scraped_at");
    if rank.Some? && IsDecimal(rank.value) && username.Some? && name.Some? && description.Some?
       && avatar.Some? && profile.Some? && repo.Some? && stamp.Some?
    then Some(Developer(ParseNat(rank.value), name.value, profile.value, username.value, avatar.value,
                        repo.value, description.value, stamp.value))
    else None
  }

  /** Reads a CSV table back into records, in row order. */
  function ReadCsv(table: CsvTable): Option<seq<Developer>>
    decreases |table.rows|
  {
    if table.rows == [] then Some([])
    else
      match DecodeRow(table.header, table.rows[0])
      case None => None
      case Some(d) =>
        match ReadCsv(CsvTable(table.header, table.rows[1..]))
        case None => None
        case Some(ds) => Some([d] + ds)
  }

  /** Each of the eight keys names its own column of the header. */
  lemma FieldColumns()
    ensures IndexOf(FieldNames, "rank") == Some(0) && IndexOf(FieldNames, "username") == Some(1)
    ensures IndexOf(FieldNames, "name") == Some(2) && IndexOf(FieldNames, "repo_description") == Some(3)
    ensures IndexOf(FieldNames, "avatar_url") == Some(4) && IndexOf(FieldNames, "profile_url") == Some(5)
    ensures IndexOf(FieldNames, "popular_repo") == Some(6) && IndexOf(FieldNames, "scraped_at") == Some(7)
  {
  }

  /** Every record survives its CSV row: all eight fields come back under their column names. */
  lemma DecodeCsvRow(d: Developer)
    ensures DecodeRow(FieldNames, CsvRow(d)) == Some(d)
  {
    var cells := CsvRow(d);
    FieldColumns();
    assert Cell(FieldNames, cells, "rank") == Some(NatToString(d.rank));
    assert Cell(FieldNames, cells, "username") == Some(d.username);
    assert Cell(FieldNames, cells, "name") == Some(d.name);
    assert Cell(FieldNames, cells, "repo_description") == Some(d.repoDescription);
    assert Cell(FieldNames, cells, "avatar_url") == Some(d.avatarUrl);
    assert Cell(FieldNames, cells, "profile_url") == Some(d.profileUrl);
    assert Cell(FieldNames, cells, "popular_repo") == Some(d.popularRepo);
    assert Cell(FieldNames, cells, "scraped_at") == Some(d.scrapedAt);
    ParseNatToString(d.rank);
  }

  /** Reading a table whose first row decodes: that record, then the rest. */
  lemma ReadCsvFirst(header: seq<string>, row: seq<string>, rest: seq<seq<string>>, d: Developer, ds: seq<Developer>)
    requires DecodeRow(header, row) == Some(d) && ReadCsv(CsvTable(header, rest)) == Some(ds)
    ensures ReadCsv(CsvTable(header, [row] + rest)) == Some([d] + ds)
  {
    assert ([row] + rest)[1..] == rest;
  }

  /** A table reads back as the records its rows decode to, one by one. */
  lemma {:induction false} ReadCsvRows(header: seq<string>, rows: seq<seq<string>>, developers: seq<Developer>)
    requires |rows| == |developers|
    requires forall j :: 0 <= j < |rows| ==> DecodeRow(header, rows[j]) == Some(developers[j])
    ensures ReadCsv(CsvTable(header, rows)) == Some(developers)
    decreases |rows|
  {
    if rows != [] {
      ReadCsvRows(header, rows[1..], developers[1..]);
      assert [rows[0]] + rows[1..] == rows;
      ReadCsvFirst(header, rows[0], rows[1..], developers[0], developers[1..]);
      assert [developers[0]] + developers[1..] == developers;
    }
  }

  /** Round trip: a CSV file the writer produced reads back as the list it was given. */
  lemma CsvRoundTrip(developers: seq<Developer>, writeSucceeds: bool)
    requires SaveToCsv(developers, writeSucceeds).Written?
    ensures ReadCsv(SaveToCsv(developers, writeSucceeds).document) == Some(developers)
  {
    var rows := CsvRows(developers);
    forall j | 0 <= j < |rows|
      ensures DecodeRow(FieldNames, rows[j]) == Some(developers[j])
    {
      DecodeCsvRow(developers[j]);
    }
    ReadCsvRows(FieldNames, rows, developers);
  }

  /** Reads a JSON envelope back: the records, when the stated count agrees with them. */
  function ReadJson(e: Envelope): Option<seq<Developer>> {
    if e.totalDevelopers == |e.developers| then Some(e.developers) else None
  }

  /**
    Round trip: a JSON file the writer produced reads back as the list it was
    given. This restates, as a reading of the file, the count and identity
    clauses of `SaveToJson`.
   */
  lemma JsonRoundTrip(developers: seq<Developer>, runStamp: string, writeSucceeds: bool)
    requires SaveToJson(developers, runStamp, writeSucceeds).Written?
    ensures ReadJson(SaveToJson(developers, runStamp, writeSucceeds).document) == Some(developers)
    ensures SaveToJson(developers, runStamp, writeSucceeds).document.totalDevelopers > 0
  {
  }

  /** When both writers succeed on one list, the two files carry the same records in the same order. */
  lemma FormatsAgree(developers: seq<Developer>, runStamp: string, csvWrites: bool, jsonWrites: bool)
    requires SaveToCsv(developers, csvWrites).Written? && SaveToJson(developers, runStamp, jsonWrites).Written?
    ensures ReadCsv(SaveToCsv(developers, csvWrites).document) == ReadJson(SaveToJson(developers, runStamp, jsonWrites).document)
  {
    CsvRoundTrip(developers, csvWrites);
  }

  /**
    The JSON file of a scrape counts the accepted rows, at most the number of
    rows on the page, and lists them with strictly increasing positional ranks.
   */
  lemma ScrapeEnvelope(rows: seq<Element>, clock: Clock, runStamp: string, writeSucceeds: bool)
    requires SaveToJson(Developers(rows, clock), runStamp, writeSucceeds).Written?
    ensures var e := SaveToJson(Developers(rows, clock), runStamp, writeSucceeds).document;
            1 <= e.totalDevelopers <= |rows| && RanksWithin(e.developers, |rows|) && StrictlyIncreasing(e.developers)
  {
    DevelopersRanks(rows, clock);
    WarningsName(Outcomes(rows, clock), |rows|);
  }
}
