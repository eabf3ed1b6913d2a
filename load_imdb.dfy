/** The CSV loader: the same routing as the ingestion flow, and in addition one row per
    refused row in the rejected-rows CSV log. */
module LoadImdb {
  import opened Wrappers
  import opened Text
  import opened Records
  import opened Validator
  import opened Routing
  import opened Seqs

  /** The log's header row, written when the log file is created. */
  const LogHeader: seq<string> := ["source_file", "rank", "title", "year", "rating", "votes", "error_reason"]

  /** A value as `csv.writer` writes it: `None` becomes the empty field. */
  function Cell(v: Option<string>): string {
    v.GetOr("")
  }

  /** The log row of a reject entry: the source file, the raw Rank, the stripped Title,
      the raw Year, Rating and Votes, and the reason. */
  function LogRow(e: RejectRecord): seq<string> {
    [e.sourceFile,
     Cell(Get(e.rawRecord, RankKey)),
     StripOr(Get(e.rawRecord, TitleKey)),
     Cell(Get(e.rawRecord, YearKey)),
     Cell(Get(e.rawRecord, RatingKey)),
     Cell(Get(e.rawRecord, VotesKey)),
     e.errorReason]
  }

  /** The log rows a batch appends, one per reject entry. */
  function LogRows(path: string, rows: seq<RawRecord>): seq<seq<string>> {
    Map(RejectRows(path, rows), LogRow)
  }

  /** The rejected-rows log, opened for appending; `writerow` appends one row. */
  class RejectLog {
    var lines: seq<seq<string>>

    /** A log holding `existing` rows (empty when the file does not exist yet). */
    constructor (existing: seq<seq<string>>)
      ensures lines == existing
    {
      lines := existing;
    }

    method WriteRow(row: seq<string>)
      modifies this
      ensures lines == old(lines) + [row]
    {
      lines := lines + [row];
    }
  }

  /** Loads `rows`, read from `path`: writes the header first when the log did not
      exist, then routes every row into the staging tables, logging each refused row.
      Returns how many rows went to each table. */
  method LoadImdbCsv(db: Staging, log: RejectLog, logExists: bool, path: string, rows: seq<RawRecord>)
    returns (inserted: nat, rejected: nat)
    modifies db, log
    ensures db.movies == old(db.movies) + CleanRows(rows)
    ensures db.rejects == old(db.rejects) + RejectRows(path, rows)
    ensures log.lines == old(log.lines) + (if logExists then [] else [LogHeader]) + LogRows(path, rows)
    ensures inserted == |CleanRows(rows)| && rejected == |RejectRows(path, rows)|
    ensures inserted + rejected == |rows|
  {
    if !logExists {
      log.WriteRow(LogHeader);
    } else {
      AppendEmpty(log.lines);
    }
    ghost var lines0 := log.lines;
    inserted, rejected := 0, 0;
    var i := 0;
    TakeNone(rows);
    AppendEmpty(db.movies);
    AppendEmpty(db.rejects);
    AppendEmpty(log.lines);
    RoutingEmpty(path);
    assert LogRows(path, rows[..0]) == [];
    while i < |rows|
      invariant 0 <= i <= |rows|
      invariant db.movies == old(db.movies) + CleanRows(rows[..i])
      invariant db.rejects == old(db.rejects) + RejectRows(path, rows[..i])
      invariant log.lines == lines0 + LogRows(path, rows[..i])
      invariant |db.movies| == |old(db.movies)| + inserted && |db.rejects| == |old(db.rejects)| + rejected
    {
      var accepted := LoadRow(db, log, path, rows, i, old(db.movies), old(db.rejects), lines0);
      // `rejected += 1 ... continue` for a refused row, `inserted += 1` for an accepted one
      inserted, rejected := inserted + (if accepted then 1 else 0), rejected + (if accepted then 0 else 1);
      i := i + 1;
    }
    TakeAll(rows);
    RoutedCounts(path, rows);
  }

  /** One pass of the loop over row `i`: validate it, then either insert its reject
      entry and log it, or insert its clean row. */
  method LoadRow(db: Staging, log: RejectLog, path: string, rows: seq<RawRecord>, i: nat,
                 ghost movies0: seq<CleanRecord>, ghost rejects0: seq<RejectRecord>, ghost lines0: seq<seq<string>>)
    returns (accepted: bool)
    requires i < |rows|
    requires db.movies == movies0 + CleanRows(rows[..i])
    requires db.rejects == rejects0 + RejectRows(path, rows[..i])
    requires log.lines == lines0 + LogRows(path, rows[..i])
    modifies db, log
    ensures db.movies == movies0 + CleanRows(rows[..i + 1])
    ensures db.rejects == rejects0 + RejectRows(path, rows[..i + 1])
    ensures log.lines == lines0 + LogRows(path, rows[..i + 1])
    ensures |db.movies| == |old(db.movies)| + (if accepted then 1 else 0)
    ensures |db.rejects| == |old(db.rejects)| + (if accepted then 0 else 1)
  {
    var r := rows[i];
    ghost var done := rows[..i];
    TakeSnoc(rows, i);
    var isValid, errorReason := ValidateMovie(r);
    if !isValid {
      RejectStep(path, done, r);
      RefuseRow(db, log, path, done, r, errorReason, rejects0, lines0);
      return false;
    }
    // the coercions cannot raise on an accepted row
    AcceptStep(path, done, r);
    LogStep(path, done, r);
    var clean := Project(r).value;
    AppendAssoc(movies0, CleanRows(done), [clean]);
    db.InsertMovie(clean);
    return true;
  }

  /** The refused branch of the loop body: insert the reject entry, then log it. */
  method RefuseRow(db: Staging, log: RejectLog, path: string, ghost done: seq<RawRecord>, r: RawRecord, errorReason: string,
                   ghost rejects0: seq<RejectRecord>, ghost lines0: seq<seq<string>>)
    requires Verdict(false, errorReason) == Validate(r)
    requires db.rejects == rejects0 + RejectRows(path, done)
    requires log.lines == lines0 + LogRows(path, done)
    modifies db, log
    ensures db.rejects == rejects0 + RejectRows(path, done + [r])
    ensures log.lines == lines0 + LogRows(path, done + [r])
    ensures db.movies == old(db.movies)
    ensures |db.rejects| == |old(db.rejects)| + 1
  {
    RejectStep(path, done, r);
    LogStep(path, done, r);
    var entry := RejectRecord(path, r, errorReason);
    AppendAssoc(rejects0, RejectRows(path, done), [entry]);
    AppendAssoc(lines0, LogRows(path, done), [LogRow(entry)]);
    db.InsertReject(entry);
    log.WriteRow(LogRow(entry));
  }

  /** Routing one more refused row appends the log row of its reject entry to the log
      rows; an accepted one appends nothing. */
  lemma LogStep(path: string, rows: seq<RawRecord>, row: RawRecord)
    ensures LogRows(path, rows + [row]) == LogRows(path, rows) + (if Validate(row).isValid then [] else [LogRow(RejectOf(path, row))])
  {
    if Validate(row).isValid {
      AcceptStep(path, rows, row);
      AppendEmpty(LogRows(path, rows));
    } else {
      RejectStep(path, rows, row);
      MapSnoc(RejectRows(path, rows), LogRow, RejectOf(path, row));
    }
  }

  /** The log and the rejects table agree one for one: log row `i` is made of the
      `i`-th refused row's source path, raw Rank, stripped Title, raw Year, Rating and
      Votes, and the same reason the rejects table records for it. */
  lemma LogMirrorsRejects(path: string, rows: seq<RawRecord>)
    ensures |LogRows(path, rows)| == |RejectRows(path, rows)| == |Refused(rows)|
    ensures forall i :: 0 <= i < |Refused(rows)| ==>
      var row := Refused(rows)[i];
      && LogRows(path, rows)[i] == [path, Cell(Get(row, RankKey)), StripOr(Get(row, TitleKey)),
                                    Cell(Get(row, YearKey)), Cell(Get(row, RatingKey)), Cell(Get(row, VotesKey)),
                                    Reason(row)]
      && LogRows(path, rows)[i][6] == RejectRows(path, rows)[i].errorReason
  {
    MapIndex(RejectRows(path, rows), LogRow);
    SelectKeeps(rows, Accepts, false);
    RejectsOfOneForOne(path, Refused(rows), Reason);
  }
}
