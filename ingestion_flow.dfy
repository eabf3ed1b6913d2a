/** The ingestion flow: every row of a file is validated and goes either to
    `stg_movies`, as its coerced projection, or to `stg_rejects`, as the raw row with the
    validator's reason. */
module IngestionFlow {
  import opened Records
  import opened Validator
  import opened Routing
  import opened Seqs

  /** Routes every row of `rows`, read from `path`, into the staging tables and returns
      how many rows went to each. The tables receive, in input order, exactly the clean
      rows and the reject entries of the batch, and every row is counted once. */
  method RunIngestion(db: Staging, path: string, rows: seq<RawRecord>) returns (inserted: nat, rejected: nat)
    modifies db
    ensures db.movies == old(db.movies) + CleanRows(rows)
    ensures db.rejects == old(db.rejects) + RejectRows(path, rows)
    ensures inserted == |CleanRows(rows)| && rejected == |RejectRows(path, rows)|
    ensures inserted + rejected == |rows|
  {
    inserted, rejected := 0, 0;
    var i := 0;
    TakeNone(rows);
    AppendEmpty(db.movies);
    AppendEmpty(db.rejects);
    RoutingEmpty(path);
    while i < |rows|
      invariant 0 <= i <= |rows|
      invariant db.movies == old(db.movies) + CleanRows(rows[..i])
      invariant db.rejects == old(db.rejects) + RejectRows(path, rows[..i])
      invariant |db.movies| == |old(db.movies)| + inserted && |db.rejects| == |old(db.rejects)| + rejected
    {
      var accepted := RouteRow(db, path, rows, i, old(db.movies), old(db.rejects));
      // `rejected += 1; continue` for a refused row, `inserted += 1` for an accepted one
      inserted, rejected := inserted + (if accepted then 1 else 0), rejected + (if accepted then 0 else 1);
      i := i + 1;
    }
    TakeAll(rows);
    RoutedCounts(path, rows);
  }

  /** One pass of the loop over row `i`: validate it, then insert either its reject
      entry or its clean row. `movies0` and `rejects0` are the tables before the batch. */
  method RouteRow(db: Staging, path: string, rows: seq<RawRecord>, i: nat, ghost movies0: seq<CleanRecord>, ghost rejects0: seq<RejectRecord>)
    returns (accepted: bool)
    requires i < |rows|
    requires db.movies == movies0 + CleanRows(rows[..i])
    requires db.rejects == rejects0 + RejectRows(path, rows[..i])
    modifies db
    ensures db.movies == movies0 + CleanRows(rows[..i + 1])
    ensures db.rejects == rejects0 + RejectRows(path, rows[..i + 1])
    ensures |db.movies| == |old(db.movies)| + (if accepted then 1 else 0)
    ensures |db.rejects| == |old(db.rejects)| + (if accepted then 0 else 1)
  {
    var r := rows[i];
    ghost var done := rows[..i];
    TakeSnoc(rows, i);
    var isValid, errorReason := ValidateMovie(r);
    if !isValid {
      RejectStep(path, done, r);
      AppendAssoc(rejects0, RejectRows(path, done), [RejectOf(path, r)]);
      db.InsertReject(RejectRecord(path, r, errorReason));
      return false;
    }
    // the coercions cannot raise on an accepted row
    AcceptStep(path, done, r);
    var clean := Project(r).value;
    AppendAssoc(movies0, CleanRows(done), [clean]);
    db.InsertMovie(clean);
    return true;
  }
}
