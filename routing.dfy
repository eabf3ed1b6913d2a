/**
  What the two batch loaders share: the typed row written to `stg_movies` for an
  accepted row, the entry written to `stg_rejects` for a refused one, the staging
  tables themselves, and the specification of one routing pass over a batch of rows.
 */
module Routing {

  import opened Wrappers
  import opened Text
  import opened Coerce
  import opened Records
  import opened Validator
  import opened Seqs

  /** A row of `stg_movies`: the stripped text columns and the coerced numbers. */
  datatype CleanRecord = CleanRecord(
    rankNum: Option<int>,
    title: string,
    genre: string,
    description: string,
    director: string,
    actors: string,
    year: Option<int>,
    runtimeMinutes: Option<int>,
    rating: Option<real>,
    votes: Option<int>,
    revenueMillions: Option<real>,
    metascore: Option<real>)

  /** A coerced value as the database receives it; `None` also for an error, which the
      loaders never meet (see `AcceptedProjects`). */
  function AsColumn<T>(c: Coerced<T>): Option<T> {
    if c.Value? then Some(c.value) else None
  }

  /** Whether one of the seven coercions of the clean projection would raise. */
  predicate CoercionRaises(row: RawRecord) {
    || ToInt(Get(row, RankKey)).FormatError?
    || ToInt(Get(row, YearKey)).FormatError?
    || ToInt(Get(row, RuntimeKey)).FormatError?
    || ToFloat(Get(row, RatingKey)).FormatError?
    || ToInt(Get(row, VotesKey)).FormatError?
    || ToFloat(Get(row, RevenueKey)).FormatError?
    || ToFloat(Get(row, MetascoreKey)).FormatError?
  }

  /** The clean projection of a row: text columns through `(v or "").strip()`, Rank,
      Year, Runtime and Votes through `to_int`, Rating, Revenue and Metascore through
      `to_float`. `None` when one of the coercions raises. */
  function Project(row: RawRecord): Option<CleanRecord> {
    if CoercionRaises(row) then None
    else Some(CleanRecord(
      AsColumn(ToInt(Get(row, RankKey))),
      StripOr(Get(row, TitleKey)),
      StripOr(Get(row, GenreKey)),
      StripOr(Get(row, DescriptionKey)),
      StripOr(Get(row, DirectorKey)),
      StripOr(Get(row, ActorsKey)),
      AsColumn(ToInt(Get(row, YearKey))),
      AsColumn(ToInt(Get(row, RuntimeKey))),
      AsColumn(ToFloat(Get(row, RatingKey))),
      AsColumn(ToInt(Get(row, VotesKey))),
      AsColumn(ToFloat(Get(row, RevenueKey))),
      AsColumn(ToFloat(Get(row, MetascoreKey)))))
  }

  /** What the clean row of an accepted row looks like: every numeric column present and
      within the bounds the validator checked, the title not empty. */
  predicate WellFormed(m: CleanRecord) {
    && m.title != ""
    && m.rankNum.Some? && m.rankNum.value > 0
    && m.year.Some? && 1900 <= m.year.value <= 2030
    && m.runtimeMinutes.Some? && 1 <= m.runtimeMinutes.value <= 400
    && m.rating.Some? && 0.0 <= m.rating.value <= 10.0
    && m.votes.Some? && m.votes.value >= 0
    && m.revenueMillions.Some? && m.revenueMillions.value >= 0.0
    && m.metascore.Some? && 0.0 <= m.metascore.value <= 100.0
  }

  /** An admissible row never makes a coercion raise, and its clean row is well formed. */
  lemma AdmissibleProjects(row: RawRecord)
    requires Admissible(row)
    ensures Project(row).Some? && WellFormed(Project(row).value)
  {
    assert Admits(Title, Get(row, KeyOf(Title)));
    assert Admits(Rank, Get(row, KeyOf(Rank)));
    assert Admits(Year, Get(row, KeyOf(Year)));
    assert Admits(Runtime, Get(row, KeyOf(Runtime)));
    assert Admits(Rating, Get(row, KeyOf(Rating)));
    assert Admits(Votes, Get(row, KeyOf(Votes)));
    assert Admits(Revenue, Get(row, KeyOf(Revenue)));
    assert Admits(Metascore, Get(row, KeyOf(Metascore)));
    ToFloatWidensToInt(Get(row, MetascoreKey));
  }

  /** A row the validator accepts never makes a coercion raise, and its clean row is
      well formed. */
  lemma AcceptedProjects(row: RawRecord)
    requires Validate(row).isValid
    ensures Project(row).Some? && WellFormed(Project(row).value)
  {
    AcceptedIffAdmissible(row);
    AdmissibleProjects(row);
  }

  /** The `stg_rejects` entry for a refused row. */
  function RejectOf(path: string, row: RawRecord): RejectRecord {
    RejectRecord(path, row, Validate(row).reason)
  }

  /** Whether the validator accepts a row. */
  predicate Accepts(row: RawRecord) {
    Validate(row).isValid
  }

  /** The rows of `rows` on which `accepts` is `want`, in input order. */
  function Select(rows: seq<RawRecord>, accepts: RawRecord -> bool, want: bool): seq<RawRecord> {
    if rows == [] then []
    else
      var row := rows[|rows| - 1];
      Select(rows[..|rows| - 1], accepts, want) + (if accepts(row) == want then [row] else [])
  }

  /** The clean projections of `rows`, in order, skipping a row whose coercion raises. */
  function Projected(rows: seq<RawRecord>, project: RawRecord -> Option<CleanRecord>): seq<CleanRecord> {
    if rows == [] then []
    else
      var p := project(rows[|rows| - 1]);
      Projected(rows[..|rows| - 1], project) + (if p.Some? then [p.value] else [])
  }

  /** The validator's reason for a row. */
  function Reason(row: RawRecord): string {
    Validate(row).reason
  }

  /** The reject entries for `rows`, each with its `reason`, in order. */
  function RejectsOf(path: string, rows: seq<RawRecord>, reason: RawRecord -> string): seq<RejectRecord> {
    if rows == [] then []
    else
      var row := rows[|rows| - 1];
      RejectsOf(path, rows[..|rows| - 1], reason) + [RejectRecord(path, row, reason(row))]
  }

  /** The rows of a batch the validator accepts, in input order. */
  function Accepted(rows: seq<RawRecord>): seq<RawRecord> {
    Select(rows, Accepts, true)
  }

  /** The rows of a batch the validator refuses, in input order. */
  function Refused(rows: seq<RawRecord>): seq<RawRecord> {
    Select(rows, Accepts, false)
  }

  /** The rows `stg_movies` receives from a batch, in input order. */
  function CleanRows(rows: seq<RawRecord>): seq<CleanRecord> {
    Projected(Accepted(rows), Project)
  }

  /** The entries `stg_rejects` receives from a batch, in input order. */
  function RejectRows(path: string, rows: seq<RawRecord>): seq<RejectRecord> {
    RejectsOf(path, Refused(rows), Reason)
  }

  /** The selected rows are exactly those on which `accepts` is `want`, each as often as
      in `rows`. */
  lemma {:induction false} SelectCounts(rows: seq<RawRecord>, accepts: RawRecord -> bool, want: bool, x: RawRecord)
    ensures multiset(Select(rows, accepts, want))[x] == if accepts(x) == want then multiset(rows)[x] else 0
  {
    if rows != [] {
      var init := rows[..|rows| - 1];
      SelectCounts(init, accepts, want, x);
      assert rows == init + [rows[|rows| - 1]];
    }
  }

  /** The two selections together are the batch: a partition. */
  lemma SelectPartition(rows: seq<RawRecord>, accepts: RawRecord -> bool)
    ensures multiset(Select(rows, accepts, true)) + multiset(Select(rows, accepts, false)) == multiset(rows)
  {
    forall x ensures (multiset(Select(rows, accepts, true)) + multiset(Select(rows, accepts, false)))[x] == multiset(rows)[x] {
      SelectCounts(rows, accepts, true, x);
      SelectCounts(rows, accepts, false, x);
    }
  }

  /** Every row is selected by exactly one of the two selections. */
  lemma {:induction false} SelectSizes(rows: seq<RawRecord>, accepts: RawRecord -> bool)
    ensures |Select(rows, accepts, true)| + |Select(rows, accepts, false)| == |rows|
  {
    if rows != [] {
      SelectSizes(rows[..|rows| - 1], accepts);
    }
  }

  /** Every selected row has `accepts` equal to `want`. */
  lemma {:induction false} SelectKeeps(rows: seq<RawRecord>, accepts: RawRecord -> bool, want: bool)
    ensures forall i :: 0 <= i < |Select(rows, accepts, want)| ==> accepts(Select(rows, accepts, want)[i]) == want
  {
    if rows != [] {
      SelectKeeps(rows[..|rows| - 1], accepts, want);
    }
  }

  /** Selection distributes over concatenation. */
  lemma {:induction false} SelectAppend(a: seq<RawRecord>, b: seq<RawRecord>, accepts: RawRecord -> bool, want: bool)
    ensures Select(a + b, accepts, want) == Select(a, accepts, want) + Select(b, accepts, want)
  {
    if b == [] {
      AppendEmpty(a);
    } else {
      var b' := b[..|b| - 1];
      AppendInit(a, b);
      SelectAppend(a, b', accepts, want);
    }
  }

  /** Projection distributes over concatenation. */
  lemma {:induction false} ProjectedAppend(a: seq<RawRecord>, b: seq<RawRecord>, project: RawRecord -> Option<CleanRecord>)
    ensures Projected(a + b, project) == Projected(a, project) + Projected(b, project)
  {
    if b == [] {
      AppendEmpty(a);
    } else {
      var b' := b[..|b| - 1];
      AppendInit(a, b);
      ProjectedAppend(a, b', project);
    }
  }

  /** Making reject entries distributes over concatenation. */
  lemma {:induction false} RejectsOfAppend(path: string, a: seq<RawRecord>, b: seq<RawRecord>, reason: RawRecord -> string)
    ensures RejectsOf(path, a + b, reason) == RejectsOf(path, a, reason) + RejectsOf(path, b, reason)
  {
    if b == [] {
      AppendEmpty(a);
    } else {
      var b' := b[..|b| - 1];
      AppendInit(a, b);
      RejectsOfAppend(path, a, b', reason);
    }
  }

  /** When no row's coercion raises, the projection keeps every row, in order. */
  lemma {:induction false} ProjectedOneForOne(rows: seq<RawRecord>, project: RawRecord -> Option<CleanRecord>)
    requires forall i :: 0 <= i < |rows| ==> project(rows[i]).Some?
    ensures |Projected(rows, project)| == |rows|
    ensures forall i :: 0 <= i < |rows| ==> project(rows[i]) == Some(Projected(rows, project)[i])
  {
    if rows != [] {
      ProjectedOneForOne(rows[..|rows| - 1], project);
    }
  }

  /** The reject entries are the rows, one for one. */
  lemma {:induction false} RejectsOfOneForOne(path: string, rows: seq<RawRecord>, reason: RawRecord -> string)
    ensures |RejectsOf(path, rows, reason)| == |rows|
    ensures forall i :: 0 <= i < |rows| ==> RejectsOf(path, rows, reason)[i] == RejectRecord(path, rows[i], reason(rows[i]))
  {
    if rows != [] {
      RejectsOfOneForOne(path, rows[..|rows| - 1], reason);
    }
  }

  /** Accepted and refused rows together are the batch, each row exactly as often as it
      occurs: the routing is a partition. */
  lemma PartitionOfBatch(rows: seq<RawRecord>)
    ensures multiset(Accepted(rows)) + multiset(Refused(rows)) == multiset(rows)
  {
    SelectPartition(rows, Accepts);
  }

  /** Every row of a batch is counted exactly once, as accepted or as refused. */
  lemma BatchCounts(rows: seq<RawRecord>)
    ensures |Accepted(rows)| + |Refused(rows)| == |rows|
  {
    SelectSizes(rows, Accepts);
  }

  /** The clean rows are the projections of the accepted rows, one for one. */
  lemma CleanRowsProjectAccepted(rows: seq<RawRecord>)
    ensures |CleanRows(rows)| == |Accepted(rows)|
    ensures forall i :: 0 <= i < |Accepted(rows)| ==>
      Validate(Accepted(rows)[i]).isValid && Project(Accepted(rows)[i]) == Some(CleanRows(rows)[i])
  {
    var acc := Accepted(rows);
    SelectKeeps(rows, Accepts, true);
    forall i | 0 <= i < |acc| ensures Project(acc[i]).Some? {
      AcceptedProjects(acc[i]);
    }
    ProjectedOneForOne(acc, Project);
  }

  /** The reject entries are the refused rows, each with the literal path and the
      validator's reason, one for one. */
  lemma RejectRowsRecordRefused(path: string, rows: seq<RawRecord>)
    ensures |RejectRows(path, rows)| == |Refused(rows)|
    ensures forall i :: 0 <= i < |Refused(rows)| ==>
      && !Validate(Refused(rows)[i]).isValid
      && RejectRows(path, rows)[i] == RejectOf(path, Refused(rows)[i])
  {
    SelectKeeps(rows, Accepts, false);
    RejectsOfOneForOne(path, Refused(rows), Reason);
  }

  /** Every row of a batch yields exactly one clean row or one reject entry. */
  lemma RoutedCounts(path: string, rows: seq<RawRecord>)
    ensures |CleanRows(rows)| + |RejectRows(path, rows)| == |rows|
  {
    CleanRowsProjectAccepted(rows);
    RejectRowsRecordRefused(path, rows);
    BatchCounts(rows);
  }

  /** A batch's rows are routed independently and in order: routing two batches one
      after the other is routing their concatenation. */
  lemma RoutingDistributes(path: string, a: seq<RawRecord>, b: seq<RawRecord>)
    ensures CleanRows(a + b) == CleanRows(a) + CleanRows(b)
    ensures RejectRows(path, a + b) == RejectRows(path, a) + RejectRows(path, b)
  {
    SelectAppend(a, b, Accepts, true);
    SelectAppend(a, b, Accepts, false);
    ProjectedAppend(Accepted(a), Accepted(b), Project);
    RejectsOfAppend(path, Refused(a), Refused(b), Reason);
  }

  /** An empty batch routes nothing. */
  lemma RoutingEmpty(path: string)
    ensures CleanRows([]) == [] && RejectRows(path, []) == []
  {
  }

  /** Selecting from one more row keeps it exactly when `accepts` is `want` for it. */
  lemma SelectSnoc(rows: seq<RawRecord>, accepts: RawRecord -> bool, want: bool, row: RawRecord)
    ensures Select(rows + [row], accepts, want) == Select(rows, accepts, want) + (if accepts(row) == want then [row] else [])
  {
    SnocInit(rows, row);
  }

  /** Projecting one more row appends its projection, if any. */
  lemma ProjectedSnoc(rows: seq<RawRecord>, project: RawRecord -> Option<CleanRecord>, row: RawRecord)
    ensures Projected(rows + [row], project) == Projected(rows, project) + (if project(row).Some? then [project(row).value] else [])
  {
    SnocInit(rows, row);
  }

  /** Making the reject entries of one more row appends its entry. */
  lemma RejectsOfSnoc(path: string, rows: seq<RawRecord>, reason: RawRecord -> string, row: RawRecord)
    ensures RejectsOf(path, rows + [row], reason) == RejectsOf(path, rows, reason) + [RejectRecord(path, row, reason(row))]
  {
    SnocInit(rows, row);
  }

  /** Routing one more accepted row appends its clean row to the clean rows and
      changes nothing else. */
  lemma AcceptStep(path: string, rows: seq<RawRecord>, row: RawRecord)
    requires Validate(row).isValid
    ensures Project(row).Some?
    ensures Accepted(rows + [row]) == Accepted(rows) + [row] && Refused(rows + [row]) == Refused(rows)
    ensures CleanRows(rows + [row]) == CleanRows(rows) + [Project(row).value]
    ensures RejectRows(path, rows + [row]) == RejectRows(path, rows)
  {
    AcceptedProjects(row);
    SelectSnoc(rows, Accepts, true, row);
    SelectSnoc(rows, Accepts, false, row);
    ProjectedSnoc(Accepted(rows), Project, row);
    AppendEmpty(Refused(rows));
  }

  /** Routing one more refused row appends its entry to the reject entries and changes
      nothing else. */
  lemma RejectStep(path: string, rows: seq<RawRecord>, row: RawRecord)
    requires !Validate(row).isValid
    ensures Accepted(rows + [row]) == Accepted(rows) && Refused(rows + [row]) == Refused(rows) + [row]
    ensures CleanRows(rows + [row]) == CleanRows(rows)
    ensures RejectRows(path, rows + [row]) == RejectRows(path, rows) + [RejectOf(path, row)]
  {
    SelectSnoc(rows, Accepts, true, row);
    SelectSnoc(rows, Accepts, false, row);
    AppendEmpty(Accepted(rows));
    RejectsOfSnoc(path, Refused(rows), Reason, row);
  }

  /** The tables the loaders write to; `execute` of an INSERT appends one row. */
  class Staging {
    var movies: seq<CleanRecord>
    var rejects: seq<RejectRecord>

    /** Empty tables. */
    constructor ()
      ensures movies == [] && rejects == []
    {
      movies := [];
      rejects := [];
    }

    /** `INSERT INTO stg_movies`. */
    method InsertMovie(m: CleanRecord)
      modifies this
      ensures movies == old(movies) + [m] && rejects == old(rejects)
    {
      movies := movies + [m];
    }

    /** `INSERT INTO stg_rejects`. */
    method InsertReject(r: RejectRecord)
      modifies this
      ensures rejects == old(rejects) + [r] && movies == old(movies)
    {
      rejects := rejects + [r];
    }
  }
}
