/**
  The Spark variant of the validator and the split it feeds: the same rule table
  written as thirteen column conditions whose messages are joined with `concat_ws`,
  then two filters on the reason and a clean and a reject projection.

  Spark's casts from string to `int` and `float` are not modelled; they are the two
  functions of a `Casts` value, and what is proved about agreement with the Python
  validator assumes they parse as Python's `int` and `float` do.
 */
module SparkLoad {
  import opened Wrappers
  import opened Text
  import opened Numeric
  import opened Coerce
  import opened Records
  import opened Validator
  import opened Routing
  import opened Seqs

  /** `cast("int")` and `cast("float")` of a non-null string; `None` is Spark's null. */
  datatype Casts = Casts(toInt: string -> Option<int>, toFloat: string -> Option<real>)

  /** A column cast: null stays null. */
  function CastInt(c: Casts, v: Option<string>): Option<int> {
    if v.None? then None else c.toInt(v.value)
  }

  function CastFloat(c: Casts, v: Option<string>): Option<real> {
    if v.None? then None else c.toFloat(v.value)
  }

  /** `F.trim` of a column: null stays null. */
  function TrimColumn(v: Option<string>): Option<string> {
    if v.None? then None else Some(SparkTrim(v.value))
  }

  // ----- The conditions -----

  /** `col.isNull() | (trim(col) == "")`: the condition of every "Missing" entry. */
  predicate NullOrBlank(v: Option<string>) {
    v.None? || SparkTrim(v.value) == ""
  }

  /** Rank: the cast is null or not positive. */
  predicate RankInvalid(c: Casts, v: Option<string>) {
    CastInt(c, v).None? || CastInt(c, v).value <= 0
  }

  /** Year: the cast is null or not between 1900 and 2030. */
  predicate YearInvalid(c: Casts, v: Option<string>) {
    CastInt(c, v).None? || !(1900 <= CastInt(c, v).value <= 2030)
  }

  /** Runtime: present, and the cast is null or not between 1 and 400. */
  predicate RuntimeInvalid(c: Casts, v: Option<string>) {
    !NullOrBlank(v) && (CastInt(c, v).None? || !(1 <= CastInt(c, v).value <= 400))
  }

  /** Rating: present, and the cast is null or not between 0 and 10. */
  predicate RatingInvalid(c: Casts, v: Option<string>) {
    !NullOrBlank(v) && (CastFloat(c, v).None? || !(0.0 <= CastFloat(c, v).value <= 10.0))
  }

  /** Votes: present, and the cast is null or negative. */
  predicate VotesInvalid(c: Casts, v: Option<string>) {
    !NullOrBlank(v) && (CastInt(c, v).None? || CastInt(c, v).value < 0)
  }

  /** Revenue: present, and the cast is null or negative. */
  predicate RevenueInvalid(c: Casts, v: Option<string>) {
    !NullOrBlank(v) && (CastFloat(c, v).None? || CastFloat(c, v).value < 0.0)
  }

  /** Metascore: present, and the cast is null or not between 0 and 100. */
  predicate MetascoreInvalid(c: Casts, v: Option<string>) {
    !NullOrBlank(v) && (CastInt(c, v).None? || !(0 <= CastInt(c, v).value <= 100))
  }

  // ----- The message table -----

  /** The thirteen entries of the `concat_ws` call, in their order there. */
  datatype Entry =
    | TitleMissing | RankBad | YearBad
    | RuntimeMissing | RuntimeBad | RatingMissing | RatingBad
    | VotesMissing | VotesBad | RevenueMissing | RevenueBad
    | MetascoreMissing | MetascoreBad

  const Table: seq<Entry> := [TitleMissing, RankBad, YearBad, RuntimeMissing, RuntimeBad,
    RatingMissing, RatingBad, VotesMissing, VotesBad, RevenueMissing, RevenueBad,
    MetascoreMissing, MetascoreBad]

  const RankInvalidMessage := "Rank invalid (must be positive integer)"
  const YearInvalidMessage := "Year out of allowed range (1900-2030)"

  /** The message of an entry; eleven are worded as in the Python validator. */
  function Label(e: Entry): string {
    match e
    case TitleMissing => MissingTitle
    case RankBad => RankInvalidMessage
    case YearBad => YearInvalidMessage
    case RuntimeMissing => MissingRuntime
    case RuntimeBad => RuntimeOutOfRange
    case RatingMissing => MissingRating
    case RatingBad => RatingOutOfRange
    case VotesMissing => MissingVotes
    case VotesBad => VotesNegative
    case RevenueMissing => MissingRevenue
    case RevenueBad => RevenueNegative
    case MetascoreMissing => MissingMetascore
    case MetascoreBad => MetascoreOutOfRange
  }

  /** The value of the thirteen conditions on one row. */
  datatype Conditions = Conditions(
    titleMissing: bool, rankInvalid: bool, yearInvalid: bool,
    runtimeMissing: bool, runtimeInvalid: bool, ratingMissing: bool, ratingInvalid: bool,
    votesMissing: bool, votesInvalid: bool, revenueMissing: bool, revenueInvalid: bool,
    metascoreMissing: bool, metascoreInvalid: bool)
  {
    predicate At(e: Entry) {
      match e
      case TitleMissing => titleMissing
      case RankBad => rankInvalid
      case YearBad => yearInvalid
      case RuntimeMissing => runtimeMissing
      case RuntimeBad => runtimeInvalid
      case RatingMissing => ratingMissing
      case RatingBad => ratingInvalid
      case VotesMissing => votesMissing
      case VotesBad => votesInvalid
      case RevenueMissing => revenueMissing
      case RevenueBad => revenueInvalid
      case MetascoreMissing => metascoreMissing
      case MetascoreBad => metascoreInvalid
    }
  }

  /** The conditions evaluated on a row. */
  function Evaluate(c: Casts, row: RawRecord): Conditions {
    Conditions(
      NullOrBlank(Get(row, TitleKey)),
      RankInvalid(c, Get(row, RankKey)),
      YearInvalid(c, Get(row, YearKey)),
      NullOrBlank(Get(row, RuntimeKey)),
      RuntimeInvalid(c, Get(row, RuntimeKey)),
      NullOrBlank(Get(row, RatingKey)),
      RatingInvalid(c, Get(row, RatingKey)),
      NullOrBlank(Get(row, VotesKey)),
      VotesInvalid(c, Get(row, VotesKey)),
      NullOrBlank(Get(row, RevenueKey)),
      RevenueInvalid(c, Get(row, RevenueKey)),
      NullOrBlank(Get(row, MetascoreKey)),
      MetascoreInvalid(c, Get(row, MetascoreKey)))
  }

  /** The messages of the entries of `es` whose condition holds, in order:
      `concat_ws` skips the null of a `when` whose condition fails. */
  function Fired(k: Conditions, es: seq<Entry>): seq<string> {
    if es == [] then []
    else
      var e := es[|es| - 1];
      Fired(k, es[..|es| - 1]) + (if k.At(e) then [Label(e)] else [])
  }

  /** `trim(concat_ws("; ", when(...), ...))`. */
  function ReasonOf(k: Conditions): string {
    SparkTrim(Join(Separator, Fired(k, Table)))
  }

  /** The `error_reason` column of a row. */
  function SparkReason(c: Casts, row: RawRecord): string {
    ReasonOf(Evaluate(c, row))
  }

  // ----- The split -----

  /** `(error_reason == "") | error_reason.isNull()`, kept where it is true. */
  predicate ValidFilter(reason: Option<string>) {
    reason == Some("") || reason.None?
  }

  /** `(error_reason != "") & error_reason.isNotNull()`, kept where it is true. */
  predicate InvalidFilter(reason: Option<string>) {
    reason != Some("") && reason.Some?
  }

  /** Whether a row lands in `valid_df`; `concat_ws` never yields null. */
  predicate SparkValid(c: Casts, row: RawRecord) {
    ValidFilter(Some(SparkReason(c, row)))
  }

  /** Whether a row lands in `invalid_df`. */
  predicate SparkInvalid(c: Casts, row: RawRecord) {
    InvalidFilter(Some(SparkReason(c, row)))
  }

  function ValidTest(c: Casts): RawRecord -> bool {
    row => SparkValid(c, row)
  }

  function InvalidTest(c: Casts): RawRecord -> bool {
    row => SparkInvalid(c, row)
  }

  /** A row of `clean_df`: trimmed text columns (null stays null) and cast numbers, with
      Metascore cast to `int`. */
  datatype SparkClean = SparkClean(
    rankNum: Option<int>,
    title: Option<string>,
    genre: Option<string>,
    description: Option<string>,
    director: Option<string>,
    actors: Option<string>,
    year: Option<int>,
    runtimeMinutes: Option<int>,
    rating: Option<real>,
    votes: Option<int>,
    revenueMillions: Option<real>,
    metascore: Option<int>)

  /** The `select` that makes `clean_df`. */
  function SparkProject(c: Casts, row: RawRecord): SparkClean {
    SparkClean(
      CastInt(c, Get(row, RankKey)),
      TrimColumn(Get(row, TitleKey)),
      TrimColumn(Get(row, GenreKey)),
      TrimColumn(Get(row, DescriptionKey)),
      TrimColumn(Get(row, DirectorKey)),
      TrimColumn(Get(row, ActorsKey)),
      CastInt(c, Get(row, YearKey)),
      CastInt(c, Get(row, RuntimeKey)),
      CastFloat(c, Get(row, RatingKey)),
      CastInt(c, Get(row, VotesKey)),
      CastFloat(c, Get(row, RevenueKey)),
      CastInt(c, Get(row, MetascoreKey)))
  }

  function ProjectTest(c: Casts): RawRecord -> SparkClean {
    row => SparkProject(c, row)
  }

  function ReasonTest(c: Casts): RawRecord -> string {
    row => SparkReason(c, row)
  }

  /** What `process_and_split` returns. */
  datatype Partition = Partition(clean: seq<SparkClean>, rejects: seq<RejectRecord>)

  /** `process_and_split(df, path)`: the clean rows of `valid_df` and the reject entries
      of `invalid_df`, each carrying the literal path, the whole row and its reason. */
  function ProcessAndSplit(c: Casts, path: string, rows: seq<RawRecord>): Partition {
    Partition(
      Map(Select(rows, ValidTest(c), true), ProjectTest(c)),
      RejectsOf(path, Select(rows, InvalidTest(c), true), ReasonTest(c)))
  }

  // ----- The reason -----

  /** Whether some condition of the table holds. */
  predicate AnyFires(k: Conditions) {
    exists e: Entry :: k.At(e)
  }

  /** No condition holds exactly when each of the thirteen is false. */
  lemma NoneFires(k: Conditions)
    ensures !AnyFires(k) <==>
      && !k.titleMissing && !k.rankInvalid && !k.yearInvalid
      && !k.runtimeMissing && !k.runtimeInvalid && !k.ratingMissing && !k.ratingInvalid
      && !k.votesMissing && !k.votesInvalid && !k.revenueMissing && !k.revenueInvalid
      && !k.metascoreMissing && !k.metascoreInvalid
  {
    if !AnyFires(k) {
      assert !k.At(TitleMissing) && !k.At(RankBad) && !k.At(YearBad);
      assert !k.At(RuntimeMissing) && !k.At(RuntimeBad) && !k.At(RatingMissing) && !k.At(RatingBad);
      assert !k.At(VotesMissing) && !k.At(VotesBad) && !k.At(RevenueMissing) && !k.At(RevenueBad);
      assert !k.At(MetascoreMissing) && !k.At(MetascoreBad);
    }
  }

  lemma TableComplete(e: Entry)
    ensures e in Table
  {
  }

  /** A message that is not empty, neither starts nor ends with a space, and holds no
      `;`, the first character of the separator. */
  predicate Plain(m: string) {
    m != [] && m[0] != ' ' && m[|m| - 1] != ' ' && Separator[0] !in m
  }

  /** Every message of the table is plain. */
  lemma LabelPlain(e: Entry)
    ensures Plain(Label(e))
  {
    match e
    case TitleMissing => LeadingLabelsPlain();
    case RankBad => RankLabelPlain();
    case YearBad => LeadingLabelsPlain();
    case RuntimeMissing => RuntimeRatingLabelsPlain();
    case RuntimeBad => RuntimeRatingLabelsPlain();
    case RatingMissing => RuntimeRatingLabelsPlain();
    case RatingBad => RuntimeRatingLabelsPlain();
    case VotesMissing => VotesRevenueLabelsPlain();
    case VotesBad => VotesRevenueLabelsPlain();
    case RevenueMissing => VotesRevenueLabelsPlain();
    case RevenueBad => VotesRevenueLabelsPlain();
    case MetascoreMissing => MetascoreLabelsPlain();
    case MetascoreBad => MetascoreLabelsPlain();
  }

  lemma LeadingLabelsPlain()
    ensures Plain(MissingTitle) && Plain(YearInvalidMessage)
  {
  }

  lemma RankLabelPlain()
    ensures Plain(RankInvalidMessage)
  {
  }

  lemma RuntimeRatingLabelsPlain()
    ensures Plain(MissingRuntime) && Plain(RuntimeOutOfRange)
    ensures Plain(MissingRating) && Plain(RatingOutOfRange)
  {
  }

  lemma VotesRevenueLabelsPlain()
    ensures Plain(MissingVotes) && Plain(VotesNegative)
    ensures Plain(MissingRevenue) && Plain(RevenueNegative)
  {
  }

  lemma MetascoreLabelsPlain()
    ensures Plain(MissingMetascore) && Plain(MetascoreOutOfRange)
  {
  }

  /** The message table names each entry once. */
  function EntryOf(m: string): Option<Entry> {
    if m == MissingTitle then Some(TitleMissing)
    else if m == RankInvalidMessage then Some(RankBad)
    else if m == YearInvalidMessage then Some(YearBad)
    else if m == MissingRuntime then Some(RuntimeMissing)
    else if m == RuntimeOutOfRange then Some(RuntimeBad)
    else if m == MissingRating then Some(RatingMissing)
    else if m == RatingOutOfRange then Some(RatingBad)
    else if m == MissingVotes then Some(VotesMissing)
    else if m == VotesNegative then Some(VotesBad)
    else if m == MissingRevenue then Some(RevenueMissing)
    else if m == RevenueNegative then Some(RevenueBad)
    else if m == MissingMetascore then Some(MetascoreMissing)
    else if m == MetascoreOutOfRange then Some(MetascoreBad)
    else None
  }

  lemma EntryOfLabel(e: Entry)
    ensures EntryOf(Label(e)) == Some(e)
  {
  }

  /** Every fired message is plain. */
  lemma {:induction false} FiredPlain(k: Conditions, es: seq<Entry>)
    ensures forall i :: 0 <= i < |Fired(k, es)| ==> Plain(Fired(k, es)[i])
  {
    if es != [] {
      FiredPlain(k, es[..|es| - 1]);
      LabelPlain(es[|es| - 1]);
    }
  }

  /** Nothing fires exactly when no condition of `es` holds. */
  lemma {:induction false} FiredEmptyIff(k: Conditions, es: seq<Entry>)
    ensures Fired(k, es) == [] <==> forall e :: e in es ==> !k.At(e)
  {
    if es != [] {
      var init, last := es[..|es| - 1], es[|es| - 1];
      FiredEmptyIff(k, init);
      assert es == init + [last];
    }
  }

  /** An entry's message is among the fired ones exactly when the entry is in `es` and
      its condition holds. */
  lemma {:induction false} FiredListedIff(k: Conditions, es: seq<Entry>, e: Entry)
    ensures Label(e) in Fired(k, es) <==> e in es && k.At(e)
  {
    if es != [] {
      var init, last := es[..|es| - 1], es[|es| - 1];
      FiredListedIff(k, init, e);
      assert es == init + [last];
      EntryOfLabel(e);
      EntryOfLabel(last);
    }
  }

  /** The final `trim` changes nothing: no message starts or ends with a space. */
  lemma ReasonIsJoin(k: Conditions)
    ensures ReasonOf(k) == Join(Separator, Fired(k, Table))
  {
    var parts := Fired(k, Table);
    FiredPlain(k, Table);
    if parts != [] {
      JoinEnds(Separator, parts);
    }
  }

  /** The reason is empty exactly when no condition holds. */
  lemma ReasonEmptyIff(k: Conditions)
    ensures ReasonOf(k) == "" <==> !AnyFires(k)
  {
    ReasonIsJoin(k);
    FiredPlain(k, Table);
    JoinEmpty(Separator, Fired(k, Table));
    FiredEmptyIff(k, Table);
    if AnyFires(k) {
      var e :| k.At(e);
      TableComplete(e);
    }
  }

  /** Splitting a non-empty reason at "; " lists the message of every condition that
      holds and of no other. */
  lemma ReasonListsIff(k: Conditions, e: Entry)
    requires AnyFires(k)
    ensures Label(e) in Split(ReasonOf(k), Separator) <==> k.At(e)
  {
    ReasonIsJoin(k);
    ReasonEmptyIff(k);
    FiredPlain(k, Table);
    SplitJoin(Separator, Fired(k, Table));
    FiredListedIff(k, Table, e);
    TableComplete(e);
  }

  // ----- The split -----

  /** The two filters are complementary on every value of `error_reason`, null
      included: a row goes to exactly one side. */
  lemma FiltersComplement(reason: Option<string>)
    ensures ValidFilter(reason) <==> !InvalidFilter(reason)
  {
  }

  /** A row is valid exactly when its reason is empty, exactly when no condition holds. */
  lemma SparkValidIff(c: Casts, row: RawRecord)
    ensures SparkValid(c, row) <==> SparkReason(c, row) == ""
    ensures SparkValid(c, row) <==> !AnyFires(Evaluate(c, row))
    ensures SparkInvalid(c, row) <==> !SparkValid(c, row)
  {
    ReasonEmptyIff(Evaluate(c, row));
  }

  /** Selecting on the complement of a test keeps the rows that fail it. */
  lemma {:induction false} SelectComplement(rows: seq<RawRecord>, p: RawRecord -> bool, q: RawRecord -> bool)
    requires forall row :: p(row) == !q(row)
    ensures Select(rows, p, true) == Select(rows, q, false)
  {
    if rows != [] {
      SelectComplement(rows[..|rows| - 1], p, q);
    }
  }

  /** `invalid_df` holds the rows `valid_df` does not. */
  lemma InvalidIsRest(c: Casts, rows: seq<RawRecord>)
    ensures Select(rows, InvalidTest(c), true) == Select(rows, ValidTest(c), false)
  {
    forall row ensures InvalidTest(c)(row) == !ValidTest(c)(row) {
      SparkValidIff(c, row);
    }
    SelectComplement(rows, InvalidTest(c), ValidTest(c));
  }

  /** The split is a partition: every row of the frame lands on exactly one side, as
      often as it occurs, and every row yields one clean row or one reject entry. */
  lemma SplitPartition(c: Casts, path: string, rows: seq<RawRecord>)
    ensures multiset(Select(rows, ValidTest(c), true)) + multiset(Select(rows, InvalidTest(c), true)) == multiset(rows)
    ensures |ProcessAndSplit(c, path, rows).clean| + |ProcessAndSplit(c, path, rows).rejects| == |rows|
  {
    InvalidIsRest(c, rows);
    SelectPartition(rows, ValidTest(c));
    SelectSizes(rows, ValidTest(c));
    MapIndex(Select(rows, ValidTest(c), true), ProjectTest(c));
    RejectsOfOneForOne(path, Select(rows, InvalidTest(c), true), ReasonTest(c));
  }

  /** The clean rows are the projections of the valid rows, one for one and in order. */
  lemma CleanProjectsValid(c: Casts, path: string, rows: seq<RawRecord>)
    ensures var valid := Select(rows, ValidTest(c), true);
      && |ProcessAndSplit(c, path, rows).clean| == |valid|
      && forall i :: 0 <= i < |valid| ==>
        SparkReason(c, valid[i]) == "" && ProcessAndSplit(c, path, rows).clean[i] == SparkProject(c, valid[i])
  {
    var valid := Select(rows, ValidTest(c), true);
    SelectKeeps(rows, ValidTest(c), true);
    MapIndex(valid, ProjectTest(c));
    forall i | 0 <= i < |valid| ensures SparkReason(c, valid[i]) == "" {
      SparkValidIff(c, valid[i]);
    }
  }

  /** The reject entries are the invalid rows, one for one and in order, each with the
      literal path, the whole row and its non-empty reason. */
  lemma RejectsRecordInvalid(c: Casts, path: string, rows: seq<RawRecord>)
    ensures var invalid := Select(rows, InvalidTest(c), true);
      && |ProcessAndSplit(c, path, rows).rejects| == |invalid|
      && forall i :: 0 <= i < |invalid| ==>
        && SparkReason(c, invalid[i]) != ""
        && ProcessAndSplit(c, path, rows).rejects[i] == RejectRecord(path, invalid[i], SparkReason(c, invalid[i]))
  {
    SelectKeeps(rows, InvalidTest(c), true);
    RejectsOfOneForOne(path, Select(rows, InvalidTest(c), true), ReasonTest(c));
  }

  /** What a clean row of the Spark path looks like: every numeric column present and
      within the bounds the conditions checked, the title present and not blank. */
  predicate SparkWellFormed(m: SparkClean) {
    && m.title.Some? && m.title.value != ""
    && m.rankNum.Some? && m.rankNum.value > 0
    && m.year.Some? && 1900 <= m.year.value <= 2030
    && m.runtimeMinutes.Some? && 1 <= m.runtimeMinutes.value <= 400
    && m.rating.Some? && 0.0 <= m.rating.value <= 10.0
    && m.votes.Some? && m.votes.value >= 0
    && m.revenueMillions.Some? && m.revenueMillions.value >= 0.0
    && m.metascore.Some? && 0 <= m.metascore.value <= 100
  }

  /** A valid row projects to a well-formed clean row, whatever the casts are. */
  lemma ValidProjectsWellFormed(c: Casts, row: RawRecord)
    requires SparkValid(c, row)
    ensures SparkWellFormed(SparkProject(c, row))
  {
    SparkValidIff(c, row);
    NoneFires(Evaluate(c, row));
  }

  /** Every clean row of a split is well formed. */
  lemma CleanWellFormed(c: Casts, path: string, rows: seq<RawRecord>)
    ensures forall m :: m in ProcessAndSplit(c, path, rows).clean ==> SparkWellFormed(m)
  {
    var valid := Select(rows, ValidTest(c), true);
    CleanProjectsValid(c, path, rows);
    forall i | 0 <= i < |valid| ensures SparkWellFormed(SparkProject(c, valid[i])) {
      SparkValidIff(c, valid[i]);
      ValidProjectsWellFormed(c, valid[i]);
    }
  }

  // ----- Agreement with the Python validator -----

  /** The hypothesis that Spark's casts parse strings as Python's `int` and `float` do. */
  ghost predicate CastsAgree(c: Casts) {
    forall s :: c.toInt(s) == ParseInt(s) && c.toFloat(s) == ParseFloat(s)
  }

  /** What Spark counts as missing, Python counts as blank. */
  lemma NullOrBlankIsBlank(v: Option<string>)
    ensures NullOrBlank(v) ==> Blank(v)
  {
    if v.Some? {
      StripAfterSparkTrim(v.value);
    }
  }

  /** Under agreeing casts, a blank value casts to null and any other value casts to what
      its stripped form parses to. */
  lemma CastsOf(c: Casts, v: Option<string>)
    requires CastsAgree(c)
    ensures CastInt(c, v) == IntOf(v)
    ensures Blank(v) ==> CastInt(c, v).None? && CastFloat(c, v).None?
    ensures !Blank(v) ==> CastInt(c, v) == ParseInt(StripOr(v)) && CastFloat(c, v) == ParseFloat(StripOr(v))
  {
    if v.Some? {
      assert c.toInt(v.value) == ParseInt(v.value) && c.toFloat(v.value) == ParseFloat(v.value);
      if Blank(v) {
        BlankIffSpaces(v);
        BlankIsNoNumber(v.value);
      } else {
        StrippedParses(v);
      }
    }
  }

  /** The Spark "missing" condition of a field; Rank and Year have none. */
  predicate MissingFires(f: Field, v: Option<string>) {
    f != Rank && f != Year && NullOrBlank(v)
  }

  /** The Spark "invalid" condition of a field; Title has none. */
  predicate InvalidFires(c: Casts, f: Field, v: Option<string>) {
    match f
    case Title => false
    case Rank => RankInvalid(c, v)
    case Year => YearInvalid(c, v)
    case Runtime => RuntimeInvalid(c, v)
    case Rating => RatingInvalid(c, v)
    case Votes => VotesInvalid(c, v)
    case Revenue => RevenueInvalid(c, v)
    case Metascore => MetascoreInvalid(c, v)
  }

  /** The title condition is narrower than `validate_movie`'s: both call an absent value
      or one of plain spaces missing, but only Python calls missing a value of other
      whitespace, such as a tab. */
  lemma TitleConditionNarrower(v: Option<string>)
    ensures MissingFires(Title, v) ==> TitleRule(v) == Missing
    ensures TitleRule(v) == Missing && !MissingFires(Title, v) <==>
      v.Some? && AllSpace(v.value) && !OnlyBlanks(v.value)
    ensures TitleRule(Some("\t")) == Missing && !MissingFires(Title, Some("\t"))
  {
    NullOrBlankIsBlank(v);
    BlankIffSpaces(v);
    if v.Some? {
      SparkTrimEmptyIff(v.value);
    }
    BlankIffSpaces(Some("\t"));
    SparkTrimEmptyIff("\t");
    assert "\t"[0] != ' ';
  }

  /** Under agreeing casts, Rank and Year conditions hold exactly when the Python rule
      fails; for the five numeric fields Spark's "missing" implies Python's, and Spark's
      "invalid" covers Python's "not a number", "out of range", and a blank value that
      is not of plain spaces. */
  lemma ConditionsAgree(c: Casts, f: Field, v: Option<string>)
    requires CastsAgree(c)
    ensures f == Rank || f == Year ==> (InvalidFires(c, f, v) <==> Rule(f, v) != Pass)
    ensures f != Title && f != Rank && f != Year ==>
      && (MissingFires(f, v) ==> Rule(f, v) == Missing)
      && (InvalidFires(c, f, v) <==>
            Rule(f, v) == Malformed || Rule(f, v) == OutOfRange || (Rule(f, v) == Missing && !MissingFires(f, v)))
    ensures f != Title ==> (MissingFires(f, v) || InvalidFires(c, f, v) <==> Rule(f, v) != Pass)
  {
    NullOrBlankIsBlank(v);
    CastsOf(c, v);
  }

  /** How the conditions `k` of a row stand to the outcomes `t` of the Python rules on
      it, under agreeing casts: each field's Spark entries fire exactly when its rule
      fails, except Title, where firing only implies failing. */
  predicate Mirrors(k: Conditions, t: Outcomes) {
    && (k.titleMissing ==> t.title != Pass)
    && (k.rankInvalid <==> t.rank != Pass)
    && (k.yearInvalid <==> t.year != Pass)
    && (k.runtimeMissing || k.runtimeInvalid <==> t.runtime != Pass)
    && (k.ratingMissing || k.ratingInvalid <==> t.rating != Pass)
    && (k.votesMissing || k.votesInvalid <==> t.votes != Pass)
    && (k.revenueMissing || k.revenueInvalid <==> t.revenue != Pass)
    && (k.metascoreMissing || k.metascoreInvalid <==> t.metascore != Pass)
  }

  /** Under agreeing casts, the conditions of a row mirror the rules' outcomes on it. */
  lemma MirrorsOnRow(c: Casts, row: RawRecord)
    requires CastsAgree(c)
    ensures Mirrors(Evaluate(c, row), Assess(row))
  {
    TitleConditionNarrower(Get(row, TitleKey));
    RankMirrors(c, Get(row, RankKey));
    YearMirrors(c, Get(row, YearKey));
    RuntimeMirrors(c, Get(row, RuntimeKey));
    RatingMirrors(c, Get(row, RatingKey));
    VotesMirrors(c, Get(row, VotesKey));
    RevenueMirrors(c, Get(row, RevenueKey));
    MetascoreMirrors(c, Get(row, MetascoreKey));
  }

  // `ConditionsAgree` for one field at a time, in the terms `Evaluate` and `Assess` use.

  lemma RankMirrors(c: Casts, v: Option<string>)
    requires CastsAgree(c)
    ensures RankInvalid(c, v) <==> RankRule(v) != Pass
  {
    ConditionsAgree(c, Rank, v);
  }

  lemma YearMirrors(c: Casts, v: Option<string>)
    requires CastsAgree(c)
    ensures YearInvalid(c, v) <==> YearRule(v) != Pass
  {
    ConditionsAgree(c, Year, v);
  }

  lemma RuntimeMirrors(c: Casts, v: Option<string>)
    requires CastsAgree(c)
    ensures NullOrBlank(v) || RuntimeInvalid(c, v) <==> RuntimeRule(v) != Pass
  {
    ConditionsAgree(c, Runtime, v);
  }

  lemma RatingMirrors(c: Casts, v: Option<string>)
    requires CastsAgree(c)
    ensures NullOrBlank(v) || RatingInvalid(c, v) <==> RatingRule(v) != Pass
  {
    ConditionsAgree(c, Rating, v);
  }

  lemma VotesMirrors(c: Casts, v: Option<string>)
    requires CastsAgree(c)
    ensures NullOrBlank(v) || VotesInvalid(c, v) <==> VotesRule(v) != Pass
  {
    ConditionsAgree(c, Votes, v);
  }

  lemma RevenueMirrors(c: Casts, v: Option<string>)
    requires CastsAgree(c)
    ensures NullOrBlank(v) || RevenueInvalid(c, v) <==> RevenueRule(v) != Pass
  {
    ConditionsAgree(c, Revenue, v);
  }

  lemma MetascoreMirrors(c: Casts, v: Option<string>)
    requires CastsAgree(c)
    ensures NullOrBlank(v) || MetascoreInvalid(c, v) <==> MetascoreRule(v) != Pass
  {
    ConditionsAgree(c, Metascore, v);
  }

  /** Mirrored outcomes that all pass fire no condition, and when no condition fires
      the outcomes all pass exactly when the title does. */
  lemma MirroredVerdicts(k: Conditions, t: Outcomes)
    requires Mirrors(k, t)
    ensures (forall f: Field :: t.At(f) == Pass) ==> !AnyFires(k)
    ensures !AnyFires(k) ==> ((forall f: Field :: t.At(f) == Pass) <==> t.title == Pass)
  {
    NoneFires(k);
    if forall f: Field :: t.At(f) == Pass {
      assert t.At(Title) == Pass && t.At(Rank) == Pass && t.At(Year) == Pass && t.At(Runtime) == Pass;
      assert t.At(Rating) == Pass && t.At(Votes) == Pass && t.At(Revenue) == Pass && t.At(Metascore) == Pass;
    }
    if !AnyFires(k) && t.title == Pass {
      forall f: Field ensures t.At(f) == Pass {
      }
    }
  }

  /** Under agreeing casts, every row `validate_movie` accepts lands in `valid_df`, and a
      row in `valid_df` is one `validate_movie` accepts exactly when its title passes:
      the title condition is the only one on which the two disagree. */
  lemma AcceptanceAgrees(c: Casts, row: RawRecord)
    requires CastsAgree(c)
    ensures Validate(row).isValid ==> SparkValid(c, row)
    ensures SparkValid(c, row) ==> (Validate(row).isValid <==> TitleRule(Get(row, TitleKey)) == Pass)
  {
    VerdictPassIff(Assess(row));
    SparkValidIff(c, row);
    MirrorsOnRow(c, row);
    MirroredVerdicts(Evaluate(c, row), Assess(row));
  }

  /** A row whose title is whitespace but not plain spaces, and which `valid_df` keeps,
      is rejected by `validate_movie` for its title. */
  lemma WhitespaceTitleDiverges(c: Casts, row: RawRecord)
    requires CastsAgree(c)
    requires SparkValid(c, row)
    requires Get(row, TitleKey).Some? && AllSpace(Get(row, TitleKey).value)
    ensures !Validate(row).isValid
    ensures MissingTitle in Messages(Assess(row))
  {
    AcceptanceAgrees(c, row);
    BlankIffSpaces(Get(row, TitleKey));
    MessageListedIff(row, Title, Missing);
  }

  /** Under agreeing casts, an accepted row gives the same numbers on both paths, except
      that Metascore is an `int` here and a `float` in the Python loaders. */
  lemma CleanColumnsAgree(c: Casts, row: RawRecord)
    requires CastsAgree(c)
    requires Validate(row).isValid
    ensures Project(row).Some?
    ensures var m, s := Project(row).value, SparkProject(c, row);
      && s.rankNum == m.rankNum && s.year == m.year && s.runtimeMinutes == m.runtimeMinutes
      && s.votes == m.votes && s.rating == m.rating && s.revenueMillions == m.revenueMillions
      && s.metascore.Some? && m.metascore == Some(s.metascore.value as real)
  {
    AcceptedIffAdmissible(row);
    AcceptedProjects(row);
    assert Admits(Rank, Get(row, KeyOf(Rank)));
    assert Admits(Year, Get(row, KeyOf(Year)));
    assert Admits(Runtime, Get(row, KeyOf(Runtime)));
    assert Admits(Rating, Get(row, KeyOf(Rating)));
    assert Admits(Votes, Get(row, KeyOf(Votes)));
    assert Admits(Revenue, Get(row, KeyOf(Revenue)));
    assert Admits(Metascore, Get(row, KeyOf(Metascore)));
    CastsOf(c, Get(row, RankKey));
    CastsOf(c, Get(row, YearKey));
    CastsOf(c, Get(row, RuntimeKey));
    CastsOf(c, Get(row, RatingKey));
    CastsOf(c, Get(row, VotesKey));
    CastsOf(c, Get(row, RevenueKey));
    CastsOf(c, Get(row, MetascoreKey));
    ToFloatWidensToInt(Get(row, MetascoreKey));
  }

  /** Under agreeing casts, the rows the Python loaders accept from a batch are, as a
      multiset, among the rows `valid_df` keeps. */
  lemma BatchAgrees(c: Casts, rows: seq<RawRecord>)
    requires CastsAgree(c)
    ensures multiset(Accepted(rows)) <= multiset(Select(rows, ValidTest(c), true))
  {
    forall x ensures multiset(Accepted(rows))[x] <= multiset(Select(rows, ValidTest(c), true))[x] {
      SelectCounts(rows, Accepts, true, x);
      SelectCounts(rows, ValidTest(c), true, x);
      AcceptanceAgrees(c, x);
    }
  }
}
