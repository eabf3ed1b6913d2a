# IMDB movie ingestion: validator and batch loaders

The system reads rows of an IMDB movie CSV file and checks each row with `validate_movie`. That function runs eight field rules in a fixed order: Title, Rank, Year, Runtime, Rating, Votes, Revenue and Metascore. Each rule gives at most one message, and the messages of the failing rules are joined with `"; "`. A row passes only when every rule passes.

- An accepted row has its text columns stripped and its numbers coerced by `to_int` / `to_float`. It is inserted into `stg_movies`.
- A refused row goes to `stg_rejects` as it was read, together with its source path and its reason.

Three loaders share this routing:

- the plain ingestion flow `run_ingestion`;
- the CSV loader `load_imdb_csv`, which also appends one line per refused row to a rejected-rows CSV log, and writes the log's header only when the log did not exist yet;
- the Spark pipeline `validate_movie_spark` / `process_and_split`, which restates the rule table as thirteen column conditions, joins the messages with `concat_ws`, and splits the frame with two filters on the reason.

The model is split into modules that follow that structure:

| module | file | what it holds |
|---|---|---|
| `Text` | text.dfy | Python's `str.strip`, `"; ".join` and `split`; Spark's `trim` |
| `Numeric` | numeric.dfy | Python's `int()` and `float()` on strings, and `str()` of an integer |
| `Records` | records.dfy | the raw row (`dict.get` semantics) and the reject entry |
| `Coerce` | coerce.dfy | `to_int` and `to_float` |
| `Validator` | validator.dfy | the eight rules as functions, the verdict `Validate`, and `ValidateMovie`, a method that builds the error list step by step as the source does |
| `Routing` | routing.dfy | the clean projection, the specification of one routing pass (`CleanRows`, `RejectRows`) and the staging tables as a class whose inserts append |
| `IngestionFlow` | ingestion_flow.dfy | the `run_ingestion` loop |
| `LoadImdb` | load_imdb.dfy | the `load_imdb_csv` loop and the rejected-rows log (a class whose `writerow` appends) |
| `SparkLoad` | spark.dfy | the Spark conditions, `error_reason`, the split, and how it relates to `validate_movie` |
| `Scenarios` | scenarios.dfy | the rows of the validator's test suite, plus a three-failure reason |
| `Seqs`, `Wrappers` | seqs.dfy, wrappers.dfy | sequence lemmas, `Map`, `Option` |

The loops are proved against the routing specification:

- After `RunIngestion` or `LoadImdbCsv`, each table equals its old contents followed by exactly the rows the specification assigns it, in input order.
- The returned counts are those rows' numbers, and they add up to the batch size.
- The log holds the header (when the log is new) followed by one line per reject entry.

What the specification promises is then proved as lemmas about it: a partition, one-for-one projections and reasons that list exactly the failing rules.

Nothing else is modelled as outside input. The database cursor is replaced by the `Staging` object. The CSV reader is replaced by the sequence of rows. The existence of the log file is replaced by the `logExists` parameter.

## Where the code departs from the system's own description

- **The Spark path does not match `validate_movie`.** Its docstring says it "matches logic in validator.py", but it does not:
  - `F.trim` removes only the space character, while Python's `strip()` removes all whitespace. So a title made only of tabs passes the Spark title condition but is "Missing Title" for `validate_movie`. `SparkLoad.TitleConditionNarrower` shows this, and `SparkLoad.WhitespaceTitleDiverges` shows such a row landing in `valid_df` while `validate_movie` rejects it.
  - Spark has no "is not an integer" / "is not a number" messages. A non-numeric Runtime, Rating, Votes, Revenue or Metascore fires the field's range message.
  - Rank gets the message "Rank invalid (must be positive integer)", and Year gets "Year out of allowed range (1900-2030)".
  - Metascore is cast to `int` on the Spark path, while the Python loaders use `to_float`.
- **The Spark path differs in its clean rows too.** `SparkProject` trims text columns with `F.trim`, which removes only U+0020, and leaves a null text column null (src/load/load_imdb.py:228-232). The Python loaders strip all whitespace and store `""` for an absent text value (ingestion_flow.py:92-99). So `SparkLoad.CleanColumnsAgree` compares only the numeric columns.
- **The Spark raw record can lose fields.** `F.to_json` leaves null fields out of the JSON document (src/load/load_imdb.py:243). The model's raw record on both paths is the row itself, so on the Spark path it is exact only for rows without null fields.
- `to_int` and `to_float` pass the unstripped value to `int()` / `float()`, which strip the same whitespace themselves; see `Validator.StrippedParses`.
- The loops write to the cursor row by row, and the model keeps that form: the tables are fields that the loop appends to.

## Model

| member | source | states |
|---|---|---|
| Validator.Validate | src/validator.py:13-105 | the verdict of `validate_movie` as a function: the eight rules' messages in rule order, joined with "; "; what it means is stated by the lemmas below |
| Validator.TitleRule | src/validator.py:20-23 | Title: missing when `(v or "").strip()` is empty |
| Validator.RankRule | src/validator.py:25-31 | Rank: malformed when `int(v)` raises, out of range when the value is at most 0 |
| Validator.YearRule | src/validator.py:33-39 | Year: malformed when `int(v)` raises, out of range outside 1900..2030 |
| Validator.RuntimeRule | src/validator.py:41-51 | Runtime: missing, then not an integer, then outside 1..400 |
| Validator.RatingRule | src/validator.py:53-63 | Rating: missing, then not a float, then outside 0..10 |
| Validator.VotesRule | src/validator.py:65-75 | Votes: missing, then not an integer, then negative |
| Validator.RevenueRule | src/validator.py:77-87 | Revenue: missing, then not a float, then negative |
| Validator.MetascoreRule | src/validator.py:89-99 | Metascore: missing, then not an integer, then outside 0..100 |
| Validator.ValidateMovie | src/validator.py:13-105 | the `(is_valid, error_reason)` the step-by-step error list produces is the verdict `Validate(row)` |
| Validator.TitleErrors | src/validator.py:20-23 | the title step appends "Missing Title" exactly when the stripped title is empty |
| Validator.RankErrors | src/validator.py:25-31 | the rank step appends "Rank is not an integer" when `int()` fails, "Rank must be positive" when the value is at most 0, and otherwise nothing |
| Validator.YearErrors | src/validator.py:33-39 | the year step reports a non-integer year, or one outside 1900..2030, with its own message |
| Validator.RuntimeErrors | src/validator.py:41-51 | the runtime step reports missing, then not an integer, then outside 1..400, one message at most |
| Validator.RatingErrors | src/validator.py:53-63 | the rating step reports missing, then not a number, then outside 0..10 |
| Validator.VotesErrors | src/validator.py:65-75 | the votes step reports missing, then not an integer, then negative |
| Validator.RevenueErrors | src/validator.py:77-87 | the revenue step reports missing, then not a number, then negative |
| Validator.MetascoreErrors | src/validator.py:89-99 | the metascore step reports missing, then not an integer, then outside 0..100 |
| Validator.MessagesUnrolled | src/validator.py:18-99 | the error list is the eight rules' reports concatenated in rule order |
| Validator.VerdictPassIff | src/validator.py:101-105 | outcomes give acceptance exactly when all eight pass, and acceptance exactly when the reason is "" |
| Validator.AcceptedIffNoRuleFails | src/validator.py:101-105 | a row is accepted iff no rule fails on it, iff its reason is the empty string |
| Validator.AcceptedIffAdmissible | src/validator.py:13-105 | a row is accepted iff every field is admissible, stated through `to_int`/`to_float` and the bounds |
| Validator.PassIffAdmits | src/validator.py:20-99 | each rule passes on a value iff that value is admissible for its field |
| Validator.OutcomeByCoercion | src/validator.py:41-99 | for the five numeric rules: missing iff the coercion gives no value, malformed iff it raises, out of range iff it gives a value outside the bounds |
| Validator.RankYearNeverMissing | src/validator.py:25-39 | Rank and Year are never reported missing; an absent or blank value is "not an integer" |
| Validator.IntOfIsToInt | src/validator.py:27 | `int(row.get(key))` succeeds exactly when `to_int` yields a number, and then with the same number |
| Validator.StrippedParses | src/validator.py:42-47 | parsing the stripped value gives the same result as parsing the raw value, for `int()` and `float()` |
| Validator.OutcomesReachable | src/validator.py:20-99 | a failing Title is always "missing", and Rank and Year never are |
| Validator.FailingFieldsAre | src/validator.py:18-99 | a field is among the failing ones iff its rule fails |
| Validator.FailingFieldsOrdered | src/validator.py:18-99 | the failing fields come in rule order, none twice |
| Validator.MessagesMatchFailingFields | src/validator.py:18-103 | there is one message per failing field, and message i is the i-th failing field's |
| Validator.MessagesPlain | src/validator.py:23-99 | no message is empty or contains ';' |
| Validator.MessageNamesRule | src/validator.py:23-99 | each message names one rule and one outcome: the table has no duplicate texts |
| Validator.ReasonSplitsIntoMessages | src/validator.py:102-103 | splitting a rejected row's reason at "; " gives back exactly its messages |
| Validator.MessageListedIff | src/validator.py:18-103 | the message for rule f and outcome o is listed iff f's rule reached o on the row |
| Validator.FailingRuleListed | src/validator.py:18-103 | a failing rule rejects the row, and its message is one of the reason's "; "-parts |
| Coerce.ToInt | src/transform/transformers.py:1-4 | `to_int`: no value for an absent or whitespace-only value, else `int()` of the value as given, with `FormatError` for the `ValueError` (the copies at ingestion_flow.py:17-20 and load_imdb.py:40-43 are the same code) |
| Coerce.ToFloat | src/transform/transformers.py:7-10 | `to_float`: the same with `float()` |
| Coerce.NoValueIffBlank | src/transform/transformers.py:1-10 | both coercions give `None` exactly for an absent value or one made only of whitespace |
| Coerce.CoerceIntLiteral | src/transform/transformers.py:1-10 | a whitespace-padded integer literal coerces to its value under `to_int`, and to the same value under `to_float` |
| Coerce.CoerceDecimalLiteral | src/transform/transformers.py:1-10 | a whitespace-padded literal `[-]whole.fraction`, either run of digits possibly empty, coerces under `to_float` to the number it writes, and makes `to_int` raise |
| Coerce.ToIntRaises | src/transform/transformers.py:1-4 | a value with a character that is no digit, sign or whitespace makes `to_int` raise `ValueError` |
| Coerce.ToFloatRaises | src/transform/transformers.py:7-10 | the same for `to_float`, where a point is also allowed |
| Coerce.ToFloatWidensToInt | src/transform/transformers.py:1-10 | whatever `to_int` turns into a number, `to_float` turns into the same number |
| Numeric.ParseInt | src/validator.py:27 | Python's `int()` on a string: surrounding whitespace, one optional sign, at least one digit; `None` for the `ValueError` |
| Numeric.ParseFloat | src/validator.py:59 | Python's `float()` on a decimal literal: surrounding whitespace, one optional sign, digits with an optional point and at least one digit; `None` for the `ValueError` |
| Numeric.ParseDecimalLiteral | src/validator.py:59 | `float()` of a padded `[-]whole.fraction` is the number it writes |
| Numeric.ParseIntToString | src/validator.py:27 | `int()` of `str(n)`, padded with whitespace, gives back n |
| Numeric.ParseIntStripped | src/validator.py:47 | `int()` gives the same result before and after `strip()` |
| Numeric.ParseFloatStripped | src/validator.py:59 | `float()` gives the same result before and after `strip()` |
| Numeric.BlankIsNoNumber | src/validator.py:42-47 | a whitespace-only string is no integer and no number |
| Numeric.IntIsFloat | src/validator.py:95 | every integer literal is a float literal with the same value |
| Text.Strip | src/validator.py:21 | Python's `str.strip()`: removes leading and trailing `isspace()` characters |
| Text.SparkTrim | src/load/load_imdb.py:109 | Spark's `trim`: the result is no longer than the input and has no space at either end |
| Text.Join | src/validator.py:103 | `"; ".join(parts)` |
| Text.Split | src/validator.py:103 | `str.split(sep)`, the inverse the lemmas use to read a reason back |
| Text.StripEmptyIffAllSpace | src/validator.py:21-22 | `strip()` gives "" exactly for a string made only of whitespace |
| Text.StripIdempotent | src/validator.py:21 | stripping twice is the same as stripping once |
| Text.StripPadded | src/validator.py:21 | stripping whitespace padding gives back the unpadded text |
| Text.SplitJoin | src/validator.py:103 | splitting a "; "-join of parts without ';' gives back the parts |
| Text.JoinEmpty | src/validator.py:102-105 | a join of non-empty parts is empty iff there are no parts |
| Text.SparkTrimEmptyIff | src/load/load_imdb.py:109 | Spark's `trim` gives "" exactly for a string made only of spaces |
| Text.StripAfterSparkTrim | src/load/load_imdb.py:228 | Python's `strip()` after Spark's `trim` is Python's `strip()` |
| Routing.AcceptedProjects | ingestion_flow.py:91-103 | no coercion raises on an accepted row; its clean row has a non-empty title and every number present within the validator's bounds |
| Routing.AdmissibleProjects | ingestion_flow.py:92-103 | the same for an admissible row |
| Routing.Project | ingestion_flow.py:92-103 | the clean row of a row: stripped text columns (`""` when absent) and the coerced numbers, or `None` when a coercion raises (as in load_imdb.py:154-165) |
| Routing.CleanRows | ingestion_flow.py:91-122 | the specification of what one pass inserts into `stg_movies`: the projections of the accepted rows, in order |
| Routing.RejectRows | ingestion_flow.py:78-89 | the specification of what one pass inserts into `stg_rejects`: one entry per refused row, in order |
| Routing.PartitionOfBatch | ingestion_flow.py:74-89 | accepted and refused rows together are the batch, each row exactly as often as it occurs |
| Routing.BatchCounts | ingestion_flow.py:71-122 | every row is counted once, as accepted or refused |
| Routing.CleanRowsProjectAccepted | ingestion_flow.py:91-122 | the `stg_movies` rows are the projections of the accepted rows, one for one |
| Routing.RejectRowsRecordRefused | ingestion_flow.py:78-89 | the `stg_rejects` entries are the refused rows, each with the path, the whole row and its reason |
| Routing.RoutedCounts | ingestion_flow.py:71-122 | clean rows plus reject entries number the rows of the batch |
| Routing.RoutingDistributes | ingestion_flow.py:74-122 | routing a concatenation is routing each part, in order |
| Routing.AcceptStep | ingestion_flow.py:91-122 | one more accepted row appends its clean row and leaves the rejects alone |
| Routing.RejectStep | ingestion_flow.py:78-89 | one more refused row appends its reject entry and leaves the clean rows alone |
| Routing.Staging.InsertMovie | ingestion_flow.py:105-121 | `INSERT INTO stg_movies` appends one row and leaves `stg_rejects` unchanged |
| Routing.Staging.InsertReject | ingestion_flow.py:80-87 | `INSERT INTO stg_rejects` appends one entry and leaves `stg_movies` unchanged |
| IngestionFlow.RunIngestion | ingestion_flow.py:71-122 | the tables grow by exactly the batch's clean rows and reject entries, in order; the counts are their lengths and sum to the batch size |
| IngestionFlow.RouteRow | ingestion_flow.py:74-122 | one loop pass extends both tables to the routing of one more row and reports which table grew |
| LoadImdb.LoadImdbCsv | load_imdb.py:63-185 | as `RunIngestion` for the tables; the log gains the header exactly when it did not exist, then one line per reject entry |
| LoadImdb.LoadRow | load_imdb.py:115-185 | one loop pass extends both tables and the log to the routing of one more row |
| LoadImdb.RefuseRow | load_imdb.py:119-152 | a refused row adds its reject entry and its log line and leaves `stg_movies` unchanged |
| LoadImdb.RejectLog.WriteRow | load_imdb.py:132-142 | `writerow` appends one line to the log |
| LoadImdb.LogRow | load_imdb.py:132-142 | the log line of a reject entry: the path, the raw Rank, the stripped Title, the raw Year, Rating and Votes, and the reason |
| LoadImdb.LogStep | load_imdb.py:131-142 | one more refused row appends its log line; an accepted one appends nothing |
| LoadImdb.LogMirrorsRejects | load_imdb.py:121-142 | log line i holds the i-th refused row's path, raw Rank, stripped Title, raw Year, Rating and Votes, and the reason its reject entry records |
| SparkLoad.NoneFires | src/load/load_imdb.py:107-172 | no condition holds exactly when each of the thirteen is false |
| SparkLoad.Evaluate | src/load/load_imdb.py:107-172 | the thirteen column conditions of `validate_movie_spark` on a row |
| SparkLoad.ReasonOf | src/load/load_imdb.py:175-193 | `trim(concat_ws("; ", when(...)...))`: the messages of the conditions that hold, in table order |
| SparkLoad.TableComplete | src/load/load_imdb.py:176-190 | every entry of the message table is one of the thirteen `when` arguments |
| SparkLoad.LabelPlain | src/load/load_imdb.py:177-189 | every message is non-empty, has no ';' and no space at either end |
| SparkLoad.EntryOfLabel | src/load/load_imdb.py:177-189 | the thirteen messages are distinct |
| SparkLoad.FiredPlain | src/load/load_imdb.py:176-190 | every message `concat_ws` keeps is plain |
| SparkLoad.FiredEmptyIff | src/load/load_imdb.py:176-190 | nothing is kept exactly when no condition holds |
| SparkLoad.FiredListedIff | src/load/load_imdb.py:176-190 | an entry's message is kept iff its condition holds |
| SparkLoad.ReasonIsJoin | src/load/load_imdb.py:175-193 | the final `trim` of `error_reason` changes nothing |
| SparkLoad.ReasonEmptyIff | src/load/load_imdb.py:175-193 | `error_reason` is "" exactly when no condition holds |
| SparkLoad.ReasonListsIff | src/load/load_imdb.py:175-193 | splitting a non-empty `error_reason` at "; " lists an entry's message iff its condition holds |
| SparkLoad.FiltersComplement | src/load/load_imdb.py:223-224 | the two filters are complementary on every value of `error_reason`, null included |
| SparkLoad.SparkValidIff | src/load/load_imdb.py:218-224 | a row lands in `valid_df` iff its reason is "", iff no condition holds; `invalid_df` takes the others |
| SparkLoad.InvalidIsRest | src/load/load_imdb.py:223-224 | `invalid_df` holds exactly the rows `valid_df` drops, in order |
| SparkLoad.SplitPartition | src/load/load_imdb.py:216-247 | the two frames partition the input, and their sizes add up to its size |
| SparkLoad.CleanProjectsValid | src/load/load_imdb.py:223-239 | `clean_df` row i is the `select` of `valid_df` row i, whose reason is "" |
| SparkLoad.RejectsRecordInvalid | src/load/load_imdb.py:224-245 | reject entry i holds the path, `invalid_df` row i itself and its non-empty reason |
| SparkLoad.SparkProject | src/load/load_imdb.py:226-239 | the `select` of `clean_df`: the casts of the numeric columns and `trim` of the text columns, null kept as null |
| SparkLoad.ProcessAndSplit | src/load/load_imdb.py:216-247 | `process_and_split`: the projections of the rows the valid filter keeps, and the reject entries of the rows the invalid filter keeps |
| SparkLoad.ValidProjectsWellFormed | src/load/load_imdb.py:226-239 | a valid row's clean row has a present, non-blank title and every number present and in bounds, whatever the casts |
| SparkLoad.CleanWellFormed | src/load/load_imdb.py:216-247 | every row of `clean_df` is well formed |
| SparkLoad.NullOrBlankIsBlank | src/load/load_imdb.py:132 | what a Spark "missing" condition calls missing, Python's `strip()` calls blank |
| SparkLoad.CastsOf | src/load/load_imdb.py:113-170 | under agreeing casts, the column casts are the Python parses of the stripped value, and null on a blank one |
| SparkLoad.TitleConditionNarrower | src/load/load_imdb.py:109 | the Spark title condition implies "Missing Title"; the converse fails exactly for whitespace that is not all spaces, such as "\t" |
| SparkLoad.ConditionsAgree | src/load/load_imdb.py:111-172 | under agreeing casts, a field's Spark conditions fire iff its Python rule fails (Title excepted) |
| SparkLoad.MirrorsOnRow | src/load/load_imdb.py:101-172 | under agreeing casts, the thirteen conditions on a row mirror the eight rule outcomes on it |
| SparkLoad.MirroredVerdicts | src/load/load_imdb.py:175-193 | mirrored outcomes that all pass fire nothing, and when nothing fires they all pass iff the title does |
| SparkLoad.AcceptanceAgrees | src/load/load_imdb.py:101-105 | under agreeing casts, a row `validate_movie` accepts is in `valid_df`, and a row in `valid_df` is accepted iff its title passes |
| SparkLoad.WhitespaceTitleDiverges | src/load/load_imdb.py:109 | a row in `valid_df` whose title is all whitespace is rejected by `validate_movie` with "Missing Title" |
| SparkLoad.CleanColumnsAgree | src/load/load_imdb.py:226-239 | under agreeing casts, an accepted row gets the same numbers on both paths; Metascore is the Spark `int` widened to the Python `float` |
| SparkLoad.BatchAgrees | src/load/load_imdb.py:216-224 | under agreeing casts, the rows the Python loaders accept are, as a multiset, among those `valid_df` keeps |
| Scenarios.GuardiansAccepted | tests/test_validator.py:13-29 | the fully valid movie is accepted with reason "" |
| Scenarios.MissingRevenueListed | src/validator.py:77-80 | a row with missing revenue is rejected and "Missing Revenue" is one of its reason's parts |
| Scenarios.MindhornRejected | tests/test_validator.py:32-48 | the movie with empty revenue is rejected and its reason lists "Missing Revenue" |
| Scenarios.MindhornReason | tests/test_validator.py:32-48 | the movie with empty revenue is rejected with exactly the reason "Missing Revenue" |
| Scenarios.RevenueOnlyReason | src/validator.py:77-80 | a row on which only Revenue fails, as missing, is rejected with exactly the reason "Missing Revenue" |
| Scenarios.RevenueOnlyVerdict | src/validator.py:77-80 | outcomes where only Revenue fails, as missing, give exactly the reason "Missing Revenue" |
| Scenarios.RatingOutOfRangeListed | src/validator.py:58-61 | a row whose rating is out of range is rejected and the Rating range message is one of its reason's parts |
| Scenarios.ElevenOutOfRange | src/validator.py:58-61 | the rating "11.0" is out of range |
| Scenarios.OverratedRejected | tests/test_validator.py:51-67 | the movie rated 11.0 is rejected and its reason lists "Rating out of range 0–10" |
| Scenarios.TitleRankYearVerdict | src/validator.py:18-39 | outcomes where only Title, Rank and Year fail give exactly "Missing Title; Rank must be positive; Year out of allowed range" |
| Scenarios.TitleRankYearReason | src/validator.py:101-103 | a row on which only those three rules fail is rejected with exactly that reason |
| Scenarios.UntitledReason | src/validator.py:20-39 | a movie with Title "", Rank "-5", Year "1850" and otherwise valid values is rejected with exactly "Missing Title; Rank must be positive; Year out of allowed range" |

## Left out

- Reading the CSV source (`read_movies`, `csv.DictReader`, `spark.read.csv`, and `load_imdb_spark`). The batch is given as a sequence of rows.
- IngestionFlow.RunIngestion: starts at the routing loop (ingestion_flow.py:74). As written, `run_ingestion` takes `rows = read_movies(path)` from the root data_reader.py, which is a generator (data_reader.py:6-27), and `len(rows)` at ingestion_flow.py:32 then raises `TypeError` before any row is routed. Only when the reader returns a list, as src/reader/data_reader.py:17-27 does, does the loop run as modelled.
- Both loaders import `validate_movie` from a top-level `validator` module that is not part of this model; it is taken to be src/validator.py.
- Connecting to PostgreSQL, `commit`, `close`, and failures of the database or the file system. The tables are the in-memory `Staging` object, and every insert succeeds.
- Configuration loading (`config.yaml`, the Spark session, paths relative to the project root) and the default source path.
- The `print` and `logger` calls. The row counts they report are the methods' results.
- `save_to_db_spark` and both `export_clean_movies_to_csv` functions. They are sinks with no logic of their own.
- `json.dumps` / `to_json`. The stored raw record is the row itself, which is what the round trip through the JSON document must preserve.
- CSV quoting by `csv.writer`. A log line is the list of its cells.
- Numeric.ParseInt: does not accept underscore-separated literals such as "1_000" or non-ASCII decimal digits, which Python's `int()` accepts. It also accepts literals of any length, while `int()` raises `ValueError` on a literal of more than 4300 digits (the default `sys.int_info` limit).
- Numeric.ParseFloat: models decimal literals only. It models no exponents, `inf` or `nan`, no underscores and no non-ASCII decimal digits, which `float()` all accepts. It uses exact rational values instead of rounding to a double, so a rating a hair above 10 that rounds to 10.0 is "out of range" in the model.
- SparkLoad.CastsAgree: Spark's own string casts are not modelled. Every agreement lemma (`CastsOf`, `ConditionsAgree`, `MirrorsOnRow`, `AcceptanceAgrees`, `CleanColumnsAgree`, `BatchAgrees`) assumes the casts parse as Python's `int` and `float` do. Real Spark casts differ in places: a fractional part in an `int` cast, an `int` cast of a value beyond 32 bits (null, so the field's condition fires), 32-bit rounding in the `float` cast. The split lemmas (`SplitPartition`, `CleanProjectsValid`, `RejectsRecordInvalid`, `CleanWellFormed`) hold for any casts.
- Row order across Spark partitions. `ProcessAndSplit` keeps input order.
