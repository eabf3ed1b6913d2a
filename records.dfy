/**
  The raw input row as `csv.DictReader` hands it over: a mapping from column name to
  a string, where a value may also be absent (`None`, or no such key at all).
 */
module Records {

  import opened Wrappers

  type RawRecord = map<string, Option<string>>

  const TitleKey := "Title"
  const RankKey := "Rank"
  const GenreKey := "Genre"
  const DescriptionKey := "Description"
  const DirectorKey := "Director"
  const ActorsKey := "Actors"
  const YearKey := "Year"
  const RuntimeKey := "Runtime (Minutes)"
  const RatingKey := "Rating"
  const VotesKey := "Votes"
  const RevenueKey := "Revenue (Millions)"
  const MetascoreKey := "Metascore"

  /** Python's `row.get(key)`: `None` when the key is missing or maps to `None`. */
  function Get(row: RawRecord, key: string): Option<string> {
    if key in row then row[key] else None
  }

  /** An entry of the rejects table: where the row came from, the whole raw row (the
      `raw_record` JSON document, modelled by the row itself) and why it was refused. */
  datatype RejectRecord = RejectRecord(sourceFile: string, rawRecord: RawRecord, errorReason: string)
}
