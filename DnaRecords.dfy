/**
 * The immutable records of the DNA short-tandem-repeat (STR) database: a
 * person with their STR counts, and the outcome of a query. The Java getters
 * are the datatypes' fields.
 */
module DnaRecords {
  import opened Wrappers

  /** A person's name and, for each STR of the database header in order, how
      many times it repeats in their DNA. */
  datatype Person = Person(name: string, dnaRepeats: seq<int>)

  /** The three outcomes of a query, and no others. */
  datatype ResultType = ExactMatch | CloseMatch | NoMatch

  /** The outcome of a query: its type, the matching people (`None` is the
      `null` array of a failed query) and how many STR counts they share with
      the sample. */
  datatype MatchResult = MatchResult(resultType: ResultType, people: Option<seq<Person>>, numSTRs: int)
}
