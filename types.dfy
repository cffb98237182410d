/** The records the URL fix logic reads and writes (types.ts). */
module Types {
  import opened Wrappers

  /** A web result returned with the generated answer as evidence. */
  datatype GroundingSource = GroundingSource(title: string, uri: string)

  /** A comparable listing proposed by the model; `price` and `advantagePercentage` are
      JavaScript numbers and are only ever copied. */
  datatype ComparableListing = ComparableListing(
    title: string,
    price: real,
    url: Option<string>,
    advantagePercentage: real,
    description: Option<string>)
}
