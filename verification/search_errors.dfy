/** Outcomes of a similarity search. The search propagates the first failure
    it meets and never returns a partial result. */
module SearchErrors {

  /** Why a search fails: a query channel the dataset entry does not have
      (Python's KeyError on the lookup), or a channel sequence with no values
      (numpy's min over an empty distance matrix). */
  datatype SearchError =
    | MissingChannel(name: string)
    | EmptySequence

  /** Either a value or the failure that stopped the computation. */
  datatype Result<+T> = Ok(value: T) | Err(error: SearchError)
}
