/** Result shapes shared by the dashboard model. */
module Results {

  /** A value that may be absent (a parse that can fail). */
  datatype Option<+T> = None | Some(value: T)

  /** The outcome of a call into the fund-data provider: the data, or the
      text of the exception it raised. */
  datatype Fetch<+T> = Fetched(value: T) | FetchFailed(message: string)
}
