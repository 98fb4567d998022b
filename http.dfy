/** The JSON envelope every API route answers with, and its HTTP status. */
module Http {

  /** `{ success: true, data }` or `{ success: false, error }`, with the status code sent. */
  datatype ApiResponse<+T> =
    | Success(status: nat, data: T)
    | Failure(status: nat, error: string)
}
