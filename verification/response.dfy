/** The response envelopes of response/response.go. They carry no behaviour of their own. */
module Response {
  import opened Wrappers
  import Storage

  /** `Result`: the status text and the message every envelope carries. */
  datatype Result = Result(status: string, message: string)

  /**
   * The three envelope shapes: a bare `Result`, a `GetTermResult` whose
   * payload (an `interface{}`, possibly nil) holds the terms found, and a
   * `PostTermResult`.
   */
  datatype Envelope =
    | Plain(result: Result)
    | GetTermResult(payload: Option<seq<Storage.Term>>, result: Result)
    | PostTermResult(result: Result)
}
