/**
 * The parts of Go's net/http and context packages the pipeline relies on,
 * reduced to values: a request with its context, the response writer, and
 * a handler as a function from one exchange to its outcome.
 */
module Http {
  import opened Wrappers
  import Storage
  import Response

  const StatusOK: int := 200
  const StatusUnsupportedMediaType: int := 415
  const StatusInternalServerError: int := 500

  /** `http.StatusText` for the codes this service uses; the empty string for others. */
  function StatusText(code: int): string
  {
    if code == StatusOK then "OK"
    else if code == StatusUnsupportedMediaType then "Unsupported Media Type"
    else if code == StatusInternalServerError then "Internal Server Error"
    else ""
  }

  /** A value stored in a request context under some key. */
  datatype ContextValue = IntValue(n: int) | EnvelopeValue(envelope: Response.Envelope)

  /** A request context, as the values its keys currently yield. */
  type Context = map<string, ContextValue>

  /** `context.WithValue`: the new value hides any earlier one under the same key. */
  function WithValue(ctx: Context, key: string, v: ContextValue): (c: Context)
    ensures key in c && c[key] == v
    ensures forall k :: k != key ==> (k in c <==> k in ctx)
    ensures forall k :: k != key && k in ctx ==> c[k] == ctx[k]
  {
    ctx[key := v]
  }

  /**
   * What decoding the request body as JSON into a `*Term` leaves: a term, a
   * nil pointer (the body was JSON null), or an error with the term untouched.
   */
  datatype Decoded = DecodedTerm(term: Storage.Term) | DecodedNull | Malformed

  /** The request as the pipeline sees it: the Accept header, the query values, the decoded body and the context. */
  datatype Request = Request(accept: string, query: map<string, string>, body: Decoded, ctx: Context)

  /** `r.FormValue`: the query value, or the empty string when absent. */
  function FormValue(r: Request, name: string): string
  {
    if name in r.query then r.query[name] else ""
  }

  datatype Encoding = Xml | Json

  /** One value handed to an encoder: `nil` is `None`. */
  datatype Chunk = Encoded(encoding: Encoding, value: Option<ContextValue>)

  /** The response writer: the status written, the Content-Type header, and what was encoded into the body. */
  datatype Writer = Writer(status: Option<int>, contentType: Option<string>, body: seq<Chunk>)

  /** `w.WriteHeader(code)`. */
  function WriteHeader(w: Writer, code: int): Writer
  {
    w.(status := Some(code))
  }

  /** `w.Header().Set("Content-Type", ct)`. */
  function SetContentType(w: Writer, ct: string): Writer
  {
    w.(contentType := Some(ct))
  }

  /** `encoder.Encode(v)` on an encoder over `w`. */
  function Encode(w: Writer, enc: Encoding, v: Option<ContextValue>): Writer
  {
    w.(body := w.body + [Encoded(enc, v)])
  }

  /** A call a handler makes into the store. */
  datatype StoreCall = RetrieveCall(prefix: string) | InsertCall(term: Storage.Term)

  /** One request in flight: the request, the writer, and the store calls made so far. */
  datatype Exchange = Exchange(r: Request, w: Writer, calls: seq<StoreCall>)

  /** How a handler returns: normally, or by panicking, with the exchange as it was at that moment. */
  datatype Outcome = Normal(x: Exchange) | Panic(x: Exchange)

  /** `http.HandlerFunc`. */
  type Handler = Exchange -> Outcome

  /** A fresh writer: nothing written yet. */
  const EmptyWriter := Writer(None, None, [])
}
