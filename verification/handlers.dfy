/**
 * The two route handlers of handlers/handlers.go and their helper `write`.
 * A handler never touches the response writer: it stages a status and an
 * envelope on the request context for the response stage to write.
 */
module Handlers {
  import opened Wrappers
  import opened Http
  import opened Middleware
  import Storage
  import Response

  /**
   * The request after `write`: `status` staged under the status key and `env` under the body
   * key, over the request's context; nothing else about the request changes.
   */
  function Written(r: Request, status: int, env: Response.Envelope): (r': Request)
    ensures StagedStatus(r'.ctx) == Some(status)
    ensures StagedBody(r'.ctx) == Some(EnvelopeValue(env))
    ensures OnlyStagingChanged(r, r')
  {
    var ctx := WithValue(r.ctx, StatusCodeKey, IntValue(status));
    r.(ctx := WithValue(ctx, ResponseStructKey, EnvelopeValue(env)))
  }

  /** A later `write` hides an earlier one entirely: writing twice is writing the second pair once. */
  lemma LaterWriteWins(r: Request, s1: int, e1: Response.Envelope, s2: int, e2: Response.Envelope)
    ensures Written(Written(r, s1, e1), s2, e2) == Written(r, s2, e2)
  {
  }

  /** The envelope staged when the store reports an error. */
  const RetrieveFailedEnvelope := Response.Plain(Response.Result(StatusText(StatusInternalServerError), "failure in retrieving results"))

  /** The envelope staged with the terms the store found. */
  function RetrievedEnvelope(terms: seq<Storage.Term>): Response.Envelope
  {
    Response.GetTermResult(Some(terms), Response.Result(StatusText(StatusOK), "successful in retrieving results"))
  }

  /** The envelope staged after an insertion. */
  const InsertedEnvelope := Response.PostTermResult(Response.Result(StatusText(StatusOK), "successful insertion of term"))

  /**
   * `GetHandler`: asks the store, through `retrieve`, for the terms under the
   * `key` query value (absent means the empty prefix, so every term). An
   * error from the store stages 500 and drops the terms; otherwise 200 and
   * the terms exactly as the store returned them. It always returns normally.
   */
  function GetHandler(retrieve: string -> Storage.StoreResult, x: Exchange): (o: Outcome)
    ensures o.Normal?
    ensures o.x.w == x.w
    ensures o.x.calls == x.calls + [RetrieveCall(FormValue(x.r, "key"))]
    ensures OnlyStagingChanged(x.r, o.x.r)
    ensures retrieve(FormValue(x.r, "key")).err.Some? ==>
      StagedStatus(o.x.r.ctx) == Some(StatusInternalServerError) &&
      StagedBody(o.x.r.ctx) == Some(EnvelopeValue(RetrieveFailedEnvelope))
    ensures retrieve(FormValue(x.r, "key")).err.None? ==>
      StagedStatus(o.x.r.ctx) == Some(StatusOK) &&
      StagedBody(o.x.r.ctx) == Some(EnvelopeValue(RetrievedEnvelope(retrieve(FormValue(x.r, "key")).terms)))
  {
    var key := FormValue(x.r, "key");
    var result := retrieve(key);
    var x' := x.(calls := x.calls + [RetrieveCall(key)]);
    if result.err.Some? then
      Normal(x'.(r := Written(x'.r, StatusInternalServerError, RetrieveFailedEnvelope)))
    else
      Normal(x'.(r := Written(x'.r, StatusOK, RetrievedEnvelope(result.terms))))
  }

  /** The zero `Term` a body that fails to decode leaves behind: empty key, nil value. */
  const ZeroTerm := Storage.Term("", Storage.Nil)

  /** The term `PostHandler` inserts for a body that decoded to something other than null. */
  function PostedTerm(body: Decoded): Storage.Term
  {
    match body
    case DecodedTerm(t) => t
    case _ => ZeroTerm
  }

  /**
   * `PostHandler`: inserts the decoded term and stages 200 with the
   * insertion envelope, whatever the store answered. A body that fails to
   * decode inserts the zero term; a JSON null body leaves a nil pointer,
   * and reading its key panics before anything is inserted or staged.
   */
  function PostHandler(x: Exchange): (o: Outcome)
    ensures o.Panic? <==> x.r.body.DecodedNull?
    ensures o.Panic? ==> o.x == x
    ensures o.Normal? ==>
      && o.x.w == x.w
      && o.x.calls == x.calls + [InsertCall(PostedTerm(x.r.body))]
      && OnlyStagingChanged(x.r, o.x.r)
      && StagedStatus(o.x.r.ctx) == Some(StatusOK)
      && StagedBody(o.x.r.ctx) == Some(EnvelopeValue(InsertedEnvelope))
    ensures x.r.body.Malformed? ==> o.Normal? && o.x.calls == x.calls + [InsertCall(Storage.Term("", Storage.Nil))]
  {
    match x.r.body
    case DecodedNull => Panic(x)
    case _ =>
      var x' := x.(calls := x.calls + [InsertCall(PostedTerm(x.r.body))]);
      Normal(x'.(r := Written(x'.r, StatusOK, InsertedEnvelope)))
  }

  /**
   * One request in flight as the handlers see it: `r` is the request the
   * handler's `*http.Request` points to, overwritten in place; `w` is the
   * writer, which the handlers leave alone; `calls` the store calls made.
   * The methods are the handlers' own step-by-step form; the functions
   * above say what each one leaves behind, and they are what the
   * middlewares compose.
   */
  class InFlight {
    var r: Request
    var w: Writer
    var calls: seq<StoreCall>

    /** The exchange as it stands. */
    function Current(): Exchange
      reads this
    {
      Exchange(r, w, calls)
    }

    constructor (x: Exchange)
      ensures Current() == x
    {
      r, w, calls := x.r, x.w, x.calls;
    }

    /** `write`: two overwrites of `*r`, each with a context one value longer. */
    method Write(status: int, env: Response.Envelope)
      modifies this
      ensures r == Written(old(r), status, env)
      ensures w == old(w) && calls == old(calls)
    {
      r := r.(ctx := WithValue(r.ctx, StatusCodeKey, IntValue(status)));
      r := r.(ctx := WithValue(r.ctx, ResponseStructKey, EnvelopeValue(env)));
    }

    /** `GetHandler`, in place. */
    method Get(retrieve: string -> Storage.StoreResult)
      modifies this
      ensures GetHandler(retrieve, old(Current())) == Normal(Current())
    {
      var key := FormValue(r, "key");
      var result := retrieve(key);
      calls := calls + [RetrieveCall(key)];
      if result.err.Some? {
        Write(StatusInternalServerError, RetrieveFailedEnvelope);
        return;
      }
      Write(StatusOK, RetrievedEnvelope(result.terms));
    }

    /** `PostHandler`, in place; `panicked` says it stopped at the nil term. */
    method Post() returns (panicked: bool)
      modifies this
      ensures PostHandler(old(Current())) == if panicked then Panic(Current()) else Normal(Current())
    {
      var term: Storage.Term;
      match r.body {
        case DecodedNull =>
          return true;
        case DecodedTerm(t) =>
          term := t;
        case Malformed =>
          term := ZeroTerm;
      }
      calls := calls + [InsertCall(term)];
      Write(StatusOK, InsertedEnvelope);
      panicked := false;
    }
  }
}
