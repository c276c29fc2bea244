/**
 * The request pipeline of middleware/middleware.go: chain building, panic
 * recovery, logging, and the response stage that negotiates the encoding
 * and writes whatever the inner chain staged on the request context.
 */
module Middleware {
  import opened Wrappers
  import opened Http
  import Response

  /** A middleware wraps a handler into a handler. */
  type Middleware = Handler -> Handler

  /** Context key under which a handler stages its status code. */
  const StatusCodeKey := "http_status_code"
  /** Context key under which a handler stages its envelope. */
  const ResponseStructKey := "http_response_body"

  /** The staged status: `ctx.Value(StatusCodeKey).(int)`, absent when unset or not an int. */
  function StagedStatus(ctx: Context): Option<int>
  {
    if StatusCodeKey in ctx && ctx[StatusCodeKey].IntValue? then Some(ctx[StatusCodeKey].n) else None
  }

  /** The staged envelope: `ctx.Value(ResponseStructKey)`, nil when unset. */
  function StagedBody(ctx: Context): Option<ContextValue>
  {
    if ResponseStructKey in ctx then Some(ctx[ResponseStructKey]) else None
  }

  /** `r'` is `r` with nothing changed but what its context yields under the two staging keys. */
  ghost predicate OnlyStagingChanged(r: Request, r': Request)
  {
    && r'.accept == r.accept && r'.query == r.query && r'.body == r.body
    && (forall k :: k != StatusCodeKey && k != ResponseStructKey ==> (k in r'.ctx <==> k in r.ctx))
    && (forall k :: k != StatusCodeKey && k != ResponseStructKey && k in r.ctx ==> r'.ctx[k] == r.ctx[k])
  }

  // ---------------------------------------------------------------------
  // BuildChain
  // ---------------------------------------------------------------------

  /** The handler `f` wrapped by the middlewares `m`, the first one outermost. */
  function BuildChain(f: Handler, m: seq<Middleware>): Handler
    decreases |m|
  {
    if |m| == 0 then f else m[0](BuildChain(f, m[1..]))
  }

  /** Chaining `a + b` is chaining `a` around the chain of `b`. */
  lemma {:induction false} BuildChainSplit(f: Handler, a: seq<Middleware>, b: seq<Middleware>)
    ensures BuildChain(f, a + b) == BuildChain(BuildChain(f, b), a)
    decreases |a|
  {
    if a == [] {
      assert a + b == b;
    } else {
      assert (a + b)[0] == a[0];
      assert (a + b)[1..] == a[1..] + b;
      BuildChainSplit(f, a[1..], b);
    }
  }

  /** The last middleware listed wraps `f` directly; the others wrap that in order. */
  lemma BuildChainInnermost(f: Handler, m: seq<Middleware>)
    requires m != []
    ensures BuildChain(f, m) == BuildChain(m[|m| - 1](f), m[..|m| - 1])
  {
    var n := |m| - 1;
    assert m == m[..n] + [m[n]];
    BuildChainSplit(f, m[..n], [m[n]]);
    assert BuildChain(f, [m[n]]) == m[n](f) by {
      assert [m[n]][1..] == [];
    }
  }

  /**
   * A Go slice of middlewares: `window` holds the elements from the slice's
   * start to the end of its backing array (so `|window|` is its capacity),
   * `len` its length.
   */
  datatype Slice = Slice(window: seq<Middleware>, len: nat)

  /**
   * `BuildChain` as written: the recursion re-slices to `m[1:cap(m)]`, so
   * after the first step it runs on to the capacity, not the length.
   */
  function BuildChainAsWritten(f: Handler, m: Slice): Handler
    requires m.len <= |m.window|
    decreases |m.window|
  {
    if m.len == 0 then f
    else m.window[0](BuildChainAsWritten(f, Slice(m.window[1..], |m.window| - 1)))
  }

  /** As written, a slice whose length is its capacity chains exactly its elements. */
  lemma {:induction false} AsWrittenAgreesWhenFull(f: Handler, ms: seq<Middleware>)
    ensures BuildChainAsWritten(f, Slice(ms, |ms|)) == BuildChain(f, ms)
    decreases |ms|
  {
    if ms != [] {
      AsWrittenAgreesWhenFull(f, ms[1..]);
    }
  }

  /** As written, any non-empty slice chains every element up to its capacity, past its length. */
  lemma AsWrittenChainsCapacity(f: Handler, ms: seq<Middleware>, len: nat)
    requires 0 < len <= |ms|
    ensures BuildChainAsWritten(f, Slice(ms, len)) == BuildChain(f, ms)
  {
    AsWrittenAgreesWhenFull(f, ms[1..]);
  }

  // ---------------------------------------------------------------------
  // The three middlewares
  // ---------------------------------------------------------------------

  /** The envelope recovery stages after a panic. */
  const RecoveryEnvelope := Response.Plain(Response.Result(StatusText(StatusInternalServerError), "there was an unfortunate error"))

  /** The envelope the response stage writes when no status was staged (note the capital T). */
  const FallbackEnvelope := Response.Plain(Response.Result(StatusText(StatusInternalServerError), "There was an unfortunate error"))

  /**
   * `RecoveryMiddleware`: a panic in `f` is caught by the deferred recover,
   * which stages status 500 and the recovery envelope over the request as
   * the panic left it, changing nothing else; without a panic nothing changes.
   */
  function RecoveryMiddleware(f: Handler): (h: Handler)
    ensures forall x: Exchange :: h(x).Normal?
    ensures forall x: Exchange :: f(x).Normal? ==> h(x) == f(x)
    ensures forall x: Exchange :: f(x).Panic? ==>
      && StagedStatus(h(x).x.r.ctx) == Some(StatusInternalServerError)
      && StagedBody(h(x).x.r.ctx) == Some(EnvelopeValue(RecoveryEnvelope))
      && h(x).x.w == f(x).x.w && h(x).x.calls == f(x).x.calls
      && OnlyStagingChanged(f(x).x.r, h(x).x.r)
  {
    (x: Exchange) =>
      match f(x)
      case Normal(y) => Normal(y)
      case Panic(y) =>
        var ctx := WithValue(y.r.ctx, StatusCodeKey, IntValue(StatusInternalServerError));
        var ctx' := WithValue(ctx, ResponseStructKey, EnvelopeValue(RecoveryEnvelope));
        Normal(y.(r := y.r.(ctx := ctx')))
  }

  /** `LoggingMiddleware`: calls `f` once and writes a log line, which is not modelled; the exchange is `f`'s. */
  function LoggingMiddleware(f: Handler): (h: Handler)
    ensures forall x: Exchange :: h(x) == f(x)
  {
    x => f(x)
  }

  /** The encoder chosen for an exact Accept value, if any. */
  function Negotiate(accept: string): (enc: Option<Encoding>)
    ensures enc == Some(Xml) <==> accept == "application/xml"
    ensures enc == Some(Json) <==> accept == "application/json" || accept == "*/*"
  {
    match accept
    case "application/xml" => Some(Xml)
    case "application/json" => Some(Json)
    case "*/*" => Some(Json)
    case _ => None
  }

  /** The Content-Type header set for an encoder. */
  function ContentType(enc: Encoding): string
  {
    match enc
    case Xml => "application/xml"
    case Json => "application/json"
  }

  /** The response stage after the inner chain returned normally: write the staged status and envelope, or the fallback. */
  function WriteStaged(y: Exchange, enc: Encoding): (z: Exchange)
    ensures z.r == y.r && z.calls == y.calls && z.w.contentType == y.w.contentType
    ensures z.w.status == Some(StagedStatus(y.r.ctx).GetOr(StatusInternalServerError))
    ensures z.w.body == y.w.body + [Encoded(enc,
      if StagedStatus(y.r.ctx).Some? then StagedBody(y.r.ctx) else Some(EnvelopeValue(FallbackEnvelope)))]
  {
    match StagedStatus(y.r.ctx)
    case Some(status) =>
      y.(w := Encode(WriteHeader(y.w, status), enc, StagedBody(y.r.ctx)))
    case None =>
      y.(w := Encode(WriteHeader(y.w, StatusInternalServerError), enc, Some(EnvelopeValue(FallbackEnvelope))))
  }

  /** The exchange the response stage hands to the inner chain: the Content-Type for the chosen encoder set. */
  function Negotiated(x: Exchange, enc: Encoding): Exchange
  {
    x.(w := SetContentType(x.w, ContentType(enc)))
  }

  /**
   * `ResponseMiddleware`: an Accept value it cannot serve gets 415 and an
   * empty body without the inner chain running; otherwise the inner chain
   * runs and what it staged is written with the chosen encoder. A panic
   * passes through.
   */
  function ResponseMiddleware(f: Handler): (h: Handler)
    ensures forall x: Exchange :: Negotiate(x.r.accept).None? ==>
      h(x) == Normal(x.(w := WriteHeader(x.w, StatusUnsupportedMediaType)))
    ensures forall x: Exchange :: Negotiate(x.r.accept).Some? && f(Negotiated(x, Negotiate(x.r.accept).value)).Normal? ==>
      h(x) == Normal(WriteStaged(f(Negotiated(x, Negotiate(x.r.accept).value)).x, Negotiate(x.r.accept).value))
    ensures forall x: Exchange :: Negotiate(x.r.accept).Some? && f(Negotiated(x, Negotiate(x.r.accept).value)).Panic? ==>
      h(x) == f(Negotiated(x, Negotiate(x.r.accept).value))
  {
    (x: Exchange) =>
      match Negotiate(x.r.accept)
      case None =>
        // w.Write([]byte{}) adds nothing to the body
        Normal(x.(w := WriteHeader(x.w, StatusUnsupportedMediaType)))
      case Some(enc) =>
        match f(Negotiated(x, enc))
        case Panic(y) => Panic(y)
        case Normal(y) => Normal(WriteStaged(y, enc))
  }

  /** With an Accept value it cannot serve, the response stage never runs its inner chain: any two inner chains give the same. */
  lemma UnsupportedSkipsInner(f: Handler, g: Handler, x: Exchange)
    requires Negotiate(x.r.accept).None?
    ensures ResponseMiddleware(f)(x) == ResponseMiddleware(g)(x)
    ensures ResponseMiddleware(f)(x).x.w.status == Some(StatusUnsupportedMediaType)
    ensures ResponseMiddleware(f)(x).x.w.body == x.w.body
    ensures ResponseMiddleware(f)(x).x.calls == x.calls
  {
  }
}
