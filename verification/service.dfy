/**
 * The service as cmd/suggest/main.go assembles it: both routes wrap their
 * handler in the same list of middlewares, and both handlers talk to the
 * gardener of the Storage module. The lemmas here follow a request through
 * the whole chain.
 */
module Service {
  import opened Wrappers
  import opened Http
  import opened Middleware
  import opened Handlers
  import Storage

  /** The middlewares every route is wrapped in, the first one outermost. */
  const Middlewares: seq<Middleware> := [LoggingMiddleware, ResponseMiddleware, RecoveryMiddleware]

  /** `GET /`: the get handler over the store's retrieval. */
  function GetRoute(retrieve: string -> Storage.StoreResult): Handler
  {
    BuildChain(x => GetHandler(retrieve, x), Middlewares)
  }

  /** `POST /`: the post handler. */
  function PostRoute(): Handler
  {
    BuildChain(PostHandler, Middlewares)
  }

  /** The store requests a sequence of handler calls amounts to, in order. */
  function StoreRequests(calls: seq<StoreCall>): (reqs: seq<Storage.Request>)
    ensures |reqs| == |calls|
    ensures forall i :: 0 <= i < |calls| ==> reqs[i] == match calls[i]
      case RetrieveCall(p) => Storage.RetrieveMessage(p)
      case InsertCall(t) => Storage.InsertTerm(t)
  {
    seq(|calls|, i requires 0 <= i < |calls| =>
      match calls[i]
      case RetrieveCall(p) => Storage.RetrieveMessage(p)
      case InsertCall(t) => Storage.InsertTerm(t))
  }

  /** The route chain is logging around the response stage around recovery around the handler. */
  lemma ChainOrder(f: Handler, x: Exchange)
    ensures BuildChain(f, Middlewares)(x) == ResponseMiddleware(RecoveryMiddleware(f))(x)
  {
    var m := Middlewares;
    var inner := RecoveryMiddleware(f);
    assert BuildChain(f, m[2..]) == inner by {
      assert m[2..] == [RecoveryMiddleware];
      assert m[2..][1..] == [];
    }
    assert BuildChain(f, m[1..]) == ResponseMiddleware(inner) by {
      assert m[1..][1..] == m[2..];
    }
    assert BuildChain(f, m) == LoggingMiddleware(ResponseMiddleware(inner));
  }

  /** An Accept value the chain cannot serve gets 415 and an empty body, and the handler does not run. */
  lemma ChainRejects(f: Handler, x: Exchange)
    requires Negotiate(x.r.accept).None?
    ensures BuildChain(f, Middlewares)(x) == Normal(x.(w := x.w.(status := Some(StatusUnsupportedMediaType))))
  {
    ChainOrder(f, x);
  }

  /** A handler that panics under a supported Accept value: 500 with the recovery envelope, in the chosen encoding. */
  lemma ChainRecovers(f: Handler, x: Exchange)
    requires Negotiate(x.r.accept).Some?
    requires f(Negotiated(x, Negotiate(x.r.accept).value)).Panic?
    ensures var enc := Negotiate(x.r.accept).value;
      var y := f(Negotiated(x, enc)).x;
      var z := BuildChain(f, Middlewares)(x);
      && z.Normal?
      && z.x.w == Writer(Some(StatusInternalServerError), y.w.contentType,
                         y.w.body + [Encoded(enc, Some(EnvelopeValue(RecoveryEnvelope)))])
      && z.x.calls == y.calls
  {
    var enc := Negotiate(x.r.accept).value;
    ChainOrder(f, x);
    var n := Negotiated(x, enc);
    var y' := RecoveryMiddleware(f)(n);
    assert y'.Normal?;
    assert BuildChain(f, Middlewares)(x) == Normal(WriteStaged(y'.x, enc));
    assert StagedStatus(y'.x.r.ctx) == Some(StatusInternalServerError);
    assert y'.x.w == f(n).x.w;
  }

  /** A handler that returns normally under a supported Accept value: what it staged is written, in the chosen encoding. */
  lemma ChainWrites(f: Handler, x: Exchange)
    requires Negotiate(x.r.accept).Some?
    requires f(Negotiated(x, Negotiate(x.r.accept).value)).Normal?
    ensures var enc := Negotiate(x.r.accept).value;
      BuildChain(f, Middlewares)(x) == Normal(WriteStaged(f(Negotiated(x, enc)).x, enc))
  {
    var enc := Negotiate(x.r.accept).value;
    ChainOrder(f, x);
    assert RecoveryMiddleware(f)(Negotiated(x, enc)) == f(Negotiated(x, enc));
  }

  /** No request through the chain ends in a panic, whatever the handler does. */
  lemma ChainNeverPanics(f: Handler, x: Exchange)
    ensures BuildChain(f, Middlewares)(x).Normal?
  {
    match Negotiate(x.r.accept)
    case None => ChainRejects(f, x);
    case Some(enc) =>
      if f(Negotiated(x, enc)).Panic? {
        ChainRecovers(f, x);
      } else {
        ChainWrites(f, x);
      }
  }

  /** A handler that always panics, like the one in middleware/middleware_test.go. */
  function Panicking(x: Exchange): (o: Outcome)
    ensures o.Panic? && o.x == x
  {
    Panic(x)
  }

  /**
   * The request of the middleware test carries no Accept header, so the
   * response stage answers 415 with an empty body: the 500 with the
   * recovery envelope that the test expects needs a supported Accept value.
   */
  lemma PanicTestRequest(r: Request)
    ensures r.accept == "" ==>
      BuildChain(Panicking, Middlewares)(Exchange(r, EmptyWriter, [])).x.w ==
      Writer(Some(StatusUnsupportedMediaType), None, [])
    ensures r.accept == "application/json" ==>
      BuildChain(Panicking, Middlewares)(Exchange(r, EmptyWriter, [])).x.w ==
      Writer(Some(StatusInternalServerError), Some("application/json"), [Encoded(Json, Some(EnvelopeValue(RecoveryEnvelope)))])
  {
    var x := Exchange(r, EmptyWriter, []);
    if r.accept == "" {
      ChainRejects(Panicking, x);
    } else if r.accept == "application/json" {
      ChainRecovers(Panicking, x);
    }
  }

  /**
   * The middleware test's panicking handler under any Accept value the
   * response stage supports: the 500 and recovery envelope the test expects,
   * in the chosen encoding.
   */
  lemma PanicTestSupported(r: Request)
    requires Negotiate(r.accept).Some?
    ensures var enc := Negotiate(r.accept).value;
      BuildChain(Panicking, Middlewares)(Exchange(r, EmptyWriter, [])).x.w ==
      Writer(Some(StatusInternalServerError), Some(ContentType(enc)), [Encoded(enc, Some(EnvelopeValue(RecoveryEnvelope)))])
  {
    ChainRecovers(Panicking, Exchange(r, EmptyWriter, []));
  }

  /**
   * Both routes only ever write 200, 415 or 500, codes that net/http's
   * `WriteHeader` accepts, so no request reaches the panic it raises for a
   * code outside 100 to 999.
   */
  lemma RoutesWriteAcceptedCodes(retrieve: string -> Storage.StoreResult, x: Exchange)
    ensures GetRoute(retrieve)(x).x.w.status in {Some(StatusOK), Some(StatusUnsupportedMediaType), Some(StatusInternalServerError)}
    ensures PostRoute()(x).x.w.status in {Some(StatusOK), Some(StatusUnsupportedMediaType), Some(StatusInternalServerError)}
  {
    match Negotiate(x.r.accept)
    case None =>
      ChainRejects(x => GetHandler(retrieve, x), x);
      ChainRejects(PostHandler, x);
    case Some(enc) =>
      ChainWrites(x => GetHandler(retrieve, x), x);
      if x.r.body.DecodedNull? {
        ChainRecovers(PostHandler, x);
      } else {
        ChainWrites(PostHandler, x);
      }
  }

  /**
   * A GET whose store answer is a walk of the tree below the `key` value:
   * 200 with exactly the terms the walk found, each one stored under the
   * prefix, and one retrieval asked of the store.
   */
  lemma GetServesWalk(retrieve: string -> Storage.StoreResult, tree: Storage.Tree, x: Exchange)
    requires Negotiate(x.r.accept).Some?
    requires retrieve(FormValue(x.r, "key")).err == None
    requires Storage.IsWalk(tree, FormValue(x.r, "key"), retrieve(FormValue(x.r, "key")).terms)
    ensures var z := GetRoute(retrieve)(x).x;
      var terms := retrieve(FormValue(x.r, "key")).terms;
      && z.w.status == Some(StatusOK)
      && z.w.contentType == Some(ContentType(Negotiate(x.r.accept).value))
      && z.w.body == x.w.body + [Encoded(Negotiate(x.r.accept).value, Some(EnvelopeValue(RetrievedEnvelope(terms))))]
      && z.calls == x.calls + [RetrieveCall(FormValue(x.r, "key"))]
      && |terms| == |Storage.Matches(tree, FormValue(x.r, "key"))|
  {
    var enc := Negotiate(x.r.accept).value;
    ChainWrites(x => GetHandler(retrieve, x), x);
    var y := GetHandler(retrieve, Negotiated(x, enc));
    assert y.x.w.body == x.w.body;
    Storage.WalkCoversMatches(tree, FormValue(x.r, "key"), retrieve(FormValue(x.r, "key")).terms);
  }

  /** A GET whose store answer carries an error: 500 with the failure envelope, no terms. */
  lemma GetReportsFailure(retrieve: string -> Storage.StoreResult, x: Exchange)
    requires Negotiate(x.r.accept).Some?
    requires retrieve(FormValue(x.r, "key")).err.Some?
    ensures var z := GetRoute(retrieve)(x).x;
      && z.w.status == Some(StatusInternalServerError)
      && z.w.contentType == Some(ContentType(Negotiate(x.r.accept).value))
      && z.w.body == x.w.body + [Encoded(Negotiate(x.r.accept).value, Some(EnvelopeValue(RetrieveFailedEnvelope)))]
  {
    var enc := Negotiate(x.r.accept).value;
    ChainWrites(x => GetHandler(retrieve, x), x);
    assert GetHandler(retrieve, Negotiated(x, enc)).x.w.body == x.w.body;
  }

  /**
   * A POST: a decodable body inserts its term (a malformed one the zero
   * term) and gets 200 with the insertion envelope; a JSON null body panics
   * in the handler, inserts nothing, and gets 500 with the recovery envelope.
   */
  lemma PostServes(x: Exchange)
    requires Negotiate(x.r.accept).Some?
    ensures var z := PostRoute()(x).x;
      var enc := Negotiate(x.r.accept).value;
      && z.w.contentType == Some(ContentType(enc))
      && (!x.r.body.DecodedNull? ==>
            && z.w.status == Some(StatusOK)
            && z.w.body == x.w.body + [Encoded(enc, Some(EnvelopeValue(InsertedEnvelope)))]
            && z.calls == x.calls + [InsertCall(PostedTerm(x.r.body))])
      && (x.r.body.DecodedNull? ==>
            && z.w.status == Some(StatusInternalServerError)
            && z.w.body == x.w.body + [Encoded(enc, Some(EnvelopeValue(RecoveryEnvelope)))]
            && z.calls == x.calls)
  {
    var enc := Negotiate(x.r.accept).value;
    if x.r.body.DecodedNull? {
      ChainRecovers(PostHandler, x);
    } else {
      ChainWrites(PostHandler, x);
    }
  }

  /** The term of the walkthrough: key "hel", null value. */
  const Hel := Storage.Term("hel", Storage.Nil)

  /** A JSON request posting `Hel`, with nothing written or asked of the store yet. */
  const PostHel := Exchange(Request("application/json", map[], DecodedTerm(Hel), map[]), EmptyWriter, [])

  /** Posting `Hel` answers 200 with the insertion envelope and asks the store to insert `Hel`, once. */
  lemma PostHelAnswers()
    ensures PostRoute()(PostHel).x.w == Writer(Some(StatusOK), Some("application/json"), [Encoded(Json, Some(EnvelopeValue(InsertedEnvelope)))])
    ensures StoreRequests(PostRoute()(PostHel).x.calls) == [Storage.InsertTerm(Hel)]
  {
    PostServes(PostHel);
    assert PostRoute()(PostHel).x.calls == [InsertCall(Hel)];
  }

  /** With the radix library's answer, inserting `Hel` into an empty store keeps the loop serving, with that one entry. */
  lemma InsertHelKeepsServing(updated: Storage.Updated)
    requires Storage.ReportsUpdates(updated)
    ensures Storage.Run(Storage.Loop(map[], Storage.Serving), [Storage.InsertTerm(Hel)], updated)
         == Storage.Loop(map["hel" := Storage.Nil], Storage.Serving)
  {
    var l0 := Storage.Loop(map[], Storage.Serving);
    Storage.RunOne(l0, Storage.InsertTerm(Hel), updated);
    Storage.NewKeyKeepsServing(l0, Hel, updated);
  }

  /**
   * Posting `Hel` to an empty store and then getting with `key=hel`, the
   * store answering from the state the post left: the post answers 200,
   * the store keeps serving with that one entry, and the get answers 200
   * with exactly that term.
   */
  lemma PostThenGet(updated: Storage.Updated, retrieve: string -> Storage.StoreResult, get: Request)
    requires Storage.ReportsUpdates(updated)
    requires get.accept == "application/json" && FormValue(get, "key") == "hel"
    requires Storage.ReplyFits(Storage.Run(Storage.Loop(map[], Storage.Serving), StoreRequests(PostRoute()(PostHel).x.calls), updated),
                               Storage.RetrieveMessage("hel"), updated, Storage.Retrieved(retrieve("hel")))
    ensures PostRoute()(PostHel).x.w == Writer(Some(StatusOK), Some("application/json"), [Encoded(Json, Some(EnvelopeValue(InsertedEnvelope)))])
    ensures Storage.Run(Storage.Loop(map[], Storage.Serving), StoreRequests(PostRoute()(PostHel).x.calls), updated)
         == Storage.Loop(map["hel" := Storage.Nil], Storage.Serving)
    ensures GetRoute(retrieve)(Exchange(get, EmptyWriter, PostRoute()(PostHel).x.calls)).x.w
         == Writer(Some(StatusOK), Some("application/json"),
                   [Encoded(Json, Some(EnvelopeValue(RetrievedEnvelope([Hel]))))])
  {
    PostHelAnswers();
    InsertHelKeepsServing(updated);
    var tree := map["hel" := Storage.Nil];
    assert Storage.Matches(tree, "hel") == {"hel"};
    Storage.SingleMatchWalk(tree, "hel", "hel", retrieve("hel").terms);
    GetServesWalk(retrieve, tree, Exchange(get, EmptyWriter, PostRoute()(PostHel).x.calls));
  }

  /**
   * `BuildChain` as written, on the first two middlewares of the list (a
   * slice whose capacity still holds recovery): it wraps recovery as well,
   * so a panicking handler answers normally, where chaining just the two
   * lets the panic through.
   */
  lemma AsWrittenChainsPastLength(x: Exchange)
    requires Negotiate(x.r.accept).Some?
    ensures BuildChainAsWritten(Panicking, Slice(Middlewares, 2))(x).Normal?
    ensures BuildChain(Panicking, Middlewares[..2])(x).Panic?
  {
    AsWrittenChainsCapacity(Panicking, Middlewares, 2);
    ChainNeverPanics(Panicking, x);
    var m := Middlewares[..2];
    assert BuildChain(Panicking, m[1..]) == ResponseMiddleware(Panicking) by {
      assert m[1..] == [ResponseMiddleware];
      assert m[1..][1..] == [];
    }
    assert BuildChain(Panicking, m) == LoggingMiddleware(ResponseMiddleware(Panicking));
    var enc := Negotiate(x.r.accept).value;
    assert Panicking(Negotiated(x, enc)).Panic?;
    assert ResponseMiddleware(Panicking)(x).Panic?;
  }
}
