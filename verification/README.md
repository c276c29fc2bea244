# suggest: a Dafny model of the prefix store and its HTTP pipeline

`suggest` is a small Go web service for prefix suggestions. A `POST /`
stores a term (a key and a JSON value). A `GET /?key=p` lists every stored
term whose key starts with `p`. This project models the three pieces of
sequential logic inside it and proves what they promise:

- **The prefix store** (`storage.dfy`, module `Storage`).
  - One "gardener" loop owns a radix tree. It serves retrieve, insert and
    quit requests one at a time. The tree is seen as the map it represents.
  - `Gardener` is a class whose `tree` and `state` the loop's methods update
    in place. `Step` serves one request and `Serve` a sequence of them.
    `Insert` and `Retrieve` are the two entry points callers use.
  - Each method is proved against the functions `Advance`/`Run`, which give
    the loop after each request, and the predicate `ReplyFits`, which says
    what replies a request may get.
  - A retrieve walks the tree below the prefix in an order the radix
    library chooses. `WalkPrefix` leaves that order open: it picks any
    pending key. Its result is specified by `IsWalk`: every stored key under
    the prefix appears exactly once, with its value, and no other key does.
  - The start-up loop that reads the two channel-buffer sizes from the
    environment is `LoadBufferSizes`.
- **The middleware pipeline** (`middleware.dfy`, module `Middleware`).
  - A handler is a function from an exchange to an outcome. The exchange
    holds the request, the response writer and the store calls made so far.
    The outcome is a normal return or a panic.
  - `BuildChain` composes middlewares, with the first one outermost.
  - `RecoveryMiddleware` turns a panic into a staged 500.
  - `LoggingMiddleware` only calls through.
  - `ResponseMiddleware` negotiates the encoder from the exact Accept value.
    It then writes the status and envelope the inner chain staged on the
    request context, or a fallback 500.
- **The handlers** (`handlers.dfy`, module `Handlers`).
  - `GetHandler` and `PostHandler` stage a status and an envelope through
    `write`; they never touch the writer themselves.
  - `InFlight` is the handlers' own in-place form: its methods overwrite
    the request the way the Go code overwrites `*r`. Each is proved to leave
    what the corresponding function describes.
- **The service** (`service.dfy`, module `Service`).
  - This is the middleware list of `cmd/suggest/main.go`: Logging, then
    Response, then Recovery.
  - Its lemmas follow whole requests through the chain: rejection of
    unsupported Accept values, panic recovery, GET and POST end to end, and
    a POST followed by a GET served from the state the POST left.
- `response.dfy` holds the envelope types. `http.dfy` holds the small
  parts of `net/http` and `context` the pipeline uses. `wrappers.dfy` holds
  `Option`.

Behaviour the model exposes:

- **An insert of a new key is reported as a failure.** After inserting, the
  loop sends `nil` only when the radix tree's `Insert` reports an update.
  It sends the error "failed to insert into structure" unconditionally
  (data/storage.go:86-89). With the radix library's boolean ("the key was
  already there"), a new key is stored but answered with the error.
  `OverwriteThenReadHangs` shows this.
- **An overwrite blocks the store.** Overwriting a key makes the loop send
  twice on the caller's unbuffered channel, which is received from only
  once (data/storage.go:129-131). The second send never completes, so the
  loop stops serving: every later request hangs. The model records this as
  the loop state `Blocked`. `UpdateBlocksLoop` and `OverwriteThenReadHangs`
  prove that every later request gets no reply.
  - `PostHandler` ignores what `Insert` returns, so the error reply does not
    reach clients.
- Both insert behaviours are rows of "## Findings". The `Gardener` class
  keeps the code as written, since that is what the service does.
  `AdvanceIntended` is the corrected step: every insert is answered with
  one `nil` and the loop keeps serving. With it, writing a key twice and
  then reading it finds one entry holding the second value.
- **A request without an Accept header gets 415.** The header reads as
  the empty string, which no case of the negotiation matches.
  - The middleware test builds such a request and expects the recovery 500
    (middleware/middleware_test.go:14-39).
  - `PanicTestRequest` shows that this request gets 415 with an empty body.
    The same request with `application/json` gets the expected 500 and
    recovery envelope. `PanicTestSupported` shows the 500 for every
    supported Accept value. This is a row of "## Findings" too.

## Model

| member | source | states |
|---|---|---|
| `Storage.WalkCoversMatches` | data/storage.go:79-82 | a complete walk lists exactly the stored keys under the prefix, each once, so its length is the number of such keys |
| `Storage.WalksArePermutations` | data/storage.go:79-82 | two walks of the same tree and prefix hold the same terms: only the order is left to the radix library |
| `Storage.NoMatchWalksEmpty` | data/storage.go:73-83 | a prefix that no stored key starts with yields the empty list (the result starts empty and no error is set) |
| `Storage.SingleMatchWalk` | data/storage.go:79-82 | when exactly one stored key starts with the prefix, the walk is that one term with its stored value |
| `Storage.IsWalk` | data/storage.go:73-82 | the reference definition of what the retrieve case collects: every term is a stored entry whose key starts with the prefix, no key comes twice, and every stored key under the prefix comes (its set of such keys is `Matches`); any order is allowed |
| `Storage.Advance` | data/storage.go:69-93 | one pass of the loop: a retrieve leaves the loop, an insert stores the term and blocks the loop when its replies number two, quit stops it, and a loop that no longer serves takes nothing; proved: no key is ever removed and a loop that stopped serving never resumes |
| `Storage.Run` | data/storage.go:68-95 | the loop fed requests in order; proved by induction over the requests: no key is ever removed, a loop that no longer serves stays as it is, and a loop serving at the end was serving at the start (the states in between follow from `RunAppend`) |
| `Storage.ReplyFits` | data/storage.go:69-93 | the replies a request may get from the loop in a given state: a complete walk with no error for a retrieve, `InsertSends` for an insert, none for quit or from a loop no longer serving |
| `Storage.InsertSends` | data/storage.go:86-89 | the insert replies: `nil` and then the error when the tree reports an update, the error alone otherwise; the error always comes last |
| `Storage.Gardener.constructor` | data/storage.go:14 | the store starts with an empty tree and a serving loop |
| `Storage.Gardener.WalkPrefix` | data/storage.go:73-82 | the retrieve case collects a complete walk of the tree below the prefix, with no error |
| `Storage.Gardener.Step` | data/storage.go:69-93 | one request served: a retrieve changes nothing and gets a walk; an insert stores the term and gets its replies, and blocks the loop when there are two; quit stops the loop; a loop no longer serving replies to nothing |
| `Storage.Gardener.Serve` | data/storage.go:68-95 | a sequence of requests served in order: one reply per request fitting the loop's state before it, and the final loop is `Run` of the requests |
| `Storage.Gardener.Insert` | data/storage.go:128-132 | `Insert` returns the first reply of its insert, and hangs when the loop no longer serves |
| `Storage.Gardener.Retrieve` | data/storage.go:135-140 | `Retrieve` returns a complete walk below the key with no error, and leaves the tree and loop unchanged; it hangs when the loop no longer serves |
| `Storage.RunAppend` | data/storage.go:69-70 | serving two batches in turn is serving their concatenation |
| `Storage.HaltIsFinal` | data/storage.go:90-92 | once the loop stops serving, later requests change nothing |
| `Storage.QuitSilencesRest` | data/storage.go:90-92 | after a quit, the loop is stopped and every request still queued gets no reply |
| `Storage.UpdateBlocksLoop` | data/storage.go:86-89 | an insert that the tree reports as an update stores the value and then blocks the loop, and every later request gets no reply |
| `Storage.RetrievesKeepLoop` | data/storage.go:71-83 | any run of retrieves leaves the tree and the loop as they were |
| `Storage.InsertStoresTerm` | data/storage.go:84-86 | after an insert the key maps to the new value, whether new or present, and every other key keeps its value |
| `Storage.NewKeyKeepsServing` | data/storage.go:84-89 | with the radix library's boolean, inserting a new key stores it and keeps the loop serving |
| `Storage.PutAllStoresEach` | data/storage.go:86 | storing terms with distinct keys adds exactly their keys, each with its own value, and keeps the others |
| `Storage.NewInsertsAllStored` | data/storage.go:84-89 | inserts of distinct new keys keep the loop serving and store every term |
| `Storage.InsertsThenListAll` | data/storage.go:68-93 | after inserting distinct terms into an empty store, retrieving the empty prefix lists exactly those terms, as many as were inserted |
| `Storage.OverwriteThenReadHangs` | data/storage.go:86-89 | writing a key twice: the first insert is answered with the error though stored, the second stores its value and blocks the loop, and a following read gets no reply |
| `Storage.AdvanceIntended` | data/storage.go:84-89 | the corrected step: an insert stores its term and the loop goes on serving; only quit stops a serving loop, and the corrected step never blocks it |
| `Storage.RunIntended` | data/storage.go:68-95 | the corrected loop fed requests in order: keys are never removed, a loop that no longer serves stays as it is, and the loop never blocks itself |
| `Storage.ReplyFitsIntended` | data/storage.go:84-89 | the replies of the corrected loop: as `ReplyFits`, except that an insert is answered with a single `nil` |
| `Storage.IntendedStoresAsWritten` | data/storage.go:84-89 | the correction changes only the replies and the blocking: the tree after a step is the same as written, and so is the whole loop when the step as written does not block |
| `Storage.IntendedInsertsAllStored` | data/storage.go:84-89 | with the corrected step, any inserts, repeated keys included, keep the loop serving and store every term, each key holding its latest value |
| `Storage.IntendedOverwriteThenRead` | data/storage.go:84-89 | with the corrected step, writing a key twice answers `nil` both times, and reading it then finds exactly one entry, holding the second value |
| `Storage.IntendedInsertThenRead` | data/storage.go:71-89 | with the corrected step, inserting a term into any serving store and then reading its key finds the term, with no error; when no other stored key starts with the key, the term is all that is found |
| `Storage.InsertThenRead` | data/storage.go:71-89 | the same as written, with the radix library's answer: a new key is found as the corrected loop finds it, alone when no stored key starts with it; a read after overwriting a stored key gets no reply |
| `Storage.Getenv` | data/storage.go:47 | an unset variable reads as the empty string, as `os.Getenv` returns |
| `Storage.Setting` | data/storage.go:47-54 | one buffer size: the default when its override is empty, otherwise the override's base-10 parse, with no value when the parse fails; `LoadBufferSizes` is proved against it |
| `Storage.LoadBufferSizes` | data/storage.go:21-59 | both sizes default to 1; an empty or unset override keeps the default; a non-empty one is replaced by its base-10 parse, or is fatal, naming the first invalid variable and its value |
| `Middleware.BuildChain` | middleware/middleware.go:21-30 | the intended chain: no middlewares gives the handler itself, otherwise the first middleware wraps the chain of the rest; its composition law is `BuildChainSplit` |
| `Middleware.BuildChainAsWritten` | middleware/middleware.go:29 | the chain as written, over a slice given by its elements up to capacity and its length: after the first step the recursion runs on to the capacity |
| `Middleware.BuildChainSplit` | middleware/middleware.go:21-30 | chaining `a + b` around a handler is chaining `a` around the chain of `b`, so the first middleware listed is outermost |
| `Middleware.BuildChainInnermost` | middleware/middleware.go:21-30 | the last middleware listed wraps the handler directly |
| `Middleware.AsWrittenAgreesWhenFull` | middleware/middleware.go:29 | the as-written recursion agrees with the intended one when the slice's length equals its capacity |
| `Middleware.AsWrittenChainsCapacity` | middleware/middleware.go:29 | the as-written recursion chains every middleware up to the capacity, whatever the (non-zero) length |
| `Middleware.RecoveryMiddleware` | middleware/middleware.go:33-56 | recovery never lets a panic out; after a panic it stages 500 and the recovery envelope over the request as the panic left it, and changes nothing else: the writer, the store calls, the rest of the request and every other context key are kept; without one it changes nothing |
| `Middleware.LoggingMiddleware` | middleware/middleware.go:59-73 | logging calls the inner handler and leaves its outcome unchanged |
| `Middleware.Negotiate` | middleware/middleware.go:94-115 | XML exactly for "application/xml", JSON exactly for "application/json" and "*/*", nothing for any other value |
| `Middleware.WriteStaged` | middleware/middleware.go:121-134 | a staged int status is written with the staged envelope encoded unchanged; without one, 500 and the fallback envelope; the request and store calls are untouched |
| `Middleware.ResponseMiddleware` | middleware/middleware.go:88-139 | an unsupported Accept value gets 415 without the inner chain running; otherwise the inner chain runs with the Content-Type set, and its staged result is written or its panic passes through |
| `Middleware.UnsupportedSkipsInner` | middleware/middleware.go:108-115 | with an unsupported Accept value any two inner chains give the same response: 415, nothing encoded, no store call |
| `Http.WithValue` | middleware/middleware.go:42-43 | `context.WithValue` as the recovery stage and `write` (handlers/handlers.go:45-46) use it: the key yields the new value, every other key keeps what it yielded |
| `Handlers.Written` | handlers/handlers.go:44-47 | after `write`, the status key yields the status and the body key the envelope; every other context key and the rest of the request are kept |
| `Handlers.LaterWriteWins` | handlers/handlers.go:44-47 | a later `write` hides an earlier one entirely |
| `Handlers.GetHandler` | handlers/handlers.go:15-41 | asks the store for the `key` value unchanged; an error stages 500 and the failure envelope, dropping the terms; success stages 200 and the terms as returned; the writer, the rest of the request and every other context key are untouched |
| `Handlers.PostHandler` | handlers/handlers.go:50-98 | a decoded body inserts its term, a malformed one the zero term, and either stages 200 and the insertion envelope, keeping the writer, the rest of the request and every other context key; a null body panics before inserting |
| `Handlers.InFlight.Write` | handlers/handlers.go:44-47 | the two in-place overwrites of the request leave exactly `Written` of it |
| `Handlers.InFlight.Get` | handlers/handlers.go:15-41 | the in-place handler leaves the exchange `GetHandler` describes |
| `Handlers.InFlight.Post` | handlers/handlers.go:50-98 | the in-place handler leaves the exchange `PostHandler` describes, and reports its panic |
| `Service.GetRoute` | cmd/suggest/main.go:55-65 | `GET /`: the get handler wrapped in the list `Middlewares` (logging, response, recovery, the first outermost); what it answers is `GetServesWalk` and `GetReportsFailure` |
| `Service.PostRoute` | cmd/suggest/main.go:55-69 | `POST /`: the post handler wrapped in the same list; what it answers is `PostServes` |
| `Service.ChainOrder` | cmd/suggest/main.go:55-69 | each route runs the response stage around recovery around its handler; logging adds nothing |
| `Service.ChainRejects` | middleware/middleware.go:98-115 | through the route chain, an unsupported Accept value gets 415, an empty body, and the handler does not run |
| `Service.ChainRecovers` | middleware/middleware.go:38-54 | through the route chain, a handler's panic becomes status 500 with the recovery envelope encoded |
| `Service.ChainWrites` | middleware/middleware.go:117-134 | through the route chain, a handler that returns has what it staged written |
| `Service.ChainNeverPanics` | middleware/middleware.go:33-56 | no request through the route chain ends in a panic, whatever the handler does, as long as it stages a status `WriteHeader` accepts; `RoutesWriteAcceptedCodes` shows the two routes only write 200, 415 or 500 |
| `Service.PanicTestRequest` | middleware/middleware_test.go:14-39 | the test's request, with no Accept header, gets 415 and an empty body; with "application/json" it gets the 500 and recovery envelope the test expects |
| `Service.PanicTestSupported` | middleware/middleware_test.go:14-39 | the test's panicking handler under any supported Accept value gets 500, the Content-Type of the chosen encoder, and the recovery envelope in that encoding (the test itself decodes JSON) |
| `Service.RoutesWriteAcceptedCodes` | middleware/middleware.go:117-134 | both routes only ever write 200, 415 or 500, all within the 100 to 999 that net/http's `WriteHeader` accepts |
| `Service.GetServesWalk` | handlers/handlers.go:15-41 | a GET whose store answer is a walk gets 200 and exactly those terms, as many as stored keys under the prefix, after one retrieve call |
| `Service.GetReportsFailure` | handlers/handlers.go:19-29 | a GET whose store answer carries an error gets 500 and the failure envelope |
| `Service.PostServes` | handlers/handlers.go:50-98 | a POST gets 200 and the insertion envelope after one insert call; a null body gets the recovery 500 and inserts nothing |
| `Service.PostHelAnswers` | handlers/handlers.go:83-97 | posting ("hel", null) answers 200 with the insertion envelope and asks the store to insert exactly that term |
| `Service.InsertHelKeepsServing` | data/storage.go:84-89 | inserting ("hel", null) into an empty store keeps it serving, holding just that entry |
| `Service.PostThenGet` | cmd/suggest/main.go:61-69 | posting ("hel", null) and then getting `key=hel` from the state the post left answers 200 with exactly that term |
| `Service.AsWrittenChainsPastLength` | middleware/middleware.go:29 | chaining the first two middlewares of the list as written also applies recovery, so a panicking handler answers normally where the intended chain panics |

## Left out

- Goroutines, channels and `select` are left out. The loop serves a sequence of requests in order. A send that can never complete is the loop state `Blocked`. A call that never returns is `Hangs`.
- Channel buffer sizes are left out. `LoadBufferSizes` settles them, but in a sequential model they change nothing. `make` panics on a negative size; that is not modelled.
- Keys and prefixes are sequences of characters, while Go compares them as byte strings. A prefix that ends inside a multi-byte UTF-8 sequence cannot be expressed. Examples are the one-byte prefix of "é" that `GET /?key=%C3` passes to the store, and the keys the radix walk would return for it.
- The radix tree is seen as a map. The boolean its `Insert` returns is the abstract function `updated`; `ReportsUpdates` states the library's meaning where a lemma needs it. The walk order is left open.
- `os.Getenv`, `strconv.ParseInt` and `glog.Fatalf` are left out. The environment is a map, the base-10 parser is a parameter, and a fatal exit is the result `Fatal`.
- JSON and XML encoding are left out. The writer records which encoder got which value, and the Content-Type header. `omitempty`, the byte format and write errors are not modelled.
- Decoding the POST body is reduced to three outcomes: a term, JSON null, or an error that leaves the zero term. A body that decodes only in part, leaving a partly filled term, is not modelled.
- `GetHandler` takes the store's answer as a parameter, and `PostHandler` only records its insert call. A store call that hangs, because the loop is blocked, hangs the request; the handler outcomes do not include that.
- Handlers are composed as values, because Dafny methods cannot be passed as arguments. The middlewares therefore return the updated exchange instead of overwriting `*r` in place. Aliasing of the request between middlewares is not modelled. The handlers' in-place form is `InFlight`.
- `WriteHeader` records the last status written. net/http ignores a second call, but no path here writes two statuses.
- Service.ChainNeverPanics: does not model the panic net/http's `WriteHeader` raises for a code outside 100 to 999, because `WriteHeader` records any int. The response stage writes whatever int a handler staged (middleware/middleware.go:122-123), outside recovery, so a handler staging such a code would make the chain panic. The lemma therefore holds only for handlers staging codes `WriteHeader` accepts. `GetHandler` and `PostHandler` stage only 200 and 500, and `RoutesWriteAcceptedCodes` proves that both routes write only 200, 415 or 500.
- Logging's log line, timing and `glog` output in general are left out, and so is closing the request body.
- The router, CORS settings, `ListenAndServe` and the quit signal sent at shutdown in cmd/suggest/main.go are left out. Only the middleware order and the two routes are modelled.
- trie.go is not part of this model: it does not compile, and its operations have empty bodies.
- Middleware.LoggingMiddleware: does not state that the inner handler is called exactly once. A Dafny function has no calls to count.

## Findings

| source | as written | input that shows it | evidently intended | confidence | as-written member | corrected member |
|---|---|---|---|---|---|---|
| middleware/middleware.go:29 | the recursion re-slices to `m[1:cap(m)]`, so after the first step it runs on to the slice's capacity | `BuildChain(h, ms[:2]...)` with `ms` the three-middleware list of main.go and `h` a panicking handler: recovery, beyond the length, is applied too, and the request answers normally | `m[1:]`: chain exactly the middlewares passed | not executed; visible only when a caller passes a slice shorter than its capacity | `Middleware.BuildChainAsWritten`, shown by `Service.AsWrittenChainsPastLength` | `Middleware.BuildChain`, with `Middleware.BuildChainSplit` |
| data/storage.go:86-89 | `nil` is sent only when the radix tree's `Insert` returns true, which it does only when the key was already stored; the error is then sent in every case | inserting a new key into an empty store: the value is stored, but the caller of `Insert` gets "failed to insert into structure" | every insert answered with one `nil`, since the radix tree's insert cannot fail | not executed; the error never reaches clients, because `PostHandler` ignores it | `Storage.InsertSends`, shown by `Storage.OverwriteThenReadHangs` | `Storage.AdvanceIntended`, with `Storage.IntendedOverwriteThenRead` |
| data/storage.go:86-89 | an update makes the loop send twice on the caller's unbuffered channel, which `Insert` receives from once (data/storage.go:128-132), so the second send never completes and the loop stops serving | insert ("a", 1), insert ("a", 2), then retrieve "a": the retrieve is never answered, and neither is any later request | send one reply and go on serving, so the read finds one entry holding 2 | not executed; depends on the radix library's documented boolean | `Storage.Advance`, shown by `Storage.UpdateBlocksLoop` and `Storage.OverwriteThenReadHangs` | `Storage.RunIntended`, with `Storage.IntendedOverwriteThenRead` and `Storage.IntendedInsertsAllStored` |
| middleware/middleware_test.go:14-39 | the test's request sets no Accept header, so the response stage answers 415 with an empty body before the panicking handler runs; the test expects 500 and the recovery envelope | `httptest.NewRequest("GET", "/", nil)` through Logging, Response and Recovery around a handler that panics | the request carries a supported Accept value, such as "application/json", so the recovery 500 is written | not executed; a test that fails as written | `Service.PanicTestRequest` | `Service.PanicTestSupported` |
