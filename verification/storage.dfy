/**
 * The prefix store of data/storage.go: the key/value tree owned by the
 * "gardener" loop, the requests that loop serves one at a time, the two
 * entry points callers use, and the buffer-size settings read at start-up.
 *
 * The radix tree is seen as the map it represents. Two things the radix
 * library decides are left abstract: the boolean its Insert returns (a
 * function `updated` of the tree and the key) and the order in which its
 * prefix walk visits the keys (an arbitrary choice in WalkPrefix).
 */
module Storage {
  import opened Wrappers

  /**
   * A stored value: Go's `interface{}` as decoded from JSON. `Nil` is JSON
   * null; `Json` stands for any other decoded value (number, string, bool,
   * array or object), kept opaque: the model only compares values for
   * equality and says nothing about how the decoder represents them.
   */
  datatype Value = Nil | Json(decoded: string)

  /** `Term`: one key with its value. */
  datatype Term = Term(key: string, value: Value)

  type Error = string

  /** The only error the loop ever sends. */
  const InsertFailed: Error := "failed to insert into structure"

  /** `result`: what the loop sends back for a retrieve. */
  datatype StoreResult = StoreResult(terms: seq<Term>, err: Option<Error>)

  /** The radix tree, as the map from keys to values it holds. */
  type Tree = map<string, Value>

  /** The boolean the radix library's Insert returns for a tree and a key. */
  type Updated = (Tree, string) -> bool

  /** What reaches the loop: a `retrieveMessage`, a `term` to insert, or the quit signal. */
  datatype Request = RetrieveMessage(key: string) | InsertTerm(term: Term) | QuitSignal

  /**
   * What the loop sends on the request's own reply channel: the retrieve
   * result, the messages sent (or attempted) for an insert in order, or
   * nothing at all.
   */
  datatype Reply = Retrieved(result: StoreResult) | Acks(sends: seq<Option<Error>>) | NoReply

  /**
   * Whether the loop still takes requests. `Stopped`: it received the quit
   * signal and returned. `Blocked`: it is stuck on a send nobody receives.
   */
  datatype LoopState = Serving | Stopped | Blocked

  /** The loop's whole state: the tree it owns and whether it is still serving. */
  datatype Loop = Loop(tree: Tree, state: LoopState)

  /** A caller's view of one request: the value it receives, or a wait that never ends. */
  datatype Call<T> = Answered(value: T) | Hangs

  // ---------------------------------------------------------------------
  // Prefix walks
  // ---------------------------------------------------------------------

  /** The stored keys that start with `prefix`. */
  function Matches(tree: Tree, prefix: string): (ks: set<string>)
    ensures forall k :: k in ks <==> k in tree && prefix <= k
  {
    set k | k in tree.Keys && prefix <= k
  }

  /** The keys of a list of terms. */
  function KeySet(terms: seq<Term>): (ks: set<string>)
    ensures forall k :: k in ks <==> exists i :: 0 <= i < |terms| && terms[i].key == k
  {
    if terms == [] then {}
    else
      var n := |terms| - 1;
      var ks := KeySet(terms[..n]) + {terms[n].key};
      assert forall i :: 0 <= i < n ==> terms[..n][i] == terms[i];
      ks
  }

  /** No key occurs twice in `terms`. */
  predicate DistinctKeys(terms: seq<Term>)
  {
    forall i, j :: 0 <= i < j < |terms| ==> terms[i].key != terms[j].key
  }

  /**
   * `terms` is what a complete walk of `tree` below `prefix` can collect, in
   * some order: every term is a stored entry whose key starts with the
   * prefix, no key comes twice, and every such stored key comes.
   */
  ghost predicate IsWalk(tree: Tree, prefix: string, terms: seq<Term>)
  {
    && (forall i :: 0 <= i < |terms| ==>
          prefix <= terms[i].key && terms[i].key in tree && tree[terms[i].key] == terms[i].value)
    && DistinctKeys(terms)
    && (forall k :: k in Matches(tree, prefix) ==> exists i :: 0 <= i < |terms| && terms[i].key == k)
  }

  lemma {:induction false} DistinctKeySetSize(terms: seq<Term>)
    requires DistinctKeys(terms)
    ensures |KeySet(terms)| == |terms|
  {
    if terms != [] {
      var n := |terms| - 1;
      var init := terms[..n];
      assert DistinctKeys(init);
      DistinctKeySetSize(init);
      assert terms[n].key !in KeySet(init);
    }
  }

  /** A walk collects exactly the matching keys, each once, so its length is their number. */
  lemma WalkCoversMatches(tree: Tree, prefix: string, terms: seq<Term>)
    requires IsWalk(tree, prefix, terms)
    ensures KeySet(terms) == Matches(tree, prefix)
    ensures |terms| == |Matches(tree, prefix)|
  {
    forall k | k in KeySet(terms) ensures k in Matches(tree, prefix) {
      var i :| 0 <= i < |terms| && terms[i].key == k;
    }
    assert KeySet(terms) == Matches(tree, prefix);
    DistinctKeySetSize(terms);
  }

  /** Two walks of the same tree below the same prefix differ only in order. */
  lemma WalksArePermutations(tree: Tree, prefix: string, a: seq<Term>, b: seq<Term>)
    requires IsWalk(tree, prefix, a) && IsWalk(tree, prefix, b)
    ensures |a| == |b|
    ensures forall t :: t in a <==> t in b
  {
    WalkCoversMatches(tree, prefix, a);
    WalkCoversMatches(tree, prefix, b);
    forall t | t in a ensures t in b {
      var i :| 0 <= i < |a| && a[i] == t;
      assert t.key in Matches(tree, prefix);
      var j :| 0 <= j < |b| && b[j].key == t.key;
    }
    forall t | t in b ensures t in a {
      var j :| 0 <= j < |b| && b[j] == t;
      assert t.key in Matches(tree, prefix);
      var i :| 0 <= i < |a| && a[i].key == t.key;
    }
  }

  /** A prefix no stored key starts with yields the empty list. */
  lemma NoMatchWalksEmpty(tree: Tree, prefix: string, terms: seq<Term>)
    requires IsWalk(tree, prefix, terms)
    requires forall k :: k in tree ==> !(prefix <= k)
    ensures terms == []
  {
    assert Matches(tree, prefix) == {};
    WalkCoversMatches(tree, prefix, terms);
  }

  /** When one stored key matches, the walk is exactly that entry. */
  lemma SingleMatchWalk(tree: Tree, prefix: string, k: string, terms: seq<Term>)
    requires IsWalk(tree, prefix, terms)
    requires Matches(tree, prefix) == {k}
    ensures k in tree && terms == [Term(k, tree[k])]
  {
    WalkCoversMatches(tree, prefix, terms);
    assert |terms| == 1;
    assert terms[0].key in Matches(tree, prefix);
  }

  // ---------------------------------------------------------------------
  // The loop, one request at a time
  // ---------------------------------------------------------------------

  /**
   * The messages the insert case sends on the caller's channel, in order:
   * `nil` only when the library reports true, and then, because nothing
   * stops the case there, the error in every case.
   */
  function InsertSends(updated: bool): (sends: seq<Option<Error>>)
    ensures |sends| == if updated then 2 else 1
    ensures sends[|sends| - 1] == Some(InsertFailed)
    ensures None in sends <==> updated
  {
    if updated then [None, Some(InsertFailed)] else [Some(InsertFailed)]
  }

  /** The loop after it handles one request (a loop no longer serving takes nothing). */
  function Advance(l: Loop, r: Request, updated: Updated): (a: Loop)
    ensures l.state != Serving ==> a == l
    ensures l.tree.Keys <= a.tree.Keys
    ensures a.state == Serving ==> l.state == Serving
  {
    if l.state != Serving then l
    else match r
      case RetrieveMessage(_) => l
      case InsertTerm(t) =>
        // the first send is received by the caller; a second one never is
        Loop(l.tree[t.key := t.value], if |InsertSends(updated(l.tree, t.key))| > 1 then Blocked else Serving)
      case QuitSignal => Loop(l.tree, Stopped)
  }

  /**
   * The loop after it handles `reqs` in order. Nothing is ever deleted, a
   * loop that no longer serves takes no request, and one that serves at the
   * end served all along.
   */
  function Run(l: Loop, reqs: seq<Request>, updated: Updated): (e: Loop)
    ensures l.tree.Keys <= e.tree.Keys
    ensures l.state != Serving ==> e == l
    ensures e.state == Serving ==> l.state == Serving
  {
    if reqs == [] then l
    else Advance(Run(l, reqs[..|reqs| - 1], updated), reqs[|reqs| - 1], updated)
  }

  /** `reply` is a reply the loop in state `l` can give to `r`. */
  ghost predicate ReplyFits(l: Loop, r: Request, updated: Updated, reply: Reply)
  {
    if l.state != Serving || r.QuitSignal? then reply == NoReply
    else match r
      case RetrieveMessage(p) =>
        reply.Retrieved? && reply.result.err == None && IsWalk(l.tree, p, reply.result.terms)
      case InsertTerm(t) => reply == Acks(InsertSends(updated(l.tree, t.key)))
  }

  /** Each of `replies` fits its request of `reqs`, fed in order to the loop from `l`. */
  ghost predicate RepliesFit(l: Loop, reqs: seq<Request>, replies: seq<Reply>, updated: Updated)
  {
    |replies| <= |reqs| &&
    forall j :: 0 <= j < |replies| ==> ReplyFits(Run(l, reqs[..j], updated), reqs[j], updated, replies[j])
  }

  /** The gardener: the tree and the loop that alone reads and changes it. */
  class Gardener {
    var tree: Tree
    var state: LoopState
    /** The radix library's Insert result. */
    const updated: Updated

    /** `tree = radix.New()` and the loop started. */
    constructor (updated: Updated)
      ensures tree == map[] && state == Serving && this.updated == updated
    {
      tree := map[];
      state := Serving;
      this.updated := updated;
    }

    /**
     * The retrieve case: a result that starts as an empty list with no
     * error, and a walk below `prefix` whose callback appends each entry it
     * visits and never asks to stop.
     */
    method WalkPrefix(prefix: string) returns (r: StoreResult)
      ensures r.err == None
      ensures IsWalk(tree, prefix, r.terms)
    {
      r := StoreResult([], None);
      var pending := Matches(tree, prefix);
      while pending != {}
        invariant pending <= Matches(tree, prefix)
        invariant r.err == None
        invariant forall i :: 0 <= i < |r.terms| ==>
          prefix <= r.terms[i].key && r.terms[i].key in tree &&
          tree[r.terms[i].key] == r.terms[i].value && r.terms[i].key !in pending
        invariant DistinctKeys(r.terms)
        invariant forall k :: k in Matches(tree, prefix) ==>
          k in pending || exists i :: 0 <= i < |r.terms| && r.terms[i].key == k
        decreases pending
      {
        var k :| k in pending;
        ghost var seen := r.terms;
        // the walk callback: append and return false
        r := r.(terms := r.terms + [Term(k, tree[k])]);
        pending := pending - {k};
        assert forall i :: 0 <= i < |seen| ==> r.terms[i] == seen[i];
        assert r.terms[|seen|].key == k;
      }
    }

    /** One turn of the loop's `select`: handle `req` and produce its reply. */
    method Step(req: Request) returns (reply: Reply)
      modifies this
      ensures ReplyFits(Loop(old(tree), old(state)), req, updated, reply)
      ensures Loop(tree, state) == Advance(Loop(old(tree), old(state)), req, updated)
    {
      if state != Serving {
        return NoReply;
      }
      match req
      case RetrieveMessage(p) =>
        var result := WalkPrefix(p);
        reply := Retrieved(result);
      case InsertTerm(t) =>
        var ok := updated(tree, t.key);
        tree := tree[t.key := t.value];
        var sends: seq<Option<Error>> := [];
        if ok {
          sends := sends + [None];
        }
        sends := sends + [Some(InsertFailed)];
        reply := Acks(sends);
        if |sends| > 1 {
          // the caller took the first message and left; this send waits forever
          state := Blocked;
        }
      case QuitSignal =>
        state := Stopped;
        reply := NoReply;
    }

    /** The loop fed `reqs` in order: one reply (or none) per request. */
    method Serve(reqs: seq<Request>) returns (replies: seq<Reply>)
      modifies this
      ensures |replies| == |reqs|
      ensures Loop(tree, state) == Run(Loop(old(tree), old(state)), reqs, updated)
      ensures forall i :: 0 <= i < |reqs| ==>
        ReplyFits(Run(Loop(old(tree), old(state)), reqs[..i], updated), reqs[i], updated, replies[i])
    {
      ghost var start := Loop(tree, state);
      replies := [];
      for i := 0 to |reqs|
        invariant |replies| == i
        invariant Loop(tree, state) == Run(start, reqs[..i], updated)
        invariant RepliesFit(start, reqs, replies, updated)
      {
        assert reqs[..i + 1][..i] == reqs[..i];
        var reply := Step(reqs[i]);
        assert ReplyFits(Run(start, reqs[..i], updated), reqs[i], updated, reply);
        ghost var prev := replies;
        replies := replies + [reply];
        forall j | 0 <= j < i + 1
          ensures ReplyFits(Run(start, reqs[..j], updated), reqs[j], updated, replies[j])
        {
          assert j < i ==> replies[j] == prev[j];
        }
      }
      assert reqs[..|reqs|] == reqs;
    }

    /** `Insert`: send the term, return the first message received on the private channel. */
    method Insert(k: string, v: Value) returns (ans: Call<Option<Error>>)
      modifies this
      ensures old(state) == Serving ==> ans == Answered(if updated(old(tree), k) then None else Some(InsertFailed))
      ensures old(state) != Serving ==> ans == Hangs
      ensures Loop(tree, state) == Advance(Loop(old(tree), old(state)), InsertTerm(Term(k, v)), updated)
    {
      var reply := Step(InsertTerm(Term(k, v)));
      if reply.Acks? {
        ans := Answered(reply.sends[0]);
      } else {
        ans := Hangs;
      }
    }

    /** `Retrieve`: send the prefix, return the terms and error received on the private channel. */
    method Retrieve(k: string) returns (ans: Call<StoreResult>)
      modifies this
      ensures old(state) == Serving ==> ans.Answered? && ans.value.err == None && IsWalk(old(tree), k, ans.value.terms)
      ensures old(state) != Serving ==> ans == Hangs
      ensures tree == old(tree) && state == old(state)
    {
      var reply := Step(RetrieveMessage(k));
      if reply.Retrieved? {
        ans := Answered(reply.result);
      } else {
        ans := Hangs;
      }
    }
  }

  // ---------------------------------------------------------------------
  // Properties of the loop
  // ---------------------------------------------------------------------

  /** Handling `a` then `b` is handling `a + b`. */
  lemma {:induction false} RunAppend(l: Loop, a: seq<Request>, b: seq<Request>, updated: Updated)
    ensures Run(l, a + b, updated) == Run(Run(l, a, updated), b, updated)
  {
    if b == [] {
      assert a + b == a;
    } else {
      var init := b[..|b| - 1];
      assert (a + b)[..|a + b| - 1] == a + init;
      RunAppend(l, a, init, updated);
    }
  }

  /** Once the loop no longer serves, later requests change nothing. */
  lemma {:induction false} HaltIsFinal(l: Loop, reqs: seq<Request>, q: nat, i: nat, updated: Updated)
    requires q <= i <= |reqs|
    requires Run(l, reqs[..q], updated).state != Serving
    ensures Run(l, reqs[..i], updated) == Run(l, reqs[..q], updated)
    decreases i
  {
    if i > q {
      assert reqs[..i][..i - 1] == reqs[..i - 1];
      HaltIsFinal(l, reqs, q, i - 1, updated);
    }
  }

  /** Quit ends the loop: nothing after a quit signal is answered or changes the tree. */
  lemma QuitSilencesRest(l: Loop, reqs: seq<Request>, q: nat, updated: Updated)
    requires q < |reqs| && reqs[q] == QuitSignal
    ensures Run(l, reqs, updated) == Run(l, reqs[..q + 1], updated)
    ensures Run(l, reqs, updated).state != Serving
    ensures forall i, reply :: q < i < |reqs| && ReplyFits(Run(l, reqs[..i], updated), reqs[i], updated, reply) ==> reply == NoReply
  {
    assert reqs[..q + 1][..q] == reqs[..q];
    forall i | q < i <= |reqs| ensures Run(l, reqs[..i], updated) == Run(l, reqs[..q + 1], updated) {
      HaltIsFinal(l, reqs, q + 1, i, updated);
    }
    assert reqs[..|reqs|] == reqs;
  }

  /**
   * An insert the library reports as true blocks the loop for good: the
   * value is stored, and nothing after it is answered.
   */
  lemma UpdateBlocksLoop(l: Loop, reqs: seq<Request>, q: nat, updated: Updated)
    requires q < |reqs| && reqs[q].InsertTerm?
    requires Run(l, reqs[..q], updated).state == Serving
    requires updated(Run(l, reqs[..q], updated).tree, reqs[q].term.key)
    ensures Run(l, reqs, updated).state == Blocked
    ensures Run(l, reqs, updated).tree == Run(l, reqs[..q], updated).tree[reqs[q].term.key := reqs[q].term.value]
    ensures forall i, reply :: q < i < |reqs| && ReplyFits(Run(l, reqs[..i], updated), reqs[i], updated, reply) ==> reply == NoReply
  {
    assert reqs[..q + 1][..q] == reqs[..q];
    forall i | q < i <= |reqs| ensures Run(l, reqs[..i], updated) == Run(l, reqs[..q + 1], updated) {
      HaltIsFinal(l, reqs, q + 1, i, updated);
    }
    assert reqs[..|reqs|] == reqs;
  }

  /** Retrieves never change the loop: only inserts touch the tree. */
  lemma {:induction false} RetrievesKeepLoop(l: Loop, reqs: seq<Request>, updated: Updated)
    requires forall i :: 0 <= i < |reqs| ==> reqs[i].RetrieveMessage?
    ensures Run(l, reqs, updated) == l
  {
    if reqs != [] {
      RetrievesKeepLoop(l, reqs[..|reqs| - 1], updated);
    }
  }

  /** After an insert the key holds the new value and every other key is as it was. */
  lemma InsertStoresTerm(l: Loop, t: Term, updated: Updated)
    requires l.state == Serving
    ensures var l' := Advance(l, InsertTerm(t), updated);
      && l'.tree.Keys == l.tree.Keys + {t.key}
      && l'.tree[t.key] == t.value
      && (forall k :: k in l.tree && k != t.key ==> l'.tree[k] == l.tree[k])
  {
  }

  /** The insert requests for `ts`, in order. */
  function Inserts(ts: seq<Term>): (reqs: seq<Request>)
    ensures |reqs| == |ts|
    ensures forall i :: 0 <= i < |ts| ==> reqs[i] == InsertTerm(ts[i])
  {
    seq(|ts|, i requires 0 <= i < |ts| => InsertTerm(ts[i]))
  }

  /** The radix library's documented answer: true exactly when the key was already stored. */
  ghost predicate ReportsUpdates(updated: Updated)
  {
    forall t, k :: updated(t, k) == (k in t)
  }

  /** With the radix library's answer, an insert of a key not yet stored keeps the loop serving. */
  lemma NewKeyKeepsServing(l: Loop, t: Term, updated: Updated)
    requires l.state == Serving && ReportsUpdates(updated) && t.key !in l.tree
    ensures Advance(l, InsertTerm(t), updated) == Loop(l.tree[t.key := t.value], Serving)
  {
    assert !updated(l.tree, t.key);
  }

  /** The tree after storing `ts` in order, each key taking its latest value. */
  function PutAll(tree: Tree, ts: seq<Term>): Tree
  {
    if ts == [] then tree
    else PutAll(tree, ts[..|ts| - 1])[ts[|ts| - 1].key := ts[|ts| - 1].value]
  }

  /** Storing terms adds exactly their keys. */
  lemma {:induction false} PutAllKeys(tree: Tree, ts: seq<Term>)
    ensures PutAll(tree, ts).Keys == tree.Keys + KeySet(ts)
  {
    if ts != [] {
      var n := |ts| - 1;
      PutAllKeys(tree, ts[..n]);
      assert KeySet(ts) == KeySet(ts[..n]) + {ts[n].key};
    }
  }

  /** Storing terms with distinct keys leaves each key with its own term's value. */
  lemma {:induction false} PutAllValues(tree: Tree, ts: seq<Term>)
    requires DistinctKeys(ts)
    ensures forall i :: 0 <= i < |ts| ==> ts[i].key in PutAll(tree, ts) && PutAll(tree, ts)[ts[i].key] == ts[i].value
  {
    if ts != [] {
      var n := |ts| - 1;
      var init := ts[..n];
      assert DistinctKeys(init);
      PutAllValues(tree, init);
      PutAllKeys(tree, init);
      forall i | 0 <= i < n ensures ts[i].key in PutAll(tree, ts) && PutAll(tree, ts)[ts[i].key] == ts[i].value {
        assert init[i] == ts[i];
        assert ts[i].key != ts[n].key;
      }
    }
  }

  /** Storing terms keeps the value of every key none of them has. */
  lemma {:induction false} PutAllKeeps(tree: Tree, ts: seq<Term>)
    ensures forall k :: k in tree && k !in KeySet(ts) ==> k in PutAll(tree, ts) && PutAll(tree, ts)[k] == tree[k]
  {
    if ts != [] {
      var n := |ts| - 1;
      PutAllKeys(tree, ts[..n]);
      PutAllKeeps(tree, ts[..n]);
      assert KeySet(ts) == KeySet(ts[..n]) + {ts[n].key};
    }
  }

  /** Storing terms with distinct keys adds exactly their keys, each with its own value, and keeps the rest. */
  lemma PutAllStoresEach(tree: Tree, ts: seq<Term>)
    requires DistinctKeys(ts)
    ensures PutAll(tree, ts).Keys == tree.Keys + KeySet(ts)
    ensures forall i :: 0 <= i < |ts| ==> PutAll(tree, ts)[ts[i].key] == ts[i].value
    ensures forall k :: k in tree && k !in KeySet(ts) ==> PutAll(tree, ts)[k] == tree[k]
  {
    PutAllKeys(tree, ts);
    PutAllValues(tree, ts);
    PutAllKeeps(tree, ts);
  }

  /**
   * Inserts of distinct new keys, whatever order they arrive in, keep the
   * loop serving and store every term.
   */
  lemma {:induction false} NewInsertsAllStored(l: Loop, ts: seq<Term>, updated: Updated)
    requires l.state == Serving && ReportsUpdates(updated)
    requires DistinctKeys(ts)
    requires forall i :: 0 <= i < |ts| ==> ts[i].key !in l.tree
    ensures Run(l, Inserts(ts), updated) == Loop(PutAll(l.tree, ts), Serving)
  {
    if ts != [] {
      var n := |ts| - 1;
      var init := ts[..n];
      assert DistinctKeys(init);
      NewInsertsAllStored(l, init, updated);
      assert Inserts(ts)[..n] == Inserts(init);
      PutAllKeys(l.tree, init);
      assert ts[n].key !in KeySet(init);
      NewKeyKeepsServing(Run(l, Inserts(init), updated), ts[n], updated);
    }
  }

  /** Every term of a full walk of a tree holding exactly the terms `ts` is one of them, and conversely. */
  lemma FullWalkSameTerms(tree: Tree, ts: seq<Term>, terms: seq<Term>)
    requires tree.Keys == KeySet(ts)
    requires forall i :: 0 <= i < |ts| ==> tree[ts[i].key] == ts[i].value
    requires IsWalk(tree, "", terms)
    ensures forall t :: t in terms <==> t in ts
  {
    forall t | t in ts ensures t in terms {
      var i :| 0 <= i < |ts| && ts[i] == t;
      assert t.key in Matches(tree, "");
      var j :| 0 <= j < |terms| && terms[j].key == t.key;
    }
    forall t | t in terms ensures t in ts {
      var j :| 0 <= j < |terms| && terms[j] == t;
      assert t.key in KeySet(ts);
      var i :| 0 <= i < |ts| && ts[i].key == t.key;
    }
  }

  /** A full walk of a tree holding exactly the terms `ts` (distinct keys) lists as many terms as `ts`. */
  lemma FullWalkLength(tree: Tree, ts: seq<Term>, terms: seq<Term>)
    requires DistinctKeys(ts)
    requires tree.Keys == KeySet(ts)
    requires IsWalk(tree, "", terms)
    ensures |terms| == |ts|
  {
    assert Matches(tree, "") == KeySet(ts);
    WalkCoversMatches(tree, "", terms);
    DistinctKeySetSize(ts);
  }

  /**
   * Distinct new keys inserted into an empty store, then a retrieve with the
   * empty prefix: the reply lists exactly those terms, none missing or twice.
   */
  lemma InsertsThenListAll(ts: seq<Term>, updated: Updated, reply: Reply)
    requires ReportsUpdates(updated) && DistinctKeys(ts)
    requires ReplyFits(Run(Loop(map[], Serving), Inserts(ts), updated), RetrieveMessage(""), updated, reply)
    ensures reply.Retrieved? && reply.result.err == None
    ensures |reply.result.terms| == |ts|
    ensures forall t :: t in reply.result.terms <==> t in ts
  {
    NewInsertsAllStored(Loop(map[], Serving), ts, updated);
    PutAllStoresEach(map[], ts);
    FullWalkSameTerms(PutAll(map[], ts), ts, reply.result.terms);
    FullWalkLength(PutAll(map[], ts), ts, reply.result.terms);
  }

  /** Handling a single request is one step of the loop. */
  lemma RunOne(l: Loop, r: Request, updated: Updated)
    ensures Run(l, [r], updated) == Advance(l, r, updated)
  {
    assert [r][..0] == [];
  }

  /**
   * With the radix library's answer, writing a key twice and then reading it:
   * the first insert reports the error although it stored the value, the
   * second stores the new value and blocks the loop, and the read is never
   * answered.
   */
  lemma OverwriteThenReadHangs(k: string, v1: Value, v2: Value, updated: Updated, r0: Reply, r2: Reply)
    requires ReportsUpdates(updated)
    requires ReplyFits(Loop(map[], Serving), InsertTerm(Term(k, v1)), updated, r0)
    requires ReplyFits(Run(Loop(map[], Serving), [InsertTerm(Term(k, v1)), InsertTerm(Term(k, v2))], updated),
                       RetrieveMessage(k), updated, r2)
    ensures r0 == Acks([Some(InsertFailed)])
    ensures r2 == NoReply
    ensures var l := Run(Loop(map[], Serving), [InsertTerm(Term(k, v1)), InsertTerm(Term(k, v2))], updated);
      l.state == Blocked && l.tree == map[k := v2]
  {
    var l0 := Loop(map[], Serving);
    var x1, x2 := InsertTerm(Term(k, v1)), InsertTerm(Term(k, v2));
    assert !updated(map[], k);
    assert updated(map[k := v1], k);
    RunOne(l0, x1, updated);
    assert [x1, x2][..1] == [x1];
    assert Run(l0, [x1, x2], updated) == Advance(Loop(map[k := v1], Serving), x2, updated);
    assert map[k := v1][k := v2] == map[k := v2];
  }

  // ---------------------------------------------------------------------
  // The insert case as evidently intended
  // ---------------------------------------------------------------------

  /**
   * The loop step with the insert case as evidently intended: the library's
   * insert cannot fail, so the caller is sent one `nil` and the loop goes on
   * serving. Retrieve and quit are as in `Advance`.
   */
  function AdvanceIntended(l: Loop, r: Request): (a: Loop)
    ensures l.state != Serving ==> a == l
    ensures l.tree.Keys <= a.tree.Keys
    ensures a.state == Serving <==> l.state == Serving && !r.QuitSignal?
    ensures a.state == Blocked ==> l.state == Blocked
  {
    if l.state != Serving then l
    else match r
      case RetrieveMessage(_) => l
      case InsertTerm(t) => Loop(l.tree[t.key := t.value], Serving)
      case QuitSignal => Loop(l.tree, Stopped)
  }

  /** The corrected loop after it handles `reqs` in order: it never blocks itself. */
  function RunIntended(l: Loop, reqs: seq<Request>): (e: Loop)
    ensures l.tree.Keys <= e.tree.Keys
    ensures l.state != Serving ==> e == l
    ensures e.state == Blocked ==> l.state == Blocked
  {
    if reqs == [] then l
    else AdvanceIntended(RunIntended(l, reqs[..|reqs| - 1]), reqs[|reqs| - 1])
  }

  /** `reply` is a reply the corrected loop in state `l` can give to `r`. */
  ghost predicate ReplyFitsIntended(l: Loop, r: Request, reply: Reply)
  {
    if l.state != Serving || r.QuitSignal? then reply == NoReply
    else match r
      case RetrieveMessage(p) =>
        reply.Retrieved? && reply.result.err == None && IsWalk(l.tree, p, reply.result.terms)
      case InsertTerm(_) => reply == Acks([None])
  }

  /**
   * The correction changes only what an insert answers and whether the loop
   * blocks: the tree is the same as written, and so is the whole loop
   * whenever the step as written does not block.
   */
  lemma IntendedStoresAsWritten(l: Loop, r: Request, updated: Updated)
    ensures AdvanceIntended(l, r).tree == Advance(l, r, updated).tree
    ensures Advance(l, r, updated).state != Blocked || l.state == Blocked ==>
      AdvanceIntended(l, r) == Advance(l, r, updated)
  {
  }

  /** With the corrected step, any inserts, repeated keys included, keep the loop serving and store every term. */
  lemma {:induction false} IntendedInsertsAllStored(l: Loop, ts: seq<Term>)
    requires l.state == Serving
    ensures RunIntended(l, Inserts(ts)) == Loop(PutAll(l.tree, ts), Serving)
  {
    if ts != [] {
      var n := |ts| - 1;
      IntendedInsertsAllStored(l, ts[..n]);
      assert Inserts(ts)[..n] == Inserts(ts[..n]);
    }
  }

  /**
   * With the corrected step, writing a key twice and then reading it: both
   * inserts are answered with `nil`, and the read finds exactly one entry,
   * holding the second value.
   */
  lemma IntendedOverwriteThenRead(k: string, v1: Value, v2: Value, r0: Reply, r1: Reply, r2: Reply)
    requires ReplyFitsIntended(Loop(map[], Serving), InsertTerm(Term(k, v1)), r0)
    requires ReplyFitsIntended(RunIntended(Loop(map[], Serving), [InsertTerm(Term(k, v1))]), InsertTerm(Term(k, v2)), r1)
    requires ReplyFitsIntended(RunIntended(Loop(map[], Serving), [InsertTerm(Term(k, v1)), InsertTerm(Term(k, v2))]),
                               RetrieveMessage(k), r2)
    ensures r0 == Acks([None]) && r1 == Acks([None])
    ensures r2 == Retrieved(StoreResult([Term(k, v2)], None))
  {
    var l0 := Loop(map[], Serving);
    var x1, x2 := InsertTerm(Term(k, v1)), InsertTerm(Term(k, v2));
    assert [x1][..0] == [];
    assert RunIntended(l0, [x1]) == Loop(map[k := v1], Serving);
    assert [x1, x2][..1] == [x1];
    var l2 := RunIntended(l0, [x1, x2]);
    assert l2 == Loop(map[k := v2], Serving) by {
      assert map[k := v1][k := v2] == map[k := v2];
    }
    assert Matches(l2.tree, k) == {k};
    SingleMatchWalk(l2.tree, k, k, r2.result.terms);
  }

  /**
   * With the corrected step, inserting a term into any serving store and then
   * reading its key finds the term, with no error; it is the only term found
   * when no other stored key starts with the key.
   */
  lemma IntendedInsertThenRead(l: Loop, k: string, v: Value, reply: Reply)
    requires l.state == Serving
    requires ReplyFitsIntended(AdvanceIntended(l, InsertTerm(Term(k, v))), RetrieveMessage(k), reply)
    ensures reply.Retrieved? && reply.result.err == None && Term(k, v) in reply.result.terms
    ensures (forall k' :: k' in l.tree && k <= k' ==> k' == k) ==> reply.result.terms == [Term(k, v)]
  {
    var t := l.tree[k := v];
    var terms := reply.result.terms;
    assert k in Matches(t, k);
    var i :| 0 <= i < |terms| && terms[i].key == k;
    assert terms[i] == Term(k, v);
    if forall k' :: k' in l.tree && k <= k' ==> k' == k {
      assert Matches(t, k) == {k};
      SingleMatchWalk(t, k, k, terms);
    }
  }

  /**
   * The same as written, with the radix library's answer: a read after
   * inserting a new key finds it as the corrected loop does, but a read after
   * overwriting a stored key is never answered.
   */
  lemma InsertThenRead(l: Loop, k: string, v: Value, updated: Updated, reply: Reply)
    requires l.state == Serving && ReportsUpdates(updated)
    requires ReplyFits(Advance(l, InsertTerm(Term(k, v)), updated), RetrieveMessage(k), updated, reply)
    ensures k in l.tree ==> reply == NoReply
    ensures k !in l.tree ==> reply.Retrieved? && reply.result.err == None && Term(k, v) in reply.result.terms
    ensures k !in l.tree && (forall k' :: k' in l.tree ==> !(k <= k')) ==> reply.result.terms == [Term(k, v)]
  {
    var x := InsertTerm(Term(k, v));
    if k in l.tree {
      assert updated(l.tree, k);
    } else {
      NewKeyKeepsServing(l, Term(k, v), updated);
      assert Advance(l, x, updated) == AdvanceIntended(l, x);
      IntendedInsertThenRead(l, k, v, reply);
    }
  }

  // ---------------------------------------------------------------------
  // Buffer sizes
  // ---------------------------------------------------------------------

  /** The values a 64-bit signed Go integer can hold. */
  type Int64 = x: int | -0x8000_0000_0000_0000 <= x < 0x8000_0000_0000_0000

  const InsertBufferVar := "TRIE_INSERTION_BUFFER"
  const RetrieveBufferVar := "TRIE_RETRIEVE_BUFFER"
  const DefaultBufferSize: Int64 := 1

  datatype BufferSizes = BufferSizes(insert: Int64, retrieve: Int64)

  /** Start-up either settles both sizes or stops the process on an invalid override. */
  datatype Startup = Configured(sizes: BufferSizes) | Fatal(variable: string, value: string)

  /** `os.Getenv`: an unset variable reads as the empty string. */
  function Getenv(env: map<string, string>, name: string): string
  {
    if name in env then env[name] else ""
  }

  /** One setting: the default when its override is empty, else the override's base-10 parse (None: invalid). */
  function Setting(env: map<string, string>, name: string, parse: string -> Option<Int64>): Option<Int64>
  {
    var s := Getenv(env, name);
    if s == "" then Some(DefaultBufferSize) else parse(s)
  }

  /**
   * The configuration loop: both sizes start at the default; each non-empty
   * override replaces its size with its parse, and the first invalid one is
   * fatal. The two package variables are the two cells of `sizes`, written
   * through their index as the source writes through `*v.I`.
   */
  method LoadBufferSizes(env: map<string, string>, parse: string -> Option<Int64>) returns (r: Startup)
    ensures Getenv(env, InsertBufferVar) == "" && Getenv(env, RetrieveBufferVar) == "" ==>
      r == Configured(BufferSizes(DefaultBufferSize, DefaultBufferSize))
    ensures r.Configured? <==>
      Setting(env, InsertBufferVar, parse).Some? && Setting(env, RetrieveBufferVar, parse).Some?
    ensures r.Configured? ==>
      r.sizes == BufferSizes(Setting(env, InsertBufferVar, parse).value, Setting(env, RetrieveBufferVar, parse).value)
    ensures r.Fatal? ==> r.value == Getenv(env, r.variable) && r.value != "" && parse(r.value) == None
    ensures r.Fatal? ==>
      r.variable == InsertBufferVar ||
      (r.variable == RetrieveBufferVar && Setting(env, InsertBufferVar, parse).Some?)
  {
    var sizes := new Int64[2];
    sizes[0], sizes[1] := DefaultBufferSize, DefaultBufferSize;
    var names := [InsertBufferVar, RetrieveBufferVar];
    for i := 0 to 2
      invariant forall j :: 0 <= j < i ==> Setting(env, names[j], parse) == Some(sizes[j])
      invariant forall j :: i <= j < 2 ==> sizes[j] == DefaultBufferSize
    {
      var bufferSize := Getenv(env, names[i]);
      if bufferSize != "" {
        match parse(bufferSize)
        case None =>
          return Fatal(names[i], bufferSize);
        case Some(n) =>
          sizes[i] := n;
      }
    }
    r := Configured(BufferSizes(sizes[0], sizes[1]));
  }
}
