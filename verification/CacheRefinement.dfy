/**
  Any sequence of calls on the linked cache, next to the same run of the simple cache and of
  the list of requests in flight. A lookup that is told to wait comes back as a resumed one.
 */
module CacheRefinement {
  import opened Bytes
  import opened PacketSpec
  import opened LruSpec
  import opened AnswerTtl
  import opened Pending
  import opened CacheHeap
  import opened CacheRuns
  import opened KeyRuns
  import opened PacketLaws

  datatype Call =
    | LookUp(query: seq<byte>, room: nat, noLookup: bool, noStore: bool, now: int)
    | ResumeLookUp(query: seq<byte>, room: nat, now: int)
    | AddTo(query: seq<byte>, answer: seq<byte>, reply: Reply, now: int, later: int)
    | FailQuery(query: seq<byte>, bypass: bool)
    | FlushCache

  /** What a call returns. */
  datatype Response = Looked(status: Status) | Coded(code: int) | Nothing

  /** The simple cache: its items, and the hashes of the requests in flight. */
  datatype Simple = Simple(items: seq<Item<KeyClass>>, pending: seq<nat>)

  /** Comparing the query never leaves it, and only a checked lookup ever waits. */
  predicate Fit(call: Call)
  {
    match call
    case ResumeLookUp(query, _, _) => Checked(query) && Sound(query)
    case FailQuery(_, _) => true
    case FlushCache => true
    case _ => Sound(call.query)
  }

  ghost predicate AllFit(calls: seq<Call>)
  {
    forall i :: 0 <= i < |calls| ==> Fit(calls[i])
  }

  /** The call reaches the cache. */
  predicate Reaches(call: Call)
  {
    match call
    case LookUp(query, _, noLookup, noStore, _) => !noLookup && !noStore && Checked(query)
    case FailQuery(query, bypass) => !bypass && Checked(query)
    case FlushCache => true
    case _ => Checked(call.query)
  }

  /** The hash of a query that passes the check. */
  function KeyHash(query: seq<byte>): (h: nat)
  {
    if Checked(query) then HashQuery(query) else 0
  }

  function StatusOf(outcome: Lookup): (s: Status)
  {
    match outcome
    case Found(answer) => Hit(answer)
    case NotFound => Miss
    case TooLong(length) => Unsupported(Some(length))
  }

  predicate Holds(items: seq<Item<KeyClass>>, cls: KeyClass)
  {
    FindKey(items, cls) < |items|
  }

  /** The lookup finds nothing stored and nothing in flight: it records its request. */
  ghost predicate Records(v: Simple, call: Call)
    requires Fit(call)
  {
    call.LookUp? && Reaches(call) && !Holds(v.items, ClassOf(call.query)) && KeyHash(call.query) !in v.pending
  }

  ghost predicate RecordsFor(v: Simple, call: Call, h: nat)
    requires Fit(call)
  {
    Records(v, call) && KeyHash(call.query) == h
  }

  /** The call reports the outcome of a request for `h`. */
  ghost predicate Reports(call: Call, h: nat)
  {
    (call.AddTo? || call.FailQuery?) && Reaches(call) && KeyHash(call.query) == h
  }

  /** What the simple cache makes of a call. */
  ghost function After(v: Simple, call: Call, max: nat): (w: Simple)
    requires max > 0 && Fit(call)
  {
    if !Reaches(call) then v
    else
      match call
      case LookUp(query, room, _, _, now) =>
        Simple(LookupKey(v.items, ClassOf(query), now, room).0,
               if Records(v, call) then v.pending + [KeyHash(query)] else v.pending)
      case ResumeLookUp(query, room, now) => v.(items := LookupKey(v.items, ClassOf(query), now, room).0)
      case AddTo(query, answer, reply, now, later) =>
        Simple(AddKey(v.items, ClassOf(query), answer, Ttl(Limits(reply)), now, later, max),
               RemoveOne(v.pending, KeyHash(query)))
      case FailQuery(query, _) => v.(pending := RemoveOne(v.pending, KeyHash(query)))
      case FlushCache => Simple([], [])
  }

  /** What the simple cache answers to a call. */
  ghost function Answer(v: Simple, call: Call): (r: Response)
    requires Fit(call)
  {
    match call
    case LookUp(query, room, noLookup, noStore, now) =>
      if noLookup || noStore then Looked(if noStore then Skip else Miss)
      else if !Checked(query) then Looked(Unsupported(None))
      else if Holds(v.items, ClassOf(query)) then Looked(StatusOf(LookupKey(v.items, ClassOf(query), now, room).1))
      else Looked(if KeyHash(query) in v.pending then Wait else Miss)
    case ResumeLookUp(query, room, now) => Looked(StatusOf(LookupKey(v.items, ClassOf(query), now, room).1))
    case AddTo(query, _, _, _, _) =>
      Coded(if !Checked(query) then EINVAL else if Holds(v.items, ClassOf(query)) then EEXIST else 0)
    case FailQuery(_, _) => Nothing
    case FlushCache => Nothing
  }

  ghost function Model(calls: seq<Call>, max: nat): (v: Simple)
    requires max > 0 && AllFit(calls)
  {
    if calls == [] then Simple([], []) else After(Model(calls[..|calls| - 1], max), calls[|calls| - 1], max)
  }

  // ---------------------------------------------------------------------------
  // The linked cache does what the simple one does
  // ---------------------------------------------------------------------------

  method Perform(cache: Cache, call: Call) returns (r: Response)
    requires cache.Valid() && Fit(call)
    modifies cache, cache.heads, cache.mruList, cache.ring, cache.pending
    ensures cache.Valid()
    ensures forall i :: 0 <= i < |cache.ring| ==> cache.ring[i] in old(cache.ring) || fresh(cache.ring[i])
    ensures var v := Simple(Items(old(cache.ring)), old(cache.pending.hashes));
      && Simple(Items(cache.ring), cache.pending.hashes) == After(v, call, cache.maxEntries)
      && r == Answer(v, call)
  {
    hide LookupKey, AddKey, Checked, Sound, ClassOf, Ttl, Limits, HashQuery, FindKey, RemoveOne, Returns;
    match call {
      case LookUp(_, _, _, _, _) => r := PerformLookUp(cache, call);
      case ResumeLookUp(query, room, now) =>
        var status := cache.Resume(query, room, now);
        ReturnsStatus(status, LookupKey(Items(old(cache.ring)), ClassOf(query), now, room).1);
        r := Looked(status);
      case AddTo(query, answer, reply, now, later) =>
        var code := cache.Add(query, answer, reply, now, later);
        r := Coded(code);
      case FailQuery(query, bypass) =>
        cache.QueryFailed(query, bypass);
        r := Nothing;
      case FlushCache =>
        cache.FlushAll();
        r := Nothing;
    }
  }

  method PerformLookUp(cache: Cache, call: Call) returns (r: Response)
    requires cache.Valid() && call.LookUp? && Fit(call)
    modifies cache, cache.heads, cache.mruList, cache.ring, cache.pending
    ensures cache.Valid() && forall i :: 0 <= i < |cache.ring| ==> cache.ring[i] in old(cache.ring)
    ensures var v := Simple(Items(old(cache.ring)), old(cache.pending.hashes));
      && Simple(Items(cache.ring), cache.pending.hashes) == After(v, call, cache.maxEntries)
      && r == Answer(v, call)
  {
    hide LookupKey, Checked, Sound, ClassOf, HashQuery, FindKey, Returns;
    var status := cache.Lookup(call.query, call.room, call.noLookup, call.noStore, call.now);
    if Reaches(call) {
      ReturnsStatus(status, LookupKey(Items(old(cache.ring)), ClassOf(call.query), call.now, call.room).1);
    }
    r := Looked(status);
  }

  lemma ReturnsStatus(status: Status, outcome: Lookup)
    ensures Returns(status, outcome) <==> status == StatusOf(outcome)
  {
  }

  /** After any calls on a new cache, it holds what the simple cache holds, and every reply was the simple cache's. */
  method Replay(max: nat, calls: seq<Call>) returns (cache: Cache, replies: seq<Response>)
    requires max > 0 && AllFit(calls)
    ensures cache.Valid() && Simple(Items(cache.ring), cache.pending.hashes) == Model(calls, max)
    ensures |replies| == |calls|
    ensures forall i :: 0 <= i < |calls| ==> replies[i] == Answer(Model(calls[..i], max), calls[i])
  {
    hide Fit, Model, Answer, After, Stored, RingLinked, ChainsLinked;
    cache := new Cache(max);
    replies := [];
    EmptyModel(max);
    for i := 0 to |calls|
      invariant cache.Valid() && cache.maxEntries == max
      invariant fresh(cache) && fresh(cache.heads) && fresh(cache.mruList) && fresh(cache.pending)
      invariant forall k :: 0 <= k < |cache.ring| ==> fresh(cache.ring[k])
      invariant Simple(Items(cache.ring), cache.pending.hashes) == Model(calls[..i], max)
      invariant |replies| == i && forall k :: 0 <= k < i ==> replies[k] == Answer(Model(calls[..k], max), calls[k])
    {
      ModelStep(calls, i, max);
      var r := Perform(cache, calls[i]);
      replies := replies + [r];
    }
    assert calls[..|calls|] == calls;
  }

  lemma EmptyModel(max: nat)
    requires max > 0
    ensures Model([], max) == Simple([], [])
  {
  }

  lemma ModelStep(calls: seq<Call>, i: nat, max: nat)
    requires max > 0 && AllFit(calls) && i < |calls|
    ensures AllFit(calls[..i]) && AllFit(calls[..i + 1])
    ensures Fit(calls[i]) && Model(calls[..i + 1], max) == After(Model(calls[..i], max), calls[i], max)
  {
    assert calls[..i + 1][..i] == calls[..i];
  }

  // ---------------------------------------------------------------------------
  // Items and requests of whole runs
  // ---------------------------------------------------------------------------

  /** What a call is to the items of the simple cache. */
  ghost function Ops(call: Call): (r: seq<Op<KeyClass>>)
    requires Fit(call)
  {
    if !Reaches(call) then []
    else
      match call
      case LookUp(query, room, _, _, now) => [Look(ClassOf(query), now, room)]
      case ResumeLookUp(query, room, now) => [Look(ClassOf(query), now, room)]
      case AddTo(query, answer, reply, now, later) => [Put(ClassOf(query), answer, reply, now, later)]
      case FailQuery(_, _) => []
      case FlushCache => [Flush]
  }

  ghost function AllOps(calls: seq<Call>): (r: seq<Op<KeyClass>>)
    requires AllFit(calls)
  {
    if calls == [] then [] else AllOps(calls[..|calls| - 1]) + Ops(calls[|calls| - 1])
  }

  lemma ItemsAfter(v: Simple, call: Call, max: nat)
    requires max > 0 && Fit(call)
    ensures var ops := Ops(call);
      |ops| <= 1 && After(v, call, max).items == if ops == [] then v.items else StepKey(v.items, ops[0], max)
  {
    hide LookupKey, AddKey, Ttl, Limits, Checked, Sound, ClassOf;
  }

  lemma RunAppend(ops: seq<Op<KeyClass>>, more: seq<Op<KeyClass>>, max: nat)
    requires max > 0 && |more| <= 1
    ensures RunKeys(ops + more, max) ==
            if more == [] then RunKeys(ops, max) else StepKey(RunKeys(ops, max), more[0], max)
  {
    hide StepKey;
    if more == [] {
      assert ops + more == ops;
    } else {
      assert (ops + more)[..|ops|] == ops;
    }
  }

  /** The items are those of the run of lookups, stores and flushes among the calls. */
  lemma {:induction false} ItemsAreOfRun(calls: seq<Call>, max: nat)
    requires max > 0 && AllFit(calls)
    ensures Model(calls, max).items == RunKeys(AllOps(calls), max)
  {
    hide Fit, After, Ops, StepKey, RunKeys;
    if calls == [] {
      EmptyRun(max);
    } else {
      var n := |calls| - 1;
      ItemsAreOfRun(calls[..n], max);
      ItemsAfter(Model(calls[..n], max), calls[n], max);
      RunAppend(AllOps(calls[..n]), Ops(calls[n]), max);
    }
  }

  lemma EmptyRun(max: nat)
    requires max > 0
    ensures RunKeys<QueryClass>([], max) == []
  {
  }

  /** Every query of the run is one of `queries`. */
  ghost predicate Asks(calls: seq<Call>, queries: iset<seq<byte>>)
  {
    forall i :: 0 <= i < |calls| ==> calls[i].FlushCache? || calls[i].query in queries
  }

  lemma {:induction false} WholeOps(calls: seq<Call>, queries: iset<seq<byte>>)
    requires AllFit(calls) && Asks(calls, queries)
    requires forall q :: q in queries && Checked(q) && Sound(q) ==> Complete(q)
    ensures forall i :: 0 <= i < |AllOps(calls)| ==> WholeOp(AllOps(calls)[i])
  {
    hide Checked, Complete, CutInRdLength;
    if calls != [] {
      WholeOps(calls[..|calls| - 1], queries);
    }
  }

  /** `n` stores of an answer for `query`. */
  function Stores(query: seq<byte>, n: nat): (calls: seq<Call>)
    ensures |calls| == n && forall i :: 0 <= i < n ==> calls[i] == AddTo(query, [], ONE_SECOND, 0, 0)
  {
    if n == 0 then [] else Stores(query, n - 1) + [AddTo(query, [], ONE_SECOND, 0, 0)]
  }

  lemma {:induction false} StoresAreTears(query: seq<byte>, n: nat)
    requires Checked(query) && Sound(query) && !Complete(query)
    ensures AllFit(Stores(query, n)) && AllOps(Stores(query, n)) == Tears(n)
  {
    hide Checked, Complete, Sound;
    if n > 0 {
      StoresAreTears(query, n - 1);
      assert Stores(query, n)[..n - 1] == Stores(query, n - 1);
    }
  }

  /** Every store for a query with an incomplete additional record adds an entry, however full the cache is. */
  lemma IncompleteStoresAddUp(query: seq<byte>, n: nat, max: nat)
    requires max > 0 && Checked(query) && Sound(query) && !Complete(query)
    ensures AllFit(Stores(query, n)) && |Model(Stores(query, n), max).items| >= n
  {
    hide Checked, Complete, Sound, TornItems, RunKeys;
    StoresAreTears(query, n);
    ItemsAreOfRun(Stores(query, n), max);
    TornItemsStay(AllOps(Stores(query, n)), max);
    TearsAreStores<QueryClass>(n);
  }

  /** A cache for one entry that holds two. */
  lemma CutQueryOverfills()
    ensures AllFit(Stores(CUT_QUERY, 2)) && |Model(Stores(CUT_QUERY, 2), 1).items| > 1
  {
    hide Checked, Complete, CutInRdLength, Model, CUT_QUERY;
    CutQueryIsIncomplete();
    IncompleteStoresAddUp(CUT_QUERY, 2, 1);
  }

  lemma CutQueryIsIncomplete()
    ensures Checked(CUT_QUERY) && Sound(CUT_QUERY) && !Complete(CUT_QUERY)
  {
    hide Checked, Complete, CutInRdLength, HeaderOk;
    CutQueryHeader(CUT_QUERY);
    OneRootQuestion(CUT_QUERY);
  }

  /**
    The number of entries stays within the maximum in every run over `queries` exactly when those of
    them that are keys are complete.
   */
  lemma MaximumKeptIff(queries: iset<seq<byte>>, max: nat)
    requires max > 0
    ensures (forall calls :: AllFit(calls) && Asks(calls, queries) ==> |Model(calls, max).items| <= max)
       <==> (forall q :: q in queries && Checked(q) && Sound(q) ==> Complete(q))
  {
    hide Checked, Complete, Sound, Model, Fit, RunKeys, Run;
    if q :| q in queries && Checked(q) && Sound(q) && !Complete(q) {
      IncompleteStoresAddUp(q, max + 1, max);
      assert Asks(Stores(q, max + 1), queries);
    } else {
      forall calls | AllFit(calls) && Asks(calls, queries)
        ensures |Model(calls, max).items| <= max
      {
        WholeOps(calls, queries);
        ItemsAreOfRun(calls, max);
        WholeRuns(AllOps(calls), max);
        RunsAreOk(AllOps(calls), max);
      }
    }
  }

  /** The request for `h` recorded by call `i` has been neither reported nor flushed. */
  ghost predicate OpenSince(calls: seq<Call>, max: nat, h: nat, i: nat)
    requires max > 0 && AllFit(calls) && i < |calls|
  {
    && RecordsFor(Model(calls[..i], max), calls[i], h)
    && forall k :: i < k < |calls| ==> calls[k] != FlushCache && !Reports(calls[k], h)
  }

  /**
    In every run a hash is on the list of requests at most once, and it is there exactly if some
    lookup recorded it and was neither reported nor flushed since.
   */
  lemma {:induction false} PendingIff(calls: seq<Call>, max: nat, h: nat)
    requires max > 0 && AllFit(calls)
    ensures Distinct(Model(calls, max).pending)
    ensures h in Model(calls, max).pending <==> exists i: nat :: i < |calls| && OpenSince(calls, max, h, i)
  {
    hide RecordsFor, Reports, After, Model, Fit, OpenSince;
    if calls == [] {
      EmptyModel(max);
    } else {
      var n := |calls| - 1;
      ModelStep(calls, n, max);
      assert calls[..n + 1] == calls;
      PendingIff(calls[..n], max, h);
      var v := Model(calls[..n], max);
      PendingAfter(v, calls[n], max, h);
      OpenAfter(calls, max, h);
    }
  }

  /** What one call does to the list of requests, as far as `h` is concerned. */
  lemma PendingAfter(v: Simple, call: Call, max: nat, h: nat)
    requires max > 0 && Fit(call) && Distinct(v.pending)
    ensures Distinct(After(v, call, max).pending)
    ensures h in After(v, call, max).pending <==>
            RecordsFor(v, call, h) || (h in v.pending && call != FlushCache && !Reports(call, h))
  {
    hide LookupKey, AddKey, KeyHash, RemoveOne, Checked, Sound, FindKey;
    if call.AddTo? || call.FailQuery? {
      RemoveOneMembers(v.pending, KeyHash(call.query));
    }
  }

  /** A request is open after the last call if that call recorded it, or left it open. */
  lemma OpenAfter(calls: seq<Call>, max: nat, h: nat)
    requires max > 0 && AllFit(calls) && calls != []
    ensures var n := |calls| - 1;
      (exists i: nat :: i < |calls| && OpenSince(calls, max, h, i)) <==>
        || RecordsFor(Model(calls[..n], max), calls[n], h)
        || (&& (exists i: nat :: i < n && OpenSince(calls[..n], max, h, i))
            && calls[n] != FlushCache && !Reports(calls[n], h))
  {
    hide Model, Reports, RecordsFor, Fit, OpenSince;
    var n := |calls| - 1;
    OpenNow(calls, max, h);
    forall i: nat | i < n
      ensures OpenSince(calls, max, h, i) <==>
              OpenSince(calls[..n], max, h, i) && calls[n] != FlushCache && !Reports(calls[n], h)
    {
      OpenBefore(calls, max, h, i);
    }
  }

  lemma OpenNow(calls: seq<Call>, max: nat, h: nat)
    requires max > 0 && AllFit(calls) && calls != []
    ensures var n := |calls| - 1; OpenSince(calls, max, h, n) <==> RecordsFor(Model(calls[..n], max), calls[n], h)
  {
  }

  lemma OpenBefore(calls: seq<Call>, max: nat, h: nat, i: nat)
    requires max > 0 && AllFit(calls) && i < |calls| - 1
    ensures var n := |calls| - 1;
      OpenSince(calls, max, h, i) <==>
        OpenSince(calls[..n], max, h, i) && calls[n] != FlushCache && !Reports(calls[n], h)
  {
    hide Model, Reports, RecordsFor, Fit;
    assert calls[..|calls| - 1][..i] == calls[..i];
    assert forall k :: i < k < |calls| - 1 ==> calls[..|calls| - 1][k] == calls[k];
  }

  /** In every run, a lookup is told to wait exactly if nothing is stored for it and a request with its hash is open. */
  lemma WaitsIff(calls: seq<Call>, max: nat, call: Call)
    requires max > 0 && AllFit(calls) && Fit(call) && call.LookUp? && Reaches(call)
    ensures Answer(Model(calls, max), call) == Looked(Wait) <==>
            && FindKey(Model(calls, max).items, ClassOf(call.query)) == |Model(calls, max).items|
            && exists i: nat :: i < |calls| && OpenSince(calls, max, KeyHash(call.query), i)
  {
    hide Model, OpenSince, LookupKey, Fit, ClassOf, KeyHash, Checked;
    PendingIff(calls, max, KeyHash(call.query));
  }

  // ---------------------------------------------------------------------------
  // What is stored is found
  // ---------------------------------------------------------------------------

  lemma SameClass(s: seq<byte>, t: seq<byte>)
    requires IsKey(s) && IsKey(t) && Same(s, t)
    ensures ClassOf(s) == ClassOf(t) && ClassOf(s).Whole?
  {
    hide KeyOf, Checked, Complete, EqQuery;
    EqQueryIff(s, t);
  }

  lemma JustStored(items: seq<Item<KeyClass>>, q: KeyClass, answer: seq<byte>, ttl: nat, now: int, later: int,
                   max: nat, t: int, room: nat)
    requires max > 0 && q.Whole? && FindKey(items, q) == |items| && ttl > 0
    ensures var next := AddKey(items, q, answer, ttl, now, later, max);
      LookupKey(next, q, t, room).1 ==
        if t >= ttl + later then NotFound
        else if |answer| > room then TooLong(|answer|) else Found(answer)
  {
    hide EvictKeys;
  }

  /** The call stores an answer that is kept for some time, in a cache that has none for its query. */
  ghost predicate StoresAnew(v: Simple, call: Call)
    requires Fit(call)
  {
    call.AddTo? && Checked(call.query) && Ttl(Limits(call.reply)) > 0 && Answer(v, call) == Coded(0)
  }

  lemma StoredAnswer(v: Simple, max: nat, store: Call, other: seq<byte>, room: nat, t: int)
    requires max > 0 && Fit(store) && StoresAnew(v, store) && Checked(other) && Sound(other)
    requires ClassOf(other) == ClassOf(store.query) && ClassOf(other).Whole?
    requires t < store.later + Ttl(Limits(store.reply))
    ensures Answer(After(v, store, max), LookUp(other, room, false, false, t)) ==
            Looked(if |store.answer| <= room then Hit(store.answer) else Unsupported(Some(|store.answer|)))
  {
    hide Checked, Sound, Ttl, Limits, LookupKey, AddKey, FindKey, ClassOf, KeyHash, RemoveOne;
    var ttl := Ttl(Limits(store.reply));
    JustStored(v.items, ClassOf(other), store.answer, ttl, store.now, store.later, max, t, room);
    FoundIsHeld(After(v, store, max).items, ClassOf(other), t, room);
  }

  lemma FoundIsHeld(items: seq<Item<KeyClass>>, cls: KeyClass, t: int, room: nat)
    requires LookupKey(items, cls, t, room).1 != NotFound
    ensures FindKey(items, cls) < |items|
  {
  }

  /**
    In every run, right after an answer was stored, a lookup for the same key gets exactly that
    answer until its time is over, or is told its size if the buffer is too small.
   */
  lemma StoredIsFound(calls: seq<Call>, max: nat, store: Call, other: seq<byte>, room: nat, t: int)
    requires max > 0 && AllFit(calls) && Fit(store) && StoresAnew(Model(calls, max), store)
    requires IsKey(store.query) && IsKey(other) && Same(store.query, other) && Sound(other)
    requires t < store.later + Ttl(Limits(store.reply))
    ensures AllFit(calls + [store])
    ensures Answer(Model(calls + [store], max), LookUp(other, room, false, false, t)) ==
            Looked(if |store.answer| <= room then Hit(store.answer) else Unsupported(Some(|store.answer|)))
  {
    hide Complete, Sound, Same, After, Answer, Ttl, Limits, ClassOf, QuestionsOk;
    assert (calls + [store])[..|calls|] == calls;
    SameClass(store.query, other);
    StoredAnswer(Model(calls, max), max, store, other, room, t);
  }

  /** A stored answer is not replaced by a second store. */
  lemma StoredIsKept(calls: seq<Call>, max: nat, store: Call)
    requires max > 0 && AllFit(calls) && Fit(store) && store.AddTo? && Checked(store.query)
    requires FindKey(Model(calls, max).items, ClassOf(store.query)) < |Model(calls, max).items|
    ensures AllFit(calls + [store]) && Model(calls + [store], max).items == Model(calls, max).items
    ensures Answer(Model(calls, max), store) == Coded(EEXIST)
  {
    hide Checked, Sound, Ttl, Limits, ClassOf, KeyHash, RemoveOne, EvictKeys;
    assert (calls + [store])[..|calls|] == calls;
  }
}
