/**
  The DNS-over-TLS transport as a system of steps (DnsTlsTransport.cpp). The transport lock
  covers a whole call, but responses take only the query map's own lock, so every access to
  the map inside a call is a step of its own and responses interleave with all of them.
 */
module Transport {
  import opened Bytes
  import opened QueryMapSpec

  /** A connection: whether its loop has called `onClosed`, and the IDs it was handed that are not answered yet. */
  datatype Conn = Conn(closed: bool, sent: map<nat, nat>)

  /** What the holder of the transport lock does next. */
  datatype Pc =
    | Free
    | Connecting                                  // doConnect: about to replace the socket
    | Listing                                     // doConnect: about to call getAll
    | Sending(todo: seq<Pending>)                 // sendQuery for each of these
    | Marking(q: Pending, todo: seq<Pending>)     // sendQuery: the socket took q, markTried is next
    | Clearing                                    // doConnect failed: about to call clear
    | Cleaned                                     // doReconnect: after cleanup, about to call empty

  /**
    `accepted` maps each promise ever made to its caller's query; `thrown` records a promise set
    twice, which would throw. The socket queues a query before it knows whether it can wake its
    loop; `sends` counts the times it reported success.
   */
  datatype State = State(
    maxTries: nat,
    queries: Queries,
    settled: map<nat, Result>,
    thrown: bool,
    accepted: map<nat, seq<byte>>,
    nextPromise: nat,
    sends: map<nat, nat>,
    socket: Option<Conn>,
    pc: Pc,
    closing: bool,
    reconnect: bool)

  function Init(maxTries: nat): (s: State)
  {
    State(maxTries, map[], map[], false, map[], 0, map[], None, Free, false, false)
  }

  datatype Event =
    | Ask(bytes: seq<byte>, id: nat)   // query(), with the ID getFreeId chose
    | Connect(ok: bool)
    | List(todo: seq<Pending>)
    | Send(ok: bool)
    | Mark
    | Clear
    | Emptied                          // the branch after empty()
    | Respond(response: seq<byte>)     // the socket's loop delivers a response
    | Closed                           // the socket's loop calls onClosed
    | Reconnect                        // the reconnect thread gets the lock
    | Destroy

  /** Set every promise of `m`. */
  function Settle(s: State, promises: set<nat>, r: Result): (t: State)
  {
    s.(settled := SettleAll(s.settled, promises, r), thrown := s.thrown || !(promises !! s.settled.Keys))
  }

  /** `todo` is everything in the map, each query once. */
  ghost predicate Lists(todo: seq<Pending>, m: Queries)
  {
    && (forall i :: 0 <= i < |todo| ==> todo[i].query.newId in m && m[todo[i].query.newId] == todo[i])
    && (forall id :: id in m ==> m[id] in todo)
    && Separate(todo)
  }

  ghost predicate Separate(todo: seq<Pending>)
  {
    forall i, j :: 0 <= i < j < |todo| ==> todo[i].query.newId != todo[j].query.newId
  }

  function AfterAsk(s: State, bytes: seq<byte>, id: nat): (t: State)
  {
    var q := Pending(Query(id, bytes), 0, s.nextPromise);
    s.(queries := s.queries[id := q],
       accepted := s.accepted[s.nextPromise := bytes],
       sends := s.sends[s.nextPromise := 0],
       nextPromise := s.nextPromise + 1,
       pc := if s.socket.None? then Connecting else Sending([q]))
  }

  function AfterSend(s: State, ok: bool): (t: State)
    requires s.pc.Sending? && s.pc.todo != [] && s.socket.Some?
  {
    var q, rest := s.pc.todo[0], s.pc.todo[1..];
    var conn := s.socket.value.(sent := s.socket.value.sent[q.query.newId := q.promise]);
    if ok then
      s.(socket := Some(conn),
         sends := s.sends[q.promise := (if q.promise in s.sends then s.sends[q.promise] else 0) + 1],
         pc := Marking(q, rest))
    else s.(socket := Some(conn), pc := Free)
  }

  /** `onResponse` of the query map. */
  function AfterResponse(s: State, response: seq<byte>): (t: State)
    requires s.socket.Some?
  {
    var id := ResponseId(response);
    if id.None? then s
    else
      var conn := s.socket.value.(sent := s.socket.value.sent - {id.value});
      if id.value in s.queries && |s.queries[id.value].query.bytes| >= 2 then
        var q := s.queries[id.value];
        Settle(s, {q.promise}, Success(Restored(response, q.query.bytes)))
          .(queries := s.queries - {id.value}, socket := Some(conn))
      else s.(socket := Some(conn))
  }

  function Cleared(s: State): (t: State)
  {
    Settle(s, Promises(s.queries), NetworkError).(queries := map[])
  }

  /** The steps of a call that already holds the lock. */
  predicate Inside(e: Event)
  {
    e.Connect? || e.List? || e.Send? || e.Mark? || e.Clear? || e.Emptied?
  }

  ghost function Within(s: State, e: Event): (t: Option<State>)
    requires Inside(e)
  {
    match e
    case Connect(ok) =>
      if !s.pc.Connecting? then None
      else if ok then Some(s.(socket := Some(Conn(false, map[])), pc := Listing))
      else Some(s.(socket := None, pc := Clearing))
    case List(todo) =>
      if s.pc.Listing? && Lists(todo, s.queries) then Some(s.(pc := Sending(todo))) else None
    case Send(ok) =>
      if !s.pc.Sending? then None
      else if s.pc.todo == [] then Some(s.(pc := Free))
      else if s.socket.Some? then Some(AfterSend(s, ok))
      else None
    case Mark =>
      if s.pc.Marking?
      then Some(s.(queries := MarkTried(s.queries, s.pc.q.query.newId), pc := Sending(s.pc.todo))) else None
    case Clear => if s.pc.Clearing? then Some(Cleared(s).(pc := Free)) else None
    case Emptied =>
      if !s.pc.Cleaned? then None
      else if s.queries != map[] then Some(s.(pc := Connecting))
      else Some(s.(socket := None, pc := Free))
  }

  /** The steps that take the lock, and those of the socket's loop. */
  ghost function Around(s: State, e: Event): (t: Option<State>)
    requires !Inside(e)
  {
    match e
    case Ask(bytes, id) =>
      if !s.pc.Free? || s.closing then None
      else if |bytes| < 2 || |s.queries| == ID_COUNT then Some(s)
      else if id < ID_COUNT && id !in s.queries then Some(AfterAsk(s, bytes, id))
      else None
    case Respond(response) =>
      if s.socket.Some? && !s.socket.value.closed then Some(AfterResponse(s, response)) else None
    case Closed =>
      if !s.pc.Free? || s.socket.None? || s.socket.value.closed then None
      else Some(s.(socket := Some(s.socket.value.(closed := true)), reconnect := s.reconnect || !s.closing))
    case Reconnect =>
      if !s.pc.Free? || !s.reconnect then None
      else if s.closing then Some(s.(reconnect := false))
      else Some(Settle(s, Expired(s.queries, s.maxTries), NetworkError)
                  .(queries := Keep(s.queries, s.maxTries), reconnect := false, pc := Cleaned))
    case Destroy =>
      if !s.pc.Free? || s.closing then None else Some(Cleared(s).(closing := true))
  }

  /** The step, when it can be taken. */
  ghost function Next(s: State, e: Event): (t: Option<State>)
  {
    if Inside(e) then Within(s, e) else Around(s, e)
  }

  ghost function Exec(maxTries: nat, events: seq<Event>): (s: Option<State>)
  {
    if events == [] then Some(Init(maxTries))
    else
      var s := Exec(maxTries, events[..|events| - 1]);
      if s.None? then None else Next(s.value, events[|events| - 1])
  }

  // ---------------------------------------------------------------------------
  // Promises
  // ---------------------------------------------------------------------------

  /** Each accepted query is in the map exactly as long as its promise is unset; none is set twice. */
  ghost predicate PromisesOk(s: State)
  {
    !s.thrown && Kept(s.queries, s.settled, s.accepted, s.nextPromise)
  }

  ghost predicate Kept(m: Queries, settled: map<nat, Result>, accepted: map<nat, seq<byte>>, nextPromise: nat)
  {
    && (forall id :: id in m ==> Recorded(m, settled, accepted, id))
    && (forall i, j :: i in m && j in m && i != j ==> m[i].promise != m[j].promise)
    && (forall p: nat :: p in accepted <==> p < nextPromise)
    && (forall p :: p in accepted ==> |accepted[p]| >= 2)
    && (forall p :: p in accepted <==> p in settled || p in Promises(m))
  }

  predicate Recorded(m: Queries, settled: map<nat, Result>, accepted: map<nat, seq<byte>>, id: nat)
    requires id in m
  {
    && id < ID_COUNT && m[id].query.newId == id
    && m[id].promise in accepted && m[id].promise !in settled
    && m[id].query.bytes == accepted[m[id].promise]
  }

  lemma PromisesWith(m: Queries, id: nat, q: Pending)
    requires id !in m
    ensures Promises(m[id := q]) == Promises(m) + {q.promise}
  {
    var t := m[id := q];
    forall p | p in Promises(m)
      ensures p in Promises(t)
    {
      var j :| j in m && m[j].promise == p;
      assert t[j].promise == p;
    }
    assert t[id].promise in Promises(t);
  }

  lemma KeptByAsk(s: State, bytes: seq<byte>, id: nat)
    requires PromisesOk(s) && |bytes| >= 2 && id < ID_COUNT && id !in s.queries
    ensures PromisesOk(AfterAsk(s, bytes, id))
  {
    hide Promises;
    var t := AfterAsk(s, bytes, id);
    PromisesWith(s.queries, id, t.queries[id]);
    forall j | j in t.queries
      ensures Recorded(t.queries, t.settled, t.accepted, j)
      ensures j != id ==> t.queries[j].promise != t.queries[id].promise
    {
      if j != id { assert Recorded(s.queries, s.settled, s.accepted, j); }
    }
  }

  lemma KeptByMark(m: Queries, settled: map<nat, Result>, accepted: map<nat, seq<byte>>, nextPromise: nat, id: nat)
    requires Kept(m, settled, accepted, nextPromise)
    ensures Kept(MarkTried(m, id), settled, accepted, nextPromise)
  {
    var t := MarkTried(m, id);
    assert t.Keys == m.Keys && forall j :: j in m ==> t[j].promise == m[j].promise && t[j].query == m[j].query;
    forall p
      ensures p in Promises(t) <==> p in Promises(m)
    {
      if p in Promises(m) { var j :| j in m && m[j].promise == p; assert t[j].promise == p; }
      if p in Promises(t) { var j :| j in t && t[j].promise == p; assert m[j].promise == p; }
    }
  }

  /** Settling exactly the promises of the queries that leave the map. */
  lemma KeptByDrop(s: State, kept: Queries, gone: set<nat>, r: Result)
    requires PromisesOk(s)
    requires forall id :: id in kept ==> id in s.queries && kept[id] == s.queries[id]
    requires forall p :: p in gone <==> p in Promises(s.queries) && p !in Promises(kept)
    ensures PromisesOk(Settle(s, gone, r).(queries := kept))
  {
  }

  lemma KeptByResponse(s: State, response: seq<byte>)
    requires PromisesOk(s) && s.socket.Some?
    ensures PromisesOk(AfterResponse(s, response))
  {
    var id := ResponseId(response);
    if id.Some? && id.value in s.queries {
      var m := s.queries;
      assert Recorded(m, s.settled, s.accepted, id.value);
      var kept, q := m - {id.value}, m[id.value];
      forall p
        ensures p in {q.promise} <==> p in Promises(m) && p !in Promises(kept)
      {
        if p in Promises(m) && p != q.promise {
          var j :| j in m && m[j].promise == p;
          assert j in kept;
        }
      }
      KeptByDrop(s, kept, {q.promise}, Success(Restored(response, q.query.bytes)));
    }
  }

  lemma KeptByCleanup(s: State, max: nat)
    requires PromisesOk(s)
    ensures PromisesOk(Settle(s, Expired(s.queries, max), NetworkError).(queries := Keep(s.queries, max)))
  {
    var m, kept := s.queries, Keep(s.queries, max);
    forall p
      ensures p in Expired(m, max) <==> p in Promises(m) && p !in Promises(kept)
    {
      if p in Promises(m) {
        var j :| j in m && m[j].promise == p;
        assert j !in kept <==> p in Expired(m, max);
      }
    }
    KeptByDrop(s, kept, Expired(m, max), NetworkError);
  }

  lemma KeptByClear(s: State)
    requires PromisesOk(s)
    ensures PromisesOk(Cleared(s))
  {
    KeptByDrop(s, map[], Promises(s.queries), NetworkError);
  }

  lemma WithinKeepsPromises(s: State, e: Event)
    requires PromisesOk(s) && Inside(e) && Within(s, e).Some?
    ensures PromisesOk(Within(s, e).value)
  {
    hide Kept, Cleared, MarkTried, Lists;
    match e {
      case Mark => KeptByMark(s.queries, s.settled, s.accepted, s.nextPromise, s.pc.q.query.newId);
      case Clear => KeptByClear(s);
      case _ =>
    }
  }

  lemma AroundKeepsPromises(s: State, e: Event)
    requires PromisesOk(s) && !Inside(e) && Around(s, e).Some?
    ensures PromisesOk(Around(s, e).value)
  {
    hide Kept, AfterResponse, AfterAsk, Cleared, Settle, Keep, Expired;
    match e {
      case Ask(bytes, id) =>
        if |bytes| >= 2 && |s.queries| != ID_COUNT { KeptByAsk(s, bytes, id); }
      case Respond(response) => KeptByResponse(s, response);
      case Reconnect => KeptByCleanup(s, s.maxTries);
      case Destroy => KeptByClear(s);
      case Closed =>
    }
  }

  // ---------------------------------------------------------------------------
  // The lock, the socket and the reconnect thread
  // ---------------------------------------------------------------------------

  predicate SocketClosed(s: State)
  {
    s.socket.Some? && s.socket.value.closed
  }

  /** A call that holds the lock has no reconnect thread behind it, or sends on the socket it found. */
  ghost predicate LockOk(s: State)
  {
    && (s.pc.Free? && s.socket.None? ==> s.queries == map[])
    && (s.pc.Connecting? || s.pc.Cleaned? ==> s.socket.None? || SocketClosed(s))
    && (s.pc.Sending? || s.pc.Marking? ==> s.socket.Some?)
    && (s.pc.Listing? ==> s.socket.Some? && !SocketClosed(s))
    && (s.pc.Clearing? ==> s.socket.None?)
    && (s.reconnect ==> SocketClosed(s) && (s.pc.Free? || s.pc.Sending? || s.pc.Marking?))
    && (SocketClosed(s) && (s.pc.Free? || s.pc.Sending? || s.pc.Marking?) ==> s.reconnect || s.closing)
    && (s.closing ==> s.pc.Free? && s.queries == map[])
  }

  lemma WithinKeepsLock(s: State, e: Event)
    requires LockOk(s) && Inside(e) && Within(s, e).Some?
    ensures LockOk(Within(s, e).value)
  {
    hide SettleAll, Promises, MarkTried, Lists;
    match e {
      case Send(_) =>
      case Emptied =>
      case Clear =>
      case _ =>
    }
  }

  lemma AroundKeepsLock(s: State, e: Event)
    requires LockOk(s) && !Inside(e) && Around(s, e).Some?
    ensures LockOk(Around(s, e).value)
  {
  }

  // ---------------------------------------------------------------------------
  // Tries
  // ---------------------------------------------------------------------------

  /** What the call in progress still has to send, and what it has sent without counting it yet. */
  function Todo(pc: Pc): (todo: seq<Pending>)
  {
    if pc.Sending? || pc.Marking? then pc.todo else []
  }

  function Sent(pc: Pc): (q: Option<Pending>)
  {
    if pc.Marking? then Some(pc.q) else None
  }

  /** `q` is in the map under its own ID, or not at all. */
  ghost predicate InPlace(m: Queries, q: Pending)
  {
    forall id :: id in m ==> (id == q.query.newId <==> m[id].promise == q.promise)
  }

  /** The try count of an outstanding query is the number of times it was sent, bar the one about to be counted. */
  predicate Counted(m: Queries, sends: map<nat, nat>, sent: Option<Pending>, id: nat)
    requires id in m
  {
    && m[id].promise in sends
    && sends[m[id].promise] == m[id].tries + if sent.Some? && sent.value.query.newId == id then 1 else 0
  }

  /** No query is listed twice, under either number, and each may be sent once more. */
  ghost predicate Due(m: Queries, sends: map<nat, nat>, max: nat, todo: seq<Pending>)
  {
    && (forall i :: 0 <= i < |todo| ==>
          InPlace(m, todo[i]) && todo[i].promise in sends && sends[todo[i].promise] < max)
    && (forall i, j :: 0 <= i < j < |todo| ==>
          todo[i].query.newId != todo[j].query.newId && todo[i].promise != todo[j].promise)
  }

  ghost predicate Tally(m: Queries, sends: map<nat, nat>, max: nat, sent: Option<Pending>, todo: seq<Pending>)
  {
    && (forall p :: p in sends ==> sends[p] <= max)
    && (forall id :: id in m ==> Counted(m, sends, sent, id))
    && Due(m, sends, max, todo)
    && (sent.Some? ==>
          InPlace(m, sent.value) && forall i :: 0 <= i < |todo| ==> todo[i].query.newId != sent.value.query.newId)
  }

  /** Every outstanding query may be sent at least once more. */
  ghost predicate Fresh(m: Queries, max: nat)
  {
    forall id :: id in m ==> m[id].tries < max
  }

  ghost predicate TriesOk(s: State)
  {
    && s.maxTries >= 1
    && s.sends.Keys == s.accepted.Keys
    && Tally(s.queries, s.sends, s.maxTries, Sent(s.pc), Todo(s.pc))
    && (s.pc.Connecting? || s.pc.Listing? || s.pc.Cleaned? || s.pc.Clearing? ==> Fresh(s.queries, s.maxTries))
  }

  lemma TallyAsk(m: Queries, sends: map<nat, nat>, max: nat, q: Pending)
    requires Tally(m, sends, max, None, []) && max >= 1
    requires q.query.newId !in m && q.promise !in sends && q.tries == 0
    ensures var m', sends' := m[q.query.newId := q], sends[q.promise := 0];
      Tally(m', sends', max, None, []) && Tally(m', sends', max, None, [q])
    ensures m == map[] ==> Fresh(m[q.query.newId := q], max)
  {
  }

  lemma TallySend(m: Queries, sends: map<nat, nat>, max: nat, todo: seq<Pending>)
    requires Tally(m, sends, max, None, todo) && todo != []
    ensures var q := todo[0];
      && q.promise in sends
      && Tally(m, sends[q.promise := sends[q.promise] + 1], max, Some(q), todo[1..])
      && Tally(m, sends, max, None, [])
  {
  }

  lemma TallyMark(m: Queries, sends: map<nat, nat>, max: nat, q: Pending, todo: seq<Pending>)
    requires Tally(m, sends, max, Some(q), todo)
    ensures Tally(MarkTried(m, q.query.newId), sends, max, None, todo)
  {
  }

  lemma TallyDrop(m: Queries, kept: Queries, sends: map<nat, nat>, max: nat, sent: Option<Pending>, todo: seq<Pending>)
    requires Tally(m, sends, max, sent, todo)
    requires forall id :: id in kept ==> id in m && kept[id] == m[id]
    ensures Tally(kept, sends, max, sent, todo)
    ensures Fresh(m, max) ==> Fresh(kept, max)
  {
  }

  lemma TallyList(m: Queries, sends: map<nat, nat>, max: nat, todo: seq<Pending>)
    requires Tally(m, sends, max, None, []) && Fresh(m, max) && Lists(todo, m)
    requires forall i, j :: i in m && j in m && i != j ==> m[i].promise != m[j].promise
    ensures Tally(m, sends, max, None, todo)
  {
  }

  lemma TallyEmpty(sends: map<nat, nat>, max: nat, m: Queries, sent: Option<Pending>, todo: seq<Pending>)
    requires Tally(m, sends, max, sent, todo)
    ensures Tally(map[], sends, max, None, [])
    ensures sent.None? ==> Tally(m, sends, max, None, [])
  {
  }

  lemma PromiseFacts(s: State)
    requires PromisesOk(s)
    ensures s.nextPromise !in s.accepted
    ensures forall i, j :: i in s.queries && j in s.queries && i != j ==> s.queries[i].promise != s.queries[j].promise
  {
  }

  lemma SendKeepsTries(s: State, ok: bool)
    requires PromisesOk(s) && TriesOk(s) && Within(s, Send(ok)).Some?
    ensures TriesOk(Within(s, Send(ok)).value)
  {
    hide Kept, Tally, Lists, Promises;
    PromiseFacts(s);
    if s.pc.todo != [] { TallySend(s.queries, s.sends, s.maxTries, s.pc.todo); }
  }

  lemma MarkKeepsTries(s: State)
    requires PromisesOk(s) && TriesOk(s) && Within(s, Mark).Some?
    ensures TriesOk(Within(s, Mark).value)
  {
    hide Kept, Tally, Promises, MarkTried;
    PromiseFacts(s);
    TallyMark(s.queries, s.sends, s.maxTries, s.pc.q, s.pc.todo);
  }

  lemma WithinKeepsTries(s: State, e: Event)
    requires PromisesOk(s) && TriesOk(s) && Inside(e) && Within(s, e).Some?
    ensures TriesOk(Within(s, e).value)
  {
    hide Kept, Tally, Lists, SettleAll, Promises, MarkTried, AfterSend;
    var m, sends, max := s.queries, s.sends, s.maxTries;
    match e {
      case Connect(_) => TallyEmpty(sends, max, m, None, []);
      case List(todo) => PromiseFacts(s); TallyList(m, sends, max, todo);
      case Send(ok) => SendKeepsTries(s, ok);
      case Mark => MarkKeepsTries(s);
      case Clear => TallyEmpty(sends, max, m, None, []);
      case Emptied =>
    }
  }

  lemma AroundKeepsTries(s: State, e: Event)
    requires PromisesOk(s) && LockOk(s) && TriesOk(s) && !Inside(e) && Around(s, e).Some?
    ensures TriesOk(Around(s, e).value)
  {
    hide Kept, Tally, SettleAll, Promises, Expired, Restored, ResponseId;
    PromiseFacts(s);
    var m, sends, max := s.queries, s.sends, s.maxTries;
    match e {
      case Ask(bytes, id) =>
        if |bytes| >= 2 && |m| != ID_COUNT {
          TallyAsk(m, sends, max, Pending(Query(id, bytes), 0, s.nextPromise));
        }
      case Respond(response) =>
        if ResponseId(response).Some? {
          TallyDrop(m, m - {ResponseId(response).value}, sends, max, Sent(s.pc), Todo(s.pc));
        }
      case Reconnect => TallyDrop(m, Keep(m, max), sends, max, None, []);
      case Destroy => TallyEmpty(sends, max, m, None, []);
      case Closed =>
    }
  }

  // ---------------------------------------------------------------------------
  // Pairing
  // ---------------------------------------------------------------------------

  /** What was sent and not answered is still waiting under the same ID; what is to be sent was not sent before. */
  ghost predicate Paired(m: Queries, sent: map<nat, nat>, todo: seq<Pending>)
  {
    && (forall id :: id in sent ==> id in m && m[id].promise == sent[id])
    && (forall i :: 0 <= i < |todo| ==> todo[i].query.newId in m && todo[i].query.newId !in sent)
  }

  /** The queries sent on the current connection are claimed to be in the map. */
  predicate PairClaimed(s: State)
  {
    !s.closing && s.socket.Some? && (s.pc.Free? || s.pc.Listing? || s.pc.Sending? || s.pc.Marking?)
  }

  ghost predicate PairOk(s: State)
  {
    PairClaimed(s) ==>
      && Paired(s.queries, s.socket.value.sent, Todo(s.pc))
      && (s.pc.Listing? ==> s.socket.value.sent == map[])
  }

  /** The server answers only IDs it was sent on this connection, each once. */
  predicate Honest(s: State, e: Event)
  {
    e.Respond? && s.socket.Some? && ResponseId(e.response).Some? ==>
      ResponseId(e.response).value in s.socket.value.sent
  }

  lemma PairedSend(m: Queries, sends: map<nat, nat>, max: nat, sent: map<nat, nat>, todo: seq<Pending>)
    requires Paired(m, sent, todo) && Due(m, sends, max, todo) && todo != []
    ensures var sent' := sent[todo[0].query.newId := todo[0].promise];
      Paired(m, sent', todo[1..]) && Paired(m, sent', [])
  {
  }

  lemma PairedMark(m: Queries, sent: map<nat, nat>, todo: seq<Pending>, id: nat)
    requires Paired(m, sent, todo)
    ensures Paired(MarkTried(m, id), sent, todo)
  {
  }

  lemma PairedResponse(m: Queries, sent: map<nat, nat>, todo: seq<Pending>, id: nat)
    requires Paired(m, sent, todo) && id in sent
    ensures Paired(m - {id}, sent - {id}, todo)
  {
  }

  lemma WithinKeepsPairs(s: State, e: Event)
    requires LockOk(s) && TriesOk(s) && PairOk(s) && Inside(e) && Within(s, e).Some?
    ensures PairOk(Within(s, e).value)
  {
    hide SettleAll, Promises, MarkTried, Fresh;
    match e {
      case Send(ok) =>
        if s.pc.todo != [] && !s.closing {
          PairedSend(s.queries, s.sends, s.maxTries, s.socket.value.sent, s.pc.todo);
        }
      case Mark =>
        if !s.closing {
          PairedMark(s.queries, s.socket.value.sent, s.pc.todo, s.pc.q.query.newId);
        }
      case _ =>
    }
  }

  lemma AroundKeepsPairs(s: State, e: Event)
    requires PromisesOk(s) && LockOk(s) && PairOk(s) && !Inside(e)
    requires Honest(s, e) && Around(s, e).Some?
    ensures PairOk(Around(s, e).value)
  {
    hide SettleAll, Promises, Expired, Keep, Restored, ResponseId, Kept;
    if e.Respond? && ResponseId(e.response).Some? && PairClaimed(s) {
      var id := ResponseId(e.response).value;
      LongEnough(s, id);
      PairedResponse(s.queries, s.socket.value.sent, Todo(s.pc), id);
    }
  }

  lemma LongEnough(s: State, id: nat)
    requires PromisesOk(s)
    ensures id in s.queries ==> |s.queries[id].query.bytes| >= 2
  {
  }

  // ---------------------------------------------------------------------------
  // Whole runs
  // ---------------------------------------------------------------------------

  ghost predicate Ok(s: State)
  {
    PromisesOk(s) && LockOk(s) && TriesOk(s)
  }

  lemma NextKeepsOk(s: State, e: Event)
    requires Ok(s) && Next(s, e).Some?
    ensures Ok(Next(s, e).value)
  {
    hide PromisesOk, LockOk, TriesOk, Within, Around;
    if Inside(e) {
      WithinKeepsPromises(s, e);
      WithinKeepsLock(s, e);
      WithinKeepsTries(s, e);
    } else {
      AroundKeepsPromises(s, e);
      AroundKeepsLock(s, e);
      AroundKeepsTries(s, e);
    }
  }

  lemma WithinMaxTries(s: State, e: Event)
    requires Inside(e) && Within(s, e).Some?
    ensures Within(s, e).value.maxTries == s.maxTries
  {
    hide Lists, MarkTried, SettleAll, Promises;
    match e {
      case Connect(_) =>
      case List(_) =>
      case Send(_) =>
      case Mark =>
      case Clear =>
      case Emptied =>
    }
  }

  lemma AroundMaxTries(s: State, e: Event)
    requires !Inside(e) && Around(s, e).Some?
    ensures Around(s, e).value.maxTries == s.maxTries
  {
  }

  lemma NextMaxTries(s: State, e: Event)
    requires Next(s, e).Some?
    ensures Next(s, e).value.maxTries == s.maxTries
  {
    hide Within, Around;
    if Inside(e) { WithinMaxTries(s, e); } else { AroundMaxTries(s, e); }
  }

  lemma InitOk(maxTries: nat)
    requires maxTries >= 1
    ensures Ok(Init(maxTries)) && PairOk(Init(maxTries))
  {
  }

  lemma {:induction false} ExecKeepsOk(maxTries: nat, events: seq<Event>)
    requires maxTries >= 1 && Exec(maxTries, events).Some?
    ensures Ok(Exec(maxTries, events).value)
    ensures Exec(maxTries, events).value.maxTries == maxTries
  {
    hide Ok, Next;
    if events == [] {
      InitOk(maxTries);
    } else {
      var n := |events| - 1;
      ExecKeepsOk(maxTries, events[..n]);
      NextKeepsOk(Exec(maxTries, events[..n]).value, events[n]);
      NextMaxTries(Exec(maxTries, events[..n]).value, events[n]);
    }
  }

  /**
    In every interleaving: no promise is ever set twice; a query has its promise unset exactly
    while it is in the map, where it keeps the caller's bytes; and once the transport has been
    destroyed every promise ever made is set.
   */
  lemma PromisesInEveryRun(maxTries: nat, events: seq<Event>)
    requires maxTries >= 1 && Exec(maxTries, events).Some?
    ensures var s := Exec(maxTries, events).value;
      && !s.thrown
      && (forall p :: p in s.accepted ==>
            (p !in s.settled <==> exists id :: id in s.queries && s.queries[id].promise == p))
      && (forall id :: id in s.queries ==>
            s.queries[id].promise in s.accepted && s.queries[id].query.bytes == s.accepted[s.queries[id].promise])
      && (s.closing ==> s.settled.Keys == s.accepted.Keys)
  {
    ExecKeepsOk(maxTries, events);
    var s := Exec(maxTries, events).value;
    hide Tally, Fresh;
    forall id | id in s.queries
      ensures Recorded(s.queries, s.settled, s.accepted, id) && s.queries[id].promise in Promises(s.queries)
    {
    }
    assert s.closing ==> Promises(s.queries) == {};
  }

  /**
    In every interleaving: with the lock free, no socket means nothing is pending, and anything
    pending has a live socket or a reconnect on its way. A socket is only ever replaced after its
    loop has called `onClosed`, and `onClosed` never finds an earlier reconnect thread unfinished.
   */
  lemma LockInEveryRun(maxTries: nat, events: seq<Event>)
    requires maxTries >= 1 && Exec(maxTries, events).Some?
    ensures var s := Exec(maxTries, events).value;
      && (s.pc.Free? && s.socket.None? ==> s.queries == map[])
      && (s.pc.Free? && s.queries != map[] ==> s.socket.Some? && (!s.socket.value.closed || s.reconnect))
      && (Next(s, Connect(true)).Some? ==> s.socket.None? || s.socket.value.closed)
      && (Next(s, Closed).Some? ==> !s.reconnect)
  {
    ExecKeepsOk(maxTries, events);
    hide PromisesOk, TriesOk;
  }

  // ---------------------------------------------------------------------------
  // How often a query is handed over
  // ---------------------------------------------------------------------------

  /** The step hands the query of promise `p` to the socket. */
  predicate HandsOver(s: State, e: Event, p: nat)
  {
    e.Send? && s.pc.Sending? && s.pc.todo != [] && s.socket.Some? && s.pc.todo[0].promise == p
  }

  /** How often the query of `p` was handed to a socket. */
  ghost function Handed(maxTries: nat, events: seq<Event>, p: nat): (n: nat)
  {
    if events == [] then 0
    else
      var before, e := events[..|events| - 1], events[|events| - 1];
      var s := Exec(maxTries, before);
      Handed(maxTries, before, p) + if s.Some? && HandsOver(s.value, e, p) then 1 else 0
  }

  /** How often the socket then reported a failure. */
  ghost function Failed(maxTries: nat, events: seq<Event>, p: nat): (n: nat)
  {
    if events == [] then 0
    else
      var before, e := events[..|events| - 1], events[|events| - 1];
      var s := Exec(maxTries, before);
      Failed(maxTries, before, p) + if s.Some? && HandsOver(s.value, e, p) && !e.ok then 1 else 0
  }

  function SendsOf(s: State, p: nat): (n: nat)
  {
    if p in s.sends then s.sends[p] else 0
  }

  /** A step counts a send exactly if it hands the query over successfully. */
  lemma WithinSends(s: State, e: Event, p: nat)
    requires Inside(e) && Within(s, e).Some?
    ensures SendsOf(Within(s, e).value, p) == SendsOf(s, p) + if HandsOver(s, e, p) && e.ok then 1 else 0
  {
    hide Cleared, MarkTried, Lists, AfterSend;
    match e {
      case Connect(_) =>
      case List(_) =>
      case Send(ok) => if s.pc.todo != [] { SendSends(s, ok, p); }
      case Mark =>
      case Clear => ClearedSends(s);
      case Emptied =>
    }
  }

  lemma SendSends(s: State, ok: bool, p: nat)
    requires s.pc.Sending? && s.pc.todo != [] && s.socket.Some?
    ensures SendsOf(AfterSend(s, ok), p) == SendsOf(s, p) + if s.pc.todo[0].promise == p && ok then 1 else 0
  {
  }

  lemma ClearedSends(s: State)
    ensures Cleared(s).sends == s.sends
  {
  }

  lemma AroundSends(s: State, e: Event, p: nat)
    requires PromisesOk(s) && TriesOk(s) && !Inside(e) && Around(s, e).Some?
    ensures SendsOf(Around(s, e).value, p) == SendsOf(s, p)
  {
    hide Kept, Tally, SettleAll, Promises, Expired, Keep, Restored, ResponseId;
    PromiseFacts(s);
  }

  /** Every hand-over is a counted send or a failed one. */
  lemma {:induction false} HandedIsSentOrFailed(maxTries: nat, events: seq<Event>, p: nat)
    requires maxTries >= 1 && Exec(maxTries, events).Some?
    ensures Handed(maxTries, events, p) == SendsOf(Exec(maxTries, events).value, p) + Failed(maxTries, events, p)
  {
    hide Within, Around, SendsOf, Ok;
    if events == [] {
      NothingSent(maxTries, p);
    } else {
      var before, e := events[..|events| - 1], events[|events| - 1];
      HandedIsSentOrFailed(maxTries, before, p);
      ExecKeepsOk(maxTries, before);
      var s := Exec(maxTries, before).value;
      OkParts(s);
      if Inside(e) { WithinSends(s, e, p); } else { AroundSends(s, e, p); }
    }
  }

  lemma NothingSent(maxTries: nat, p: nat)
    ensures SendsOf(Init(maxTries), p) == 0
  {
  }

  /**
    In every interleaving: every hand-over of a query is one that the socket accepted or one that
    it reported as failed, and at most `maxTries` are accepted. So a query is handed over more
    often than that only after failed sends of that very query.
   */
  lemma TriesInEveryRun(maxTries: nat, events: seq<Event>, p: nat)
    requires maxTries >= 1 && Exec(maxTries, events).Some? && p in Exec(maxTries, events).value.accepted
    ensures var s := Exec(maxTries, events).value;
      && p in s.sends && s.sends[p] <= maxTries
      && Handed(maxTries, events, p) == s.sends[p] + Failed(maxTries, events, p)
      && Handed(maxTries, events, p) <= maxTries + Failed(maxTries, events, p)
  {
    hide Handed, Failed, PromisesOk, LockOk;
    ExecKeepsOk(maxTries, events);
    HandedIsSentOrFailed(maxTries, events, p);
  }

  // The bound is reached: a query that is sent `maxTries` times can fail to be sent any number of
  // times before.

  /** The only query, tried `t` times so far. */
  function Only(bytes: seq<byte>, t: nat): (q: Pending)
  {
    Pending(Query(0, bytes), t, 0)
  }

  /** A transport whose only query has been tried `t` times, with the given socket and position. */
  function OnlyOne(maxTries: nat, bytes: seq<byte>, t: nat, socket: Option<Conn>, pc: Pc, reconnect: bool): (s: State)
  {
    State(maxTries, map[0 := Only(bytes, t)], map[], false, map[0 := bytes], 1, map[0 := t], socket, pc, false,
          reconnect)
  }

  /** A new connection is about to take the query. */
  function Ready(maxTries: nat, bytes: seq<byte>, t: nat): (s: State)
  {
    OnlyOne(maxTries, bytes, t, Some(Conn(false, map[])), Sending([Only(bytes, t)]), false)
  }

  /** The connection has the query. */
  function Waiting(maxTries: nat, bytes: seq<byte>, t: nat): (s: State)
  {
    OnlyOne(maxTries, bytes, t, Some(Conn(false, map[0 := 0])), Free, false)
  }

  /** The run ends in `s`, and has handed over the query of promise 0 `h` times, `f` times in vain. */
  ghost predicate Reached(maxTries: nat, events: seq<Event>, s: State, h: nat, f: nat)
  {
    Exec(maxTries, events) == Some(s) && Handed(maxTries, events, 0) == h && Failed(maxTries, events, 0) == f
  }

  lemma ReachNext(maxTries: nat, events: seq<Event>, s: State, h: nat, f: nat, e: Event, t: State)
    requires Reached(maxTries, events, s, h, f) && Next(s, e) == Some(t)
    ensures var over := HandsOver(s, e, 0);
      Reached(maxTries, events + [e], t, h + (if over then 1 else 0), f + if over && !e.ok then 1 else 0)
  {
    hide Next;
    assert (events + [e])[..|events|] == events;
  }

  function Opening(bytes: seq<byte>): (r: seq<Event>)
  {
    [Ask(bytes, 0), Connect(true), List([Only(bytes, 0)])]
  }

  /** The connection closes and is replaced. */
  function Again(bytes: seq<byte>, t: nat): (r: seq<Event>)
  {
    [Closed, Reconnect, Emptied, Connect(true), List([Only(bytes, t)])]
  }

  lemma ListsOnly(bytes: seq<byte>, t: nat)
    ensures Lists([Only(bytes, t)], map[0 := Only(bytes, t)])
  {
  }

  lemma NoneExpire(bytes: seq<byte>, t: nat, max: nat, settled: map<nat, Result>)
    requires t < max
    ensures Keep(map[0 := Only(bytes, t)], max) == map[0 := Only(bytes, t)]
    ensures Expired(map[0 := Only(bytes, t)], max) == {}
    ensures SettleAll(settled, {}, NetworkError) == settled
  {
  }

  lemma Opened(maxTries: nat, bytes: seq<byte>)
    requires |bytes| >= 2
    ensures Reached(maxTries, Opening(bytes), Ready(maxTries, bytes, 0), 0, 0)
  {
    assert Reached(maxTries, [], Init(maxTries), 0, 0);
    hide Lists, Reached;
    var s0 := Init(maxTries);
    var s1 := OnlyOne(maxTries, bytes, 0, None, Connecting, false);
    var s2 := OnlyOne(maxTries, bytes, 0, Some(Conn(false, map[])), Listing, false);
    ListsOnly(bytes, 0);
    ReachNext(maxTries, [], s0, 0, 0, Ask(bytes, 0), s1);
    ReachNext(maxTries, [] + [Ask(bytes, 0)], s1, 0, 0, Connect(true), s2);
    var events := [] + [Ask(bytes, 0)] + [Connect(true)];
    ReachNext(maxTries, events, s2, 0, 0, List([Only(bytes, 0)]), Ready(maxTries, bytes, 0));
    assert [] + [Ask(bytes, 0)] + [Connect(true)] + [List([Only(bytes, 0)])] == Opening(bytes);
  }

  lemma Reopened(maxTries: nat, bytes: seq<byte>, t: nat, events: seq<Event>, h: nat, f: nat)
    requires t < maxTries && Reached(maxTries, events, Waiting(maxTries, bytes, t), h, f)
    ensures Reached(maxTries, events + Again(bytes, t), Ready(maxTries, bytes, t), h, f)
  {
    hide Lists, Reached;
    var closed := Some(Conn(true, map[0 := 0]));
    var s0 := Waiting(maxTries, bytes, t);
    var s1 := OnlyOne(maxTries, bytes, t, closed, Free, true);
    var s2 := OnlyOne(maxTries, bytes, t, closed, Cleaned, false);
    var s3 := OnlyOne(maxTries, bytes, t, closed, Connecting, false);
    var s4 := OnlyOne(maxTries, bytes, t, Some(Conn(false, map[])), Listing, false);
    NoneExpire(bytes, t, maxTries, map[]);
    ListsOnly(bytes, t);
    ReachNext(maxTries, events, s0, h, f, Closed, s1);
    var e1 := events + [Closed];
    ReachNext(maxTries, e1, s1, h, f, Reconnect, s2);
    var e2 := e1 + [Reconnect];
    assert 0 in s2.queries;
    ReachNext(maxTries, e2, s2, h, f, Emptied, s3);
    var e3 := e2 + [Emptied];
    ReachNext(maxTries, e3, s3, h, f, Connect(true), s4);
    var e4 := e3 + [Connect(true)];
    ReachNext(maxTries, e4, s4, h, f, List([Only(bytes, t)]), Ready(maxTries, bytes, t));
    assert e4 + [List([Only(bytes, t)])] == events + Again(bytes, t);
  }

  lemma FailOnce(maxTries: nat, bytes: seq<byte>, t: nat, events: seq<Event>, h: nat, f: nat)
    requires Reached(maxTries, events, Ready(maxTries, bytes, t), h, f)
    ensures Reached(maxTries, events + [Send(false)], Waiting(maxTries, bytes, t), h + 1, f + 1)
  {
    hide Reached;
    ReachNext(maxTries, events, Ready(maxTries, bytes, t), h, f, Send(false), Waiting(maxTries, bytes, t));
  }

  lemma TryOnce(maxTries: nat, bytes: seq<byte>, t: nat, events: seq<Event>, h: nat, f: nat)
    requires Reached(maxTries, events, Ready(maxTries, bytes, t), h, f)
    ensures Reached(maxTries, events + [Send(true)] + [Mark] + [Send(true)], Waiting(maxTries, bytes, t + 1), h + 1, f)
  {
    hide Reached;
    var conn := Some(Conn(false, map[0 := 0]));
    var s0 := Ready(maxTries, bytes, t);
    var s1 := OnlyOne(maxTries, bytes, t, conn, Marking(Only(bytes, t), []), false).(sends := map[0 := t + 1]);
    var s2 := OnlyOne(maxTries, bytes, t + 1, conn, Sending([]), false);
    assert MarkTried(s1.queries, 0) == s2.queries;
    assert s0.sends[0 := t + 1] == s1.sends && s0.pc.todo[1..] == [];
    ReachNext(maxTries, events, s0, h, f, Send(true), s1);
    ReachNext(maxTries, events + [Send(true)], s1, h + 1, f, Mark, s2);
    ReachNext(maxTries, events + [Send(true)] + [Mark], s2, h + 1, f, Send(true), Waiting(maxTries, bytes, t + 1));
  }

  lemma {:induction false} FailTimes(maxTries: nat, bytes: seq<byte>, f: nat) returns (events: seq<Event>)
    requires maxTries >= 1 && |bytes| >= 2
    ensures Reached(maxTries, events, Ready(maxTries, bytes, 0), f, f)
  {
    hide Reached;
    if f == 0 {
      events := Opening(bytes);
      Opened(maxTries, bytes);
    } else {
      var before := FailTimes(maxTries, bytes, f - 1);
      FailOnce(maxTries, bytes, 0, before, f - 1, f - 1);
      Reopened(maxTries, bytes, 0, before + [Send(false)], f, f);
      events := before + [Send(false)] + Again(bytes, 0);
    }
  }

  lemma {:induction false} TryTimes(maxTries: nat, bytes: seq<byte>, t: nat, events: seq<Event>, h: nat, f: nat)
    returns (more: seq<Event>)
    requires t < maxTries && Reached(maxTries, events, Ready(maxTries, bytes, t), h, f)
    ensures Reached(maxTries, more, Waiting(maxTries, bytes, maxTries), h + maxTries - t, f)
    decreases maxTries - t
  {
    hide Reached;
    TryOnce(maxTries, bytes, t, events, h, f);
    more := events + [Send(true)] + [Mark] + [Send(true)];
    if t + 1 < maxTries {
      Reopened(maxTries, bytes, t + 1, more, h + 1, f);
      more := TryTimes(maxTries, bytes, t + 1, more + Again(bytes, t + 1), h + 1, f);
    }
  }

  /** Whatever the limit and the number of failures, some run hands the query over as often as both together. */
  lemma HandOversReachBound(maxTries: nat, failures: nat) returns (events: seq<Event>)
    requires maxTries >= 1
    ensures Exec(maxTries, events).Some? && 0 in Exec(maxTries, events).value.accepted
    ensures Failed(maxTries, events, 0) == failures && Handed(maxTries, events, 0) == maxTries + failures
  {
    hide Exec, Handed, Failed;
    var bytes: seq<byte> := [0, 0];
    events := FailTimes(maxTries, bytes, failures);
    events := TryTimes(maxTries, bytes, 0, events, failures, failures);
  }

  /** A run in which sends of the query of `p` fail `k` times. */
  ghost predicate RunWithFailures(maxTries: nat, events: seq<Event>, p: nat, k: nat)
  {
    Exec(maxTries, events).Some? && p in Exec(maxTries, events).value.accepted && Failed(maxTries, events, p) == k
  }

  /** Runs in which sends of a query fail `k` times keep it within the limit exactly if `k` is 0. */
  lemma LimitHoldsIff(maxTries: nat, k: nat)
    requires maxTries >= 1
    ensures k == 0 <==>
            forall events, p :: RunWithFailures(maxTries, events, p, k) ==> Handed(maxTries, events, p) <= maxTries
  {
    hide Exec, Handed, Failed;
    if k == 0 {
      forall events, p | RunWithFailures(maxTries, events, p, k) ensures Handed(maxTries, events, p) <= maxTries {
        TriesInEveryRun(maxTries, events, p);
      }
    } else {
      var events := HandOversReachBound(maxTries, k);
      assert RunWithFailures(maxTries, events, 0, k);
    }
  }

  /** With a limit of one try: two connections are handed the query, and no try has been counted. */
  lemma FailedSendsAreNotCounted(bytes: seq<byte>)
    requires |bytes| >= 2
    ensures var events := Opening(bytes) + [Send(false)] + Again(bytes, 0) + [Send(false)];
      Reached(1, events, Waiting(1, bytes, 0), 2, 2)
  {
    hide Reached;
    Opened(1, bytes);
    FailOnce(1, bytes, 0, Opening(bytes), 0, 0);
    Reopened(1, bytes, 0, Opening(bytes) + [Send(false)], 1, 1);
    FailOnce(1, bytes, 0, Opening(bytes) + [Send(false)] + Again(bytes, 0), 1, 1);
  }

  /** In every interleaving: `markTried` counts the query that was sent, or none. */
  lemma MarkChargesTheSender(maxTries: nat, events: seq<Event>)
    requires maxTries >= 1 && Exec(maxTries, events).Some? && Exec(maxTries, events).value.pc.Marking?
    ensures var s := Exec(maxTries, events).value; var q := s.pc.q; var id := q.query.newId;
      && (id in s.queries ==> s.queries[id].promise == q.promise)
      && forall j :: j in s.queries && j != id ==> MarkTried(s.queries, id)[j] == s.queries[j]
  {
    ExecKeepsOk(maxTries, events);
    hide PromisesOk, LockOk;
  }

  // ---------------------------------------------------------------------------
  // What is asked is sent
  // ---------------------------------------------------------------------------

  /** Every query of the map is with the socket, or the call in progress has yet to send it. */
  ghost predicate Covered(m: Queries, sent: map<nat, nat>, todo: seq<Pending>)
  {
    forall id :: id in m ==>
      || (id in sent && sent[id] == m[id].promise)
      || exists i :: 0 <= i < |todo| && todo[i].query.newId == id && todo[i].promise == m[id].promise
  }

  ghost predicate CoverOk(s: State)
  {
    !s.closing && s.socket.Some? && (s.pc.Free? || s.pc.Sending? || s.pc.Marking?) ==>
      Covered(s.queries, s.socket.value.sent, Todo(s.pc))
  }

  /** A hand-over that the socket reports as failed. */
  predicate FailsToSend(s: State, e: Event)
  {
    e == Send(false) && s.pc.Sending? && s.pc.todo != []
  }

  /** A send has failed since the last connection was made. */
  ghost predicate Faltered(maxTries: nat, events: seq<Event>)
  {
    events != [] &&
    var before, e := events[..|events| - 1], events[|events| - 1];
    var s := Exec(maxTries, before);
    e != Connect(true) && (Faltered(maxTries, before) || (s.Some? && FailsToSend(s.value, e)))
  }

  lemma CoveredSend(m: Queries, sent: map<nat, nat>, todo: seq<Pending>)
    requires Covered(m, sent, todo) && todo != [] && InPlace(m, todo[0])
    ensures Covered(m, sent[todo[0].query.newId := todo[0].promise], todo[1..])
  {
    var rest := todo[1..];
    forall id | id in m && id != todo[0].query.newId && !(id in sent && sent[id] == m[id].promise)
      ensures exists i :: 0 <= i < |rest| && rest[i].query.newId == id && rest[i].promise == m[id].promise
    {
      var i :| 0 <= i < |todo| && todo[i].query.newId == id && todo[i].promise == m[id].promise;
      assert rest[i - 1] == todo[i];
    }
  }

  lemma CoveredMark(m: Queries, sent: map<nat, nat>, todo: seq<Pending>, id: nat)
    requires Covered(m, sent, todo)
    ensures Covered(MarkTried(m, id), sent, todo)
  {
  }

  lemma CoveredLess(m: Queries, sent: map<nat, nat>, todo: seq<Pending>, id: nat)
    requires Covered(m, sent, todo)
    ensures Covered(m - {id}, sent - {id}, todo)
    ensures id !in m ==> Covered(m, sent - {id}, todo)
  {
  }

  lemma CoveredAsk(m: Queries, sent: map<nat, nat>, q: Pending)
    requires Covered(m, sent, [])
    ensures Covered(m[q.query.newId := q], sent, [q])
  {
    assert [q][0] == q;
  }

  lemma CoveredList(m: Queries, sent: map<nat, nat>, todo: seq<Pending>)
    requires Lists(todo, m) && forall id :: id in m ==> m[id].query.newId == id
    ensures Covered(m, sent, todo)
  {
    forall id | id in m
      ensures exists i :: 0 <= i < |todo| && todo[i].query.newId == id && todo[i].promise == m[id].promise
    {
      assert m[id] in todo;
    }
  }

  lemma WithinKeepsCover(s: State, e: Event)
    requires Ok(s) && CoverOk(s) && Inside(e) && Within(s, e).Some? && !FailsToSend(s, e)
    ensures CoverOk(Within(s, e).value)
  {
    hide Covered, SettleAll, Promises, MarkTried, Lists, Fresh;
    match e {
      case Send(_) =>
        if s.pc.todo != [] && !s.closing { CoveredSend(s.queries, s.socket.value.sent, s.pc.todo); }
      case Mark =>
        if !s.closing { CoveredMark(s.queries, s.socket.value.sent, s.pc.todo, s.pc.q.query.newId); }
      case List(todo) =>
        OwnIds(s);
        CoveredList(s.queries, s.socket.value.sent, todo);
      case _ =>
    }
  }

  lemma OwnIds(s: State)
    requires PromisesOk(s)
    ensures forall id :: id in s.queries ==> s.queries[id].query.newId == id && |s.queries[id].query.bytes| >= 2
  {
    forall id | id in s.queries
      ensures s.queries[id].query.newId == id && |s.queries[id].query.bytes| >= 2
    {
      assert Recorded(s.queries, s.settled, s.accepted, id);
    }
  }

  lemma AroundKeepsCover(s: State, e: Event)
    requires PromisesOk(s) && LockOk(s) && CoverOk(s) && !Inside(e) && Around(s, e).Some?
    ensures CoverOk(Around(s, e).value)
  {
    hide Covered, SettleAll, Promises, Expired, Keep, Restored, ResponseId, PromisesOk;
    OwnIds(s);
    if e.Respond? && ResponseId(e.response).Some? {
      CoveredLessOf(s, ResponseId(e.response).value);
    } else if e.Ask? && !s.closing && s.socket.Some? {
      CoveredAsk(s.queries, s.socket.value.sent, Pending(Query(e.id, e.bytes), 0, s.nextPromise));
    }
  }

  lemma CoveredLessOf(s: State, id: nat)
    requires CoverOk(s) && s.socket.Some?
    ensures var sent := s.socket.value.sent;
      !s.closing && (s.pc.Free? || s.pc.Sending? || s.pc.Marking?) ==>
        && Covered(s.queries - {id}, sent - {id}, Todo(s.pc))
        && (id !in s.queries ==> Covered(s.queries, sent - {id}, Todo(s.pc)))
  {
    if !s.closing && (s.pc.Free? || s.pc.Sending? || s.pc.Marking?) {
      CoveredLess(s.queries, s.socket.value.sent, Todo(s.pc), id);
    }
  }

  /** A connection that is made starts with nothing to cover, whatever went wrong before. */
  lemma ConnectCovers(s: State)
    requires Next(s, Connect(true)).Some?
    ensures CoverOk(Next(s, Connect(true)).value)
  {
  }

  lemma {:induction false} ExecKeepsCover(maxTries: nat, events: seq<Event>)
    requires maxTries >= 1 && Exec(maxTries, events).Some? && !Faltered(maxTries, events)
    ensures CoverOk(Exec(maxTries, events).value)
  {
    hide Ok, CoverOk, Within, Around, FailsToSend;
    if events == [] {
      NothingToCover(maxTries);
    } else {
      var before, e := events[..|events| - 1], events[|events| - 1];
      var s := Exec(maxTries, before).value;
      if e == Connect(true) {
        ConnectCovers(s);
      } else {
        ExecKeepsCover(maxTries, before);
        ExecKeepsOk(maxTries, before);
        OkParts(s);
        if Inside(e) { WithinKeepsCover(s, e); } else { AroundKeepsCover(s, e); }
      }
    }
  }

  lemma NothingToCover(maxTries: nat)
    ensures CoverOk(Init(maxTries))
  {
  }

  /**
    In every interleaving: with the lock free and a socket on which no send has failed, every query
    of the map has been handed to that socket under its own ID.
   */
  lemma AskedIsSent(maxTries: nat, events: seq<Event>)
    requires maxTries >= 1 && Exec(maxTries, events).Some? && !Faltered(maxTries, events)
    requires var s := Exec(maxTries, events).value; s.pc.Free? && !s.closing && s.socket.Some?
    ensures var s := Exec(maxTries, events).value;
      forall id :: id in s.queries ==>
        id in s.socket.value.sent && s.socket.value.sent[id] == s.queries[id].promise
  {
    hide Exec, Faltered;
    ExecKeepsCover(maxTries, events);
  }

  // ---------------------------------------------------------------------------
  // What callers are told
  // ---------------------------------------------------------------------------

  /** A response of the run gives the query `bytes` this result. */
  ghost predicate AnsweredBy(events: seq<Event>, bytes: seq<byte>, r: Result)
    requires |bytes| >= 2
  {
    exists k :: 0 <= k < |events| && events[k].Respond? && |events[k].response| >= 2
                && r == Success(bytes[..2] + events[k].response[2..])
  }

  /** Results are left alone; what is added is a network error, or the answer of the response delivered. */
  ghost predicate Tells(was: map<nat, Result>, accepted: map<nat, seq<byte>>, e: Event, now: map<nat, Result>)
  {
    forall p :: p in now ==>
      || (p in was && now[p] == was[p])
      || now[p] == NetworkError
      || (e.Respond? && |e.response| >= 2 && p in accepted && |accepted[p]| >= 2
          && now[p] == Success(accepted[p][..2] + e.response[2..]))
  }

  lemma ErrorsTell(was: map<nat, Result>, accepted: map<nat, seq<byte>>, e: Event, promises: set<nat>)
    ensures Tells(was, accepted, e, was)
    ensures Tells(was, accepted, e, SettleAll(was, promises, NetworkError))
  {
  }

  lemma ResponseTells(s: State, response: seq<byte>)
    requires PromisesOk(s) && s.socket.Some?
    ensures Tells(s.settled, s.accepted, Respond(response), AfterResponse(s, response).settled)
  {
    hide Promises;
    var id := ResponseId(response);
    if id.Some? && id.value in s.queries {
      assert Recorded(s.queries, s.settled, s.accepted, id.value);
    }
  }

  lemma WithinTells(s: State, e: Event)
    requires Inside(e) && Within(s, e).Some?
    ensures Tells(s.settled, s.accepted, e, Within(s, e).value.settled)
    ensures Within(s, e).value.accepted == s.accepted
  {
    hide Tells, Cleared, AfterSend, MarkTried, Lists;
    ClearedTells(s, e);
    match e {
      case Connect(_) =>
      case List(_) =>
      case Send(ok) => if s.pc.todo != [] { SendTellsNothing(s, ok); }
      case Mark =>
      case Clear =>
      case Emptied =>
    }
  }

  lemma ClearedTells(s: State, e: Event)
    ensures Cleared(s).accepted == s.accepted
    ensures Tells(s.settled, s.accepted, e, Cleared(s).settled) && Tells(s.settled, s.accepted, e, s.settled)
  {
    hide Tells, SettleAll, Promises;
    ErrorsTell(s.settled, s.accepted, e, Promises(s.queries));
  }

  lemma SendTellsNothing(s: State, ok: bool)
    requires s.pc.Sending? && s.pc.todo != [] && s.socket.Some?
    ensures AfterSend(s, ok).settled == s.settled && AfterSend(s, ok).accepted == s.accepted
  {
  }

  lemma AroundTells(s: State, e: Event)
    requires PromisesOk(s) && !Inside(e) && Around(s, e).Some?
    ensures Tells(s.settled, s.accepted, e, Around(s, e).value.settled)
    ensures forall p :: p in s.accepted ==>
              p in Around(s, e).value.accepted && Around(s, e).value.accepted[p] == s.accepted[p]
  {
    hide Tells, SettleAll, Promises, Expired, Keep, Kept, ResponseId, Restored;
    PromiseFacts(s);
    ErrorsTell(s.settled, s.accepted, e, Promises(s.queries));
    ErrorsTell(s.settled, s.accepted, e, Expired(s.queries, s.maxTries));
    match e {
      case Respond(response) => ResponseTells(s, response);
      case Ask(_, _) =>
      case Reconnect =>
      case _ =>
    }
  }

  lemma AnsweredLater(events: seq<Event>, n: nat, bytes: seq<byte>, r: Result)
    requires n <= |events| && |bytes| >= 2 && AnsweredBy(events[..n], bytes, r)
    ensures AnsweredBy(events, bytes, r)
  {
    var k :| 0 <= k < n && events[..n][k].Respond? && |events[..n][k].response| >= 2
      && r == Success(bytes[..2] + events[..n][k].response[2..]);
    assert events[k] == events[..n][k];
  }

  /**
    In every interleaving: a caller is told a network error, or gets its own ID and the octets of
    some response that the socket delivered.
   */
  lemma {:induction false} ResultsInEveryRun(maxTries: nat, events: seq<Event>, p: nat)
    requires maxTries >= 1 && Exec(maxTries, events).Some? && p in Exec(maxTries, events).value.settled
    ensures var s := Exec(maxTries, events).value;
      && p in s.accepted && |s.accepted[p]| >= 2
      && (s.settled[p] == NetworkError || AnsweredBy(events, s.accepted[p], s.settled[p]))
  {
    hide Within, Around, Ok, AnsweredBy;
    var before, e := events[..|events| - 1], events[|events| - 1];
    var s, t := Exec(maxTries, before).value, Exec(maxTries, events).value;
    ExecKeepsOk(maxTries, events);
    SettledIsAccepted(t, p);
    ExecKeepsOk(maxTries, before);
    OkParts(s);
    if Inside(e) { WithinTells(s, e); } else { AroundTells(s, e); }
    if p in s.settled && t.settled[p] == s.settled[p] {
      ResultsInEveryRun(maxTries, before, p);
      if s.settled[p] != NetworkError { AnsweredLater(events, |events| - 1, s.accepted[p], s.settled[p]); }
    } else if t.settled[p] != NetworkError {
      AnsweredNow(events, s.accepted[p], t.settled[p]);
    }
  }

  lemma AnsweredNow(events: seq<Event>, bytes: seq<byte>, r: Result)
    requires events != [] && |bytes| >= 2
    requires var e := events[|events| - 1];
      e.Respond? && |e.response| >= 2 && r == Success(bytes[..2] + e.response[2..])
    ensures AnsweredBy(events, bytes, r)
  {
  }

  lemma SettledIsAccepted(s: State, p: nat)
    requires Ok(s) && p in s.settled
    ensures p in s.accepted && |s.accepted[p]| >= 2
  {
    hide LockOk, TriesOk;
  }

  /** Every response of the run answers an ID outstanding on its connection. */
  ghost predicate HonestRun(maxTries: nat, events: seq<Event>)
  {
    forall k :: 0 <= k < |events| && Exec(maxTries, events[..k]).Some? ==>
      Honest(Exec(maxTries, events[..k]).value, events[k])
  }

  lemma {:induction false} ExecKeepsPairs(maxTries: nat, events: seq<Event>)
    requires maxTries >= 1 && Exec(maxTries, events).Some? && HonestRun(maxTries, events)
    ensures PairOk(Exec(maxTries, events).value)
  {
    hide Ok, PairOk, Honest, Within, Around;
    if events == [] {
      InitOk(maxTries);
    } else {
      var n := |events| - 1;
      var before := events[..n];
      assert forall k :: 0 <= k < n ==> before[..k] == events[..k];
      ExecKeepsPairs(maxTries, before);
      ExecKeepsOk(maxTries, before);
      OkParts(Exec(maxTries, before).value);
      if Inside(events[n]) {
        WithinKeepsPairs(Exec(maxTries, before).value, events[n]);
      } else {
        AroundKeepsPairs(Exec(maxTries, before).value, events[n]);
      }
    }
  }

  lemma OkParts(s: State)
    requires Ok(s)
    ensures PromisesOk(s) && LockOk(s) && TriesOk(s)
  {
  }

  lemma ResponseReaches(s: State, response: seq<byte>)
    requires PromisesOk(s) && LockOk(s) && PairOk(s)
    requires !s.closing && |response| >= 2 && s.socket.Some? && !s.socket.value.closed
    requires Be16At(response, 0) in s.socket.value.sent
    ensures var p := s.socket.value.sent[Be16At(response, 0)];
      && p in s.accepted && p !in s.settled && |s.accepted[p]| >= 2
      && Next(s, Respond(response)).Some?
      && Next(s, Respond(response)).value.settled
           == s.settled[p := Success(s.accepted[p][..2] + response[2..])]
  {
    hide Within, Promises;
    var id := Be16At(response, 0);
    assert Recorded(s.queries, s.settled, s.accepted, id);
  }

  /**
    With a server that answers each ID it received at most once per connection, across any number
    of reconnects, every response settles exactly the promise of the query it answers, with the
    caller's two ID bytes put back and every other byte unchanged.
   */
  lemma ResponsesReachTheirCallers(maxTries: nat, events: seq<Event>, response: seq<byte>)
    requires maxTries >= 1 && Exec(maxTries, events).Some? && HonestRun(maxTries, events)
    requires var s := Exec(maxTries, events).value;
      && !s.closing && |response| >= 2 && s.socket.Some? && !s.socket.value.closed
      && Be16At(response, 0) in s.socket.value.sent
    ensures var s := Exec(maxTries, events).value;
      var p := s.socket.value.sent[Be16At(response, 0)];
      && p in s.accepted && p !in s.settled && |s.accepted[p]| >= 2
      && Next(s, Respond(response)).Some?
      && Next(s, Respond(response)).value.settled
           == s.settled[p := Success(s.accepted[p][..2] + response[2..])]
  {
    hide Exec, HonestRun, PromisesOk, LockOk, TriesOk, PairOk, Next;
    ExecKeepsOk(maxTries, events);
    ExecKeepsPairs(maxTries, events);
    ResponseReaches(Exec(maxTries, events).value, response);
  }

  // ---------------------------------------------------------------------------
  // Reconnect rounds make progress
  // ---------------------------------------------------------------------------

  function TriesLeft(q: Pending, max: nat): (n: nat)
  {
    if q.tries < max then max - q.tries else 0
  }

  /** The tries left to all outstanding queries together. */
  ghost function Total(m: Queries, max: nat): (n: nat)
    decreases |m|
  {
    if m == map[] then 0
    else
      var id :| id in m;
      assert |m - {id}| < |m| by { assert m - {id} == map j | j in m && j != id :: m[j]; SmallerMap(m, id); }
      TriesLeft(m[id], max) + Total(m - {id}, max)
  }

  lemma SmallerMap(m: Queries, id: nat)
    requires id in m
    ensures |m - {id}| == |m| - 1
  {
  }

  lemma {:induction false} TotalWithout(m: Queries, max: nat, id: nat)
    requires id in m
    ensures Total(m, max) == TriesLeft(m[id], max) + Total(m - {id}, max)
    decreases |m|
  {
    var k :| k in m && Total(m, max) == TriesLeft(m[k], max) + Total(m - {k}, max);
    if k != id {
      SmallerMap(m, k);
      TotalWithout(m - {k}, max, id);
      SmallerMap(m, id);
      TotalWithout(m - {id}, max, k);
      assert m - {k} - {id} == m - {id} - {k};
    }
  }

  lemma {:induction false} TotalOfPart(part: Queries, m: Queries, max: nat)
    requires forall id :: id in part ==> id in m && part[id] == m[id]
    ensures Total(part, max) <= Total(m, max)
    decreases |m|
  {
    if m == map[] {
      assert part == map[];
    } else {
      var id :| id in m;
      SmallerMap(m, id);
      TotalWithout(m, max, id);
      if id in part { TotalWithout(part, max, id); }
      else { assert part - {id} == part; }
      TotalOfPart(part - {id}, m - {id}, max);
    }
  }

  lemma TotalByMark(m: Queries, max: nat, id: nat)
    requires id in m && m[id].tries < max
    ensures Total(MarkTried(m, id), max) < Total(m, max)
  {
    var t := MarkTried(m, id);
    TotalWithout(m, max, id);
    TotalWithout(t, max, id);
    assert t - {id} == m - {id};
  }

  /** The query under `id`, if it is outstanding, is still to be counted in this round. */
  predicate Owes(pc: Pc, id: nat)
  {
    match pc
    case Free => false
    case Sending(todo) => exists i :: 0 <= i < |todo| && todo[i].query.newId == id
    case Marking(q, todo) => q.query.newId == id || exists i :: 0 <= i < |todo| && todo[i].query.newId == id
    case _ => true
  }

  /** The total has dropped below `v`, or will. */
  ghost predicate Dropping(pc: Pc, m: Queries, max: nat, v: nat)
  {
    Total(m, max) < v || (Total(m, max) == v && exists id :: id in m && Owes(pc, id))
  }

  /** In a round, a query that is owed has tries left. */
  lemma OwedHasTries(s: State, id: nat)
    requires Ok(s) && id in s.queries && Owes(s.pc, id)
    ensures s.queries[id].tries < s.maxTries
  {
  }

  lemma DroppingLess(pc: Pc, m: Queries, max: nat, v: nat, id: nat)
    requires Dropping(pc, m, max, v) && id in m && (Owes(pc, id) ==> m[id].tries < max)
    ensures Dropping(pc, m - {id}, max, v)
  {
    TotalWithout(m, max, id);
    if Total(m, max) == v && !Owes(pc, id) {
      var j :| j in m && Owes(pc, j);
      assert j in m - {id};
    }
  }

  lemma DroppingResponse(s: State, response: seq<byte>, v: nat)
    requires Ok(s) && Dropping(s.pc, s.queries, s.maxTries, v) && s.socket.Some?
    ensures var t := AfterResponse(s, response); Dropping(t.pc, t.queries, t.maxTries, v)
  {
    hide Ok, SettleAll, Restored, Dropping, Owes;
    var id := ResponseId(response);
    if id.Some? && id.value in s.queries {
      if Owes(s.pc, id.value) { OwedHasTries(s, id.value); }
      DroppingLess(s.pc, s.queries, s.maxTries, v, id.value);
    }
  }

  lemma DroppingMark(m: Queries, max: nat, v: nat, q: Pending, todo: seq<Pending>)
    requires Dropping(Marking(q, todo), m, max, v)
    requires q.query.newId in m ==> m[q.query.newId].tries < max
    ensures Dropping(Sending(todo), MarkTried(m, q.query.newId), max, v)
  {
    if q.query.newId in m { TotalByMark(m, max, q.query.newId); }
  }

  lemma DroppingClear(s: State, v: nat)
    requires Ok(s) && s.pc.Clearing? && Dropping(s.pc, s.queries, s.maxTries, v)
    ensures Dropping(Free, map[], s.maxTries, v)
  {
  }

  lemma DroppingSend(m: Queries, max: nat, v: nat, todo: seq<Pending>)
    requires Dropping(Sending(todo), m, max, v)
    ensures todo == [] ==> Dropping(Free, m, max, v)
    ensures todo != [] ==> Dropping(Marking(todo[0], todo[1..]), m, max, v)
  {
  }

  lemma DroppingList(m: Queries, max: nat, v: nat, todo: seq<Pending>)
    requires Dropping(Listing, m, max, v) && Lists(todo, m)
    ensures Dropping(Sending(todo), m, max, v)
  {
  }

  lemma DroppingWithin(s: State, e: Event, v: nat)
    requires Ok(s) && Dropping(s.pc, s.queries, s.maxTries, v)
    requires Inside(e) && e != Send(false) && Within(s, e).Some?
    ensures var t := Within(s, e).value; Dropping(t.pc, t.queries, t.maxTries, v)
  {
    hide Ok, SettleAll, Promises, Dropping, MarkTried, Lists;
    match e {
      case Mark =>
        if s.pc.q.query.newId in s.queries { OwedHasTries(s, s.pc.q.query.newId); }
        DroppingMark(s.queries, s.maxTries, v, s.pc.q, s.pc.todo);
      case Clear => DroppingClear(s, v);
      case List(todo) => DroppingList(s.queries, s.maxTries, v, todo);
      case Send(_) => DroppingSend(s.queries, s.maxTries, v, s.pc.todo);
      case Connect(ok) => DroppingOn(s.pc, if ok then Listing else Clearing, s.queries, s.maxTries, v);
      case Emptied => DroppingOn(s.pc, if s.queries != map[] then Connecting else Free, s.queries, s.maxTries, v);
    }
  }

  /** Between the stages that concern the whole map nothing is forgotten. */
  lemma DroppingOn(pc: Pc, next: Pc, m: Queries, max: nat, v: nat)
    requires Dropping(pc, m, max, v) && (m != map[] ==> forall id :: Owes(next, id))
    ensures Dropping(next, m, max, v)
  {
  }

  /** The lock is held from `s` to `t`, no send fails, and responses may come in between. */
  ghost predicate Round(s: State, events: seq<Event>, t: State)
    decreases |events|
  {
    if events == [] then s == t && s.pc.Free?
    else
      && !s.pc.Free? && events[0] != Send(false) && Next(s, events[0]).Some?
      && Round(Next(s, events[0]).value, events[1..], t)
  }

  lemma {:induction false} RoundDrops(s: State, events: seq<Event>, t: State, v: nat)
    requires Ok(s) && Dropping(s.pc, s.queries, s.maxTries, v) && Round(s, events, t)
    ensures Total(t.queries, t.maxTries) < v
    decreases |events|
  {
    hide Ok, Within, Dropping;
    if events == [] {
      DroppingFree(s.queries, s.maxTries, v);
    } else {
      NextKeepsOk(s, events[0]);
      if Inside(events[0]) {
        DroppingWithin(s, events[0], v);
      } else {
        DroppingResponse(s, events[0].response, v);
      }
      RoundDrops(Next(s, events[0]).value, events[1..], t, v);
    }
  }

  lemma DroppingFree(m: Queries, max: nat, v: nat)
    requires Dropping(Free, m, max, v)
    ensures Total(m, max) < v
  {
  }

  /**
    A reconnect that has queries to retry and whose sends all succeed leaves strictly fewer tries
    than it found, whatever responses arrive meanwhile; so retrying ends.
   */
  lemma RoundsMakeProgress(maxTries: nat, history: seq<Event>, round: seq<Event>, t: State)
    requires maxTries >= 1 && Exec(maxTries, history).Some?
    requires var s := Exec(maxTries, history).value;
      && !s.closing && Next(s, Reconnect).Some?
      && Keep(s.queries, maxTries) != map[]
      && Round(Next(s, Reconnect).value, round, t)
    ensures Total(t.queries, maxTries) < Total(Exec(maxTries, history).value.queries, maxTries)
    ensures t.maxTries == maxTries
  {
    hide Ok, Next, Keep, Dropping;
    ExecKeepsOk(maxTries, history);
    var s := Exec(maxTries, history).value;
    var r := Next(s, Reconnect).value;
    NextKeepsOk(s, Reconnect);
    ReconnectOwes(s);
    NextMaxTries(s, Reconnect);
    RoundKeepsMaxTries(r, round, t);
    RoundDrops(r, round, t, Total(s.queries, maxTries));
  }

  lemma ReconnectOwes(s: State)
    requires !s.closing && Next(s, Reconnect).Some? && Keep(s.queries, s.maxTries) != map[]
    ensures var t := Next(s, Reconnect).value; Dropping(t.pc, t.queries, t.maxTries, Total(s.queries, s.maxTries))
  {
    hide SettleAll, Expired;
    TotalOfPart(Keep(s.queries, s.maxTries), s.queries, s.maxTries);
    var id :| id in Keep(s.queries, s.maxTries);
    assert Owes(Cleaned, id);
  }

  lemma {:induction false} RoundKeepsMaxTries(s: State, events: seq<Event>, t: State)
    requires Round(s, events, t)
    ensures t.maxTries == s.maxTries
    decreases |events|
  {
    hide Next;
    if events != [] {
      NextMaxTries(s, events[0]);
      RoundKeepsMaxTries(Next(s, events[0]).value, events[1..], t);
    }
  }
}
