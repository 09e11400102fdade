/**
  Readers and publishers of the Nullroute index (nullroute/NrFilter.cpp). A reader takes a
  reference on the published mapping and then confirms that it is still published; a publisher,
  under the slow-path try-lock, unmaps retired mappings without references, opens the new index
  in a free slot, publishes it and retires the old one. Every event is one atomic access.
 */
module NrFilter {
  import opened Bytes

  type Tid = nat

  /** A control block of the static pool. `gen` identifies the index mapped in it. */
  datatype Slot = Slot(mapped: bool, retired: bool, gen: nat, refs: nat)

  datatype Pc =
    | Outside
    | Loading(tries: nat)
    | HasCandidate(k: nat, tries: nat)
    | Held(k: nat, tries: nat)
    | Losing(k: nat, tries: nat)
    | Evaluating(k: nat, gen: nat)
    | Reclaiming(i: nat)
    | Unmapping(i: nat)
    | Opening
    | Publishing(k: nat)
    | Retiring(previous: Option<nat>)
    | Unlocking

  datatype State = State(slots: seq<Slot>, cur: Option<nat>, lock: Option<Tid>, threads: map<Tid, Pc>)

  datatype Event =
    | EnterFast(t: Tid)
    | EnterSlow(t: Tid)
    | Load(t: Tid)
    | Acquire(t: Tid)
    | Confirm(t: Tid)
    | Release(t: Tid)
    | Scan(t: Tid)
    | Unmap(t: Tid)
    | Open(t: Tid, k: nat, gen: nat)
    | OpenFails(t: Tid)
    | Publish(t: Tid)
    | Retire(t: Tid)
    | Unlock(t: Tid)

  const MAX_TRIES: nat := 4

  /** The step of thread `e.t` from `pc`, or `None` if the thread is not there. */
  function Next(s: State, e: Event): (r: Option<State>)
  {
    if e.t !in s.threads then None
    else
      var pc := s.threads[e.t];
      if Reads(e) then ReaderStep(s, e, pc) else PublisherStep(s, e, pc)
  }

  predicate Reads(e: Event)
  {
    e.EnterFast? || e.Load? || e.Acquire? || e.Confirm? || e.Release?
  }

  function ReaderStep(s: State, e: Event, pc: Pc): (r: Option<State>)
    requires Reads(e)
  {
    match e
    case EnterFast(t) => if pc.Outside? then Some(Goto(s, t, Loading(0))) else None
    case Load(t) =>
      if !pc.Loading? then None
      else if s.cur.None? || pc.tries >= MAX_TRIES then Some(Goto(s, t, Outside))
      else Some(Goto(s, t, HasCandidate(s.cur.value, pc.tries)))
    case Acquire(t) =>
      if pc.HasCandidate? && pc.k < |s.slots| then
        Some(Goto(s.(slots := s.slots[pc.k := s.slots[pc.k].(refs := s.slots[pc.k].refs + 1)]),
                  t, Held(pc.k, pc.tries)))
      else None
    case Confirm(t) =>
      if pc.Held? && pc.k < |s.slots| then
        Some(Goto(s, t, if s.cur == Some(pc.k) then Evaluating(pc.k, s.slots[pc.k].gen) else Losing(pc.k, pc.tries)))
      else None
    case Release(t) =>
      if (pc.Losing? || pc.Evaluating?) && pc.k < |s.slots| && s.slots[pc.k].refs > 0 then
        Some(Goto(s.(slots := s.slots[pc.k := s.slots[pc.k].(refs := s.slots[pc.k].refs - 1)]),
                  t, if pc.Losing? then Loading(pc.tries + 1) else Outside))
      else None
  }

  function PublisherStep(s: State, e: Event, pc: Pc): (r: Option<State>)
    requires !Reads(e)
  {
    match e
    case EnterSlow(t) =>
      if pc.Outside? && s.lock.None? then Some(Goto(s.(lock := Some(t)), t, Reclaiming(0))) else None
    case Scan(t) =>
      if !pc.Reclaiming? then None
      else if pc.i >= |s.slots| then Some(Goto(s, t, Opening))
      else if s.slots[pc.i].retired && s.slots[pc.i].refs == 0 then Some(Goto(s, t, Unmapping(pc.i)))
      else Some(Goto(s, t, Reclaiming(pc.i + 1)))
    case Unmap(t) =>
      if pc.Unmapping? && pc.i < |s.slots| then
        Some(Goto(s.(slots := s.slots[pc.i := s.slots[pc.i].(mapped := false, retired := false)]),
                  t, Reclaiming(pc.i + 1)))
      else None
    case Open(t, k, gen) =>
      if pc.Opening? && k < |s.slots| && !s.slots[k].mapped then
        Some(Goto(s.(slots := s.slots[k := s.slots[k].(mapped := true, gen := gen)]), t, Publishing(k)))
      else None
    case OpenFails(t) => if pc.Opening? then Some(Goto(s, t, Unlocking)) else None
    case Publish(t) =>
      if pc.Publishing? then Some(Goto(s.(cur := Some(pc.k)), t, Retiring(s.cur))) else None
    case Retire(t) =>
      if pc.Retiring? && pc.previous.None? then Some(Goto(s, t, Unlocking))
      else if pc.Retiring? && pc.previous.value < |s.slots| then
        Some(Goto(s.(slots := s.slots[pc.previous.value := s.slots[pc.previous.value].(retired := true)]),
                  t, Unlocking))
      else None
    case Unlock(t) => if pc.Unlocking? then Some(Goto(s.(lock := None), t, Loading(0))) else None
  }

  function Goto(s: State, t: Tid, pc: Pc): (r: State)
  {
    s.(threads := s.threads[t := pc])
  }

  predicate IsInitial(s: State)
  {
    && (forall k :: 0 <= k < |s.slots| ==> s.slots[k] == Slot(false, false, 0, 0))
    && s.cur == None && s.lock == None
    && (forall t :: t in s.threads ==> s.threads[t] == Outside)
  }

  function Exec(start: State, events: seq<Event>): (s: Option<State>)
  {
    if events == [] then Some(start)
    else
      var s := Exec(start, events[..|events| - 1]);
      if s.None? then None else Next(s.value, events[|events| - 1])
  }

  // ---------------------------------------------------------------------------
  // What every interleaving keeps
  // ---------------------------------------------------------------------------

  predicate Publisher(pc: Pc)
  {
    pc.Reclaiming? || pc.Unmapping? || pc.Opening? || pc.Publishing? || pc.Retiring? || pc.Unlocking?
  }

  predicate Holds(pc: Pc, k: nat)
  {
    (pc.Held? || pc.Losing? || pc.Evaluating?) && pc.k == k
  }

  function Holders(threads: map<Tid, Pc>, k: nat): (r: set<Tid>)
  {
    set t | t in threads && Holds(threads[t], k)
  }

  /** The reference count of a slot is the number of readers between acquire and release. */
  ghost predicate RefsOk(slots: seq<Slot>, threads: map<Tid, Pc>)
  {
    forall k :: 0 <= k < |slots| ==> slots[k].refs == |Holders(threads, k)|
  }

  ghost predicate LockOk(lock: Option<Tid>, threads: map<Tid, Pc>)
  {
    forall t :: t in threads ==> (Publisher(threads[t]) <==> lock == Some(t))
  }

  predicate Serving(slots: seq<Slot>, k: nat)
  {
    k < |slots| && slots[k].mapped && !slots[k].retired
  }

  /** What a thread may rely on at its program counter. */
  predicate PcOk(slots: seq<Slot>, cur: Option<nat>, pc: Pc)
  {
    match pc
    case HasCandidate(k, tries) => k < |slots| && tries < MAX_TRIES
    case Held(k, tries) => k < |slots| && tries < MAX_TRIES
    case Losing(k, tries) => k < |slots| && tries < MAX_TRIES
    case Evaluating(k, gen) => k < |slots| && slots[k].mapped && slots[k].gen == gen
    case Unmapping(i) => i < |slots| && slots[i].mapped && slots[i].retired && cur != Some(i)
    case Publishing(k) => Serving(slots, k) && cur != Some(k)
    case Retiring(Some(k)) => Serving(slots, k) && cur != Some(k)
    case Loading(tries) => tries <= MAX_TRIES
    case _ => true
  }

  ghost predicate PcsOk(slots: seq<Slot>, cur: Option<nat>, threads: map<Tid, Pc>)
  {
    forall t :: t in threads ==> PcOk(slots, cur, threads[t])
  }

  /** No reader is evaluating a mapping that is about to be unmapped. */
  ghost predicate Unread(threads: map<Tid, Pc>)
  {
    forall t, u :: t in threads && u in threads && threads[t].Evaluating? && threads[u].Unmapping? ==>
      threads[t].k != threads[u].i
  }

  /** A retired mapping is still mapped and no longer published; the published one is in service. */
  ghost predicate SlotsOk(slots: seq<Slot>, cur: Option<nat>)
  {
    && (cur.Some? ==> Serving(slots, cur.value))
    && (forall k :: 0 <= k < |slots| && slots[k].retired ==> slots[k].mapped)
  }

  /** Nothing leaks: a mapping is published, retired, or in the hands of the publisher. */
  ghost predicate Accounted(slots: seq<Slot>, cur: Option<nat>, threads: map<Tid, Pc>)
  {
    forall k :: 0 <= k < |slots| && slots[k].mapped && !slots[k].retired && cur != Some(k) ==> InHand(threads, k)
  }

  ghost predicate InHand(threads: map<Tid, Pc>, k: nat)
  {
    exists t :: t in threads && (threads[t] == Publishing(k) || threads[t] == Retiring(Some(k)))
  }

  ghost predicate Inv(s: State)
  {
    && RefsOk(s.slots, s.threads) && LockOk(s.lock, s.threads) && PcsOk(s.slots, s.cur, s.threads)
    && Unread(s.threads) && SlotsOk(s.slots, s.cur) && Accounted(s.slots, s.cur, s.threads)
  }

  /** Moving one thread changes the holders of a slot only if that thread starts or stops holding it. */
  lemma HoldersAfter(threads: map<Tid, Pc>, t: Tid, pc: Pc, k: nat)
    requires t in threads
    ensures |Holders(threads[t := pc], k)| ==
            |Holders(threads, k)| - (if Holds(threads[t], k) then 1 else 0) + (if Holds(pc, k) then 1 else 0)
  {
    var a, b := Holders(threads, k), Holders(threads[t := pc], k);
    var others := a - {t};
    assert a == if Holds(threads[t], k) then others + {t} else others;
    assert b == if Holds(pc, k) then others + {t} else others;
  }

  lemma RefsAfter(slots: seq<Slot>, next: seq<Slot>, threads: map<Tid, Pc>, t: Tid, pc: Pc)
    requires RefsOk(slots, threads) && t in threads && |next| == |slots|
    requires forall k :: 0 <= k < |slots| ==>
               next[k].refs == slots[k].refs - (if Holds(threads[t], k) then 1 else 0) + (if Holds(pc, k) then 1 else 0)
    ensures RefsOk(next, threads[t := pc])
  {
    forall k | 0 <= k < |slots| ensures next[k].refs == |Holders(threads[t := pc], k)| {
      HoldersAfter(threads, t, pc, k);
    }
  }

  /** A publisher only moves itself: the witnesses of every other accounted mapping stay. */
  lemma AccountedAfter(slots: seq<Slot>, cur: Option<nat>, threads: map<Tid, Pc>, t: Tid, pc: Pc)
    requires Accounted(slots, cur, threads) && t in threads
    requires !threads[t].Publishing? && (threads[t].Retiring? ==> threads[t].previous.None?)
    ensures Accounted(slots, cur, threads[t := pc])
  {
    forall k | 0 <= k < |slots| && slots[k].mapped && !slots[k].retired && cur != Some(k)
      ensures InHand(threads[t := pc], k)
    {
      var u :| u in threads && (threads[u] == Publishing(k) || threads[u] == Retiring(Some(k)));
      assert u in threads[t := pc] && threads[t := pc][u] == threads[u];
    }
  }

  /** Whatever is in hand is in the hands of the one publisher. */
  lemma OnlyPublisher(lock: Option<Tid>, threads: map<Tid, Pc>, t: Tid, k: nat)
    requires LockOk(lock, threads) && t in threads && Publisher(threads[t]) && InHand(threads, k)
    ensures threads[t] == Publishing(k) || threads[t] == Retiring(Some(k))
  {
  }

  /** References have no effect on who may rely on what. */
  lemma RefsAreNoObstacle(slots: seq<Slot>, next: seq<Slot>, cur: Option<nat>, threads: map<Tid, Pc>)
    requires |next| == |slots|
    requires forall k :: 0 <= k < |slots| ==> next[k] == slots[k].(refs := next[k].refs)
    requires PcsOk(slots, cur, threads) && SlotsOk(slots, cur) && Accounted(slots, cur, threads)
    ensures PcsOk(next, cur, threads) && SlotsOk(next, cur) && Accounted(next, cur, threads)
  {
  }

  /** A move of one thread that asks no more than its new program counter allows. */
  lemma ReaderMoves(slots: seq<Slot>, cur: Option<nat>, lock: Option<Tid>, threads: map<Tid, Pc>, t: Tid, pc: Pc)
    requires PcsOk(slots, cur, threads) && LockOk(lock, threads) && Unread(threads) && t in threads
    requires !Publisher(threads[t]) && !Publisher(pc) && PcOk(slots, cur, pc)
    requires pc.Evaluating? ==> cur == Some(pc.k)
    ensures PcsOk(slots, cur, threads[t := pc]) && LockOk(lock, threads[t := pc]) && Unread(threads[t := pc])
  {
  }

  lemma ReaderKeepsInv(s: State, e: Event)
    requires Inv(s) && Reads(e) && Next(s, e).Some?
    ensures Inv(Next(s, e).value)
  {
    hide RefsOk, Accounted, PcsOk, LockOk, Unread;
    var pc, r := s.threads[e.t], Next(s, e).value;
    var to := r.threads[e.t];
    assert PcOk(s.slots, s.cur, pc) && PcOk(s.slots, s.cur, to) by { ReaderPcOk(s, e); }
    RefsAfter(s.slots, r.slots, s.threads, e.t, to);
    RefsAreNoObstacle(s.slots, r.slots, s.cur, s.threads);
    AccountedAfter(r.slots, s.cur, s.threads, e.t, to);
    ReaderMoves(r.slots, s.cur, s.lock, s.threads, e.t, to);
  }

  lemma ReaderPcOk(s: State, e: Event)
    requires PcsOk(s.slots, s.cur, s.threads) && SlotsOk(s.slots, s.cur) && Reads(e) && Next(s, e).Some?
    ensures PcOk(s.slots, s.cur, s.threads[e.t]) && PcOk(s.slots, s.cur, Next(s, e).value.threads[e.t])
  {
  }

  /** The publisher finds a retired slot without references: nobody is evaluating it. */
  lemma ScanFindsUnread(s: State, e: Event)
    requires Inv(s) && e.Scan? && Next(s, e).Some?
    ensures Unread(Next(s, e).value.threads)
  {
    var pc, r := s.threads[e.t], Next(s, e).value;
    if r.threads[e.t].Unmapping? {
      assert |Holders(s.threads, pc.i)| == 0;
      forall u | u in s.threads && s.threads[u].Evaluating? ensures s.threads[u].k != pc.i {
        assert u !in Holders(s.threads, pc.i);
      }
    }
  }

  lemma QuietPublisherKeepsInv(s: State, e: Event)
    requires Inv(s) && Next(s, e).Some? && (e.EnterSlow? || e.Scan? || e.OpenFails? || e.Unlock?)
    ensures Inv(Next(s, e).value)
  {
    hide RefsOk, Accounted, Holders;
    var pc, r := s.threads[e.t], Next(s, e).value;
    RefsAfter(s.slots, r.slots, s.threads, e.t, r.threads[e.t]);
    AccountedAfter(r.slots, r.cur, s.threads, e.t, r.threads[e.t]);
    if e.Scan? { ScanFindsUnread(s, e); }
  }

  lemma UnmapKeepsInv(s: State, e: Event)
    requires Inv(s) && e.Unmap? && Next(s, e).Some?
    ensures Inv(Next(s, e).value)
  {
    hide RefsOk, Accounted, Holders;
    var pc, r := s.threads[e.t], Next(s, e).value;
    RefsAfter(s.slots, r.slots, s.threads, e.t, r.threads[e.t]);
    AccountedAfter(s.slots, s.cur, s.threads, e.t, r.threads[e.t]);
    UnmapAccounts(s.slots, r.slots, s.cur, r.threads, pc.i);
  }

  lemma UnmapAccounts(slots: seq<Slot>, next: seq<Slot>, cur: Option<nat>, threads: map<Tid, Pc>, i: nat)
    requires i < |slots| && next == slots[i := slots[i].(mapped := false, retired := false)]
    requires Accounted(slots, cur, threads)
    ensures Accounted(next, cur, threads)
  {
  }

  lemma OpenKeepsInv(s: State, e: Event)
    requires Inv(s) && e.Open? && Next(s, e).Some?
    ensures Inv(Next(s, e).value)
  {
    hide RefsOk, Accounted, Holders;
    var r := Next(s, e).value;
    RefsAfter(s.slots, r.slots, s.threads, e.t, r.threads[e.t]);
    AccountedAfter(s.slots, s.cur, s.threads, e.t, r.threads[e.t]);
    OpenAccounts(s.slots, r.slots, s.cur, r.threads, e.t, e.k, e.gen);
  }

  lemma OpenAccounts(
    slots: seq<Slot>, next: seq<Slot>, cur: Option<nat>, threads: map<Tid, Pc>, t: Tid, k: nat, gen: nat)
    requires k < |slots| && next == slots[k := slots[k].(mapped := true, gen := gen)]
    requires Accounted(slots, cur, threads) && t in threads && threads[t] == Publishing(k)
    ensures Accounted(next, cur, threads)
  {
  }

  lemma PublishKeepsInv(s: State, e: Event)
    requires Inv(s) && e.Publish? && Next(s, e).Some?
    ensures Inv(Next(s, e).value)
  {
    hide RefsOk, Holders;
    var r := Next(s, e).value;
    RefsAfter(s.slots, r.slots, s.threads, e.t, r.threads[e.t]);
    forall k | 0 <= k < |s.slots| && s.slots[k].mapped && !s.slots[k].retired && s.cur != Some(k)
      ensures s.threads[e.t] == Publishing(k)
    {
      OnlyPublisher(s.lock, s.threads, e.t, k);
    }
    if s.cur.Some? { assert InHand(r.threads, s.cur.value) by { assert r.threads[e.t] == Retiring(s.cur); } }
  }

  lemma RetireKeepsInv(s: State, e: Event)
    requires Inv(s) && e.Retire? && Next(s, e).Some?
    ensures Inv(Next(s, e).value)
  {
    hide RefsOk, Holders;
    var r := Next(s, e).value;
    RefsAfter(s.slots, r.slots, s.threads, e.t, r.threads[e.t]);
    forall k | 0 <= k < |s.slots| && s.slots[k].mapped && !s.slots[k].retired && s.cur != Some(k)
      ensures s.threads[e.t] == Retiring(Some(k))
    {
      OnlyPublisher(s.lock, s.threads, e.t, k);
    }
  }

  lemma NextKeepsInv(s: State, e: Event)
    requires Inv(s) && Next(s, e).Some?
    ensures Inv(Next(s, e).value)
  {
    hide Inv, Next;
    match e {
      case Unmap(_) => UnmapKeepsInv(s, e);
      case Open(_, _, _) => OpenKeepsInv(s, e);
      case Publish(_) => PublishKeepsInv(s, e);
      case Retire(_) => RetireKeepsInv(s, e);
      case _ => if Reads(e) { ReaderKeepsInv(s, e); } else { QuietPublisherKeepsInv(s, e); }
    }
  }

  lemma InitialInv(s: State)
    requires IsInitial(s)
    ensures Inv(s)
  {
  }

  lemma {:induction false} ExecKeepsInv(start: State, events: seq<Event>)
    requires IsInitial(start) && Exec(start, events).Some?
    ensures Inv(Exec(start, events).value)
  {
    hide Next, Inv;
    if events == [] {
      InitialInv(start);
    } else {
      var n := |events| - 1;
      ExecKeepsInv(start, events[..n]);
      NextKeepsInv(Exec(start, events[..n]).value, events[n]);
    }
  }

  /**
    In every interleaving a reader that passed the confirm step evaluates a mapped slot that still
    holds the index it confirmed, and no publisher is about to unmap that slot.
   */
  lemma EvaluatedIndexStaysMapped(start: State, events: seq<Event>, t: Tid)
    requires IsInitial(start) && Exec(start, events).Some?
    requires var s := Exec(start, events).value; t in s.threads && s.threads[t].Evaluating?
    ensures var s := Exec(start, events).value;
      && s.threads[t].k < |s.slots|
      && s.slots[s.threads[t].k].mapped && s.slots[s.threads[t].k].gen == s.threads[t].gen
      && s.slots[s.threads[t].k].refs > 0
      && (forall u :: u in s.threads ==> s.threads[u] != Unmapping(s.threads[t].k))
  {
    hide Exec;
    ExecKeepsInv(start, events);
    var s := Exec(start, events).value;
    var k := s.threads[t].k;
    assert PcOk(s.slots, s.cur, s.threads[t]);
    assert t in Holders(s.threads, k);
  }

  /** In every run, reference counts count readers, and a mapping that is not published can be found again. */
  lemma NothingLeaks(start: State, events: seq<Event>, k: nat)
    requires IsInitial(start) && Exec(start, events).Some? && k < |Exec(start, events).value.slots|
    ensures var s := Exec(start, events).value;
      && s.slots[k].refs == |Holders(s.threads, k)|
      && (s.slots[k].mapped && s.lock.None? ==> s.cur == Some(k) || s.slots[k].retired)
  {
    hide Exec;
    ExecKeepsInv(start, events);
    var s := Exec(start, events).value;
    if s.lock.None? {
      forall t | t in s.threads ensures !Publisher(s.threads[t]) { }
    }
  }

  // ---------------------------------------------------------------------------
  // Readers never wait
  // ---------------------------------------------------------------------------

  /** Steps a reader may still take in its call, whatever the publishers do. */
  function StepsLeft(pc: Pc): (n: nat)
  {
    match pc
    case Loading(tries) => if tries <= MAX_TRIES then 4 * (MAX_TRIES - tries) + 2 else 0
    case HasCandidate(k, tries) => if tries < MAX_TRIES then 4 * (MAX_TRIES - tries) + 1 else 0
    case Held(k, tries) => if tries < MAX_TRIES then 4 * (MAX_TRIES - tries) else 0
    case Losing(k, tries) => if tries < MAX_TRIES then 4 * (MAX_TRIES - tries) - 1 else 0
    case Evaluating(k, gen) => 1
    case _ => 0
  }

  /** Every step of a reader after entry brings it nearer to its end: at most 18 steps, never a spin. */
  lemma ReadersAreWaitFree(s: State, e: Event)
    requires Inv(s) && Reads(e) && !e.EnterFast? && Next(s, e).Some?
    ensures StepsLeft(Next(s, e).value.threads[e.t]) < StepsLeft(s.threads[e.t]) <= 18
  {
  }

  /** A reader inside a call always has its next step. */
  lemma ReadersAreNeverStuck(s: State, t: Tid)
    requires Inv(s) && t in s.threads && !s.threads[t].Outside? && !Publisher(s.threads[t])
    ensures exists e :: Reads(e) && e.t == t && Next(s, e).Some?
  {
    var pc := s.threads[t];
    assert PcOk(s.slots, s.cur, pc);
    var e := if pc.Loading? then Load(t) else if pc.HasCandidate? then Acquire(t)
             else if pc.Held? then Confirm(t) else Release(t);
    if e.Release? { assert t in Holders(s.threads, pc.k); }
    assert Reads(e) && e.t == t && Next(s, e).Some?;
  }

  // ---------------------------------------------------------------------------
  // Readers get what is published
  // ---------------------------------------------------------------------------

  lemma ExecMore(start: State, events: seq<Event>, e: Event)
    requires Exec(start, events).Some?
    ensures Exec(start, events + [e]) == Next(Exec(start, events).value, e)
  {
    assert (events + [e])[..|events|] == events;
  }

  /** How often an index was published in the run. */
  function Publications(events: seq<Event>): (n: nat)
  {
    if events == [] then 0
    else Publications(events[..|events| - 1]) + if events[|events| - 1].Publish? then 1 else 0
  }

  /** How many steps of the run are of thread `t`. */
  function StepsOf(events: seq<Event>, t: Tid): (n: nat)
  {
    if events == [] then 0 else StepsOf(events[..|events| - 1], t) + if events[|events| - 1].t == t then 1 else 0
  }

  /** The way of a reader whose index stays published: load, acquire, confirm, evaluate. */
  predicate OnItsWay(pc: Pc, k: nat, gen: nat, tries: nat, n: nat)
  {
    && (n == 0 ==> pc == Loading(tries))
    && (n == 1 ==> pc == HasCandidate(k, tries))
    && (n == 2 ==> pc == Held(k, tries))
    && (n == 3 ==> pc == Evaluating(k, gen))
  }

  /** Without a publication, the published slot keeps its index, and only its own steps move a thread. */
  lemma QuietStep(s: State, e: Event)
    requires Inv(s) && Next(s, e).Some? && !e.Publish? && s.cur.Some?
    ensures var r := Next(s, e).value;
      && r.cur == s.cur && |r.slots| == |s.slots| && s.cur.value < |s.slots|
      && r.slots[s.cur.value].gen == s.slots[s.cur.value].gen
      && forall t :: t in s.threads && t != e.t ==> t in r.threads && r.threads[t] == s.threads[t]
  {
    hide RefsOk, Accounted, Holders;
  }

  /** A step of a reader on its way takes it further. */
  lemma WayStep(s: State, e: Event, n: nat, tries: nat)
    requires Inv(s) && Next(s, e).Some? && s.cur.Some? && e.t in s.threads && n < 3 && tries < MAX_TRIES
    requires OnItsWay(s.threads[e.t], s.cur.value, s.slots[s.cur.value].gen, tries, n)
    ensures e.t in Next(s, e).value.threads
    ensures OnItsWay(Next(s, e).value.threads[e.t], s.cur.value, s.slots[s.cur.value].gen, tries, n + 1)
  {
    hide RefsOk, Accounted, Holders;
  }

  /**
    However threads interleave, while nothing new is published a reader that begins with an index
    published evaluates exactly that index after three steps of its own.
   */
  lemma {:induction false} ReadersEvaluate(start: State, events: seq<Event>, t: Tid, tries: nat)
    requires Inv(start) && Exec(start, events).Some? && Publications(events) == 0
    requires start.cur.Some? && t in start.threads && start.threads[t] == Loading(tries) && tries < MAX_TRIES
    requires StepsOf(events, t) <= 3
    ensures var s := Exec(start, events).value; var k := start.cur.value;
      && Inv(s) && s.cur == Some(k) && k < |start.slots| == |s.slots| && s.slots[k].gen == start.slots[k].gen
      && t in s.threads && OnItsWay(s.threads[t], k, start.slots[k].gen, tries, StepsOf(events, t))
  {
    hide Inv, Next, OnItsWay;
    if events == [] {
      WayStarts(start, t, tries);
    } else {
      var before, e := events[..|events| - 1], events[|events| - 1];
      ReadersEvaluate(start, before, t, tries);
      var s := Exec(start, before).value;
      NextKeepsInv(s, e);
      QuietStep(s, e);
      if e.t == t { WayStep(s, e, StepsOf(before, t), tries); }
    }
  }

  lemma WayStarts(s: State, t: Tid, tries: nat)
    requires Inv(s) && s.cur.Some? && t in s.threads && s.threads[t] == Loading(tries)
    ensures s.cur.value < |s.slots| && OnItsWay(s.threads[t], s.cur.value, s.slots[s.cur.value].gen, tries, 0)
  {
  }

  /** The tries a reader has lost, counting one that it is bound to lose. */
  function Lost(cur: Option<nat>, pc: Pc): (n: nat)
  {
    match pc
    case Loading(tries) => tries
    case HasCandidate(k, tries) => if cur == Some(k) then tries else tries + 1
    case Held(k, tries) => if cur == Some(k) then tries else tries + 1
    case Losing(_, tries) => tries + 1
    case _ => 0
  }

  lemma LostStep(s: State, e: Event, t: Tid)
    requires Inv(s) && Next(s, e).Some? && t in s.threads && !Publisher(s.threads[t])
    ensures var r := Next(s, e).value;
      t in r.threads && Lost(r.cur, r.threads[t]) <= Lost(s.cur, s.threads[t]) + if e.Publish? then 1 else 0
  {
    hide RefsOk, Accounted, Holders;
  }

  /** The thread reads throughout the run. */
  ghost predicate KeepsReading(start: State, events: seq<Event>, t: Tid)
  {
    forall k :: 0 <= k <= |events| && Exec(start, events[..k]).Some? ==>
      var s := Exec(start, events[..k]).value; t in s.threads && !Publisher(s.threads[t])
  }

  /**
    In every run a reader has lost no more tries than there were publications since it began. So it
    gives up with an index published only after four publications in the middle of its call.
   */
  lemma {:induction false} TriesAreLostToPublications(start: State, events: seq<Event>, t: Tid)
    requires Inv(start) && Exec(start, events).Some? && KeepsReading(start, events, t)
    requires t in start.threads && start.threads[t] == Loading(0)
    ensures var s := Exec(start, events).value;
      Inv(s) && t in s.threads && Lost(s.cur, s.threads[t]) <= Publications(events)
  {
    hide Inv, Next, Lost;
    if events == [] {
      NothingLost(start, t);
    } else {
      var n := |events| - 1;
      var before, e := events[..n], events[n];
      assert forall k :: 0 <= k <= n ==> before[..k] == events[..k];
      TriesAreLostToPublications(start, before, t);
      var s := Exec(start, before).value;
      assert before[..n] == before && t in s.threads && !Publisher(s.threads[t]);
      NextKeepsInv(s, e);
      LostStep(s, e, t);
    }
  }

  /** With an index published, a reader gives up only after at least four publications during its call. */
  lemma GivesUpOnlyAfterChurn(start: State, events: seq<Event>, t: Tid)
    requires Inv(start) && Exec(start, events).Some? && KeepsReading(start, events, t)
    requires t in start.threads && start.threads[t] == Loading(0)
    requires var s := Exec(start, events).value;
      s.cur.Some? && Next(s, Load(t)).Some? && Next(s, Load(t)).value.threads[t] == Outside
    ensures Publications(events) >= 4
  {
    hide Exec, KeepsReading, Inv;
    TriesAreLostToPublications(start, events, t);
  }

  lemma NothingLost(s: State, t: Tid)
    requires t in s.threads && s.threads[t] == Loading(0)
    ensures Lost(s.cur, s.threads[t]) == 0
  {
  }

  // ---------------------------------------------------------------------------
  // A publisher that is left alone publishes
  // ---------------------------------------------------------------------------

  /** The slots from `i` on without the retired ones that nobody reads. */
  function Reclaimed(slots: seq<Slot>, i: nat): (r: seq<Slot>)
    ensures |r| == |slots|
    ensures forall j :: 0 <= j < |slots| ==>
              r[j] == if i <= j && slots[j].retired && slots[j].refs == 0
                      then slots[j].(mapped := false, retired := false) else slots[j]
  {
    seq(|slots|, j requires 0 <= j < |slots| =>
      if i <= j && slots[j].retired && slots[j].refs == 0
      then slots[j].(mapped := false, retired := false) else slots[j])
  }

  predicate OnlyOf(events: seq<Event>, t: Tid)
  {
    forall i :: 0 <= i < |events| ==> events[i].t == t
  }

  /** Thread `t` can go on alone from `s` to `r`. */
  ghost predicate Alone(s: State, t: Tid, r: State)
  {
    exists events: seq<Event> :: OnlyOf(events, t) && Exec(s, events) == Some(r)
  }

  lemma AloneStep(s: State, t: Tid, r: State, e: Event, q: State)
    requires Alone(s, t, r) && e.t == t && Next(r, e) == Some(q)
    ensures Alone(s, t, q)
  {
    hide Next;
    var events: seq<Event> :| OnlyOf(events, t) && Exec(s, events) == Some(r);
    ExecMore(s, events, e);
    var more := events + [e];
    assert OnlyOf(more, t) && Exec(s, more) == Some(q);
  }

  lemma AloneStarts(s: State, t: Tid)
    ensures Alone(s, t, s)
  {
    var events: seq<Event> := [];
    assert OnlyOf(events, t) && Exec(s, events) == Some(s);
  }

  lemma {:induction false} ReclaimsAlone(s: State, t: Tid, r: State, i: nat)
    requires Alone(s, t, r) && t in r.threads && r.threads[t] == Reclaiming(i) && i <= |r.slots|
    ensures Alone(s, t, Goto(r.(slots := Reclaimed(r.slots, i)), t, Opening))
    decreases |r.slots| - i
  {
    hide Alone;
    if i == |r.slots| {
      assert Reclaimed(r.slots, i) == r.slots;
      AloneStep(s, t, r, Scan(t), Goto(r, t, Opening));
    } else if r.slots[i].retired && r.slots[i].refs == 0 {
      var a := Goto(r, t, Unmapping(i));
      AloneStep(s, t, r, Scan(t), a);
      var b := Goto(r.(slots := r.slots[i := r.slots[i].(mapped := false, retired := false)]), t, Reclaiming(i + 1));
      assert a.threads[t := Reclaiming(i + 1)] == b.threads;
      AloneStep(s, t, a, Unmap(t), b);
      ReclaimsAlone(s, t, b, i + 1);
      assert Reclaimed(b.slots, i + 1) == Reclaimed(r.slots, i);
      assert b.threads[t := Opening] == r.threads[t := Opening];
    } else {
      var a := Goto(r, t, Reclaiming(i + 1));
      AloneStep(s, t, r, Scan(t), a);
      ReclaimsAlone(s, t, a, i + 1);
      assert Reclaimed(r.slots, i + 1) == Reclaimed(r.slots, i);
      assert a.threads[t := Opening] == r.threads[t := Opening];
    }
  }

  /**
    A publisher that finds the lock free and a slot to use, counting the retired ones that nobody
    reads, can on its own unmap those, publish its index, retire the one before and leave the lock.
   */
  lemma PublishesAlone(s: State, t: Tid, k: nat, gen: nat)
    requires t in s.threads && s.threads[t].Outside? && s.lock.None?
    requires k < |s.slots| && !Reclaimed(s.slots, 0)[k].mapped
    requires s.cur.Some? ==> s.cur.value < |s.slots| && s.cur.value != k
    ensures var free := Reclaimed(s.slots, 0);
      var filled := free[k := free[k].(mapped := true, gen := gen)];
      var slots := if s.cur.None? then filled
                   else filled[s.cur.value := filled[s.cur.value].(retired := true)];
      Alone(s, t, Goto(s.(slots := slots, cur := Some(k)), t, Loading(0)))
  {
    hide Alone;
    AloneStarts(s, t);
    var a := Goto(s.(lock := Some(t)), t, Reclaiming(0));
    AloneStep(s, t, s, EnterSlow(t), a);
    ReclaimsAlone(s, t, a, 0);
    var free := Reclaimed(s.slots, 0);
    var b := Goto(s.(slots := free, lock := Some(t)), t, Opening);
    assert a.threads[t := Opening] == b.threads;
    OpensAlone(s, t, b, k, gen);
    assert b.threads[t := Loading(0)] == s.threads[t := Loading(0)];
  }

  lemma OpensAlone(s: State, t: Tid, b: State, k: nat, gen: nat)
    requires Alone(s, t, b) && t in b.threads && b.threads[t] == Opening && k < |b.slots| && !b.slots[k].mapped
    requires b.cur.Some? ==> b.cur.value < |b.slots|
    ensures var filled := b.slots[k := b.slots[k].(mapped := true, gen := gen)];
      var slots := if b.cur.None? then filled
                   else filled[b.cur.value := filled[b.cur.value].(retired := true)];
      Alone(s, t, Goto(b.(slots := slots, cur := Some(k), lock := None), t, Loading(0)))
  {
    hide Alone;
    var filled := b.slots[k := b.slots[k].(mapped := true, gen := gen)];
    var slots := if b.cur.None? then filled
                 else filled[b.cur.value := filled[b.cur.value].(retired := true)];
    var c := Goto(b.(slots := filled), t, Publishing(k));
    AloneStep(s, t, b, Open(t, k, gen), c);
    var d := Goto(b.(slots := filled, cur := Some(k)), t, Retiring(b.cur));
    assert c.threads[t := Retiring(b.cur)] == d.threads;
    AloneStep(s, t, c, Publish(t), d);
    var e := Goto(b.(slots := slots, cur := Some(k)), t, Unlocking);
    assert d.threads[t := Unlocking] == e.threads;
    AloneStep(s, t, d, Retire(t), e);
    var f := Goto(b.(slots := slots, cur := Some(k), lock := None), t, Loading(0));
    assert e.threads[t := Loading(0)] == f.threads;
    AloneStep(s, t, e, Unlock(t), f);
  }
}
