/**
  Requests racing on one network's cache (res_cache.cpp). Every event below is one critical
  section of the cache mutex; requests, waits, reports, flushes and the deletion and creation
  of the cache interleave in any order.
 */
module PendingProtocol {
  import opened Bytes
  import opened Pending

  /** Where a lookup, identified by a number of its own, has got to. */
  datatype Phase =
    | Waiting(hash: nat)      // blocked on the condition variable
    | Creator(hash: nat)      // told NOTFOUND after recording the request; must report
    | Asking(hash: nat)       // told NOTFOUND without a record of its own; may report
    | Left(hash: nat)         // a creator that went away without reporting
    | Done                    // answered, or reported

  /** What the table holds for the key. */
  datatype Found = Absent | Stale | Fresh

  /** `pending` is `None` while the network has no cache. */
  datatype State = State(pending: Option<seq<nat>>, creator: map<nat, nat>, phases: map<nat, Phase>)

  const INIT := State(None, map[], map[])

  datatype Event =
    | Create | Delete | FlushCache
    | Lookup(r: nat, hash: nat, found: Found)
    | Bypass(r: nat, hash: nat)         // a lookup told to skip the cache, but allowed to store
    | Wake(r: nat, found: Found)        // the wake-up predicate held
    | TimeOut(r: nat, found: Found)     // 20 seconds passed first
    | Report(r: nat)                    // resolv_cache_add or _resolv_cache_query_failed
    | Leave(r: nat)                     // returned without reporting

  /** The predicate a waiter re-evaluates on every notification. */
  predicate MayWake(s: State, hash: nat)
  {
    s.pending.None? || hash !in s.pending.value
  }

  /** What a request that has been through its wait is told. */
  function AfterWait(s: State, hash: nat, found: Found): (p: Phase)
  {
    if s.pending.Some? && found.Fresh? then Done else Asking(hash)
  }

  function Next(s: State, e: Event): (t: Option<State>)
  {
    match e
    case Create => if s.pending.None? then Some(s.(pending := Some([]))) else None
    case Delete => Some(s.(pending := None))
    case FlushCache => if s.pending.Some? then Some(s.(pending := Some([]))) else None
    case Lookup(r, h, found) =>
      if r in s.phases then None
      else if s.pending.None? then Some(s.(phases := s.phases[r := Done]))
      else if found.Fresh? then Some(s.(phases := s.phases[r := Done]))
      else if found.Stale? then Some(s.(phases := s.phases[r := Asking(h)]))
      else if h in s.pending.value then Some(s.(phases := s.phases[r := Waiting(h)]))
      else Some(State(Some(s.pending.value + [h]), s.creator[h := r], s.phases[r := Creator(h)]))
    case Bypass(r, h) => if r in s.phases then None else Some(s.(phases := s.phases[r := Asking(h)]))
    case Wake(r, found) =>
      if r in s.phases && s.phases[r].Waiting? && MayWake(s, s.phases[r].hash)
      then Some(s.(phases := s.phases[r := AfterWait(s, s.phases[r].hash, found)])) else None
    case TimeOut(r, found) =>
      if r in s.phases && s.phases[r].Waiting?
      then Some(s.(phases := s.phases[r := AfterWait(s, s.phases[r].hash, found)])) else None
    case Report(r) =>
      if r in s.phases && (s.phases[r].Creator? || s.phases[r].Asking?) then
        var left := if s.pending.Some? then Some(RemoveOne(s.pending.value, s.phases[r].hash)) else None;
        Some(s.(pending := left, phases := s.phases[r := Done]))
      else None
    case Leave(r) =>
      if r in s.phases && s.phases[r].Creator?
      then Some(s.(phases := s.phases[r := Left(s.phases[r].hash)])) else None
  }

  function Exec(events: seq<Event>): (s: Option<State>)
  {
    if events == [] then Some(INIT)
    else
      var s := Exec(events[..|events| - 1]);
      if s.None? then None else Next(s.value, events[|events| - 1])
  }

  /** The request recorded for `h` is still going to be reported, or went away unreported. */
  predicate Unreported(s: State, h: nat)
  {
    && h in s.creator && s.creator[h] in s.phases
    && (s.phases[s.creator[h]] == Creator(h) || s.phases[s.creator[h]] == Left(h))
  }

  ghost predicate Inv(s: State)
  {
    s.pending.Some? ==>
      && Distinct(s.pending.value)
      && forall h :: h in s.pending.value ==> Unreported(s, h)
  }

  lemma NextKeepsInv(s: State, e: Event)
    requires Inv(s) && Next(s, e).Some?
    ensures Inv(Next(s, e).value)
  {
    if e.Report? && s.pending.Some? {
      RemoveOneMembers(s.pending.value, s.phases[e.r].hash);
    }
  }

  /**
    In every interleaving: one record per hash at most, and nobody who recorded a request that is
    still listed has reported yet.
   */
  lemma {:induction false} ExecKeepsInv(events: seq<Event>)
    requires Exec(events).Some?
    ensures Inv(Exec(events).value)
  {
    if events != [] {
      var n := |events| - 1;
      ExecKeepsInv(events[..n]);
      NextKeepsInv(Exec(events[..n]).value, events[n]);
    }
  }

  // ---------------------------------------------------------------------------
  // Who asks, and who waits
  // ---------------------------------------------------------------------------

  /** Event `i` is a miss that finds no record of the hash: its request goes on to ask, and owes a report. */
  ghost predicate Creates(events: seq<Event>, i: nat, h: nat)
    requires i < |events|
  {
    var s := Exec(events[..i]);
    && s.Some? && s.value.pending.Some? && h !in s.value.pending.value
    && events[i].Lookup? && events[i].hash == h && events[i].found == Absent
  }

  /** The event ends the flight of requests for `h`: a report, or the end of the whole list. */
  predicate EndsFlight(s: State, e: Event, h: nat)
  {
    || e == Delete || e == FlushCache
    || (e.Report? && e.r in s.phases && s.phases[e.r] != Done && s.phases[e.r].hash == h)
  }

  ghost predicate Ends(events: seq<Event>, k: nat, h: nat)
    requires k < |events|
  {
    Exec(events[..k]).Some? && EndsFlight(Exec(events[..k]).value, events[k], h)
  }

  lemma {:induction false} ExecPrefix(events: seq<Event>, k: nat)
    requires Exec(events).Some? && k <= |events|
    ensures Exec(events[..k]).Some?
    ensures k < |events| ==> Next(Exec(events[..k]).value, events[k]) == Exec(events[..k + 1])
  {
    if k == |events| {
      assert events[..k] == events;
    } else {
      var n := |events| - 1;
      if k < n {
        ExecPrefix(events[..n], k);
        assert events[..n][..k] == events[..k] && events[..n][..k + 1] == events[..k + 1];
      } else {
        assert events[..k + 1] == events;
      }
    }
  }

  /** A recorded request stays on the list until its flight ends. */
  lemma {:induction false} RecordStays(events: seq<Event>, i: nat, m: nat, h: nat)
    requires Exec(events).Some? && i < m <= |events| && Creates(events, i, h)
    requires forall k :: i < k < m ==> !Ends(events, k, h)
    ensures Exec(events[..m]).Some?
    ensures Exec(events[..m]).value.pending.Some? && h in Exec(events[..m]).value.pending.value
  {
    hide Next, EndsFlight;
    ExecPrefix(events, m - 1);
    ExecPrefix(events, m);
    var s, e := Exec(events[..m - 1]).value, events[m - 1];
    if m == i + 1 {
      RecordMade(s, e, h);
    } else {
      RecordStays(events, i, m - 1, h);
      assert !Ends(events, m - 1, h);
      RecordKept(s, e, h);
    }
  }

  lemma RecordMade(s: State, e: Event, h: nat)
    requires s.pending.Some? && h !in s.pending.value && Next(s, e).Some?
    requires e.Lookup? && e.hash == h && e.found == Absent
    ensures Next(s, e).value.pending.Some? && h in Next(s, e).value.pending.value
  {
  }

  lemma RecordKept(s: State, e: Event, h: nat)
    requires s.pending.Some? && h in s.pending.value && Next(s, e).Some? && !EndsFlight(s, e, h)
    ensures Next(s, e).value.pending.Some? && h in Next(s, e).value.pending.value
  {
    if e.Report? { RemoveOther(s.pending.value, s.phases[e.r].hash, h); }
  }

  lemma {:induction false} RemoveOther(s: seq<nat>, x: nat, h: nat)
    requires h in s && x != h
    ensures h in RemoveOne(s, x)
  {
    if s[0] != x {
      if s[0] != h { RemoveOther(s[1..], x, h); }
    } else {
      assert s == [s[0]] + s[1..];
    }
  }

  /** In every run, a miss between a recorded request and the end of its flight waits; it is never sent to ask. */
  lemma MissesNeverRace(events: seq<Event>, i: nat, m: nat, h: nat)
    requires Exec(events).Some? && i < m < |events| && Creates(events, i, h)
    requires forall k :: i < k < m ==> !Ends(events, k, h)
    requires events[m].Lookup? && events[m].hash == h && events[m].found == Absent
    ensures Exec(events[..m + 1]).Some?
    ensures var t := Exec(events[..m + 1]).value; events[m].r in t.phases && t.phases[events[m].r] == Waiting(h)
  {
    hide EndsFlight;
    ExecPrefix(events, m);
    ExecPrefix(events, m + 1);
    RecordStays(events, i, m, h);
  }

  /** In every run, two requests for the same hash are sent to ask only if the flight of the first ended in between. */
  lemma AskersTakeTurns(events: seq<Event>, i: nat, j: nat, h: nat)
    requires Exec(events).Some? && i < j < |events| && Creates(events, i, h) && Creates(events, j, h)
    ensures exists k :: i < k < j && Ends(events, k, h)
  {
    if forall k :: i < k < j ==> !Ends(events, k, h) {
      RecordStays(events, i, j, h);
      assert false;
    }
  }

  /** A report sets every waiter for the same hash free, whoever reports. */
  lemma ReportsWakeWaiters(events: seq<Event>, r: nat)
    requires Exec(events).Some? && Next(Exec(events).value, Report(r)).Some?
    ensures var s := Exec(events).value; var t := Next(s, Report(r)).value;
      forall w :: w in t.phases && t.phases[w] == Waiting(s.phases[r].hash) ==>
        MayWake(t, t.phases[w].hash) && Next(t, Wake(w, Absent)).Some?
  {
    ExecKeepsInv(events);
    var s := Exec(events).value;
    if s.pending.Some? {
      RemoveOneMembers(s.pending.value, s.phases[r].hash);
    }
  }

  /** The cache was created, and has not been deleted since. */
  ghost predicate HasCache(events: seq<Event>)
  {
    exists i :: 0 <= i < |events| && events[i] == Create && forall j :: i < j < |events| ==> events[j] != Delete
  }

  lemma CacheAfter(s: State, e: Event)
    requires Next(s, e).Some?
    ensures Next(s, e).value.pending.Some? <==> e == Create || (s.pending.Some? && e != Delete)
  {
    hide RemoveOne;
  }

  lemma HasCacheAfter(events: seq<Event>, e: Event)
    ensures HasCache(events + [e]) <==> e == Create || (HasCache(events) && e != Delete)
  {
    var n, all := |events|, events + [e];
    assert all[n] == e;
    if HasCache(events) && e != Delete {
      var i :| 0 <= i < n && events[i] == Create && forall j :: i < j < n ==> events[j] != Delete;
      assert all[i] == Create && forall j :: i < j < n ==> all[j] == events[j];
    }
    if HasCache(all) && e != Create {
      var i :| 0 <= i < |all| && all[i] == Create && forall j :: i < j < |all| ==> all[j] != Delete;
      assert events[i] == Create && forall j :: i < j < n ==> all[j] == events[j];
    }
  }

  /** In every interleaving, the network has a cache exactly from a creation to the next deletion. */
  lemma {:induction false} CacheExistsIff(events: seq<Event>)
    requires Exec(events).Some?
    ensures Exec(events).value.pending.Some? <==> HasCache(events)
  {
    if events == [] {
      assert !HasCache(events);
    } else {
      hide HasCache, Next;
      var n := |events| - 1;
      CacheExistsIff(events[..n]);
      CacheAfter(Exec(events[..n]).value, events[n]);
      HasCacheAfter(events[..n], events[n]);
      assert events[..n] + [events[n]] == events;
    }
  }

  /** Without a cache nobody is kept waiting: every waiter can go on, and is told to ask for itself. */
  lemma DeletionWakesWaiters(events: seq<Event>, w: nat, found: Found)
    requires Exec(events).Some? && !HasCache(events)
    requires var s := Exec(events).value; w in s.phases && s.phases[w].Waiting?
    ensures var s := Exec(events).value; var t := Next(s, Wake(w, found));
      t == Some(s.(phases := s.phases[w := Asking(s.phases[w].hash)]))
  {
    hide HasCache, Exec;
    CacheExistsIff(events);
  }

  /** The request recorded for `h` left without a report, and no request that may report `h` remains. */
  ghost predicate Stranded(s: State, h: nat)
  {
    && s.pending.Some? && h in s.pending.value
    && h in s.creator && s.creator[h] in s.phases && s.phases[s.creator[h]] == Left(h)
    && forall r :: r in s.phases ==> s.phases[r] != Creator(h) && s.phases[r] != Asking(h)
  }

  /** Request `r` can report, and waiter `w` can go on after that. */
  predicate Frees(s: State, r: nat, w: nat)
  {
    Next(s, Report(r)).Some? && Next(Next(s, Report(r)).value, Wake(w, Absent)).Some?
  }

  /** While a hash is listed, the reports that free a waiter for it are those of the same hash. */
  lemma FreesIff(events: seq<Event>, r: nat, w: nat)
    requires Exec(events).Some? && var s := Exec(events).value; w in s.phases && s.phases[w].Waiting?
    requires !MayWake(Exec(events).value, Exec(events).value.phases[w].hash)
    ensures var s := Exec(events).value; var h := s.phases[w].hash;
      Frees(s, r, w) <==> r in s.phases && (s.phases[r] == Creator(h) || s.phases[r] == Asking(h))
  {
    ExecKeepsInv(events);
    var s := Exec(events).value;
    var h := s.phases[w].hash;
    if Next(s, Report(r)).Some? {
      RemoveOneMembers(s.pending.value, s.phases[r].hash);
      if s.phases[r].hash != h {
        RemoveOther(s.pending.value, s.phases[r].hash, h);
      }
    }
  }

  /**
    In every run, a waiter can go on now, or some request can make the one report after which it
    can, exactly when it is not stranded.
   */
  lemma WaitersAreServedIff(events: seq<Event>, w: nat)
    requires Exec(events).Some? && var s := Exec(events).value; w in s.phases && s.phases[w].Waiting?
    ensures var s := Exec(events).value;
      (Next(s, Wake(w, Absent)).Some? || exists r :: r in s.phases && Frees(s, r, w))
        <==> !Stranded(s, s.phases[w].hash)
  {
    ExecKeepsInv(events);
    var s := Exec(events).value;
    var h := s.phases[w].hash;
    if !MayWake(s, h) {
      forall r
        ensures Frees(s, r, w) <==> r in s.phases && (s.phases[r] == Creator(h) || s.phases[r] == Asking(h))
      {
        FreesIff(events, r, w);
      }
      assert Unreported(s, h);
    }
  }

  /** One request asks and leaves without a report while another waits for it. */
  const BLOCKED_RUN: seq<Event> := [Create] + [Lookup(1, 7, Absent)] + [Lookup(2, 7, Absent)] + [Leave(1)]
  const BLOCKED := State(Some([7]), map[7 := 1], map[1 := Left(7), 2 := Waiting(7)])

  lemma ExecMore(events: seq<Event>, e: Event)
    requires Exec(events).Some?
    ensures Exec(events + [e]) == Next(Exec(events).value, e)
  {
    assert (events + [e])[..|events|] == events;
  }

  /** The state before the creator leaves. */
  const WAITED_FOR := State(Some([7]), map[7 := 1], map[1 := Creator(7), 2 := Waiting(7)])

  lemma WaitedForRun()
    ensures Exec([Create] + [Lookup(1, 7, Absent)] + [Lookup(2, 7, Absent)]) == Some(WAITED_FOR)
  {
    hide Exec;
    var s0 := State(Some([]), map[], map[]);
    var s1 := State(Some([7]), map[7 := 1], map[1 := Creator(7)]);
    assert Exec([]) == Some(INIT) by { ExecNothing(); }
    ExecMore([], Create);
    assert [] + [Create] == [Create];
    ExecMore([Create], Lookup(1, 7, Absent));
    assert [] + [7] == [7];
    assert Next(s0, Lookup(1, 7, Absent)) == Some(s1);
    ExecMore([Create] + [Lookup(1, 7, Absent)], Lookup(2, 7, Absent));
    assert Next(s1, Lookup(2, 7, Absent)) == Some(WAITED_FOR);
  }

  lemma ExecNothing()
    ensures Exec([]) == Some(INIT)
  {
  }

  /** A creator that leaves without a report blocks its waiters: nobody can report, and nobody can wake. */
  lemma LeaversBlock()
    ensures Exec(BLOCKED_RUN) == Some(BLOCKED)
    ensures forall r: nat :: Next(BLOCKED, Report(r)).None?
    ensures forall found: Found :: Next(BLOCKED, Wake(2, found)).None?
    ensures Stranded(BLOCKED, 7)
  {
    hide Exec;
    WaitedForRun();
    ExecMore([Create] + [Lookup(1, 7, Absent)] + [Lookup(2, 7, Absent)], Leave(1));
    assert WAITED_FOR.phases[1 := Left(7)] == BLOCKED.phases;
    assert BLOCKED.pending.value[0] == 7;
  }
}
