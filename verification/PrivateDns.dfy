/**
  Validation of DNS-over-TLS servers (PrivateDnsConfiguration.cpp). Configuration calls race
  with detached validation threads that nothing can cancel. Every event is one critical
  section of the configuration lock.
 */
module PrivateDnsSpec {
  import opened Bytes

  type Net = nat
  type Address = nat

  /** All DoT servers use the same port, so an address and a provider name identify a server. */
  datatype Identity = Identity(address: Address, provider: string)

  datatype Mode = Off | Opportunistic | Strict

  datatype Validation = InProcess | Success | SuccessButExpired | Fail | Unknown

  datatype Server = Server(mark: nat, active: bool, state: Validation)

  type Tracker = map<Identity, Server>

  /** A validation thread: probing, or waiting for its backoff to end before it probes again. */
  datatype Thread = Thread(net: Net, id: Identity, isRevalidation: bool, waiting: bool)

  /** `last` remembers, for each server, the outcome most recently reported by any thread. */
  datatype State = State(
    modes: map<Net, Mode>,
    trackers: map<Net, Tracker>,
    threads: multiset<Thread>,
    last: map<(Net, Identity), bool>)

  const INIT := State(map[], map[], multiset{}, map[])

  datatype Event =
    | Set(n: Net, mark: nat, servers: seq<Option<Address>>, name: string)
    | Clear(n: Net)
    | Request(n: Net, id: Identity, mark: nat)
    | Report(t: Thread, success: bool)
    | WaitEnds(t: Thread)

  predicate NeedsValidation(s: Server)
  {
    s.active && (s.state == Unknown || s.state == Fail || s.state == SuccessButExpired)
  }

  /** The identities a configuration names. */
  function Named(servers: seq<Option<Address>>, name: string): (r: set<Identity>)
  {
    set i | 0 <= i < |servers| && servers[i].Some? :: Identity(servers[i].value, name)
  }

  /** What a configuration makes of one tracked server, before any validation is started. */
  function Reactivated(s: Server, active: bool): (t: Server)
  {
    s.(active := active, state := if !active && s.state == Success then SuccessButExpired else s.state)
  }

  function Configured(s: Server, active: bool): (t: Server)
  {
    var r := Reactivated(s, active);
    if NeedsValidation(r) then r.(state := InProcess) else r
  }

  /** The tracker with an entry for every named server. */
  function Extended(tracker: Tracker, named: set<Identity>, mark: nat): (r: Tracker)
  {
    map id | id in tracker.Keys + named :: if id in tracker then tracker[id] else Server(mark, false, Unknown)
  }

  function AfterSetDot(tracker: Tracker, named: set<Identity>, mark: nat): (r: Tracker)
  {
    var all := Extended(tracker, named, mark);
    map id | id in all :: Configured(all[id], id in named)
  }

  /** The servers for which a configuration starts a validation thread. */
  function Started(tracker: Tracker, named: set<Identity>, mark: nat): (r: set<Identity>)
  {
    var all := Extended(tracker, named, mark);
    set id | id in all && NeedsValidation(Reactivated(all[id], id in named))
  }

  function Threads(n: Net, ids: set<Identity>): (r: multiset<Thread>)
  {
    multiset(set id | id in ids :: Thread(n, id, false, false))
  }

  function TrackerOf(s: State, n: Net): (t: Tracker)
  {
    if n in s.trackers then s.trackers[n] else map[]
  }

  function AfterSet(s: State, n: Net, mark: nat, servers: seq<Option<Address>>, name: string): (t: State)
  {
    if exists i :: 0 <= i < |servers| && servers[i].None? then s   // -EINVAL
    else if name == "" && servers == [] then
      s.(modes := s.modes[n := Off], trackers := s.trackers - {n})
    else
      var named := Named(servers, name);
      s.(modes := s.modes[n := if name != "" then Strict else Opportunistic],
         trackers := s.trackers[n := AfterSetDot(TrackerOf(s, n), named, mark)],
         threads := s.threads + Threads(n, Started(TrackerOf(s, n), named, mark)))
  }

  function SetState(s: State, n: Net, id: Identity, v: Validation): (t: State)
  {
    if n in s.trackers && id in s.trackers[n]
    then s.(trackers := s.trackers[n := s.trackers[n][id := s.trackers[n][id].(state := v)]])
    else s
  }

  /** The request is for an active, validated server of an opportunistic network, with the right mark. */
  predicate Revalidates(s: State, n: Net, id: Identity, mark: nat)
  {
    && n in s.modes && s.modes[n] == Opportunistic
    && n in s.trackers && id in s.trackers[n]
    && s.trackers[n][id].active && s.trackers[n][id].state == Success && s.trackers[n][id].mark == mark
  }

  /** Whether `recordDotValidation` asks its thread to try again. */
  predicate Again(s: State, t: Thread, success: bool)
  {
    && !success
    && t.net in s.trackers && t.net in s.modes
    && t.id in s.trackers[t.net] && s.trackers[t.net][t.id].active
    && (s.modes[t.net] == Strict || (s.modes[t.net] == Opportunistic && t.isRevalidation))
  }

  function AfterReport(s: State, t: Thread, success: bool): (r: State)
  {
    var left := s.threads - multiset{t};
    var threads := if Again(s, t, success) then left + multiset{t.(waiting := true)} else left;
    if t.net !in s.trackers || t.net !in s.modes then s.(threads := threads)
    else
      var known := t.id in s.trackers[t.net];
      var passed := success && known && s.trackers[t.net][t.id].active;
      var v := if passed then Success else if Again(s, t, success) then InProcess else Fail;
      SetState(s, t.net, t.id, v).(threads := threads, last := s.last[(t.net, t.id) := success])
  }

  function AfterWait(s: State, t: Thread): (r: State)
  {
    var left := s.threads - multiset{t};
    s.(threads := if t.net in s.modes then left + multiset{t.(waiting := false)} else left)
  }

  /** The event, when it can happen. */
  function Next(s: State, e: Event): (t: Option<State>)
  {
    match e
    case Set(n, mark, servers, name) => Some(AfterSet(s, n, mark, servers, name))
    case Clear(n) => Some(s.(modes := s.modes - {n}, trackers := s.trackers - {n}))
    case Request(n, id, mark) =>
      if Revalidates(s, n, id, mark)
      then Some(SetState(s, n, id, InProcess).(threads := s.threads + multiset{Thread(n, id, true, false)}))
      else Some(s)
    case Report(t, success) =>
      if t in s.threads && !t.waiting then Some(AfterReport(s, t, success)) else None
    case WaitEnds(t) =>
      if t in s.threads && t.waiting then Some(AfterWait(s, t)) else None
  }

  function Exec(events: seq<Event>): (s: Option<State>)
  {
    if events == [] then Some(INIT)
    else
      var s := Exec(events[..|events| - 1]);
      if s.None? then None else Next(s.value, events[|events| - 1])
  }

  // ---------------------------------------------------------------------------
  // What every interleaving keeps
  // ---------------------------------------------------------------------------

  /** A live thread that will report on the server again. */
  ghost predicate Watched(threads: multiset<Thread>, n: Net, id: Identity)
  {
    exists t :: t in threads && t.net == n && t.id == id
  }

  ghost predicate ServerOk(s: State, n: Net, id: Identity)
    requires n in s.trackers && id in s.trackers[n]
  {
    var server := s.trackers[n][id];
    && (server.state == Success ==> server.active && (n, id) in s.last && s.last[(n, id)])
    && (server.state == InProcess ==> Watched(s.threads, n, id))
    && (server.state == Fail && server.active ==> (n, id) in s.last && !s.last[(n, id)])
    && (server.active ==> server.state == Success || server.state == InProcess || server.state == Fail)
  }

  ghost predicate Inv(s: State)
  {
    && (forall n :: n in s.trackers ==> n in s.modes && s.modes[n] != Off)
    && (forall n, id :: n in s.trackers && id in s.trackers[n] ==> ServerOk(s, n, id))
    && (forall n :: n in s.trackers ==> OneProvider(s.trackers[n]))
  }

  /** All active servers of a network have the same provider name. */
  ghost predicate OneProvider(tracker: Tracker)
  {
    forall a, b :: a in tracker && b in tracker && tracker[a].active && tracker[b].active ==> a.provider == b.provider
  }

  lemma WatchedMore(threads: multiset<Thread>, more: multiset<Thread>, n: Net, id: Identity)
    requires Watched(threads, n, id)
    ensures Watched(threads + more, n, id)
  {
  }

  lemma SetKeepsServer(s: State, n: Net, mark: nat, servers: seq<Option<Address>>, name: string, id: Identity)
    requires Inv(s)
    requires !(exists i :: 0 <= i < |servers| && servers[i].None?) && !(name == "" && servers == [])
    requires id in AfterSet(s, n, mark, servers, name).trackers[n]
    ensures ServerOk(AfterSet(s, n, mark, servers, name), n, id)
    ensures AfterSet(s, n, mark, servers, name).trackers[n][id].active ==> id.provider == name
  {
    var t := AfterSet(s, n, mark, servers, name);
    var tracker, named := TrackerOf(s, n), Named(servers, name);
    var probes := Threads(n, Started(tracker, named, mark));
    if id in tracker {
      assert ServerOk(s, n, id);
      if tracker[id].state == InProcess { WatchedMore(s.threads, probes, n, id); }
    }
    if id in Started(tracker, named, mark) {
      assert Thread(n, id, false, false) in probes;
      assert Watched(t.threads, n, id);
    }
  }

  lemma SetKeepsOther(s: State, n: Net, mark: nat, servers: seq<Option<Address>>, name: string, m: Net, id: Identity)
    requires Inv(s) && m != n && m in s.trackers && id in s.trackers[m]
    ensures var t := AfterSet(s, n, mark, servers, name); m in t.trackers && t.trackers[m] == s.trackers[m]
    ensures ServerOk(AfterSet(s, n, mark, servers, name), m, id)
  {
    hide Started, Named, AfterSetDot;
    assert ServerOk(s, m, id);
    if s.trackers[m][id].state == InProcess {
      WatchedMore(s.threads, Threads(n, Started(TrackerOf(s, n), Named(servers, name), mark)), m, id);
    }
  }

  lemma SetKeepsInv(s: State, n: Net, mark: nat, servers: seq<Option<Address>>, name: string)
    requires Inv(s)
    ensures Inv(AfterSet(s, n, mark, servers, name))
  {
    hide ServerOk, Started, Named, AfterSetDot, Threads;
    var t := AfterSet(s, n, mark, servers, name);
    if t != s {
      forall m, id | m in t.trackers && id in t.trackers[m]
        ensures ServerOk(t, m, id)
        ensures m == n && t.trackers[m][id].active ==> id.provider == name
      {
        if m == n {
          SetKeepsServer(s, n, mark, servers, name, id);
        } else {
          SetKeepsOther(s, n, mark, servers, name, m, id);
        }
      }
    }
  }

  lemma RequestKeepsInv(s: State, n: Net, id: Identity, mark: nat)
    requires Inv(s) && Revalidates(s, n, id, mark)
    ensures Inv(Next(s, Request(n, id, mark)).value)
  {
    var t := Next(s, Request(n, id, mark)).value;
    var probe := Thread(n, id, true, false);
    assert probe in t.threads;
    forall m, x | m in t.trackers && x in t.trackers[m]
      ensures ServerOk(t, m, x)
    {
      assert ServerOk(s, m, x);
      if s.trackers[m][x].state == InProcess { WatchedMore(s.threads, multiset{probe}, m, x); }
    }
  }

  /** Threads other than `t` are still there after `t` reports or wakes; so is `t` itself if it stays. */
  lemma WatchedLess(threads: multiset<Thread>, t: Thread, rest: multiset<Thread>, n: Net, id: Identity)
    requires Watched(threads, n, id) && ((n, id) != (t.net, t.id) || Watched(rest, n, id))
    ensures Watched(threads - multiset{t} + rest, n, id)
  {
  }

  /** What a report does to the server it is about. */
  lemma ReportKeepsServer(s: State, t: Thread, success: bool)
    requires Inv(s) && t in s.threads && !t.waiting && t.net in s.trackers && t.id in s.trackers[t.net]
    ensures ServerOk(AfterReport(s, t, success), t.net, t.id)
  {
  }

  /** A report leaves other servers and other reports alone, and its thread stays only to try again. */
  lemma ReportLeaves(s: State, t: Thread, success: bool, m: Net, x: Identity)
    requires m in s.trackers && x in s.trackers[m] && (m, x) != (t.net, t.id)
    ensures var r := AfterReport(s, t, success);
      && m in r.trackers && x in r.trackers[m] && r.trackers[m][x] == s.trackers[m][x]
      && ((m, x) in r.last <==> (m, x) in s.last) && ((m, x) in s.last ==> r.last[(m, x)] == s.last[(m, x)])
  {
  }

  lemma ReportKeepsOther(s: State, t: Thread, success: bool, m: Net, x: Identity)
    requires Inv(s) && m in s.trackers && x in s.trackers[m] && (m, x) != (t.net, t.id)
    ensures m in AfterReport(s, t, success).trackers && x in AfterReport(s, t, success).trackers[m]
    ensures ServerOk(AfterReport(s, t, success), m, x)
  {
    assert ServerOk(s, m, x);
    ReportLeaves(s, t, success, m, x);
    var rest := if Again(s, t, success) then multiset{t.(waiting := true)} else multiset{};
    assert AfterReport(s, t, success).threads == s.threads - multiset{t} + rest;
    hide AfterReport, Inv;
    if s.trackers[m][x].state == InProcess {
      WatchedLess(s.threads, t, rest, m, x);
    }
  }

  /** The table after a change of state: the same servers, as active as before. */
  ghost predicate SameServers(r: State, s: State)
  {
    && r.modes == s.modes && r.trackers.Keys == s.trackers.Keys
    && (forall n :: n in s.trackers ==> r.trackers[n].Keys == s.trackers[n].Keys)
    && (forall n, x :: n in s.trackers && x in s.trackers[n] ==> r.trackers[n][x].active == s.trackers[n][x].active)
  }

  lemma SetStateFrame(s: State, n: Net, id: Identity, v: Validation)
    ensures SameServers(SetState(s, n, id, v), s)
  {
  }

  lemma ReportFrame(s: State, t: Thread, success: bool)
    ensures SameServers(AfterReport(s, t, success), s)
  {
    hide SetState, Again;
    forall v: Validation ensures SameServers(SetState(s, t.net, t.id, v), s) { SetStateFrame(s, t.net, t.id, v); }
  }

  lemma ReportKeepsInv(s: State, t: Thread, success: bool)
    requires Inv(s) && t in s.threads && !t.waiting
    ensures Inv(AfterReport(s, t, success))
  {
    hide ServerOk, AfterReport;
    ReportFrame(s, t, success);
    var r := AfterReport(s, t, success);
    forall m, x | m in r.trackers && x in r.trackers[m]
      ensures ServerOk(r, m, x)
    {
      if (m, x) == (t.net, t.id) {
        ReportKeepsServer(s, t, success);
      } else {
        ReportKeepsOther(s, t, success, m, x);
      }
    }
  }

  lemma WaitKeepsInv(s: State, t: Thread)
    requires Inv(s) && t in s.threads && t.waiting
    ensures Inv(AfterWait(s, t))
  {
    var r := AfterWait(s, t);
    var rest := if t.net in s.modes then multiset{t.(waiting := false)} else multiset{};
    assert r.threads == s.threads - multiset{t} + rest;
    forall m, x | m in r.trackers && x in r.trackers[m]
      ensures ServerOk(r, m, x)
    {
      assert ServerOk(s, m, x);
      if s.trackers[m][x].state == InProcess {
        if t.net in s.modes { assert t.(waiting := false) in rest; }
        WatchedLess(s.threads, t, rest, m, x);
      }
    }
  }

  lemma ClearKeepsInv(s: State, n: Net)
    requires Inv(s)
    ensures Inv(s.(modes := s.modes - {n}, trackers := s.trackers - {n}))
  {
  }

  lemma NextKeepsInv(s: State, e: Event)
    requires Inv(s) && Next(s, e).Some?
    ensures Inv(Next(s, e).value)
  {
    hide Inv, AfterSet, AfterReport, AfterWait, Revalidates;
    match e {
      case Set(n, mark, servers, name) => SetKeepsInv(s, n, mark, servers, name);
      case Clear(n) => ClearKeepsInv(s, n);
      case Request(n, id, mark) => if Revalidates(s, n, id, mark) { RequestKeepsInv(s, n, id, mark); }
      case Report(t, success) => ReportKeepsInv(s, t, success);
      case WaitEnds(t) => WaitKeepsInv(s, t);
    }
  }

  lemma {:induction false} ExecKeepsInv(events: seq<Event>)
    requires Exec(events).Some?
    ensures Inv(Exec(events).value)
  {
    hide Next;
    if events != [] {
      var n := |events| - 1;
      ExecKeepsInv(events[..n]);
      NextKeepsInv(Exec(events[..n]).value, events[n]);
    }
  }

  /**
    However configuration calls, requests and detached threads interleave: a server is reported
    as validated only while it is configured and its latest report was a success; one that is
    being validated has a thread that will report on it; no configured server is left
    undecided; and all configured servers of a network share one provider name.
   */
  lemma ValidationInEveryRun(events: seq<Event>, n: Net, id: Identity)
    requires Exec(events).Some?
    requires var s := Exec(events).value; n in s.trackers && id in s.trackers[n]
    ensures var s := Exec(events).value; var v := s.trackers[n][id].state;
      && (v == Success ==> s.trackers[n][id].active && (n, id) in s.last && s.last[(n, id)])
      && (v == InProcess ==> exists t :: t in s.threads && t.net == n && t.id == id)
      && (s.trackers[n][id].active ==> v in {Success, InProcess, Fail})
      && (s.trackers[n][id].active && v != InProcess ==> (n, id) in s.last && (v == Success <==> s.last[(n, id)]))
      && OneProvider(s.trackers[n])
  {
    hide Exec;
    ExecKeepsInv(events);
    assert ServerOk(Exec(events).value, n, id);
  }

  /**
    In every run, a configured server on which no thread will report is validated exactly if its
    latest report was a success, and has failed otherwise.
   */
  lemma DecidedInEveryRun(events: seq<Event>, n: Net, id: Identity)
    requires Exec(events).Some?
    requires var s := Exec(events).value; n in s.trackers && id in s.trackers[n] && s.trackers[n][id].active
    requires forall t :: t in Exec(events).value.threads ==> t.net != n || t.id != id
    ensures var s := Exec(events).value;
      && (n, id) in s.last
      && s.trackers[n][id].state == if s.last[(n, id)] then Success else Fail
  {
    hide Exec;
    ValidationInEveryRun(events, n, id);
  }

  // ---------------------------------------------------------------------------
  // What each event comes to
  // ---------------------------------------------------------------------------

  /** In every run, what a report makes of the server it is about, and of its own thread. */
  lemma ReportOutcome(events: seq<Event>, t: Thread, success: bool)
    requires Exec(events).Some? && Next(Exec(events).value, Report(t, success)).Some?
    requires var s := Exec(events).value; t.net in s.trackers && t.id in s.trackers[t.net]
    ensures var s := Exec(events).value; var r := Next(s, Report(t, success)).value;
      && t.net in s.modes && t.net in r.trackers && t.id in r.trackers[t.net]
      && var again := s.trackers[t.net][t.id].active && !success
                      && (s.modes[t.net] == Strict || (s.modes[t.net] == Opportunistic && t.isRevalidation));
      && r.trackers[t.net][t.id].state ==
           (if again then InProcess else if success && s.trackers[t.net][t.id].active then Success else Fail)
      && r.threads == s.threads - multiset{t} + (if again then multiset{t.(waiting := true)} else multiset{})
      && r.last == s.last[(t.net, t.id) := success]
  {
    hide Exec;
    ExecKeepsInv(events);
  }

  /** The configuration names the server. */
  predicate Names(servers: seq<Option<Address>>, name: string, id: Identity)
  {
    id.provider == name && Some(id.address) in servers
  }

  /** A named server that is neither validated nor being validated gets a thread. */
  predicate NeedsThread(tracker: Tracker, servers: seq<Option<Address>>, name: string, id: Identity)
  {
    Names(servers, name, id) && (id in tracker ==> tracker[id].state != Success && tracker[id].state != InProcess)
  }

  lemma NamedIff(servers: seq<Option<Address>>, name: string, id: Identity)
    ensures id in Named(servers, name) <==> Names(servers, name, id)
  {
    if Names(servers, name, id) {
      var i :| 0 <= i < |servers| && servers[i] == Some(id.address);
      assert Identity(servers[i].value, name) in Named(servers, name);
    }
  }

  lemma StartedIff(tracker: Tracker, servers: seq<Option<Address>>, name: string, mark: nat, id: Identity)
    ensures id in Started(tracker, Named(servers, name), mark) <==> NeedsThread(tracker, servers, name, id)
  {
    hide Named;
    NamedIff(servers, name, id);
  }

  lemma ThreadsCount(n: Net, ids: set<Identity>, t: Thread)
    ensures Threads(n, ids)[t] ==
            if t.net == n && t.id in ids && !t.isRevalidation && !t.waiting then 1 else 0
  {
    var all := set id | id in ids :: Thread(n, id, false, false);
    assert t in all <==> t.net == n && t.id in ids && !t.isRevalidation && !t.waiting;
  }

  /** What a configuration makes of one server: named servers are active, others keep no success. */
  lemma SetOutcome(s: State, n: Net, mark: nat, servers: seq<Option<Address>>, name: string, id: Identity)
    requires (forall i :: 0 <= i < |servers| ==> servers[i].Some?) && !(name == "" && servers == [])
    ensures var r := Next(s, Set(n, mark, servers, name)).value; var was := TrackerOf(s, n);
      && n in r.modes && r.modes[n] == (if name != "" then Strict else Opportunistic)
      && n in r.trackers && (id in r.trackers[n] <==> id in was || Names(servers, name, id))
      && (id in r.trackers[n] ==>
            && r.trackers[n][id].active == Names(servers, name, id)
            && r.trackers[n][id].mark == (if id in was then was[id].mark else mark)
            && r.trackers[n][id].state ==
                 if NeedsThread(was, servers, name, id) then InProcess
                 else if was[id].state == Success && !Names(servers, name, id) then SuccessButExpired
                 else was[id].state)
  {
    hide Named, Started, Threads;
    NamedIff(servers, name, id);
  }

  /** The threads a configuration starts, and no others. */
  lemma SetStarts(s: State, n: Net, mark: nat, servers: seq<Option<Address>>, name: string, t: Thread)
    requires (forall i :: 0 <= i < |servers| ==> servers[i].Some?) && !(name == "" && servers == [])
    ensures Next(s, Set(n, mark, servers, name)).value.threads[t] == s.threads[t] +
            if t.net == n && !t.isRevalidation && !t.waiting && NeedsThread(TrackerOf(s, n), servers, name, t.id)
            then 1 else 0
  {
    hide Named, Started, Threads, NeedsThread;
    StartedIff(TrackerOf(s, n), servers, name, mark, t.id);
    ThreadsCount(n, Started(TrackerOf(s, n), Named(servers, name), mark), t);
  }

  /** Nothing is configured with an invalid address; without name and servers the network is switched off. */
  lemma SetNothing(s: State, n: Net, mark: nat, servers: seq<Option<Address>>, name: string)
    ensures None in servers ==> Next(s, Set(n, mark, servers, name)) == Some(s)
    ensures name == "" && servers == [] ==>
              Next(s, Set(n, mark, servers, name)) == Some(s.(modes := s.modes[n := Off], trackers := s.trackers - {n}))
  {
  }
}

module PrivateDns {
  import opened Bytes
  import opened PrivateDnsSpec

  const EINVAL: int := -22

  /**
    `getStatusLocked`: active servers by address. The address map keeps the first entry it is
    given for an address, so it lists every active server only because no two share an address.
   */
  method DotStatus(tracker: Tracker) returns (status: map<Address, Validation>)
    requires OneProvider(tracker)
    ensures forall id :: id in tracker && tracker[id].active ==>
              id.address in status && status[id.address] == tracker[id].state
    ensures forall a :: a in status ==>
              exists id :: id in tracker && tracker[id].active && id.address == a
    ensures forall x, y :: x in tracker && y in tracker && tracker[x].active && tracker[y].active && x != y ==>
              x.address != y.address
  {
    status := map[];
    var todo := tracker.Keys;
    while todo != {}
      invariant todo <= tracker.Keys
      invariant forall id :: id in tracker && id !in todo && tracker[id].active ==>
                  id.address in status && status[id.address] == tracker[id].state
      invariant forall a :: a in status ==>
                  exists id :: id in tracker && id !in todo && tracker[id].active && id.address == a
    {
      var id :| id in todo;
      ghost var before := todo;
      todo := todo - {id};
      if tracker[id].active {
        if id.address !in status {
          status := status[id.address := tracker[id].state];
        }
      }
      forall a | a in status
        ensures exists x :: x in tracker && x !in todo && tracker[x].active && x.address == a
      {
        if x :| x in tracker && x !in before && tracker[x].active && x.address == a {
          assert x !in todo;
        } else {
          assert id in tracker && id !in todo && tracker[id].active && id.address == a;
        }
      }
    }
  }

  class PrivateDnsConfiguration {
    var modes: map<Net, Mode>
    var trackers: map<Net, Tracker>
    /** The validation threads launched and not yet finished. */
    var threads: multiset<Thread>
    ghost var last: map<(Net, Identity), bool>

    ghost function Now(): (s: State)
      reads this
    {
      State(modes, trackers, threads, last)
    }

    constructor ()
      ensures Now() == INIT
    {
      modes, trackers, threads, last := map[], map[], multiset{}, map[];
    }

    /**
      `set`. A server is `None` if its address does not parse; `dot` and `doh` are what registering
      the servers with the statistics and with DNS over HTTPS comes to.
     */
    method Configure(n: Net, mark: nat, servers: seq<Option<Address>>, name: string, dot: int, doh: int)
      returns (code: int)
      modifies this
      ensures Now() == AfterSet(old(Now()), n, mark, servers, name)
      ensures code == if exists i :: 0 <= i < |servers| && servers[i].None? then EINVAL
                      else if name == "" && servers == [] then 0
                      else if dot != 0 then dot else doh
    {
      hide AfterSetDot, Started, Named, Threads;
      for i := 0 to |servers|
        invariant forall k :: 0 <= k < i ==> servers[k].Some?
        invariant Now() == old(Now())
      {
        if servers[i].None? { return EINVAL; }
      }
      if name != "" {
        modes := modes[n := Strict];
      } else if |servers| > 0 {
        modes := modes[n := Opportunistic];
      } else {
        modes := modes[n := Off];
        trackers := trackers - {n};
        return 0;
      }
      SetDot(n, mark, servers, name);
      if dot != 0 { return dot; }
      return doh;
    }

    /** `setDot` */
    method SetDot(n: Net, mark: nat, servers: seq<Option<Address>>, name: string)
      requires forall i :: 0 <= i < |servers| ==> servers[i].Some?
      modifies this`trackers, this`threads
      ensures var before := if n in old(trackers) then old(trackers)[n] else map[];
        && trackers == old(trackers)[n := AfterSetDot(before, Named(servers, name), mark)]
        && threads == old(threads) + Threads(n, Started(before, Named(servers, name), mark))
    {
      hide Threads, Named, Extended;
      var tmp := Identities(servers, name);
      var tracker := if n in trackers then trackers[n] else map[];
      var all := Extend(tracker, tmp, mark);
      var r, started := ConfigureAll(all, tmp);
      assert r == AfterSetDot(tracker, tmp, mark);
      trackers := trackers[n := r];
      threads := threads + Threads(n, started);
    }

    /** `clear` */
    method ClearNet(n: Net)
      modifies this
      ensures Next(old(Now()), Clear(n)) == Some(Now())
      ensures modes == old(modes) - {n} && trackers == old(trackers) - {n}
    {
      modes := modes - {n};
      trackers := trackers - {n};
    }

    /** `updateServerState` */
    method UpdateServerState(n: Net, id: Identity, v: Validation)
      modifies this`trackers
      ensures Now() == SetState(old(Now()), n, id, v)
    {
      if n !in trackers || id !in trackers[n] { return; }
      trackers := trackers[n := trackers[n][id := trackers[n][id].(state := v)]];
    }

    /** `requestDotValidation` */
    method RequestDotValidation(n: Net, id: Identity, mark: nat) returns (accepted: bool)
      modifies this
      ensures accepted <==>
              && n in old(modes) && old(modes)[n] == Opportunistic && n in old(trackers) && id in old(trackers)[n]
              && var server := old(trackers)[n][id]; server.active && server.state == Success && server.mark == mark
      ensures accepted ==>
              && n in trackers && id in trackers[n] && trackers[n][id].state == InProcess
              && threads == old(threads) + multiset{Thread(n, id, true, false)}
      ensures Next(old(Now()), Request(n, id, mark)) == Some(Now())
    {
      if n !in modes || modes[n] != Opportunistic { return false; }
      if n !in trackers || id !in trackers[n] { return false; }
      var target := trackers[n][id];
      if !target.active { return false; }
      if target.state != Success { return false; }
      if target.mark != mark { return false; }
      UpdateServerState(n, id, InProcess);
      threads := threads + multiset{Thread(n, id, true, false)};
      return true;
    }

    /** One turn of a validation thread: `recordDotValidation`, and what the thread does with its answer. */
    method RecordDotValidation(t: Thread, probe: bool) returns (needsReevaluation: bool)
      requires t in threads && !t.waiting
      modifies this
      ensures Now() == AfterReport(old(Now()), t, probe)
      ensures needsReevaluation <==>
              && !probe && t.net in old(trackers) && t.net in old(modes) && t.id in old(trackers)[t.net]
              && old(trackers)[t.net][t.id].active
              && (old(modes)[t.net] == Strict || (old(modes)[t.net] == Opportunistic && t.isRevalidation))
      ensures t.net in old(trackers) && t.net in old(modes) && t.id in old(trackers)[t.net] ==>
              && t.net in trackers && t.id in trackers[t.net]
              && trackers[t.net][t.id].state ==
                   if needsReevaluation then InProcess
                   else if probe && old(trackers)[t.net][t.id].active then Success else Fail
    {
      threads := threads - multiset{t};
      if t.net !in trackers { return false; }
      if t.net !in modes { return false; }
      last := last[(t.net, t.id) := probe];
      var success := probe;
      var reevaluation := true;
      if success || modes[t.net] == Off || (modes[t.net] == Opportunistic && !t.isRevalidation) {
        reevaluation := false;
      }
      if t.id !in trackers[t.net] {
        success, reevaluation := false, false;
      } else if !trackers[t.net][t.id].active {
        success, reevaluation := false, false;
      }
      if success {
        UpdateServerState(t.net, t.id, Success);
      } else {
        UpdateServerState(t.net, t.id, if reevaluation then InProcess else Fail);
      }
      if reevaluation {
        threads := threads + multiset{t.(waiting := true)};
      }
      return reevaluation;
    }
  }

  /** The identities named by a configuration whose addresses all parse. */
  method Identities(servers: seq<Option<Address>>, name: string) returns (tmp: set<Identity>)
    requires forall i :: 0 <= i < |servers| ==> servers[i].Some?
    ensures tmp == Named(servers, name)
  {
    tmp := {};
    for i := 0 to |servers|
      invariant tmp == set k | 0 <= k < i && servers[k].Some? :: Identity(servers[k].value, name)
    {
      tmp := tmp + {Identity(servers[i].value, name)};
    }
  }

  /** Add the servers that are not tracked yet. */
  method Extend(tracker: Tracker, tmp: set<Identity>, mark: nat) returns (all: Tracker)
    ensures all == Extended(tracker, tmp, mark)
  {
    all := tracker;
    var todo := tmp;
    while todo != {}
      invariant todo <= tmp
      invariant all == Extended(tracker, tmp - todo, mark)
    {
      var id :| id in todo;
      if id !in all {
        all := all[id := Server(mark, false, Unknown)];
      }
      todo := todo - {id};
    }
    assert tmp - {} == tmp;
  }

  /** Activate or retire every tracked server, and find the servers that need a validation thread. */
  method ConfigureAll(all: Tracker, tmp: set<Identity>) returns (r: Tracker, started: set<Identity>)
    ensures r == map id | id in all :: Configured(all[id], id in tmp)
    ensures started == set id | id in all && NeedsValidation(Reactivated(all[id], id in tmp))
  {
    r, started := map[], {};
    var todo := all.Keys;
    while todo != {}
      invariant todo <= all.Keys && r.Keys == all.Keys - todo
      invariant forall id :: id in r ==> r[id] == Configured(all[id], id in tmp)
      invariant started == set id | id in r && NeedsValidation(Reactivated(all[id], id in tmp))
    {
      var id :| id in todo;
      todo := todo - {id};
      var server := all[id].(active := id in tmp);
      if !server.active && server.state == Success {
        server := server.(state := SuccessButExpired);
      }
      if NeedsValidation(server) {
        server := server.(state := InProcess);
        started := started + {id};
      }
      r := r[id := server];
    }
  }
}
