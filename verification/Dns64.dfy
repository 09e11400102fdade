/**
  Discovery of the NAT64 prefix of a network (Dns64Configuration.cpp). Discovery threads are
  detached and cannot be cancelled; a discovery ID tells a thread whether its result is still
  wanted. Every event is one critical section of the configuration lock.
 */
module Dns64Spec {
  import opened Bytes

  type Net = nat

  datatype Family = V4 | V6

  datatype Prefix = Prefix(family: Family, scope: nat, length: nat, bits: nat)

  /** Discovery IDs are 32 bits wide and never 0, so they repeat after this many starts. */
  const PERIOD: nat := 4294967295

  const NO_DISCOVERY: nat := 0

  /** `birth` numbers the start that made the entry. The code never reads it. */
  datatype Config = Config(id: nat, prefix: Option<Prefix>, birth: nat)

  /** A discovery thread holds a copy of the entry that its start made. */
  datatype Thread = Thread(net: Net, id: nat, birth: nat)

  datatype Notice = Notice(net: Net, added: bool, prefix: Prefix)

  datatype State = State(
    configs: map<Net, Config>,
    nextId: nat,
    starts: nat,
    threads: set<Thread>,
    notices: seq<Notice>)

  datatype Event =
    | Start(n: Net)
    | Stop(n: Net)
    | SetPrefix(n: Net, pfx: Option<Prefix>)
    | ClearPrefix(n: Net)
    | Poll(t: Thread)
    | Record(t: Thread, bits: nat)

  function NextId(id: nat): (r: nat)
    ensures r != NO_DISCOVERY
  {
    var r := (id + 1) % (PERIOD + 1);
    if r != 0 then r else 1
  }

  predicate FromDiscovery(c: Config) { c.id != NO_DISCOVERY }

  /** Discovery looks up an IPv6 address without a scope and takes its first 96 bits. */
  function Discovered(bits: nat): (p: Prefix) { Prefix(V6, 0, 96, bits) }

  /** `reportNat64PrefixStatus` */
  function Report(notices: seq<Notice>, n: Net, added: bool, p: Prefix): (r: seq<Notice>)
  {
    if p.family != V6 || p.scope != 0 then notices else notices + [Notice(n, added, p)]
  }

  /** `removeDns64Config` */
  function Removed(s: State, n: Net): (t: State)
  {
    if n !in s.configs then s
    else
      var c := s.configs[n];
      s.(configs := s.configs - {n},
         notices := if FromDiscovery(c) && c.prefix.Some?
                    then Report(s.notices, n, false, c.prefix.value) else s.notices)
  }

  /** `startPrefixDiscovery` */
  function AfterStart(s: State, n: Net): (t: State)
  {
    var r := Removed(s, n);
    var id := NextId(s.nextId);
    r.(configs := r.configs[n := Config(id, None, s.starts + 1)],
       nextId := id,
       starts := s.starts + 1,
       threads := s.threads + {Thread(n, id, s.starts + 1)})
  }

  /** `isDiscoveryInProgress` */
  predicate InProgress(configs: map<Net, Config>, t: Thread)
  {
    t.net in configs && configs[t.net].id == t.id
  }

  /** `recordDns64Config`, after which the thread ends. */
  function AfterRecord(s: State, t: Thread, bits: nat): (r: State)
  {
    var ended := s.(threads := s.threads - {t});
    if !InProgress(s.configs, t) then ended
    else
      var p := Discovered(bits);
      var u := Removed(ended, t.net);
      u.(configs := u.configs[t.net := Config(t.id, Some(p), t.birth)],
         notices := Report(u.notices, t.net, true, p))
  }

  predicate Settable(p: Option<Prefix>) { p.Some? && p.value.family == V6 && p.value.length == 96 }

  /** `setPrefix64` */
  function AfterSetPrefix(s: State, n: Net, p: Option<Prefix>): (t: State)
  {
    if !Settable(p) then s                                           // -EINVAL
    else if n in s.configs && FromDiscovery(s.configs[n]) then s     // -EEXIST
    else s.(configs := s.configs[n := Config(NO_DISCOVERY, p, 0)])
  }

  /** `clearPrefix64` */
  function AfterClearPrefix(s: State, n: Net): (t: State)
  {
    if n !in s.configs || FromDiscovery(s.configs[n]) then s         // -ENOENT
    else s.(configs := s.configs - {n})
  }

  /** No discovery thread outlives a whole period of discovery IDs. */
  ghost predicate Timely(s: State)
  {
    forall t :: t in s.threads ==> s.starts + 1 - t.birth < PERIOD
  }

  /** The event, when its thread is there. */
  function Step(s: State, e: Event): (t: Option<State>)
  {
    match e
    case Start(n) => Some(AfterStart(s, n))
    case Stop(n) => Some(Removed(s, n))
    case SetPrefix(n, p) => Some(AfterSetPrefix(s, n, p))
    case ClearPrefix(n) => Some(AfterClearPrefix(s, n))
    case Poll(t) =>
      if t !in s.threads then None
      else if InProgress(s.configs, t) then Some(s) else Some(s.(threads := s.threads - {t}))
    case Record(t, bits) => if t in s.threads then Some(AfterRecord(s, t, bits)) else None
  }

  ghost function Next(s: State, e: Event): (t: Option<State>)
  {
    if e.Start? && !Timely(s) then None else Step(s, e)
  }

  function Initial(first: nat): (s: State)
  {
    State(map[], first, 0, {}, [])
  }

  /** A run from an unset first ID. */
  ghost function Exec(first: nat, events: seq<Event>): (s: Option<State>)
  {
    if events == [] then Some(Initial(first))
    else
      var s := Exec(first, events[..|events| - 1]);
      if s.None? then None else Next(s.value, events[|events| - 1])
  }

  // ---------------------------------------------------------------------------
  // Discovery IDs
  // ---------------------------------------------------------------------------

  /** The ID of the k-th start, when `mNextId` was `first` before the first one. */
  function IdAt(first: nat, k: nat): (id: nat)
    requires k >= 1
    ensures 1 <= id <= PERIOD
  {
    (first + k - 1) % PERIOD + 1
  }

  predicate IsNextId(first: nat, starts: nat, id: nat)
  {
    if starts == 0 then id == first else id == IdAt(first, starts)
  }

  lemma NextIdIsIdAt(first: nat, starts: nat, id: nat)
    requires first <= PERIOD && IsNextId(first, starts, id)
    ensures NextId(id) == IdAt(first, starts + 1)
  {
    if starts > 0 {
      var x := first + starts - 1;
      var q, r := x / PERIOD, x % PERIOD;
      assert x + 1 == q * PERIOD + r + 1;
      if r + 1 == PERIOD {
        assert x + 1 == (q + 1) * PERIOD;
      }
      assert (x + 1) % PERIOD == if r + 1 == PERIOD then 0 else r + 1;
    }
  }

  /** Two starts share a discovery ID exactly when they are whole periods apart. */
  lemma IdsCollideIff(first: nat, a: nat, b: nat)
    requires 1 <= a && 1 <= b
    ensures IdAt(first, a) == IdAt(first, b) <==> (b - a) % PERIOD == 0
  {
    var x, y := first + a - 1, first + b - 1;
    var q := y / PERIOD - x / PERIOD;
    assert y - x == q * PERIOD + (y % PERIOD - x % PERIOD);
    if (b - a) % PERIOD == 0 {
      var d := (y - x) / PERIOD;
      assert y - x == d * PERIOD;
      assert (d - q) * PERIOD == y % PERIOD - x % PERIOD;
    }
  }

  // ---------------------------------------------------------------------------
  // What every interleaving keeps
  // ---------------------------------------------------------------------------

  /** The prefix last announced for the network and not withdrawn since. */
  function Outstanding(notices: seq<Notice>, n: Net): (p: Option<Prefix>)
  {
    if notices == [] then None
    else
      var e := notices[|notices| - 1];
      if e.net == n then (if e.added then Some(e.prefix) else None)
      else Outstanding(notices[..|notices| - 1], n)
  }

  /** Notices about each network alternate: added p, removed p, added q, removed q, ... */
  predicate Alternate(notices: seq<Notice>)
  {
    notices == [] ||
    (var before, e := notices[..|notices| - 1], notices[|notices| - 1];
     && Alternate(before)
     && Outstanding(before, e.net) == if e.added then None else Some(e.prefix))
  }

  /** The discovered prefix of a network. */
  function DiscoveredPrefix(configs: map<Net, Config>, n: Net): (p: Option<Prefix>)
  {
    if n in configs && FromDiscovery(configs[n]) then configs[n].prefix else None
  }

  ghost predicate NoticesOk(configs: map<Net, Config>, notices: seq<Notice>)
  {
    && Alternate(notices)
    && (forall n :: Outstanding(notices, n) == DiscoveredPrefix(configs, n))
  }

  ghost predicate ThreadsOk(first: nat, configs: map<Net, Config>, starts: nat, threads: set<Thread>)
  {
    && (forall t :: t in threads ==> 1 <= t.birth <= starts < t.birth + PERIOD && t.id == IdAt(first, t.birth))
    && (forall t :: t in threads && t.net in configs && FromDiscovery(configs[t.net]) ==>
          t.birth <= configs[t.net].birth)
  }

  ghost predicate ConfigsOk(first: nat, configs: map<Net, Config>, starts: nat, threads: set<Thread>)
  {
    forall n :: n in configs ==> ConfigOk(first, configs[n], starts, threads, n)
  }

  ghost predicate ConfigOk(first: nat, c: Config, starts: nat, threads: set<Thread>, n: Net)
  {
    if FromDiscovery(c) then
      && 1 <= c.birth <= starts && c.id == IdAt(first, c.birth)
      && (c.prefix.Some? ==> c.prefix.value.family == V6 && c.prefix.value.scope == 0 && c.prefix.value.length == 96)
      && (c.prefix.None? ==> Thread(n, c.id, c.birth) in threads)
    else Settable(c.prefix)
  }

  ghost predicate Inv(first: nat, s: State)
  {
    && first <= PERIOD && IsNextId(first, s.starts, s.nextId)
    && NoticesOk(s.configs, s.notices)
    && ThreadsOk(first, s.configs, s.starts, s.threads)
    && ConfigsOk(first, s.configs, s.starts, s.threads)
  }

  lemma RemovedKeepsNotices(first: nat, s: State, n: Net)
    requires NoticesOk(s.configs, s.notices) && ConfigsOk(first, s.configs, s.starts, s.threads)
    ensures NoticesOk(Removed(s, n).configs, Removed(s, n).notices)
    ensures DiscoveredPrefix(Removed(s, n).configs, n) == None
  {
  }

  lemma RemovedKeepsInv(first: nat, s: State, n: Net)
    requires Inv(first, s)
    ensures Inv(first, Removed(s, n))
  {
  }

  lemma StartKeepsInv(first: nat, s: State, n: Net)
    requires Inv(first, s) && Timely(s)
    ensures Inv(first, AfterStart(s, n))
  {
    hide IdAt, NextId;
    RemovedKeepsNotices(first, s, n);
    NextIdIsIdAt(first, s.starts, s.nextId);
    var r, t := Removed(s, n), AfterStart(s, n);
    forall m ensures Outstanding(t.notices, m) == DiscoveredPrefix(t.configs, m) {
      assert Outstanding(r.notices, m) == DiscoveredPrefix(r.configs, m);
    }
  }

  /** The thread that a live entry is waiting for is the only one that can change the table. */
  lemma InProgressIsCurrent(first: nat, configs: map<Net, Config>, starts: nat, threads: set<Thread>, t: Thread)
    requires ThreadsOk(first, configs, starts, threads) && ConfigsOk(first, configs, starts, threads) && t in threads
    ensures InProgress(configs, t) <==>
            t.net in configs && FromDiscovery(configs[t.net]) && configs[t.net].birth == t.birth
  {
  }

  lemma RecordKeepsNotices(first: nat, s: State, t: Thread, bits: nat)
    requires Inv(first, s) && InProgress(s.configs, t) && t.id != NO_DISCOVERY
    ensures NoticesOk(AfterRecord(s, t, bits).configs, AfterRecord(s, t, bits).notices)
  {
    hide ThreadsOk;
    var u, r := Removed(s, t.net), AfterRecord(s, t, bits);
    RemovedKeepsNotices(first, s, t.net);
    assert r.notices[..|r.notices| - 1] == u.notices;
    forall m ensures Outstanding(r.notices, m) == DiscoveredPrefix(r.configs, m) {
      assert Outstanding(u.notices, m) == DiscoveredPrefix(u.configs, m);
    }
  }

  lemma RecordKeepsInv(first: nat, s: State, t: Thread, bits: nat)
    requires Inv(first, s) && t in s.threads
    ensures Inv(first, AfterRecord(s, t, bits))
  {
    hide NoticesOk, IdAt;
    InProgressIsCurrent(first, s.configs, s.starts, s.threads, t);
    if InProgress(s.configs, t) { RecordKeepsNotices(first, s, t, bits); }
  }

  lemma PollKeepsInv(first: nat, s: State, t: Thread)
    requires Inv(first, s) && t in s.threads && !InProgress(s.configs, t)
    ensures Inv(first, s.(threads := s.threads - {t}))
  {
  }

  lemma SetPrefixKeepsInv(first: nat, s: State, n: Net, p: Option<Prefix>)
    requires Inv(first, s)
    ensures Inv(first, AfterSetPrefix(s, n, p))
  {
  }

  lemma ClearPrefixKeepsInv(first: nat, s: State, n: Net)
    requires Inv(first, s)
    ensures Inv(first, AfterClearPrefix(s, n))
  {
  }

  lemma NextKeepsInv(first: nat, s: State, e: Event)
    requires Inv(first, s) && Next(s, e).Some?
    ensures Inv(first, Next(s, e).value)
  {
    hide Inv, Removed, AfterStart, AfterRecord, AfterSetPrefix, AfterClearPrefix;
    match e {
      case Start(n) => StartKeepsInv(first, s, n);
      case Stop(n) => RemovedKeepsInv(first, s, n);
      case SetPrefix(n, p) => SetPrefixKeepsInv(first, s, n, p);
      case ClearPrefix(n) => ClearPrefixKeepsInv(first, s, n);
      case Poll(t) => if !InProgress(s.configs, t) { PollKeepsInv(first, s, t); }
      case Record(t, bits) => RecordKeepsInv(first, s, t, bits);
    }
  }

  lemma {:induction false} ExecKeepsInv(first: nat, events: seq<Event>)
    requires first <= PERIOD && Exec(first, events).Some?
    ensures Inv(first, Exec(first, events).value)
  {
    hide Next;
    if events != [] {
      var n := |events| - 1;
      ExecKeepsInv(first, events[..n]);
      NextKeepsInv(first, Exec(first, events[..n]).value, events[n]);
    }
  }

  /**
    In every run the notices about a network strictly alternate between an added prefix and
    the removal of that same prefix; a prefix is outstanding exactly when the current entry was
    discovered and holds it; and an entry whose discovery is not over has its thread.
   */
  lemma NoticesInEveryRun(first: nat, events: seq<Event>, n: Net)
    requires first <= PERIOD && Exec(first, events).Some?
    ensures var s := Exec(first, events).value;
      && Alternate(s.notices)
      && Outstanding(s.notices, n) == DiscoveredPrefix(s.configs, n)
      && (n in s.configs && FromDiscovery(s.configs[n]) && s.configs[n].prefix.None? ==>
            Thread(n, s.configs[n].id, s.configs[n].birth) in s.threads)
  {
    hide Exec;
    ExecKeepsInv(first, events);
    var s := Exec(first, events).value;
    if n in s.configs { assert ConfigOk(first, s.configs[n], s.starts, s.threads, n); }
  }

  /** A thread whose entry was replaced, removed or overridden leaves the table and the notices alone. */
  lemma SupersededThreadsAreFenced(first: nat, events: seq<Event>, t: Thread, bits: nat)
    requires first <= PERIOD && Exec(first, events).Some? && t in Exec(first, events).value.threads
    requires var configs := Exec(first, events).value.configs;
      !(t.net in configs && FromDiscovery(configs[t.net]) && configs[t.net].birth == t.birth)
    ensures var s := Exec(first, events).value;
      AfterRecord(s, t, bits) == s.(threads := s.threads - {t})
  {
    hide Exec;
    ExecKeepsInv(first, events);
    var s := Exec(first, events).value;
    InProgressIsCurrent(first, s.configs, s.starts, s.threads, t);
  }

  // ---------------------------------------------------------------------------
  // The bound on the life of a thread is tight
  // ---------------------------------------------------------------------------

  /** A run without that bound. */
  function Unbounded(first: nat, events: seq<Event>): (s: Option<State>)
  {
    if events == [] then Some(Initial(first))
    else
      var s := Unbounded(first, events[..|events| - 1]);
      if s.None? then None else Step(s.value, events[|events| - 1])
  }

  /** Every discovery ID is that of the start it comes from. */
  ghost predicate IdsOk(first: nat, s: State)
  {
    && IsNextId(first, s.starts, s.nextId)
    && (forall t :: t in s.threads ==> 1 <= t.birth && t.id == IdAt(first, t.birth))
    && (forall n :: n in s.configs && FromDiscovery(s.configs[n]) ==>
          1 <= s.configs[n].birth && s.configs[n].id == IdAt(first, s.configs[n].birth))
  }

  lemma StepKeepsIds(first: nat, s: State, e: Event)
    requires first <= PERIOD && IdsOk(first, s) && Step(s, e).Some?
    ensures IdsOk(first, Step(s, e).value)
  {
    hide IdAt, NextId, Report;
    NextIdIsIdAt(first, s.starts, s.nextId);
  }

  lemma {:induction false} IdsInEveryRun(first: nat, events: seq<Event>)
    requires first <= PERIOD && Unbounded(first, events).Some?
    ensures IdsOk(first, Unbounded(first, events).value)
  {
    hide Step, IdsOk;
    if events == [] {
      InitialIds(first);
    } else {
      var n := |events| - 1;
      IdsInEveryRun(first, events[..n]);
      StepKeepsIds(first, Unbounded(first, events[..n]).value, events[n]);
    }
  }

  lemma InitialIds(first: nat)
    ensures IdsOk(first, Initial(first))
  {
  }

  /**
    In every run, however long threads live, a thread is taken for the current one exactly when the
    entry of its network comes from a discovery that started whole periods away from its own.
   */
  lemma TakenForCurrentIff(first: nat, events: seq<Event>, t: Thread)
    requires first <= PERIOD && Unbounded(first, events).Some? && t in Unbounded(first, events).value.threads
    ensures var configs := Unbounded(first, events).value.configs;
      InProgress(configs, t) <==>
        t.net in configs && FromDiscovery(configs[t.net]) && (configs[t.net].birth - t.birth) % PERIOD == 0
  {
    hide Unbounded, IdAt;
    IdsInEveryRun(first, events);
    var configs := Unbounded(first, events).value.configs;
    if t.net in configs && FromDiscovery(configs[t.net]) {
      IdsCollideIff(first, t.birth, configs[t.net].birth);
    }
  }

  function Starts(n: Net, k: nat): (events: seq<Event>)
    ensures |events| == k
  {
    seq(k, _ => Start(n))
  }

  /** After `k` starts for one network: the entry of the last, and a thread of each. */
  ghost predicate Started(s: State, first: nat, n: Net, k: nat)
    requires k >= 1
  {
    && s.configs == map[n := Config(IdAt(first, k), None, k)]
    && s.starts == k && s.nextId == IdAt(first, k) && s.notices == []
    && (forall i :: 1 <= i <= k ==> Thread(n, IdAt(first, i), i) in s.threads)
  }

  lemma {:induction false} StartsRun(first: nat, n: Net, k: nat)
    requires first <= PERIOD && k >= 1
    ensures Unbounded(first, Starts(n, k)).Some? && Started(Unbounded(first, Starts(n, k)).value, first, n, k)
  {
    hide IdAt, NextId;
    assert Starts(n, k)[..k - 1] == Starts(n, k - 1);
    if k == 1 {
      NextIdIsIdAt(first, 0, first);
    } else {
      StartsRun(first, n, k - 1);
      var s := Unbounded(first, Starts(n, k - 1)).value;
      NextIdIsIdAt(first, k - 1, s.nextId);
      StartedMore(s, first, n, k - 1);
    }
  }

  lemma StartedMore(s: State, first: nat, n: Net, k: nat)
    requires k >= 1 && Started(s, first, n, k) && NextId(s.nextId) == IdAt(first, k + 1)
    ensures Started(AfterStart(s, n), first, n, k + 1)
  {
    hide IdAt, NextId;
  }

  /**
    One period of starts after its own, the first thread is taken for the current one: its late
    report replaces the entry of the discovery in progress and announces its own prefix.
   */
  lemma StaleThreadOverwrites(first: nat, n: Net, bits: nat)
    requires first <= PERIOD
    ensures var events, t := Starts(n, PERIOD + 1), Thread(n, IdAt(first, 1), 1);
      && Unbounded(first, events).Some?
      && var s := Unbounded(first, events).value;
      && t in s.threads && n in s.configs && s.configs[n].prefix == None && s.configs[n].birth == PERIOD + 1 != t.birth
      && var r := AfterRecord(s, t, bits);
      && r.configs == map[n := Config(t.id, Some(Discovered(bits)), 1)]
      && r.notices == [Notice(n, true, Discovered(bits))]
  {
    hide IdAt;
    StartsRun(first, n, PERIOD + 1);
    IdsCollideIff(first, 1, PERIOD + 1);
  }
}

module Dns64 {
  import opened Bytes
  import opened Dns64Spec

  const EINVAL: int := -22
  const EEXIST: int := -17
  const ENOENT: int := -2

  class Dns64Configuration {
    var configs: map<Net, Config>
    var nextId: nat
    /** Starts so far; used only to number them. */
    var starts: nat
    /** The discovery threads still running. */
    var threads: set<Thread>
    /** What the prefix callback was told. */
    var notices: seq<Notice>

    ghost function Now(): (s: State)
      reads this
    {
      State(configs, nextId, starts, threads, notices)
    }

    constructor (first: nat)
      ensures Now() == State(map[], first, 0, {}, [])
    {
      configs, nextId, starts, threads, notices := map[], first, 0, {}, [];
    }

    method ReportNat64PrefixStatus(n: Net, added: bool, pfx: Prefix) returns (sent: bool)
      modifies this`notices
      ensures notices == Report(old(notices), n, added, pfx)
      ensures sent <==> pfx.family == V6 && pfx.scope == 0
    {
      if pfx.family != V6 || pfx.scope != 0 { return false; }
      notices := notices + [Notice(n, added, pfx)];
      return true;
    }

    method RemoveDns64Config(n: Net)
      modifies this`configs, this`notices
      ensures Now() == Removed(old(Now()), n)
    {
      if n !in configs { return; }
      var cfg := configs[n];
      configs := configs - {n};
      if FromDiscovery(cfg) && cfg.prefix.Some? {
        var _ := ReportNat64PrefixStatus(n, false, cfg.prefix.value);
      }
    }

    method GetNextId() returns (id: nat)
      requires nextId <= PERIOD
      modifies this`nextId
      ensures id == nextId == NextId(old(nextId)) && 1 <= id <= PERIOD
    {
      nextId := (nextId + 1) % (PERIOD + 1);
      if nextId == 0 { nextId := nextId + 1; }
      id := nextId;
    }

    method StartPrefixDiscovery(n: Net)
      requires nextId <= PERIOD
      modifies this
      ensures Now() == AfterStart(old(Now()), n)
      ensures n in configs && configs[n].prefix.None? && configs[n].id == nextId != 0
      ensures threads == old(threads) + {Thread(n, configs[n].id, configs[n].birth)}
      ensures configs - {n} == old(configs) - {n}
      ensures notices == old(notices) || exists p :: notices == old(notices) + [Notice(n, false, p)]
    {
      RemoveDns64Config(n);
      var id := GetNextId();
      starts := starts + 1;
      configs := configs[n := Config(id, None, starts)];
      threads := threads + {Thread(n, id, starts)};
    }

    method StopPrefixDiscovery(n: Net)
      modifies this`configs, this`notices
      ensures Now() == Removed(old(Now()), n)
      ensures configs == old(configs) - {n}
    {
      RemoveDns64Config(n);
    }

    /** What a discovery thread does between two waits: give up, report what it found, or go on. */
    method Poll(t: Thread) returns (continues: bool)
      requires t in threads
      modifies this`threads
      ensures Next(old(Now()), Event.Poll(t)) == Some(Now())
      ensures continues <==> t in threads
      ensures continues <==> t.net in configs && configs[t.net].id == t.id
    {
      continues := InProgress(configs, t);
      if !continues { threads := threads - {t}; }
    }

    method RecordDns64Config(t: Thread, bits: nat)
      requires t in threads
      modifies this`configs, this`notices, this`threads
      ensures Now() == AfterRecord(old(Now()), t, bits)
      ensures threads == old(threads) - {t} && configs - {t.net} == old(configs) - {t.net}
      ensures var p := Prefix(V6, 0, 96, bits);
        if t.net in old(configs) && old(configs)[t.net].id == t.id
        then t.net in configs && configs[t.net].prefix == Some(p) && configs[t.net].id == t.id
             && notices != [] && notices[|notices| - 1] == Notice(t.net, true, p)
        else configs == old(configs) && notices == old(notices)
    {
      threads := threads - {t};
      if !InProgress(configs, t) { return; }
      RemoveDns64Config(t.net);
      configs := configs[t.net := Config(t.id, Some(Discovered(bits)), t.birth)];
      var _ := ReportNat64PrefixStatus(t.net, true, Discovered(bits));
    }

    method SetPrefix64(n: Net, pfx: Option<Prefix>) returns (code: int)
      modifies this`configs
      ensures Now() == AfterSetPrefix(old(Now()), n, pfx)
      ensures code == if pfx.None? || pfx.value.family != V6 || pfx.value.length != 96 then EINVAL
                      else if n in old(configs) && old(configs)[n].id != 0 then EEXIST else 0
      ensures if code == 0
              then n in configs && configs[n].prefix == pfx && configs[n].id == 0 && configs - {n} == old(configs) - {n}
              else configs == old(configs)
    {
      if pfx.None? || pfx.value.family != V6 || pfx.value.length != 96 { return EINVAL; }
      if n in configs {
        if FromDiscovery(configs[n]) { return EEXIST; }
        configs := configs - {n};
      }
      configs := configs[n := Config(NO_DISCOVERY, pfx, 0)];
      return 0;
    }

    method ClearPrefix64(n: Net) returns (code: int)
      modifies this`configs
      ensures Now() == AfterClearPrefix(old(Now()), n)
      ensures code == if n !in old(configs) || old(configs)[n].id != 0 then ENOENT else 0
      ensures configs == if code == 0 then old(configs) - {n} else old(configs)
    {
      if n !in configs || FromDiscovery(configs[n]) { return ENOENT; }
      configs := configs - {n};
      return 0;
    }
  }
}
