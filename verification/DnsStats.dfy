/** Scoring of the servers of one protocol by their recent latencies and failures (DnsStats.cpp). */
module DnsStatsSpec {
  import opened Bytes

  datatype SockAddr = SockAddr(ip: nat, port: nat)

  datatype Protocol = Udp | Tcp | DoT | DoH | Mdns

  const INVALID_IP: nat := 0
  const LOG_SIZE: nat := 128
  const MAX_QUALITY: int := 10000
  const EPERM: int := 1

  const NO_ERROR: int := 0
  const NXDOMAIN: int := 3
  const NOTAUTH: int := 9

  datatype Record = Record(rcode: int, errno: int, latencyUs: int)

  datatype Stats = Stats(
    records: seq<Record>, total: int, rcodeCounts: map<int, int>, latencyUs: int, penalty: int, skipped: int)

  const NO_STATS := Stats([], 0, map[], 0, 0, 0)

  type StatsMap = map<SockAddr, Stats>

  function CountIn(m: map<int, int>, rcode: int): (n: int)
  {
    if rcode in m then m[rcode] else 0
  }

  /** `updateStatsData` */
  function Accumulated(s: Stats, r: Record, sign: int): (t: Stats)
  {
    s.(total := s.total + sign,
       rcodeCounts := s.rcodeCounts[r.rcode := CountIn(s.rcodeCounts, r.rcode) + sign],
       latencyUs := s.latencyUs + sign * r.latencyUs)
  }

  /** `updatePenalty`; a failure for want of permission says nothing about the server. */
  function NextPenalty(penalty: int, r: Record): (p: int)
  {
    if r.errno == EPERM then penalty
    else if r.rcode == NO_ERROR || r.rcode == NXDOMAIN || r.rcode == NOTAUTH then 0
    else if penalty == 0 then 100
    else Min(penalty * 2, MAX_QUALITY)
  }

  /** `push` */
  function Pushed(s: Stats, r: Record): (t: Stats)
  {
    var a := Accumulated(s, r, 1).(records := s.records + [r]);
    var b := if |a.records| > LOG_SIZE then Accumulated(a, a.records[0], -1).(records := a.records[1..]) else a;
    b.(skipped := 0, penalty := NextPenalty(s.penalty, r))
  }

  function Skipped(s: Stats): (t: Stats)
  {
    s.(skipped := Min(s.skipped + 1, MAX_QUALITY))
  }

  /** Division that truncates toward zero. */
  function Truncated(a: int, b: int): (q: int)
    requires b > 0
  {
    if a >= 0 then a / b else -((-a) / b)
  }

  function AverageLatencyMs(s: Stats): (ms: int)
  {
    if s.total <= 0 then 0 else Truncated(Truncated(s.latencyUs, 1000), s.total)
  }

  function Quality(s: Stats): (q: int)
    ensures -1 <= q <= MAX_QUALITY
  {
    var q := AverageLatencyMs(s) + s.penalty - s.skipped;
    if q < -1 then -1 else if q > MAX_QUALITY then MAX_QUALITY else q
  }

  function Score(s: Stats): (x: real)
  {
    (MAX_QUALITY - Quality(s)) as real * 100.0 / MAX_QUALITY as real
  }

  const MAX_SCORE: real := (MAX_QUALITY + 1) as real * 100.0 / MAX_QUALITY as real

  predicate Registrable(addrs: seq<SockAddr>)
  {
    forall i :: 0 <= i < |addrs| ==> addrs[i].ip != INVALID_IP && addrs[i].port != 0
  }

  /** `setAddrs` */
  function AfterSetAddrs(m: StatsMap, addrs: seq<SockAddr>): (r: StatsMap)
  {
    if !Registrable(addrs) then m
    else map a | a in addrs :: if a in m then m[a] else NO_STATS
  }

  /** `addStats` */
  function AfterAddStats(m: StatsMap, addr: SockAddr, r: Record): (t: StatsMap)
  {
    if addr.ip == INVALID_IP then m
    else map a | a in m :: if a == addr then Pushed(m[a], r) else Skipped(m[a])
  }

  datatype Op = SetAddrs(addrs: seq<SockAddr>) | AddStats(addr: SockAddr, record: Record)

  function Exec(ops: seq<Op>): (m: StatsMap)
  {
    if ops == [] then map[]
    else
      var m := Exec(ops[..|ops| - 1]);
      match ops[|ops| - 1]
      case SetAddrs(addrs) => AfterSetAddrs(m, addrs)
      case AddStats(addr, r) => AfterAddStats(m, addr, r)
  }

  // ---------------------------------------------------------------------------
  // What a server's statistics are
  // ---------------------------------------------------------------------------

  /** Every record of the server since it was last registered anew. */
  function History(ops: seq<Op>, a: SockAddr): (h: seq<Record>)
  {
    if ops == [] then []
    else
      var before := ops[..|ops| - 1];
      match ops[|ops| - 1]
      case SetAddrs(addrs) => if a in Exec(before) then History(before, a) else []
      case AddStats(addr, r) =>
        if addr == a && a in Exec(before) && addr.ip != INVALID_IP then History(before, a) + [r] else History(before, a)
  }

  /** The latest 128 records. */
  function Window(h: seq<Record>): (w: seq<Record>)
    ensures |w| <= 128
  {
    if |h| <= 128 then h else h[|h| - 128..]
  }

  function Occurrences(h: seq<Record>, rcode: int): (n: nat)
  {
    if h == [] then 0 else Occurrences(h[1..], rcode) + if h[0].rcode == rcode then 1 else 0
  }

  function TotalLatency(h: seq<Record>): (n: int)
  {
    if h == [] then 0 else h[0].latencyUs + TotalLatency(h[1..])
  }

  /** The penalty after a whole history. */
  function PenaltyOf(h: seq<Record>): (p: int)
  {
    if h == [] then 0 else NextPenalty(PenaltyOf(h[..|h| - 1]), h[|h| - 1])
  }

  /** The statistics sum up the last at most 128 records. */
  ghost predicate SumsUp(s: Stats, h: seq<Record>)
  {
    && s.records == Window(h)
    && s.total == |Window(h)|
    && (forall rcode :: CountIn(s.rcodeCounts, rcode) == Occurrences(Window(h), rcode))
    && s.latencyUs == TotalLatency(Window(h))
    && s.penalty == PenaltyOf(h)
    && 0 <= s.skipped <= MAX_QUALITY
  }

  lemma {:induction false} Appended(h: seq<Record>, r: Record, rcode: int)
    ensures Occurrences(h + [r], rcode) == Occurrences(h, rcode) + if r.rcode == rcode then 1 else 0
    ensures TotalLatency(h + [r]) == TotalLatency(h) + r.latencyUs
  {
    if h == [] {
      assert h + [r] == [r];
      assert [r][1..] == [];
    } else {
      Appended(h[1..], r, rcode);
      assert (h + [r])[1..] == h[1..] + [r];
    }
  }

  lemma PushSumsUp(s: Stats, h: seq<Record>, r: Record)
    requires SumsUp(s, h)
    ensures SumsUp(Pushed(s, r), h + [r])
  {
    hide Occurrences, TotalLatency, PenaltyOf, NextPenalty;
    var w, t := Window(h), Pushed(s, r);
    assert PenaltyOf(h + [r]) == NextPenalty(PenaltyOf(h), r) by { PenaltyStep(h, r); }
    Appended(w, r, r.rcode);
    forall rcode ensures CountIn(t.rcodeCounts, rcode) == Occurrences(Window(h + [r]), rcode) {
      Appended(w, r, rcode);
      WindowStep(h, r, rcode);
    }
    WindowStep(h, r, r.rcode);
  }

  lemma PenaltyStep(h: seq<Record>, r: Record)
    ensures PenaltyOf(h + [r]) == NextPenalty(PenaltyOf(h), r)
  {
  }

  /** A full window drops its oldest record. */
  lemma WindowStep(h: seq<Record>, r: Record, rcode: int)
    ensures var w, v := Window(h) + [r], Window(h + [r]);
      if |w| > LOG_SIZE then
        && v == w[1..]
        && Occurrences(v, rcode) == Occurrences(w, rcode) - (if w[0].rcode == rcode then 1 else 0)
        && TotalLatency(v) == TotalLatency(w) - w[0].latencyUs
      else v == w
  {
  }

  /** The penalty is 0, or between 100 and 10000. */
  lemma {:induction false} PenaltyBounds(h: seq<Record>)
    ensures PenaltyOf(h) == 0 || 100 <= PenaltyOf(h) <= MAX_QUALITY
  {
    if h != [] { PenaltyBounds(h[..|h| - 1]); }
  }

  /** In every run, each registered server's statistics are the fold of its last records. */
  lemma {:induction false} StatsInEveryRun(ops: seq<Op>, a: SockAddr)
    requires a in Exec(ops)
    ensures SumsUp(Exec(ops)[a], History(ops, a))
    ensures Exec(ops)[a].penalty == 0 || 100 <= Exec(ops)[a].penalty <= MAX_QUALITY
  {
    hide Pushed, PenaltyOf, Window;
    if ops != [] {
      var before, op := ops[..|ops| - 1], ops[|ops| - 1];
      if a in Exec(before) { StatsInEveryRun(before, a); }
      match op {
        case SetAddrs(addrs) => if a !in Exec(before) { FreshSumsUp(); }
        case AddStats(addr, r) => if addr == a { PushSumsUp(Exec(before)[a], History(before, a), r); }
      }
    }
    PenaltyBounds(History(ops, a));
  }

  lemma FreshSumsUp()
    ensures SumsUp(NO_STATS, [])
  {
  }

  /** The operation sets a list of valid addresses. */
  predicate Registers(op: Op)
  {
    op.SetAddrs? && forall i :: 0 <= i < |op.addrs| ==> op.addrs[i].ip != 0 && op.addrs[i].port != 0
  }

  ghost predicate RegisteredBy(ops: seq<Op>, i: nat, a: SockAddr)
  {
    i < |ops| && Registers(ops[i]) && a in ops[i].addrs && forall k :: i < k < |ops| ==> !Registers(ops[k])
  }

  /** In every run the servers with statistics are those of the last valid list. */
  lemma {:induction false} RegisteredIff(ops: seq<Op>, a: SockAddr)
    ensures a in Exec(ops) <==> exists i: nat :: RegisteredBy(ops, i, a)
  {
    hide Pushed, Skipped;
    if ops != [] {
      var n := |ops| - 1;
      RegisteredIff(ops[..n], a);
      if Registers(ops[n]) {
        if a in ops[n].addrs { assert RegisteredBy(ops, n, a); }
      } else {
        forall i: nat
          ensures RegisteredBy(ops, i, a) <==> RegisteredBy(ops[..n], i, a)
        {
        }
      }
    }
  }

  // ---------------------------------------------------------------------------
  // Penalties and scores
  // ---------------------------------------------------------------------------

  /** Failures in a row at the end of the history; refusals of permission do not count either way. */
  function Failures(h: seq<Record>): (k: nat)
  {
    if h == [] then 0
    else
      var r, before := h[|h| - 1], h[..|h| - 1];
      if r.errno == 1 then Failures(before)
      else if r.rcode in {0, 3, 9} then 0
      else Failures(before) + 1
  }

  /** 100 for the first failure, doubled by each further one, up to 10000. */
  function Doubled(k: nat): (p: int)
    ensures 0 <= p <= 10000 && (p == 0 <==> k == 0) && (k > 0 ==> p >= 100)
  {
    if k == 0 then 0 else if k == 1 then 100 else if 2 * Doubled(k - 1) <= 10000 then 2 * Doubled(k - 1) else 10000
  }

  /** The penalty is that of the failures since the last answer: none after a good one. */
  lemma {:induction false} PenaltyIsOfFailures(h: seq<Record>)
    ensures PenaltyOf(h) == Doubled(Failures(h))
  {
    if h != [] { PenaltyIsOfFailures(h[..|h| - 1]); }
  }

  /** The average latency is the sum divided by the number of records, in whole milliseconds. */
  lemma AverageIs(s: Stats)
    requires s.total > 0 && s.latencyUs >= 0
    ensures var ms := AverageLatencyMs(s); ms * s.total * 1000 <= s.latencyUs < (ms + 1) * s.total * 1000
  {
    var a := s.latencyUs / 1000;
    var q := a / s.total;
    assert a == q * s.total + a % s.total;
    assert (q + 1) * s.total == q * s.total + s.total;
  }

  /** One server scores higher exactly if its latency and penalty, less its skips, are less within bounds. */
  lemma ScoreIff(s: Stats, t: Stats)
    ensures var x, y := AverageLatencyMs(s) + s.penalty - s.skipped, AverageLatencyMs(t) + t.penalty - t.skipped;
      Score(s) > Score(t) <==> x < y && x < 10000 && y > -1
  {
    hide AverageLatencyMs;
  }

  // ---------------------------------------------------------------------------
  // Starvation
  // ---------------------------------------------------------------------------

  function SkippedTimes(s: Stats, n: nat): (t: Stats)
  {
    if n == 0 then s else Skipped(SkippedTimes(s, n - 1))
  }

  lemma {:induction false} SkipsAddUp(s: Stats, n: nat)
    requires 0 <= s.skipped <= MAX_QUALITY
    ensures SkippedTimes(s, n) == s.(skipped := Min(s.skipped + n, MAX_QUALITY))
  {
    if n > 0 { SkipsAddUp(s, n - 1); }
  }

  /**
    After `n` records in a row that go elsewhere a server has the maximum score exactly when they
    outnumber its latency and penalty. So a server with latency and penalty q < 10000 gets there
    after q + 1 records at the latest, and a server with more never does.
   */
  lemma TopScoreIff(s: Stats, n: nat)
    requires 0 <= s.skipped <= MAX_QUALITY
    ensures Score(s) <= MAX_SCORE
    ensures Score(SkippedTimes(s, n)) == MAX_SCORE <==>
            AverageLatencyMs(s) + s.penalty < Min(s.skipped + n, MAX_QUALITY)
  {
    SkipsAddUp(s, n);
  }

  lemma NoStarvation(s: Stats)
    requires 0 <= s.skipped <= MAX_QUALITY && 0 <= AverageLatencyMs(s) + s.penalty < MAX_QUALITY
    ensures Score(SkippedTimes(s, AverageLatencyMs(s) + s.penalty + 1)) == MAX_SCORE
  {
    TopScoreIff(s, AverageLatencyMs(s) + s.penalty + 1);
  }

  /** Records for other servers only skip this one. */
  lemma {:induction false} SkipsInRun(ops: seq<Op>, others: seq<Op>, a: SockAddr)
    requires a in Exec(ops)
    requires forall i :: 0 <= i < |others| ==>
               others[i].AddStats? && others[i].addr != a && others[i].addr.ip != INVALID_IP
    ensures a in Exec(ops + others) && Exec(ops + others)[a] == SkippedTimes(Exec(ops)[a], |others|)
  {
    if others == [] {
      assert ops + others == ops;
    } else {
      var n := |others| - 1;
      SkipsInRun(ops, others[..n], a);
      assert (ops + others)[..|ops| + n] == ops + others[..n];
    }
  }

  /** In every run, a server of latency and penalty q < 10000 is at the top after q + 1 records for others. */
  lemma EveryServerReturns(ops: seq<Op>, others: seq<Op>, a: SockAddr)
    requires a in Exec(ops)
    requires forall i :: 0 <= i < |others| ==>
               others[i].AddStats? && others[i].addr != a && others[i].addr.ip != INVALID_IP
    requires var s := Exec(ops)[a];
      0 <= AverageLatencyMs(s) + s.penalty < MAX_QUALITY && |others| == AverageLatencyMs(s) + s.penalty + 1
    ensures a in Exec(ops + others) && Score(Exec(ops + others)[a]) == MAX_SCORE
  {
    hide Exec, Score, AverageLatencyMs;
    StatsInEveryRun(ops, a);
    SkipsInRun(ops, others, a);
    NoStarvation(Exec(ops)[a]);
  }

  /** The records for other servers since the server's latest own one, or since it was registered. */
  function PassedBy(ops: seq<Op>, a: SockAddr): (n: nat)
  {
    if ops == [] then 0
    else
      var before := ops[..|ops| - 1];
      match ops[|ops| - 1]
      case SetAddrs(_) => if a in Exec(before) then PassedBy(before, a) else 0
      case AddStats(addr, _) =>
        if addr.ip == INVALID_IP then PassedBy(before, a) else if addr == a then 0 else PassedBy(before, a) + 1
  }

  /** In every run, a server has been skipped that often, up to 10000 times. */
  lemma {:induction false} SkipsInEveryRun(ops: seq<Op>, a: SockAddr)
    requires a in Exec(ops)
    ensures Exec(ops)[a].skipped == Min(PassedBy(ops, a), 10000)
  {
    if ops != [] {
      var before := ops[..|ops| - 1];
      if a in Exec(before) { SkipsInEveryRun(before, a); }
    }
  }

  // ---------------------------------------------------------------------------
  // Ranking
  // ---------------------------------------------------------------------------

  /** The order of addresses in the map. */
  predicate Precedes(a: SockAddr, b: SockAddr)
  {
    a.ip < b.ip || (a.ip == b.ip && a.port < b.port)
  }

  /** Higher scores come first; equal scores in the order of their addresses. */
  predicate Outranks(m: StatsMap, a: SockAddr, b: SockAddr)
    requires a in m && b in m
  {
    Score(m[a]) > Score(m[b]) || (Score(m[a]) == Score(m[b]) && Precedes(a, b))
  }

  ghost predicate Ranked(m: StatsMap, list: seq<SockAddr>)
  {
    && (forall i :: 0 <= i < |list| ==> list[i] in m)
    && (forall i, j :: 0 <= i < j < |list| ==> Outranks(m, list[i], list[j]))
  }
}

module DnsStats {
  import opened Bytes
  import opened DnsStatsSpec

  class StatsRecords {
    var records: seq<Record>
    var total: int
    var rcodeCounts: map<int, int>
    var latencyUs: int
    var penalty: int
    var skipped: int

    ghost function View(): (s: Stats)
      reads this
    {
      Stats(records, total, rcodeCounts, latencyUs, penalty, skipped)
    }

    constructor ()
      ensures View() == NO_STATS
    {
      records, total, rcodeCounts, latencyUs, penalty, skipped := [], 0, map[], 0, 0, 0;
    }

    method Push(r: Record)
      modifies this
      ensures View() == Pushed(old(View()), r)
    {
      UpdateStatsData(r, true);
      records := records + [r];
      if |records| > LOG_SIZE {
        UpdateStatsData(records[0], false);
        records := records[1..];
      }
      skipped := 0;
      if r.errno != EPERM {
        UpdatePenalty(r);
      }
    }

    method UpdateStatsData(r: Record, add: bool)
      modifies this`total, this`rcodeCounts, this`latencyUs
      ensures View() == Accumulated(old(View()), r, if add then 1 else -1)
    {
      if r.rcode !in rcodeCounts { rcodeCounts := rcodeCounts[r.rcode := 0]; }
      if add {
        total := total + 1;
        rcodeCounts := rcodeCounts[r.rcode := rcodeCounts[r.rcode] + 1];
        latencyUs := latencyUs + r.latencyUs;
      } else {
        total := total - 1;
        rcodeCounts := rcodeCounts[r.rcode := rcodeCounts[r.rcode] - 1];
        latencyUs := latencyUs - r.latencyUs;
      }
    }

    method UpdatePenalty(r: Record)
      requires r.errno != EPERM
      modifies this`penalty
      ensures penalty == NextPenalty(old(penalty), r)
    {
      if r.rcode == NO_ERROR || r.rcode == NXDOMAIN || r.rcode == NOTAUTH {
        penalty := 0;
      } else if penalty == 0 {
        penalty := 100;
      } else {
        penalty := Min(penalty * 2, MAX_QUALITY);
      }
    }

    method IncrementSkippedCount()
      modifies this`skipped
      ensures View() == Skipped(old(View()))
    {
      skipped := Min(skipped + 1, MAX_QUALITY);
    }

    function CurrentScore(): (x: real)
      reads this
      ensures x == Score(View())
    {
      Score(Stats(records, total, rcodeCounts, latencyUs, penalty, skipped))
    }
  }

  /** The statistics of the servers of one protocol. */
  class DnsStats {
    const protocol: Protocol
    var stats: map<SockAddr, StatsRecords>

    /** No two servers share their statistics. */
    ghost predicate Valid()
      reads this
    {
      forall a, b :: a in stats && b in stats && a != b ==> stats[a] != stats[b]
    }

    ghost function View(): (m: StatsMap)
      reads this, stats.Values
    {
      map a | a in stats :: stats[a].View()
    }

    constructor (protocol: Protocol)
      ensures Valid() && View() == map[] && this.protocol == protocol
    {
      this.protocol := protocol;
      stats := map[];
    }

    method SetAddrs(addrs: seq<SockAddr>) returns (ok: bool)
      requires Valid()
      modifies this
      ensures Valid() && View() == AfterSetAddrs(old(View()), addrs)
      ensures ok <==> forall i :: 0 <= i < |addrs| ==> addrs[i].ip != 0 && addrs[i].port != 0
      ensures ok ==> forall a :: a in stats <==> a in addrs
      ensures ok ==> forall a :: a in stats ==>
                if a in old(stats) then stats[a] == old(stats)[a] else fresh(stats[a]) && stats[a].View() == NO_STATS
      ensures forall o :: o in stats.Values ==> fresh(o) || o in old(stats.Values)
    {
      ok := EnsureNoInvalidIp(addrs);
      if !ok { return; }
      Register(addrs);
      stats := Select(addrs);
    }

    method Select(addrs: seq<SockAddr>) returns (tmp: map<SockAddr, StatsRecords>)
      requires forall i :: 0 <= i < |addrs| ==> addrs[i] in stats
      ensures tmp == map a | a in addrs :: stats[a]
    {
      tmp := map[];
      for i := 0 to |addrs|
        invariant tmp.Keys == set k | 0 <= k < i :: addrs[k]
        invariant forall a :: a in tmp ==> a in stats && tmp[a] == stats[a]
      {
        tmp := tmp[addrs[i] := stats[addrs[i]]];
      }
    }

    /** Adds the servers that are not known yet. */
    method Register(addrs: seq<SockAddr>)
      requires Valid()
      modifies this
      ensures Valid() && stats.Keys == old(stats).Keys + set k | 0 <= k < |addrs| :: addrs[k]
      ensures forall a :: a in old(stats) ==> stats[a] == old(stats)[a]
      ensures forall a :: a in stats && a !in old(stats) ==> fresh(stats[a]) && stats[a].View() == NO_STATS
    {
      for i := 0 to |addrs|
        invariant Valid() && stats.Keys == old(stats).Keys + set k | 0 <= k < i :: addrs[k]
        invariant forall a :: a in old(stats) ==> stats[a] == old(stats)[a]
        invariant forall a :: a in stats && a !in old(stats) ==> fresh(stats[a]) && stats[a].View() == NO_STATS
      {
        if addrs[i] !in stats {
          var added := new StatsRecords();
          stats := stats[addrs[i] := added];
        }
      }
    }

    method AddStats(addr: SockAddr, r: Record) returns (added: bool)
      requires Valid()
      modifies stats.Values
      ensures Valid() && View() == AfterAddStats(old(View()), addr, r)
      ensures added <==> addr.ip != INVALID_IP && addr in stats
    {
      hide Pushed, Skipped;
      if addr.ip == INVALID_IP { return false; }
      added := false;
      var todo := stats.Keys;
      while todo != {}
        invariant todo <= stats.Keys
        invariant forall a :: a in todo ==> stats[a].View() == old(stats[a].View())
        invariant forall a :: a in stats && a !in todo ==>
                    var was := old(stats[a].View());
                    stats[a].View() == if a == addr then Pushed(was, r) else Skipped(was)
        invariant added <==> addr in stats && addr !in todo
      {
        var a :| a in todo;
        if a == addr {
          stats[a].Push(r);
          added := true;
        } else {
          stats[a].IncrementSkippedCount();
        }
        todo := todo - {a};
      }
    }

    /** The servers, best first: insertion into a list kept in decreasing order, in the order of the map. */
    method GetSortedServers() returns (list: seq<SockAddr>)
      ensures Ranked(View(), list)
      ensures forall i, j :: 0 <= i < j < |list| ==>
                list[i] in stats && list[j] in stats && stats[list[i]].CurrentScore() >= stats[list[j]].CurrentScore()
      ensures protocol == DoT ==> list == []
      ensures protocol != DoT ==> forall a :: a in list <==> a in stats
    {
      list := [];
      if protocol == DoT { return; }
      var todo := stats.Keys;
      while todo != {}
        invariant todo <= stats.Keys
        invariant forall a :: a in list <==> a in stats && a !in todo
        invariant forall a, b :: a in list && b in todo ==> Precedes(a, b)
        invariant Ranked(View(), list)
      {
        FirstExists(todo);
        var a :| a in todo && IsFirst(a, todo);
        var i := UpperBound(list, a);
        list := list[..i] + [a] + list[i..];
        todo := todo - {a};
      }
    }

    /** The first place behind every server that scores at least as well as `a`. */
    method UpperBound(list: seq<SockAddr>, a: SockAddr) returns (i: nat)
      requires a in stats && Ranked(View(), list) && forall b :: b in list ==> b in stats && Precedes(b, a)
      ensures i <= |list|
      ensures Ranked(View(), list[..i] + [a] + list[i..])
    {
      hide Score;
      i := 0;
      while i < |list| && stats[list[i]].CurrentScore() >= stats[a].CurrentScore()
        invariant i <= |list|
        invariant forall k :: 0 <= k < i ==> Outranks(View(), list[k], a)
      {
        i := i + 1;
      }
      forall k | i <= k < |list| ensures Outranks(View(), a, list[k]) {
        if i < k { assert Outranks(View(), list[i], list[k]); }
      }
    }
  }

  method EnsureNoInvalidIp(addrs: seq<SockAddr>) returns (ok: bool)
    ensures ok <==> Registrable(addrs)
  {
    for i := 0 to |addrs|
      invariant forall k :: 0 <= k < i ==> addrs[k].ip != INVALID_IP && addrs[k].port != 0
    {
      if addrs[i].ip == INVALID_IP || addrs[i].port == 0 { return false; }
    }
    return true;
  }

  /** A set of addresses has a first one. */
  lemma {:induction false} FirstExists(s: set<SockAddr>)
    requires s != {}
    ensures exists a :: IsFirst(a, s)
  {
    var x :| x in s;
    var rest := s - {x};
    if rest == {} {
      assert s == {x};
      assert IsFirst(x, s);
    } else {
      FirstExists(rest);
      var y :| IsFirst(y, rest);
      var first := if Precedes(x, y) then x else y;
      forall b | b in s && b != first ensures Precedes(first, b) {
        assert b == x || b == y || Precedes(y, b);
        assert x.ip != y.ip || x.port != y.port;
      }
      assert IsFirst(first, s);
    }
  }

  predicate IsFirst(a: SockAddr, s: set<SockAddr>)
  {
    a in s && forall b :: b in s && b != a ==> Precedes(a, b)
  }
}
