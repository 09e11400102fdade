/**
  The plaintext attempts of `res_nsend` (res_send.cpp): a loop over passes and servers that may
  fall back from UDP to TCP. What a server does in each exchange is arbitrary.
 */
module SendLoop {
  import opened Bytes

  /** The outcome of one UDP or TCP exchange. `errorAnswer` marks an error or an answer without data. */
  datatype Reply = Reply(resplen: int, fallback: bool, errorAnswer: bool)

  /** One exchange: the pass it belongs to, the server, the protocol, and whether it counts for statistics. */
  datatype Exchange = Exchange(pass: nat, ns: nat, tcp: bool, sampled: bool)

  /** A query of at most 512 octets is small; `tryAll` asks every server before an error is returned. */
  datatype Params = Params(small: bool, udpTcpMode: bool, tryAll: bool)

  datatype Outcome = Answered(resplen: int) | Failed | FirstError(resplen: int) | NoAnswer

  /** How the servers behave: the reply to the i-th exchange, and whether the client has gone after i exchanges. */
  datatype World = World(reply: nat -> Reply, closed: nat -> bool)

  /** A later exchange is in a later pass, or with a later server, or repeats a UDP exchange over TCP. */
  predicate Later(a: Exchange, b: Exchange)
  {
    || a.pass < b.pass
    || (a.pass == b.pass && (a.ns < b.ns || (a.ns == b.ns && !a.tcp && b.tcp)))
  }

  ghost predicate Ordered(log: seq<Exchange>)
  {
    forall i, j :: 0 <= i < j < |log| ==> Later(log[i], log[j])
  }

  /** TCP ends the retries: nothing after a TCP exchange belongs to another pass. */
  ghost predicate TcpIsLast(log: seq<Exchange>)
  {
    forall i, j :: 0 <= i < j < |log| && log[i].tcp ==> log[j].pass == log[i].pass
  }

  /** Statistics are taken in the first pass, up to the first TCP exchange. */
  ghost predicate SampledRightly(log: seq<Exchange>)
  {
    forall j :: 0 <= j < |log| ==>
      (log[j].sampled <==> log[j].pass == 0 && forall i :: 0 <= i < j ==> !log[i].tcp)
  }

  /** Every exchange is with a usable server in an allowed pass. */
  ghost predicate InBounds(log: seq<Exchange>, usable: seq<bool>, retryTimes: int)
  {
    forall i :: 0 <= i < |log| ==> log[i].pass < retryTimes && log[i].ns < |usable| && usable[log[i].ns]
  }

  predicate FallsBack(e: Exchange, r: Reply) { !e.tcp && r.fallback && r.resplen != 0 }

  /** An answer that the caller wants to see only if no server does better. */
  predicate Shelved(e: Exchange, r: Reply, tryAll: bool)
  {
    tryAll && r.errorAnswer && r.resplen > 0 && !FallsBack(e, r)
  }

  /** The exchange does not settle the query. */
  predicate Inconclusive(e: Exchange, r: Reply, tryAll: bool)
  {
    r.resplen == 0 || FallsBack(e, r) || Shelved(e, r, tryAll)
  }

  ghost predicate AllInconclusive(log: seq<Exchange>, w: World, tryAll: bool)
  {
    forall i :: 0 <= i < |log| ==> Inconclusive(log[i], w.reply(i), tryAll)
  }

  /** The servers that have given an answer that was shelved. */
  ghost function ShelvedBy(log: seq<Exchange>, w: World, tryAll: bool): (r: set<nat>)
  {
    set i | 0 <= i < |log| && Shelved(log[i], w.reply(i), tryAll) :: log[i].ns
  }

  /** The first shelved answer is from exchange `i`. */
  ghost predicate FirstShelved(log: seq<Exchange>, w: World, tryAll: bool, i: nat)
  {
    && i < |log| && Shelved(log[i], w.reply(i), tryAll)
    && forall j :: 0 <= j < i ==> !Shelved(log[j], w.reply(j), tryAll)
  }

  // ---------------------------------------------------------------------------
  // Which exchange comes next
  // ---------------------------------------------------------------------------

  /** The server is usable, and no answer of its own has been shelved. */
  ghost predicate Due(ns: nat, usable: seq<bool>, log: seq<Exchange>, w: World, tryAll: bool)
  {
    ns < |usable| && usable[ns] && ns !in ShelvedBy(log, w, tryAll)
  }

  /** Server `m` in pass `k` comes after the last exchange. */
  predicate After(log: seq<Exchange>, k: nat, m: nat)
  {
    log == [] || log[|log| - 1].pass < k || (log[|log| - 1].pass == k && log[|log| - 1].ns < m)
  }

  predicate Before(k: nat, m: nat, pass: nat, ns: nat)
  {
    k < pass || (k == pass && m < ns)
  }

  /** No server that is due lies between the last exchange and server `ns` in pass `pass`. */
  ghost predicate PassedOverNone(log: seq<Exchange>, usable: seq<bool>, w: World, tryAll: bool, pass: nat, ns: nat)
  {
    forall k: nat, m: nat :: After(log, k, m) && Before(k, m, pass, ns) ==> !Due(m, usable, log, w, tryAll)
  }

  /** The protocol after these exchanges: TCP for large queries and after a fallback, until a server fails on it. */
  predicate TcpNext(log: seq<Exchange>, w: World, small: bool, udpTcpMode: bool)
  {
    if log == [] then !small
    else
      var r := w.reply(|log| - 1);
      if log[|log| - 1].tcp then !(small && r.resplen <= 0 && udpTcpMode) else r.fallback
  }

  /** The last exchange is to be repeated over TCP. */
  predicate Repeats(log: seq<Exchange>, w: World)
  {
    log != [] && FallsBack(log[|log| - 1], w.reply(|log| - 1))
  }

  /** `e` is the exchange to make after `log`, if one is made at all. */
  ghost predicate IsNext(log: seq<Exchange>, e: Exchange, usable: seq<bool>, w: World, p: Params)
  {
    && e.tcp == TcpNext(log, w, p.small, p.udpTcpMode)
    && Due(e.ns, usable, log, w, p.tryAll)
    && (if Repeats(log, w) then e.pass == log[|log| - 1].pass && e.ns == log[|log| - 1].ns
        else After(log, e.pass, e.ns) && PassedOverNone(log, usable, w, p.tryAll, e.pass, e.ns))
    && (e.pass > 0 && (log == [] || log[|log| - 1].pass < e.pass) ==> !w.closed(|log|))
  }

  /** Every exchange is the next one after those before it. */
  ghost predicate InTurn(log: seq<Exchange>, usable: seq<bool>, w: World, p: Params)
  {
    forall i :: 0 <= i < |log| ==> IsNext(log[..i], log[i], usable, w, p)
  }

  /** After `stop` passes there was no server left to ask, or no pass to make, or nobody to make it for. */
  ghost predicate StopsAfter(stop: nat, log: seq<Exchange>, usable: seq<bool>, retryTimes: int, w: World, p: Params)
  {
    && !Repeats(log, w) && PassedOverNone(log, usable, w, p.tryAll, stop, 0)
    && (log != [] ==> log[|log| - 1].pass < stop)
    && (|| stop >= retryTimes
        || (log != [] && stop == log[|log| - 1].pass + 1 && exists i :: 0 <= i < |log| && log[i].tcp)
        || (stop > 0 && w.closed(|log|)))
  }

  /** A run that no exchange settled has asked every server it should have. */
  ghost predicate Exhausts(outcome: Outcome, log: seq<Exchange>, usable: seq<bool>, retryTimes: int, w: World,
                           p: Params)
  {
    outcome.Answered? || outcome.Failed? || exists stop: nat :: StopsAfter(stop, log, usable, retryTimes, w, p)
  }

  /** What the loop has established so far, apart from where it is. */
  ghost predicate Good(log: seq<Exchange>, usable: seq<bool>, retryTimes: int)
  {
    Ordered(log) && TcpIsLast(log) && SampledRightly(log) && InBounds(log, usable, retryTimes)
  }

  /** The result is decided by the last exchange, or by the absence of a decision. */
  ghost predicate Explains(outcome: Outcome, log: seq<Exchange>, w: World, tryAll: bool, usable: seq<bool>)
  {
    var n := |log| - 1;
    match outcome
    case Answered(len) =>
      && n >= 0 && AllInconclusive(log[..n], w, tryAll)
      && !Inconclusive(log[n], w.reply(n), tryAll) && w.reply(n).resplen == len > 0
    case Failed =>
      && n >= 0 && AllInconclusive(log[..n], w, tryAll)
      && !Inconclusive(log[n], w.reply(n), tryAll) && w.reply(n).resplen < 0
    case FirstError(len) =>
      && AllInconclusive(log, w, tryAll)
      && (exists i: nat :: FirstShelved(log, w, tryAll, i) && w.reply(i).resplen == len)
      && (forall ns :: 0 <= ns < |usable| && usable[ns] ==> ns in ShelvedBy(log, w, tryAll))
    case NoAnswer =>
      && AllInconclusive(log, w, tryAll)
      && (ShelvedBy(log, w, tryAll) == {}
          || exists ns :: 0 <= ns < |usable| && usable[ns] && ns !in ShelvedBy(log, w, tryAll))
  }

  /** Everything that `Send` promises. */
  ghost predicate Allowed(outcome: Outcome, log: seq<Exchange>, usable: seq<bool>, retryTimes: int, w: World, p: Params)
  {
    && Good(log, usable, retryTimes) && Explains(outcome, log, w, p.tryAll, usable)
    && InTurn(log, usable, w, p) && Exhausts(outcome, log, usable, retryTimes, w, p)
  }

  lemma AppendGood(log: seq<Exchange>, usable: seq<bool>, retryTimes: int, e: Exchange, tcpUsed: bool)
    requires Good(log, usable, retryTimes)
    requires forall i :: 0 <= i < |log| ==> Later(log[i], e)
    requires tcpUsed <==> exists i :: 0 <= i < |log| && log[i].tcp
    requires forall i :: 0 <= i < |log| && log[i].tcp ==> e.pass == log[i].pass
    requires e.sampled <==> e.pass == 0 && !tcpUsed
    requires e.pass < retryTimes && e.ns < |usable| && usable[e.ns]
    ensures Good(log + [e], usable, retryTimes)
  {
    var more := log + [e];
    forall j | 0 <= j < |more|
      ensures more[j].sampled <==> more[j].pass == 0 && forall i :: 0 <= i < j ==> !more[i].tcp
    {
      if j < |log| {
        assert forall i :: 0 <= i < j ==> more[i] == log[i];
      } else {
        assert forall i :: 0 <= i < |log| ==> more[i] == log[i];
      }
    }
  }

  lemma AppendShelved(log: seq<Exchange>, w: World, tryAll: bool, e: Exchange)
    ensures var r := w.reply(|log|);
      ShelvedBy(log + [e], w, tryAll) ==
        ShelvedBy(log, w, tryAll) + (if Shelved(e, r, tryAll) then {e.ns} else {})
    ensures forall i: nat :: FirstShelved(log, w, tryAll, i) ==> FirstShelved(log + [e], w, tryAll, i)
  {
  }

  /** The servers set aside are those whose answers were shelved, and the first such answer is kept. */
  ghost predicate Shelf(usable: seq<bool>, now: seq<bool>, firstError: Option<int>, first: nat,
                        log: seq<Exchange>, w: World, tryAll: bool)
  {
    && |now| == |usable|
    && (forall ns :: 0 <= ns < |usable| ==> (now[ns] <==> usable[ns] && ns !in ShelvedBy(log, w, tryAll)))
    && (firstError.None? <==> ShelvedBy(log, w, tryAll) == {})
    && (firstError.Some? ==> FirstShelved(log, w, tryAll, first) && firstError.value == w.reply(first).resplen)
  }

  lemma AppendShelf(usable: seq<bool>, now: seq<bool>, firstError: Option<int>, first: nat,
                    log: seq<Exchange>, w: World, tryAll: bool, e: Exchange)
    requires Shelf(usable, now, firstError, first, log, w, tryAll) && e.ns < |usable|
    ensures var r := w.reply(|log|);
      if !Shelved(e, r, tryAll) then Shelf(usable, now, firstError, first, log + [e], w, tryAll)
      else if firstError.Some? then Shelf(usable, now[e.ns := false], firstError, first, log + [e], w, tryAll)
      else Shelf(usable, now[e.ns := false], Some(r.resplen), |log|, log + [e], w, tryAll)
  {
    hide Shelved, ShelvedBy;
    AppendShelved(log, w, tryAll, e);
    if firstError.None? { NoneShelved(log, w, tryAll); }
  }

  lemma NoneShelved(log: seq<Exchange>, w: World, tryAll: bool)
    requires ShelvedBy(log, w, tryAll) == {}
    ensures forall i :: 0 <= i < |log| ==> !Shelved(log[i], w.reply(i), tryAll)
  {
    forall i | 0 <= i < |log| ensures !Shelved(log[i], w.reply(i), tryAll) {
      assert log[i].ns !in ShelvedBy(log, w, tryAll);
    }
  }

  /** Where the loop is: the exchanges so far all come before the one it would make next. */
  ghost predicate Placed(log: seq<Exchange>, pass: nat, ns: int, useTcp: bool, tcpUsed: bool)
  {
    && ns >= 0
    && (tcpUsed <==> exists i :: 0 <= i < |log| && log[i].tcp)
    && (forall i :: 0 <= i < |log| && log[i].tcp ==> log[i].pass == pass)
    && (forall i :: 0 <= i < |log| ==> Later(log[i], Exchange(pass, ns, useTcp, false)))
  }

  lemma PlacedAfter(log: seq<Exchange>, pass: nat, ns: nat, useTcp: bool, tcpUsed: bool,
                    sampled: bool, fallback: bool, next: bool)
    requires Placed(log, pass, ns, useTcp, tcpUsed) && (fallback ==> !useTcp && next)
    ensures var more := log + [Exchange(pass, ns, useTcp, sampled)];
      Placed(more, pass, if fallback then ns else ns + 1, next, tcpUsed || useTcp)
  {
    var more := log + [Exchange(pass, ns, useTcp, sampled)];
    assert more[|log|].tcp == useTcp && forall i :: 0 <= i < |log| ==> more[i] == log[i];
  }

  lemma PlacedSkip(log: seq<Exchange>, pass: nat, ns: nat, useTcp: bool, tcpUsed: bool)
    requires Placed(log, pass, ns, useTcp, tcpUsed)
    ensures Placed(log, pass, ns + 1, useTcp, tcpUsed)
  {
  }

  lemma PlacedNextPass(log: seq<Exchange>, pass: nat, ns: nat, useTcp: bool)
    requires Placed(log, pass, ns, useTcp, false)
    ensures Placed(log, pass + 1, 0, useTcp, false)
  {
  }

  /** A reply that settles the query. */
  lemma Settled(log: seq<Exchange>, e: Exchange, w: World, tryAll: bool, usable: seq<bool>)
    requires AllInconclusive(log, w, tryAll) && !Inconclusive(e, w.reply(|log|), tryAll)
    ensures var r := w.reply(|log|);
      Explains(if r.resplen < 0 then Failed else Answered(r.resplen), log + [e], w, tryAll, usable)
  {
  }

  /** Where the loop is in its turn: the server it looks at next, and the protocol it would use. */
  ghost predicate AtTurn(log: seq<Exchange>, usable: seq<bool>, w: World, p: Params, pass: nat, ns: nat, useTcp: bool)
  {
    && InTurn(log, usable, w, p) && useTcp == TcpNext(log, w, p.small, p.udpTcpMode)
    && (if Repeats(log, w)
        then pass == log[|log| - 1].pass && ns == log[|log| - 1].ns && Due(ns, usable, log, w, p.tryAll)
        else After(log, pass, ns) && PassedOverNone(log, usable, w, p.tryAll, pass, ns))
    && (pass > 0 && (log == [] || log[|log| - 1].pass < pass) ==> !w.closed(|log|))
  }

  lemma SkipTurn(log: seq<Exchange>, usable: seq<bool>, w: World, p: Params, pass: nat, ns: nat, useTcp: bool)
    requires AtTurn(log, usable, w, p, pass, ns, useTcp) && !Due(ns, usable, log, w, p.tryAll)
    ensures AtTurn(log, usable, w, p, pass, ns + 1, useTcp)
  {
    hide InTurn, Due;
  }

  lemma TakeTurn(log: seq<Exchange>, usable: seq<bool>, w: World, p: Params, e: Exchange)
    requires AtTurn(log, usable, w, p, e.pass, e.ns, e.tcp) && Due(e.ns, usable, log, w, p.tryAll)
    ensures InTurn(log + [e], usable, w, p)
  {
    hide ShelvedBy;
    var more := log + [e];
    forall i | 0 <= i < |more|
      ensures IsNext(more[..i], more[i], usable, w, p)
    {
      if i < |log| {
        assert more[..i] == log[..i];
      } else {
        assert more[..i] == log;
      }
    }
  }

  /** After an exchange that settles nothing it is the next server's turn, or the same server's over TCP. */
  lemma NextTurn(log: seq<Exchange>, usable: seq<bool>, w: World, p: Params, e: Exchange, useTcp: bool)
    requires InTurn(log + [e], usable, w, p) && Due(e.ns, usable, log, w, p.tryAll)
    requires useTcp == TcpNext(log + [e], w, p.small, p.udpTcpMode)
    ensures var again := FallsBack(e, w.reply(|log|));
      AtTurn(log + [e], usable, w, p, e.pass, if again then e.ns else e.ns + 1, useTcp)
  {
    hide InTurn, ShelvedBy;
    AppendShelved(log, w, p.tryAll, e);
  }

  lemma NewPass(log: seq<Exchange>, usable: seq<bool>, w: World, p: Params, pass: nat, useTcp: bool)
    requires AtTurn(log, usable, w, p, pass, |usable|, useTcp)
    ensures !Repeats(log, w) && PassedOverNone(log, usable, w, p.tryAll, pass + 1, 0)
    ensures log != [] ==> log[|log| - 1].pass < pass + 1
    ensures !w.closed(|log|) ==> AtTurn(log, usable, w, p, pass + 1, 0, useTcp)
  {
    hide InTurn, ShelvedBy;
  }

  /** The loop may stop here: nothing is left to ask in the passes made so far. */
  ghost predicate MayStop(log: seq<Exchange>, usable: seq<bool>, w: World, p: Params, pass: nat)
  {
    !Repeats(log, w) && PassedOverNone(log, usable, w, p.tryAll, pass, 0) && (log != [] ==> log[|log| - 1].pass < pass)
  }

  /** TCP was used in the pass before `pass`, which ends the retries. */
  predicate TcpEnded(log: seq<Exchange>, pass: nat)
  {
    log != [] && pass == log[|log| - 1].pass + 1 && exists i :: 0 <= i < |log| && log[i].tcp
  }

  /** What the loop knows of the exchanges so far, none of which settled the query. */
  ghost predicate Open(usable: seq<bool>, now: seq<bool>, firstError: Option<int>, first: nat,
                       log: seq<Exchange>, w: World, p: Params, retryTimes: int)
  {
    && Good(log, usable, retryTimes) && AllInconclusive(log, w, p.tryAll) && InTurn(log, usable, w, p)
    && Shelf(usable, now, firstError, first, log, w, p.tryAll)
  }

  /** Inside a pass, about to look at server `ns`. */
  ghost predicate AtServer(usable: seq<bool>, log: seq<Exchange>, w: World, p: Params, pass: nat, ns: int, useTcp: bool,
                           tcpUsed: bool)
  {
    Placed(log, pass, ns, useTcp, tcpUsed) && AtTurn(log, usable, w, p, pass, ns, useTcp)
  }

  /** Between passes: `pass` is the next one. */
  ghost predicate AtPass(usable: seq<bool>, log: seq<Exchange>, w: World, p: Params, pass: nat, useTcp: bool)
  {
    && Placed(log, pass, 0, useTcp, false)
    && (pass == 0 || !w.closed(|log|) ==> AtTurn(log, usable, w, p, pass, 0, useTcp))
  }

  lemma SkipServer(usable: seq<bool>, now: seq<bool>, firstError: Option<int>, first: nat, log: seq<Exchange>,
                   w: World, p: Params, retryTimes: int, pass: nat, ns: nat, useTcp: bool, tcpUsed: bool)
    requires Open(usable, now, firstError, first, log, w, p, retryTimes)
    requires AtServer(usable, log, w, p, pass, ns, useTcp, tcpUsed) && ns < |usable|
    ensures now[ns] <==> Due(ns, usable, log, w, p.tryAll)
    ensures !now[ns] ==> AtServer(usable, log, w, p, pass, ns + 1, useTcp, tcpUsed)
  {
    hide ShelvedBy, AtTurn, Placed;
    if !now[ns] {
      PlacedSkip(log, pass, ns, useTcp, tcpUsed);
      SkipTurn(log, usable, w, p, pass, ns, useTcp);
    }
  }

  /** Where the loop is after exchange `e`, if that did not settle the query. */
  lemma Exchanged(usable: seq<bool>, log: seq<Exchange>, w: World, p: Params, tcpUsed: bool, e: Exchange)
    requires AtServer(usable, log, w, p, e.pass, e.ns, e.tcp, tcpUsed) && Due(e.ns, usable, log, w, p.tryAll)
    ensures var more := log + [e]; var again := FallsBack(e, w.reply(|log|));
      && InTurn(more, usable, w, p)
      && AtServer(usable, more, w, p, e.pass, if again then e.ns else e.ns + 1,
                  TcpNext(more, w, p.small, p.udpTcpMode), tcpUsed || e.tcp)
  {
    hide AtTurn, Placed, Due;
    var next := TcpNext(log + [e], w, p.small, p.udpTcpMode);
    TakeTurn(log, usable, w, p, e);
    NextTurn(log, usable, w, p, e, next);
    PlacedAfter(log, e.pass, e.ns, e.tcp, tcpUsed, e.sampled, FallsBack(e, w.reply(|log|)), next);
  }

  /** What an exchange adds to what is known, whether it settles the query or not. */
  lemma Learned(usable: seq<bool>, now: seq<bool>, firstError: Option<int>, first: nat, log: seq<Exchange>,
                w: World, p: Params, retryTimes: int, tcpUsed: bool, e: Exchange)
    requires Open(usable, now, firstError, first, log, w, p, retryTimes) && e.pass < retryTimes
    requires AtServer(usable, log, w, p, e.pass, e.ns, e.tcp, tcpUsed) && Due(e.ns, usable, log, w, p.tryAll)
    requires e.sampled <==> e.pass == 0 && !tcpUsed
    ensures var more, r := log + [e], w.reply(|log|);
      && Good(more, usable, retryTimes) && InTurn(more, usable, w, p)
      && if !Inconclusive(e, r, p.tryAll) then
           Explains(if r.resplen < 0 then Failed else Answered(r.resplen), more, w, p.tryAll, usable)
         else if !Shelved(e, r, p.tryAll) then Open(usable, now, firstError, first, more, w, p, retryTimes)
         else if firstError.Some? then Open(usable, now[e.ns := false], firstError, first, more, w, p, retryTimes)
         else Open(usable, now[e.ns := false], Some(r.resplen), |log|, more, w, p, retryTimes)
  {
    hide Good, AtTurn, InTurn, AllInconclusive, Shelf, Explains, ShelvedBy;
    Exchanged(usable, log, w, p, tcpUsed, e);
    AppendGood(log, usable, retryTimes, e, tcpUsed);
    AppendShelf(usable, now, firstError, first, log, w, p.tryAll, e);
    AppendInconclusive(log, w, p.tryAll, e);
    if !Inconclusive(e, w.reply(|log|), p.tryAll) { Settled(log, e, w, p.tryAll, usable); }
  }

  /**
    The loop over passes and servers. It ends whatever the servers do, although it writes its own
    counters: `attempt` jumps to its limit on TCP, and a fallback steps `ns` back.
   */
  method Send(usable: seq<bool>, retryTimes: int, p: Params, w: World)
    returns (outcome: Outcome, log: seq<Exchange>)
    ensures Allowed(outcome, log, usable, retryTimes, w, p)
  {
    hide Open, AtServer, AtPass, MayStop, Good, Explains, InTurn, Exhausts, Due, TcpEnded;
    log := [];
    NothingSent(usable, retryTimes, w, p);
    var usableServers := usable;
    var useTcp := !p.small;
    var firstError: Option<int> := None;
    ghost var first: nat := 0;
    var pass: nat := 0;
    var attempt: int := 0;
    while attempt < retryTimes
      invariant |usableServers| == |usable|
      invariant Open(usable, usableServers, firstError, first, log, w, p, retryTimes)
      invariant MayStop(log, usable, w, p, pass)
      invariant attempt < retryTimes ==> attempt == pass && AtPass(usable, log, w, p, pass, useTcp)
      invariant attempt >= retryTimes ==> pass >= retryTimes || TcpEnded(log, pass)
      decreases retryTimes - attempt
    {
      if attempt > 0 && w.closed(|log|) { break; }
      StartOfPass(usable, log, w, p, pass, useTcp);
      ghost var tcpUsed := false;
      var ns: int := 0;
      while ns < |usable|
        invariant 0 <= ns <= |usable| == |usableServers|
        invariant Open(usable, usableServers, firstError, first, log, w, p, retryTimes)
        invariant AtServer(usable, log, w, p, pass, ns, useTcp, tcpUsed)
        invariant pass < retryTimes && attempt == if tcpUsed then retryTimes else pass
        decreases |usable| - ns, if useTcp then 0 else 1
      {
        SkipServer(usable, usableServers, firstError, first, log, w, p, retryTimes, pass, ns, useTcp, tcpUsed);
        if !usableServers[ns] {
          ns := ns + 1;
          continue;
        }
        var e := Exchange(pass, ns, useTcp, attempt == 0);
        var r := w.reply(|log|);
        Learned(usable, usableServers, firstError, first, log, w, p, retryTimes, tcpUsed, e);
        Exchanged(usable, log, w, p, tcpUsed, e);
        log := log + [e];
        tcpUsed := tcpUsed || e.tcp;
        var fallbackTcp := false;
        if useTcp {
          attempt := retryTimes;
          if p.small && r.resplen <= 0 && p.udpTcpMode { useTcp := false; }
        } else {
          useTcp := r.fallback;
          fallbackTcp := useTcp;
        }
        if r.resplen == 0 {
        } else if fallbackTcp {
          ns := ns - 1;
        } else if r.resplen < 0 {
          outcome := Failed;
          SettledExhausts(outcome, log, usable, retryTimes, w, p);
          return;
        } else if p.tryAll && r.errorAnswer {
          usableServers := usableServers[ns := false];
          if firstError.None? {
            firstError := Some(r.resplen);
            first := |log| - 1;
          }
        } else {
          outcome := Answered(r.resplen);
          SettledExhausts(outcome, log, usable, retryTimes, w, p);
          return;
        }
        ns := ns + 1;
      }
      EndOfPass(usable, usableServers, firstError, first, log, w, p, retryTimes, pass, useTcp, tcpUsed);
      attempt := attempt + 1;
      pass := pass + 1;
    }
    var left := AnyUsable(usableServers);
    outcome := if firstError.Some? && !left then FirstError(firstError.value) else NoAnswer;
    Unsettled(outcome, usable, usableServers, firstError, first, log, w, p, retryTimes);
    StopExhausts(outcome, log, usable, retryTimes, w, p, pass);
  }

  lemma NothingSent(usable: seq<bool>, retryTimes: int, w: World, p: Params)
    ensures Open(usable, usable, None, 0, [], w, p, retryTimes) && MayStop([], usable, w, p, 0)
    ensures AtPass(usable, [], w, p, 0, !p.small)
  {
  }

  lemma StartOfPass(usable: seq<bool>, log: seq<Exchange>, w: World, p: Params, pass: nat, useTcp: bool)
    requires AtPass(usable, log, w, p, pass, useTcp) && (pass == 0 || !w.closed(|log|))
    ensures AtServer(usable, log, w, p, pass, 0, useTcp, false)
  {
    hide AtTurn, Placed;
  }

  lemma EndOfPass(usable: seq<bool>, now: seq<bool>, firstError: Option<int>, first: nat, log: seq<Exchange>,
                  w: World, p: Params, retryTimes: int, pass: nat, useTcp: bool, tcpUsed: bool)
    requires Open(usable, now, firstError, first, log, w, p, retryTimes)
    requires AtServer(usable, log, w, p, pass, |usable|, useTcp, tcpUsed)
    ensures MayStop(log, usable, w, p, pass + 1)
    ensures if tcpUsed then TcpEnded(log, pass + 1) else AtPass(usable, log, w, p, pass + 1, useTcp)
  {
    hide InTurn, PassedOverNone, Due, Shelf, AtTurn;
    NewPass(log, usable, w, p, pass, useTcp);
    if tcpUsed {
      TcpPass(log, pass, |usable|, useTcp);
    } else {
      PlacedNextPass(log, pass, |usable|, useTcp);
    }
  }

  lemma TcpPass(log: seq<Exchange>, pass: nat, ns: nat, useTcp: bool)
    requires Ordered(log) && Placed(log, pass, ns, useTcp, true)
    ensures TcpEnded(log, pass + 1)
  {
    var i, n :| 0 <= i < |log| && log[i].tcp && n == |log| - 1;
    if i < n { assert Later(log[i], log[n]); }
    assert Later(log[n], Exchange(pass, ns, useTcp, false));
  }

  lemma SettledExhausts(outcome: Outcome, log: seq<Exchange>, usable: seq<bool>, retryTimes: int, w: World, p: Params)
    requires outcome.Answered? || outcome.Failed?
    ensures Exhausts(outcome, log, usable, retryTimes, w, p)
  {
  }

  lemma StopExhausts(outcome: Outcome, log: seq<Exchange>, usable: seq<bool>, retryTimes: int, w: World, p: Params,
                     pass: nat)
    requires MayStop(log, usable, w, p, pass)
    requires pass >= retryTimes || TcpEnded(log, pass) || (pass > 0 && w.closed(|log|))
    ensures Exhausts(outcome, log, usable, retryTimes, w, p)
  {
    assert StopsAfter(pass, log, usable, retryTimes, w, p);
  }

  method AnyUsable(usable: seq<bool>) returns (any: bool)
    ensures any <==> exists i :: 0 <= i < |usable| && usable[i]
  {
    any := false;
    for i := 0 to |usable|
      invariant any <==> exists k :: 0 <= k < i && usable[k]
    {
      any := any || usable[i];
    }
  }

  lemma AppendInconclusive(log: seq<Exchange>, w: World, tryAll: bool, e: Exchange)
    requires AllInconclusive(log, w, tryAll)
    ensures Inconclusive(e, w.reply(|log|), tryAll) ==> AllInconclusive(log + [e], w, tryAll)
  {
  }

  /** When no exchange settled the query, the first error is the result iff every usable server gave one. */
  lemma Unsettled(outcome: Outcome, usable: seq<bool>, now: seq<bool>, firstError: Option<int>, first: nat,
                  log: seq<Exchange>, w: World, p: Params, retryTimes: int)
    requires Open(usable, now, firstError, first, log, w, p, retryTimes)
    requires var left := exists i :: 0 <= i < |now| && now[i];
      outcome == if firstError.Some? && !left then FirstError(firstError.value) else NoAnswer
    ensures Explains(outcome, log, w, p.tryAll, usable)
    ensures Good(log, usable, retryTimes) && InTurn(log, usable, w, p)
  {
    hide Good, InTurn;
  }

  // ---------------------------------------------------------------------------
  // Nothing else can happen
  // ---------------------------------------------------------------------------

  lemma NextIsUnique(log: seq<Exchange>, e: Exchange, f: Exchange, usable: seq<bool>, w: World, p: Params)
    requires IsNext(log, e, usable, w, p) && IsNext(log, f, usable, w, p)
    ensures e.pass == f.pass && e.ns == f.ns && e.tcp == f.tcp
  {
    hide ShelvedBy, TcpNext;
    if !Repeats(log, w) {
      assert !Before(e.pass, e.ns, f.pass, f.ns);
      assert !Before(f.pass, f.ns, e.pass, e.ns);
    }
  }

  lemma {:induction false} SamePrefix(a: seq<Exchange>, b: seq<Exchange>, usable: seq<bool>, w: World, p: Params,
                                      n: nat)
    requires InTurn(a, usable, w, p) && InTurn(b, usable, w, p) && SampledRightly(a) && SampledRightly(b)
    requires n <= |a| && n <= |b|
    ensures a[..n] == b[..n]
  {
    hide IsNext;
    if n > 0 {
      SamePrefix(a, b, usable, w, p, n - 1);
      NextIsUnique(a[..n - 1], a[n - 1], b[n - 1], usable, w, p);
      assert forall i :: 0 <= i < n - 1 ==> a[i] == a[..n - 1][i] == b[..n - 1][i] == b[i];
      assert a[n - 1].sampled == b[n - 1].sampled;
    }
  }

  /** Where the loop may stop, it cannot go on. */
  lemma StopIsFinal(stop: nat, log: seq<Exchange>, e: Exchange, usable: seq<bool>, retryTimes: int, w: World, p: Params)
    requires StopsAfter(stop, log, usable, retryTimes, w, p)
    requires Good(log + [e], usable, retryTimes)
    ensures !IsNext(log, e, usable, w, p)
  {
    hide ShelvedBy, TcpNext;
    var more, n := log + [e], |log|;
    assert more[n] == e && forall i :: 0 <= i < n ==> more[i] == log[i];
  }

  lemma GoodPrefix(log: seq<Exchange>, usable: seq<bool>, retryTimes: int, n: nat)
    requires Good(log, usable, retryTimes) && n <= |log|
    ensures Good(log[..n], usable, retryTimes)
  {
    var part := log[..n];
    assert forall i :: 0 <= i < n ==> part[i] == log[i];
    forall j | 0 <= j < n
      ensures part[j].sampled <==> part[j].pass == 0 && forall i :: 0 <= i < j ==> !part[i].tcp
    {
    }
  }

  lemma NeverLonger(o: Outcome, a: seq<Exchange>, q: Outcome, b: seq<Exchange>, usable: seq<bool>, retryTimes: int,
                    w: World, p: Params)
    requires Allowed(o, a, usable, retryTimes, w, p) && Allowed(q, b, usable, retryTimes, w, p)
    ensures |b| <= |a|
  {
    hide Good, IsNext, StopsAfter, ShelvedBy, FirstShelved;
    var n := |a|;
    if n < |b| {
      SampledOf(a, usable, retryTimes);
      SampledOf(b, usable, retryTimes);
      SamePrefix(a, b, usable, w, p, n);
      assert b[..n] == a;
      if !o.Answered? && !o.Failed? {
        var stop: nat :| StopsAfter(stop, a, usable, retryTimes, w, p);
        GoodPrefix(b, usable, retryTimes, n + 1);
        assert b[..n + 1] == a + [b[n]];
        StopIsFinal(stop, a, b[n], usable, retryTimes, w, p);
      }
    }
  }

  lemma SampledOf(log: seq<Exchange>, usable: seq<bool>, retryTimes: int)
    requires Good(log, usable, retryTimes)
    ensures SampledRightly(log)
  {
  }

  lemma SameOutcome(o: Outcome, q: Outcome, log: seq<Exchange>, usable: seq<bool>, w: World, tryAll: bool)
    requires Explains(o, log, w, tryAll, usable) && Explains(q, log, w, tryAll, usable)
    ensures o == q
  {
    hide ShelvedBy;
    if o.FirstError? || q.FirstError? {
      var i: nat :| FirstShelved(log, w, tryAll, i);
      ShelvedIn(log, w, tryAll, i);
    }
  }

  lemma ShelvedIn(log: seq<Exchange>, w: World, tryAll: bool, i: nat)
    requires i < |log| && Shelved(log[i], w.reply(i), tryAll)
    ensures log[i].ns in ShelvedBy(log, w, tryAll)
  {
  }

  /** For every behaviour of the servers, what `Send` promises leaves exactly one log and one outcome. */
  lemma SendIsDetermined(o: Outcome, a: seq<Exchange>, q: Outcome, b: seq<Exchange>, usable: seq<bool>, retryTimes: int,
                         w: World, p: Params)
    requires Allowed(o, a, usable, retryTimes, w, p) && Allowed(q, b, usable, retryTimes, w, p)
    ensures a == b && o == q
  {
    hide Good, InTurn, Explains;
    NeverLonger(o, a, q, b, usable, retryTimes, w, p);
    NeverLonger(q, b, o, a, usable, retryTimes, w, p);
    SampledOf(a, usable, retryTimes);
    SampledOf(b, usable, retryTimes);
    SamePrefix(a, b, usable, w, p, |a|);
    assert a[..|a|] == a && b[..|a|] == b;
    SameOutcome(o, q, a, usable, w, p.tryAll);
  }

  lemma MustAsk(stop: nat, usable: seq<bool>, retryTimes: int, w: World, p: Params, ns: nat)
    requires retryTimes > 0 && Due(ns, usable, [], w, p.tryAll)
    ensures !StopsAfter(stop, [], usable, retryTimes, w, p)
  {
    hide Due;
    assert After([], 0, ns) && (stop > 0 ==> Before(0, ns, stop, 0));
  }

  /** The first server that can be asked is asked first: over UDP if the query is small. */
  lemma FirstIsAsked(o: Outcome, log: seq<Exchange>, usable: seq<bool>, retryTimes: int, w: World, p: Params, ns: nat)
    requires Allowed(o, log, usable, retryTimes, w, p) && retryTimes > 0
    requires ns < |usable| && usable[ns] && forall m :: 0 <= m < ns ==> !usable[m]
    ensures log != [] && log[0] == Exchange(0, ns, !p.small, true)
  {
    assert ShelvedBy([], w, p.tryAll) == {};
    hide ShelvedBy, FirstShelved;
    if log == [] {
      var stop: nat :| StopsAfter(stop, log, usable, retryTimes, w, p);
      MustAsk(stop, usable, retryTimes, w, p, ns);
      assert false;
    }
    assert log[..0] == [];
    assert IsNext([], log[0], usable, w, p);
    assert After([], 0, ns) && Due(ns, usable, [], w, p.tryAll);
  }

  /** A UDP reply that asks for TCP is followed by the same server over TCP. */
  lemma FallbackIsTaken(o: Outcome, log: seq<Exchange>, usable: seq<bool>, retryTimes: int, w: World, p: Params, i: nat)
    requires Allowed(o, log, usable, retryTimes, w, p)
    requires i < |log| && !log[i].tcp && w.reply(i).fallback && w.reply(i).resplen != 0
    ensures i + 1 < |log|
    ensures var e := log[i + 1]; e.pass == log[i].pass && e.ns == log[i].ns && e.tcp
  {
    hide ShelvedBy, FirstShelved, Good;
    if i + 1 < |log| {
      assert IsNext(log[..i + 1], log[i + 1], usable, w, p);
    }
  }

  /** UDP is left for TCP when a server asks for it, and TCP for UDP only when a small query got nothing over it. */
  lemma ProtocolFollows(o: Outcome, log: seq<Exchange>, usable: seq<bool>, retryTimes: int, w: World, p: Params, i: nat)
    requires Allowed(o, log, usable, retryTimes, w, p) && i + 1 < |log|
    ensures !log[i].tcp && log[i + 1].tcp <==> !log[i].tcp && w.reply(i).fallback
    ensures log[i].tcp && !log[i + 1].tcp <==> log[i].tcp && p.small && p.udpTcpMode && w.reply(i).resplen <= 0
  {
    hide ShelvedBy, FirstShelved, Good, Due;
    assert IsNext(log[..i + 1], log[i + 1], usable, w, p);
  }

  /** A large query is sent over TCP only. */
  lemma {:induction false} LargeUsesTcp(o: Outcome, log: seq<Exchange>, usable: seq<bool>, retryTimes: int, w: World,
                                        p: Params, i: nat)
    requires Allowed(o, log, usable, retryTimes, w, p) && !p.small && i < |log|
    ensures log[i].tcp
  {
    hide Explains, Exhausts, Good, Due;
    if i == 0 {
      assert IsNext(log[..0], log[0], usable, w, p);
    } else {
      LargeUsesTcp(o, log, usable, retryTimes, w, p, i - 1);
      ProtocolFollows(o, log, usable, retryTimes, w, p, i - 1);
    }
  }

  /** A result that asks for no fallback ends the run, except for errors while all servers are tried. */
  lemma ResultSettles(o: Outcome, log: seq<Exchange>, usable: seq<bool>, retryTimes: int, w: World, p: Params, i: nat)
    requires Allowed(o, log, usable, retryTimes, w, p) && i < |log|
    requires w.reply(i).resplen != 0 && !(!log[i].tcp && w.reply(i).fallback)
    ensures w.reply(i).resplen < 0 ==> i + 1 == |log| && o == Failed
    ensures w.reply(i).resplen > 0 && !(p.tryAll && w.reply(i).errorAnswer) ==>
              i + 1 == |log| && o == Answered(w.reply(i).resplen)
    ensures w.reply(i).resplen > 0 && p.tryAll && w.reply(i).errorAnswer ==>
              && (i + 1 == |log| ==> !o.Answered? && !o.Failed?)
              && (forall j :: i < j < |log| ==> log[j].ns != log[i].ns)
  {
    hide Good, Exhausts, FirstShelved, Ordered;
    if w.reply(i).resplen > 0 && p.tryAll && w.reply(i).errorAnswer {
      forall j | i < j < |log|
        ensures log[j].ns != log[i].ns
      {
        assert IsNext(log[..j], log[j], usable, w, p);
        assert log[..j][i] == log[i];
        assert log[i].ns in ShelvedBy(log[..j], w, p.tryAll);
      }
    }
  }

  /** The server was asked in pass `k`, or has given an answer before that was shelved. */
  ghost predicate HadItsTurn(log: seq<Exchange>, w: World, tryAll: bool, k: nat, ns: nat)
  {
    exists i :: 0 <= i < |log| && log[i].ns == ns &&
      (log[i].pass == k || (log[i].pass < k && tryAll && w.reply(i).errorAnswer && w.reply(i).resplen > 0))
  }

  /** The first exchange that is not before server `ns` in pass `k`, if there is one. */
  ghost predicate Reaches(log: seq<Exchange>, i: nat, k: nat, ns: nat)
  {
    && i <= |log| && (forall j :: 0 <= j < i ==> Before(log[j].pass, log[j].ns, k, ns))
    && (i < |log| ==> !Before(log[i].pass, log[i].ns, k, ns))
  }

  lemma FindTurn(log: seq<Exchange>, k: nat, ns: nat) returns (i: nat)
    ensures Reaches(log, i, k, ns)
  {
    i := 0;
    while i < |log| && Before(log[i].pass, log[i].ns, k, ns)
      invariant i <= |log| && forall j :: 0 <= j < i ==> Before(log[j].pass, log[j].ns, k, ns)
    {
      i := i + 1;
    }
  }

  /** A server that is not due any more has had its turn. */
  lemma ShelvedBefore(log: seq<Exchange>, i: nat, usable: seq<bool>, w: World, tryAll: bool, k: nat, ns: nat)
    requires Reaches(log, i, k, ns) && ns < |usable| && usable[ns] && !Due(ns, usable, log[..i], w, tryAll)
    ensures HadItsTurn(log, w, tryAll, k, ns)
  {
    var j :| 0 <= j < i && Shelved(log[..i][j], w.reply(j), tryAll) && log[..i][j].ns == ns;
    assert log[j] == log[..i][j];
  }

  /** An unsettled run has asked every usable server in its first pass, and in every pass without TCP and while
      the client is there. */
  lemma EveryoneIsAsked(o: Outcome, log: seq<Exchange>, usable: seq<bool>, retryTimes: int, w: World, p: Params,
                        k: nat, ns: nat)
    requires Allowed(o, log, usable, retryTimes, w, p) && (o.NoAnswer? || o.FirstError?)
    requires k < retryTimes && ns < |usable| && usable[ns]
    requires k == 0 || (!w.closed(|log|) && forall i :: 0 <= i < |log| ==> !log[i].tcp)
    ensures HadItsTurn(log, w, p.tryAll, k, ns)
  {
    hide Due, Explains, Good, ShelvedBy, HadItsTurn;
    var stop: nat :| StopsAfter(stop, log, usable, retryTimes, w, p);
    var i := FindTurn(log, k, ns);
    if i == |log| {
      assert log[..i] == log;
      assert After(log, k, ns) && Before(k, ns, stop, 0);
      ShelvedBefore(log, i, usable, w, p.tryAll, k, ns);
    } else if log[i].pass == k && log[i].ns == ns {
      AskedNow(log, w, p.tryAll, i);
    } else {
      assert IsNext(log[..i], log[i], usable, w, p);
      assert After(log[..i], k, ns) && Before(k, ns, log[i].pass, log[i].ns);
      ShelvedBefore(log, i, usable, w, p.tryAll, k, ns);
    }
  }

  lemma AskedNow(log: seq<Exchange>, w: World, tryAll: bool, i: nat)
    requires i < |log|
    ensures HadItsTurn(log, w, tryAll, log[i].pass, log[i].ns)
  {
  }

  // ---------------------------------------------------------------------------
  // How many exchanges there can be
  // ---------------------------------------------------------------------------

  /** The place of an exchange among all that a run could make with `n` servers. */
  function Rank(e: Exchange, n: nat): (k: nat)
  {
    e.pass * (2 * n) + 2 * e.ns + if e.tcp then 1 else 0
  }

  lemma LaterRanksHigher(a: Exchange, b: Exchange, n: nat)
    requires Later(a, b) && a.ns < n
    ensures Rank(a, n) < Rank(b, n)
  {
    if a.pass < b.pass {
      Times(a.pass, b.pass, 2 * n);
    } else {
      assert a.pass == b.pass;
    }
  }

  lemma Times(x: nat, y: nat, m: nat)
    requires x < y
    ensures x * m + m <= y * m
  {
    assert y * m == x * m + m + (y - x - 1) * m;
  }

  /** Strictly later exchanges have strictly higher ranks, so the i-th has rank at least i. */
  lemma {:induction false} RanksGrow(log: seq<Exchange>, usable: seq<bool>, retryTimes: int, i: nat)
    requires Good(log, usable, retryTimes) && i < |log|
    ensures i <= Rank(log[i], |usable|)
  {
    hide Rank;
    if i > 0 {
      RanksGrow(log, usable, retryTimes, i - 1);
      LaterRanksHigher(log[i - 1], log[i], |usable|);
    }
  }

  /** A run makes at most two exchanges per server and pass. */
  lemma ExchangesAreBounded(log: seq<Exchange>, usable: seq<bool>, retryTimes: int)
    requires Good(log, usable, retryTimes)
    ensures |log| <= if retryTimes <= 0 then 0 else retryTimes * (2 * |usable|)
  {
    if log != [] {
      var i := |log| - 1;
      RanksGrow(log, usable, retryTimes, i);
      Times(log[i].pass, retryTimes, 2 * |usable|);
    }
  }
}
