/**
  Whole runs of the answer cache whose keys can all be found again: any sequence of lookups, stores
  and flushes on an empty cache. `KeyRuns` shows that runs with complete keys are such runs.
 */
module CacheRuns {
  import opened Bytes
  import opened AnswerTtl
  import opened LruSpec

  datatype Op<C> =
    | Look(q: C, now: int, room: nat)
    | Put(q: C, answer: seq<byte>, reply: Reply, now: int, later: int)
    | Flush

  function Step<C(==)>(items: seq<Item<C>>, op: Op<C>, max: nat): (r: seq<Item<C>>)
    requires max > 0
  {
    match op
    case Look(q, now, room) => AfterLookup(items, q, now, room).0
    case Put(q, answer, reply, now, later) => AfterAdd(items, q, answer, Ttl(Limits(reply)), now, later, max)
    case Flush => []
  }

  function Run<C(==)>(ops: seq<Op<C>>, max: nat): (r: seq<Item<C>>)
    requires max > 0
  {
    if ops == [] then [] else Step(Run(ops[..|ops| - 1], max), ops[|ops| - 1], max)
  }

  // ---------------------------------------------------------------------------
  // Consistency
  // ---------------------------------------------------------------------------

  /** Every item is related to every later one. */
  ghost predicate Pairwise<T(!new)>(s: seq<T>, R: (T, T) -> bool)
  {
    forall i, j :: 0 <= i < j < |s| ==> R(s[i], s[j])
  }

  lemma PairwiseCons<T(!new)>(x: T, s: seq<T>, R: (T, T) -> bool)
    requires Pairwise(s, R) && forall y :: y in s ==> R(x, y)
    ensures Pairwise([x] + s, R)
  {
  }

  lemma {:induction false} UnexpiredMembers<C>(items: seq<Item<C>>, now: int)
    ensures forall x :: x in Unexpired(items, now) <==> x in items && now < x.expires
  {
    if items != [] {
      UnexpiredMembers(items[1..], now);
      assert items == [items[0]] + items[1..];
    }
  }

  lemma {:induction false} PairwiseUnexpired<C(!new)>(items: seq<Item<C>>, now: int, R: (Item<C>, Item<C>) -> bool)
    requires Pairwise(items, R)
    ensures Pairwise(Unexpired(items, now), R)
  {
    if items != [] {
      var rest := Unexpired(items[1..], now);
      PairwiseUnexpired(items[1..], now, R);
      if now < items[0].expires {
        UnexpiredMembers(items[1..], now);
        forall y | y in rest
          ensures R(items[0], y)
        {
          var j :| 0 <= j < |items[1..]| && items[1..][j] == y;
          assert items[j + 1] == y;
        }
        PairwiseCons(items[0], rest, R);
      }
    }
  }

  lemma EvictMembers<C>(items: seq<Item<C>>, now: int, max: nat, x: Item<C>)
    requires max > 0 && x in Evict(items, now, max)
    ensures x in items
  {
    hide Unexpired;
    UnexpiredMembers(items, now);
    if |items| >= max {
      assert x in Unexpired(items, now);
    }
  }

  lemma PairwiseEvict<C(!new)>(items: seq<Item<C>>, now: int, max: nat, R: (Item<C>, Item<C>) -> bool)
    requires max > 0 && Pairwise(items, R)
    ensures Pairwise(Evict(items, now, max), R)
  {
    hide Unexpired;
    PairwiseUnexpired(items, now, R);
  }

  lemma StepSize<C>(items: seq<Item<C>>, op: Op<C>, max: nat)
    requires max > 0 && |items| <= max
    ensures |Step(items, op, max)| <= max
  {
  }

  /** How one step rearranges the items, as far as order is concerned. */
  lemma PairwiseStep<C(!new)>(items: seq<Item<C>>, op: Op<C>, max: nat, R: (Item<C>, Item<C>) -> bool)
    requires max > 0 && Pairwise(items, R)
    requires Unique(items)
    requires forall x: Item<C>, y: Item<C> ::
               Touched(items, op, x.cls) && !Touched(items, op, y.cls) ==> R(x, y)
    ensures Pairwise(Step(items, op, max), R)
  {
    match op {
      case Look(q, now, room) =>
        var i := Find(items, q);
        if i < |items| && now < items[i].expires && |items[i].answer| <= room {
          PairwiseCons(items[i], Without(items, i), R);
        }
      case Put(q, answer, reply, now, later) =>
        var kept := Evict(items, now, max);
        PairwiseEvict(items, now, max, R);
        if Find(items, q) == |items| && Ttl(Limits(reply)) > 0 {
          forall y | y in kept ensures y.cls != q { EvictMembers(items, now, max, y); }
          PairwiseCons(Item(q, answer, Ttl(Limits(reply)) + later), kept, R);
        }
      case Flush =>
    }
  }

  /** The step stores an answer for `cls`, or finds the stored one. */
  predicate Touched<C(==)>(items: seq<Item<C>>, op: Op<C>, cls: C)
  {
    match op
    case Look(q, now, room) => q == cls && AfterLookup(items, q, now, room).1.Found?
    case Put(q, answer, reply, now, later) => q == cls && Find(items, q) == |items| && Ttl(Limits(reply)) > 0
    case Flush => false
  }

  /** In every run: at most one answer per query class, and never more than the maximum. */
  lemma {:induction false} RunsAreOk<C(!new)>(ops: seq<Op<C>>, max: nat)
    requires max > 0
    ensures Unique(Run(ops, max)) && |Run(ops, max)| <= max
  {
    hide Step, Touched;
    if ops != [] {
      var was, op := Run(ops[..|ops| - 1], max), ops[|ops| - 1];
      RunsAreOk(ops[..|ops| - 1], max);
      var R := (x: Item<C>, y: Item<C>) => x.cls != y.cls;
      assert Pairwise(was, R);
      PairwiseStep(was, op, max, R);
      assert Pairwise(Step(was, op, max), R);
      StepSize(was, op, max);
    }
  }

  // ---------------------------------------------------------------------------
  // Order: the list is in order of last use
  // ---------------------------------------------------------------------------

  /** The number of the last operation that used `cls`, or -1. */
  function LastUse<C(==)>(ops: seq<Op<C>>, max: nat, cls: C): (n: int)
    requires max > 0
    ensures -1 <= n < |ops|
  {
    if ops == [] then -1
    else if Touched(Run(ops[..|ops| - 1], max), ops[|ops| - 1], cls) then |ops| - 1
    else LastUse(ops[..|ops| - 1], max, cls)
  }

  /** A step puts the class it uses in front. */
  lemma TouchedFirst<C>(items: seq<Item<C>>, op: Op<C>, max: nat, cls: C)
    requires max > 0 && Touched(items, op, cls)
    ensures Step(items, op, max) != [] && Step(items, op, max)[0].cls == cls
  {
  }

  /** In every run the items are in order of last use, most recent first. */
  lemma {:induction false} RunsAreOrdered<C(!new)>(ops: seq<Op<C>>, max: nat)
    requires max > 0
    ensures forall i, j :: 0 <= i < j < |Run(ops, max)| ==>
              LastUse(ops, max, Run(ops, max)[i].cls) > LastUse(ops, max, Run(ops, max)[j].cls)
  {
    if ops != [] {
      var before, op := ops[..|ops| - 1], ops[|ops| - 1];
      var was, items := Run(before, max), Run(ops, max);
      RunsAreOrdered(before, max);
      RunsAreOk(before, max);
      RunsAreOk(ops, max);
      var R := (x: Item<C>, y: Item<C>) =>
        Touched(was, op, y.cls) || LastUse(ops, max, x.cls) > LastUse(ops, max, y.cls);
      assert Pairwise(was, R);
      PairwiseStep(was, op, max, R);
      forall i, j | 0 <= i < j < |items|
        ensures LastUse(ops, max, items[i].cls) > LastUse(ops, max, items[j].cls)
      {
        assert R(items[i], items[j]);
        if Touched(was, op, items[j].cls) {
          TouchedFirst(was, op, max, items[j].cls);
        }
      }
    }
  }

  /** When a full cache of live answers makes room, the answer that goes is the least recently used. */
  lemma VictimIsLeastUsed<C(!new)>(ops: seq<Op<C>>, max: nat, now: int)
    requires max > 0
    requires |Unexpired(Run(ops, max), now)| == max
    ensures var items := Run(ops, max); var kept := Evict(items, now, max);
      && |items| == max
      && kept == items[..max - 1]
      && forall x :: x in kept ==> LastUse(ops, max, x.cls) > LastUse(ops, max, items[max - 1].cls)
  {
    var items := Run(ops, max);
    RunsAreOk(ops, max);
    AllUnexpired(items, now);
    RunsAreOrdered(ops, max);
  }

  /** Filtering that loses nothing changes nothing. */
  lemma {:induction false} AllUnexpired<C>(items: seq<Item<C>>, now: int)
    requires |Unexpired(items, now)| >= |items|
    ensures Unexpired(items, now) == items
  {
    if items != [] {
      AllUnexpired(items[1..], now);
    }
  }

  // ---------------------------------------------------------------------------
  // Answers: what a lookup may return
  // ---------------------------------------------------------------------------

  /** A lookup finds exactly an unexpired stored answer that fits, and returns its bytes. */
  lemma FoundIff<C>(items: seq<Item<C>>, q: C, now: int, room: nat, answer: seq<byte>)
    requires Unique(items)
    ensures AfterLookup(items, q, now, room).1 == Found(answer)
       <==> exists x :: x in items && x.cls == q && x.answer == answer && now < x.expires && |answer| <= room
  {
  }

  // ---------------------------------------------------------------------------
  // Retention: what a run cannot lose
  // ---------------------------------------------------------------------------

  function RunFrom<C(==)>(items: seq<Item<C>>, ops: seq<Op<C>>, max: nat): (r: seq<Item<C>>)
    requires max > 0
    decreases |ops|
  {
    if ops == [] then items else RunFrom(Step(items, ops[0], max), ops[1..], max)
  }

  /** The operation leaves live answers like `x` alone: it is not a flush and comes before the expiry. */
  predicate Spares<C>(op: Op<C>, expires: int)
  {
    op != Flush && op.now < expires
  }

  lemma {:induction false} UnexpiredPosition<C>(items: seq<Item<C>>, now: int, p: nat) returns (r: nat)
    requires p < |items| && now < items[p].expires
    ensures r <= p && r < |Unexpired(items, now)| && Unexpired(items, now)[r] == items[p]
  {
    if p == 0 {
      r := 0;
    } else {
      r := UnexpiredPosition(items[1..], now, p - 1);
      if now < items[0].expires {
        r := r + 1;
      }
    }
  }

  lemma LookPosition<C>(items: seq<Item<C>>, q: C, now: int, room: nat, p: nat) returns (r: nat)
    requires Unique(items) && p < |items| && now < items[p].expires
    ensures var next := AfterLookup(items, q, now, room).0; r <= p + 1 && r < |next| && next[r] == items[p]
  {
    var i := Find(items, q);
    if i == |items| || (now < items[i].expires && |items[i].answer| > room) {
      r := p;
    } else if now >= items[i].expires {
      r := if p < i then p else p - 1;
    } else {
      r := if p == i then 0 else if p < i then p + 1 else p;
    }
  }

  lemma EvictPosition<C>(items: seq<Item<C>>, now: int, max: nat, p: nat) returns (r: nat)
    requires |items| <= max && p < |items| && p + 1 < max && now < items[p].expires
    ensures var kept := Evict(items, now, max); r <= p && r < |kept| && kept[r] == items[p]
  {
    hide Unexpired;
    r := p;
    if |items| >= max {
      if |Unexpired(items, now)| >= max { AllUnexpired(items, now); }
      r := UnexpiredPosition(items, now, p);
    }
  }

  /** One step moves a live answer back by at most one place. */
  lemma StepPosition<C>(items: seq<Item<C>>, op: Op<C>, max: nat, p: nat) returns (r: nat)
    requires max > 0 && Unique(items) && |items| <= max
    requires p < |items| && p + 1 < max && Spares(op, items[p].expires)
    ensures r <= p + 1 && r < |Step(items, op, max)| && Step(items, op, max)[r] == items[p]
  {
    hide Evict, AfterLookup, Ttl, Limits;
    match op {
      case Look(q, now, room) =>
        r := LookPosition(items, q, now, room, p);
      case Put(q, answer, reply, now, later) =>
        r := p;
        if Find(items, q) == |items| {
          r := EvictPosition(items, now, max, p);
          if Ttl(Limits(reply)) > 0 { r := r + 1; }
        }
    }
  }

  /**
    Least-recently-used retention: with `p` answers used more recently than a live one, fewer
    than `max - p` operations cannot push it out, so it is still found.
   */
  lemma {:induction false} LiveAnswersStay<C(!new)>(items: seq<Item<C>>, ops: seq<Op<C>>, max: nat, p: nat,
                                                    now: int, room: nat)
    requires max > 0 && Unique(items) && |items| <= max
    requires p < |items| && p + |ops| < max
    requires forall k :: 0 <= k < |ops| ==> Spares(ops[k], items[p].expires)
    requires now < items[p].expires && |items[p].answer| <= room
    ensures AfterLookup(RunFrom(items, ops, max), items[p].cls, now, room).1 == Found(items[p].answer)
    decreases |ops|
  {
    if ops == [] {
      assert items[p] in items;
      FoundIff(items, items[p].cls, now, room, items[p].answer);
    } else {
      var next := Step(items, ops[0], max);
      var r := StepPosition(items, ops[0], max, p);
      var R := (x: Item<C>, y: Item<C>) => x.cls != y.cls;
      assert Pairwise(items, R);
      PairwiseStep(items, ops[0], max, R);
      assert Unique(next) by { assert Pairwise(next, R); }
      StepSize(items, ops[0], max);
      LiveAnswersStay(next, ops[1..], max, r, now, room);
    }
  }
}
