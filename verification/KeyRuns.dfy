/**
  Whole runs of the answer cache with any keys, complete or not. An incomplete key matches nothing,
  not even itself: it is never found again, neither by a lookup nor by the eviction passes.
 */
module KeyRuns {
  import opened Bytes
  import opened AnswerTtl
  import opened LruSpec
  import opened CacheRuns

  function StepKey<C(==)>(items: seq<Item<Key<C>>>, op: Op<Key<C>>, max: nat): (r: seq<Item<Key<C>>>)
    requires max > 0
  {
    match op
    case Look(q, now, room) => LookupKey(items, q, now, room).0
    case Put(q, answer, reply, now, later) => AddKey(items, q, answer, Ttl(Limits(reply)), now, later, max)
    case Flush => []
  }

  function RunKeys<C(==)>(ops: seq<Op<Key<C>>>, max: nat): (r: seq<Item<Key<C>>>)
    requires max > 0
  {
    if ops == [] then [] else StepKey(RunKeys(ops[..|ops| - 1], max), ops[|ops| - 1], max)
  }

  // ---------------------------------------------------------------------------
  // Complete keys
  // ---------------------------------------------------------------------------

  predicate WholeOp<C>(op: Op<Key<C>>)
  {
    op.Flush? || op.q.Whole?
  }

  ghost predicate WholeItems<C>(items: seq<Item<Key<C>>>)
  {
    forall i :: 0 <= i < |items| ==> items[i].cls.Whole?
  }

  lemma {:induction false} SweptWhole<C>(items: seq<Item<Key<C>>>, now: int)
    requires WholeItems(items)
    ensures Swept(items, now) == Unexpired(items, now) && WholeItems(Swept(items, now))
  {
    if items != [] {
      SweptWhole(items[1..], now);
    }
  }

  lemma EvictWhole<C>(items: seq<Item<Key<C>>>, now: int, max: nat)
    requires max > 0 && WholeItems(items)
    ensures EvictKeys(items, now, max) == Evict(items, now, max) && WholeItems(EvictKeys(items, now, max))
  {
    hide Swept, Unexpired;
    SweptWhole(items, now);
  }

  lemma StepWhole<C>(items: seq<Item<Key<C>>>, op: Op<Key<C>>, max: nat)
    requires max > 0 && WholeItems(items) && WholeOp(op)
    ensures StepKey(items, op, max) == Step(items, op, max) && WholeItems(StepKey(items, op, max))
  {
    hide EvictKeys, Evict, Ttl, Limits;
    if op.Put? {
      EvictWhole(items, op.now, max);
    }
  }

  /** A run with complete keys only is a run of the simple cache. */
  lemma {:induction false} WholeRuns<C>(ops: seq<Op<Key<C>>>, max: nat)
    requires max > 0 && forall i :: 0 <= i < |ops| ==> WholeOp(ops[i])
    ensures RunKeys(ops, max) == Run(ops, max) && WholeItems(RunKeys(ops, max))
  {
    hide StepKey, Step;
    if ops != [] {
      var n := |ops| - 1;
      WholeRuns(ops[..n], max);
      StepWhole(RunKeys(ops[..n], max), ops[n], max);
    }
  }

  // ---------------------------------------------------------------------------
  // Incomplete keys
  // ---------------------------------------------------------------------------

  /** The number of items with an incomplete key. */
  function TornItems<C>(items: seq<Item<Key<C>>>): (n: nat)
    ensures n <= |items|
  {
    if items == [] then 0 else (if items[0].cls.Torn? then 1 else 0) + TornItems(items[1..])
  }

  /** The operation stores an answer under an incomplete key. */
  predicate TornStore<C>(op: Op<Key<C>>)
  {
    op.Put? && op.q.Torn? && Ttl(Limits(op.reply)) > 0
  }

  /** The number of such stores since the last flush. */
  function TornStores<C>(ops: seq<Op<Key<C>>>): (n: nat)
  {
    if ops == [] || ops[|ops| - 1].Flush? then 0
    else (if TornStore(ops[|ops| - 1]) then 1 else 0) + TornStores(ops[..|ops| - 1])
  }

  lemma {:induction false} TornItemsConcat<C>(a: seq<Item<Key<C>>>, b: seq<Item<Key<C>>>)
    ensures TornItems(a + b) == TornItems(a) + TornItems(b)
  {
    if a == [] {
      assert a + b == b;
    } else {
      assert (a + b)[1..] == a[1..] + b;
      TornItemsConcat(a[1..], b);
    }
  }

  lemma OneWhole<C>(x: Item<Key<C>>)
    requires x.cls.Whole?
    ensures TornItems([x]) == 0
  {
  }

  lemma TornWithout<C>(items: seq<Item<Key<C>>>, i: nat)
    requires i < |items| && items[i].cls.Whole?
    ensures TornItems(Without(items, i)) == TornItems(items)
    ensures TornItems([items[i]] + Without(items, i)) == TornItems(items)
  {
    hide TornItems;
    OneWhole(items[i]);
    assert items == items[..i] + ([items[i]] + items[i + 1..]);
    TornItemsConcat(items[..i], [items[i]] + items[i + 1..]);
    TornItemsConcat([items[i]], items[i + 1..]);
    TornItemsConcat(items[..i], items[i + 1..]);
    TornItemsConcat([items[i]], Without(items, i));
  }

  lemma {:induction false} TornSwept<C>(items: seq<Item<Key<C>>>, now: int)
    ensures TornItems(Swept(items, now)) == TornItems(items)
  {
    if items != [] {
      TornSwept(items[1..], now);
    }
  }

  lemma TornEvict<C>(items: seq<Item<Key<C>>>, now: int, max: nat)
    requires max > 0
    ensures TornItems(EvictKeys(items, now, max)) == TornItems(items)
  {
    hide Swept, TornItems;
    var live := Swept(items, now);
    TornSwept(items, now);
    if |live| >= max && live[|live| - 1].cls.Whole? {
      TornWithout(live, |live| - 1);
      assert Without(live, |live| - 1) == live[..|live| - 1];
    }
  }

  lemma TornStep<C>(items: seq<Item<Key<C>>>, op: Op<Key<C>>, max: nat)
    requires max > 0
    ensures TornItems(StepKey(items, op, max)) ==
            if op.Flush? then 0 else (if TornStore(op) then 1 else 0) + TornItems(items)
  {
    hide EvictKeys, Ttl, Limits;
    match op {
      case Look(q, now, room) =>
        if FindKey(items, q) < |items| { TornWithout(items, FindKey(items, q)); }
      case Put(q, answer, reply, now, later) =>
        TornEvict(items, now, max);
      case Flush =>
    }
  }

  /** In every run, each answer stored under an incomplete key stays until the next flush. */
  lemma {:induction false} TornItemsStay<C>(ops: seq<Op<Key<C>>>, max: nat)
    requires max > 0
    ensures TornItems(RunKeys(ops, max)) == TornStores(ops)
  {
    hide StepKey, TornItems, TornStore;
    if ops == [] {
      NoTornItems<C>();
    } else {
      TornItemsStay(ops[..|ops| - 1], max);
      TornStep(RunKeys(ops[..|ops| - 1], max), ops[|ops| - 1], max);
    }
  }

  lemma NoTornItems<C>()
    ensures TornItems<C>([]) == 0
  {
  }

  // ---------------------------------------------------------------------------
  // The maximum
  // ---------------------------------------------------------------------------

  /** A reply whose only record is kept for a second. */
  const ONE_SECOND: Reply := Reply([Some(1)], [])

  /** Every lookup and store of the run is for one of `keys`. */
  ghost predicate Over<C>(ops: seq<Op<Key<C>>>, keys: iset<Key<C>>)
  {
    forall i :: 0 <= i < |ops| ==> ops[i].Flush? || ops[i].q in keys
  }

  /** `n` stores under an incomplete key. */
  function Tears<C>(n: nat): (ops: seq<Op<Key<C>>>)
    ensures |ops| == n && forall i :: 0 <= i < n ==> ops[i] == Put(Torn, [], ONE_SECOND, 0, 0)
  {
    if n == 0 then [] else Tears(n - 1) + [Put(Torn, [], ONE_SECOND, 0, 0)]
  }

  lemma OneSecond()
    ensures Ttl(Limits(ONE_SECOND)) == 1
  {
    assert Limits(ONE_SECOND) == [Some(1)];
    assert Ttl([]) == 0 && [Some(1 as nat)][..0] == [];
  }

  lemma {:induction false} TearsAreStores<C>(n: nat)
    ensures TornStores(Tears<C>(n)) == n
  {
    hide Ttl, Limits, ONE_SECOND;
    if n > 0 {
      TearsAreStores<C>(n - 1);
      assert Tears<C>(n)[..n - 1] == Tears<C>(n - 1);
      OneSecond();
    }
  }

  /** No run over `keys` passes the maximum, exactly when they are all complete. */
  lemma MaximumHoldsIff<C(!new)>(keys: iset<Key<C>>, max: nat)
    requires max > 0
    ensures (forall ops: seq<Op<Key<C>>> :: Over(ops, keys) ==> |RunKeys(ops, max)| <= max) <==> Torn !in keys
  {
    if Torn in keys {
      var ops := Tears<C>(max + 1);
      TearsAreStores<C>(max + 1);
      TornItemsStay(ops, max);
      assert Over(ops, keys);
    } else {
      forall ops: seq<Op<Key<C>>> | Over(ops, keys)
        ensures |RunKeys(ops, max)| <= max
      {
        WholeRuns(ops, max);
        RunsAreOk(ops, max);
      }
    }
  }

  // ---------------------------------------------------------------------------
  // Answers: what a lookup may return
  // ---------------------------------------------------------------------------

  /** Operation `i` stored exactly this item, and nothing was flushed since. */
  ghost predicate StoredBy<C(!new)>(ops: seq<Op<C>>, i: nat, x: Item<C>)
  {
    && i < |ops|
    && ops[i].Put?
    && ops[i].q == x.cls
    && ops[i].answer == x.answer
    && Ttl(Limits(ops[i].reply)) > 0
    && x.expires == Ttl(Limits(ops[i].reply)) + ops[i].later
    && forall k :: i < k < |ops| ==> ops[k] != Flush
  }

  lemma {:induction false} SweptMembers<C>(items: seq<Item<Key<C>>>, now: int, x: Item<Key<C>>)
    requires x in Swept(items, now)
    ensures x in items
  {
    if now < items[0].expires {
      if x != items[0] { SweptMembers(items[1..], now, x); }
    } else if items[0].cls.Whole? {
      SweptMembers(items[1..], now, x);
    }
  }

  lemma EvictKeysMembers<C>(items: seq<Item<Key<C>>>, now: int, max: nat, x: Item<Key<C>>)
    requires max > 0 && x in EvictKeys(items, now, max)
    ensures x in items
  {
    if |items| >= max {
      SweptMembers(items, now, x);
    }
  }

  /** What a step leaves was there before, or was stored by it. */
  lemma StepMembers<C(!new)>(items: seq<Item<Key<C>>>, op: Op<Key<C>>, max: nat, x: Item<Key<C>>)
    requires max > 0 && x in StepKey(items, op, max)
    ensures op != Flush
    ensures x in items || StoredBy([op], 0, x)
  {
    hide Swept, EvictKeys, Ttl, Limits;
    if op.Put? && x in EvictKeys(items, op.now, max) {
      EvictKeysMembers(items, op.now, max, x);
    }
  }

  lemma {:induction false} ItemsAreStored<C(!new)>(ops: seq<Op<Key<C>>>, max: nat, x: Item<Key<C>>) returns (i: nat)
    requires max > 0 && x in RunKeys(ops, max)
    ensures StoredBy(ops, i, x)
  {
    hide StepKey, Ttl, Limits;
    var n := |ops| - 1;
    StepMembers(RunKeys(ops[..n], max), ops[n], max, x);
    if x in RunKeys(ops[..n], max) {
      i := ItemsAreStored(ops[..n], max, x);
    } else {
      i := n;
    }
  }

  /** An answer with these records may be served at this age. */
  ghost predicate Allows(reply: Reply, age: int)
  {
    && reply.Reply?
    && (forall k :: 0 <= k < |reply.answers| && reply.answers[k].Some? ==> age < reply.answers[k].value)
    && (reply.answers == [] ==>
          forall k :: 0 <= k < |reply.authority| && reply.authority[k].Some? ==>
            age < reply.authority[k].value.ttl && age < reply.authority[k].value.minimum)
  }

  /**
    In every run, an answer that is returned was given to a store for the same query class since
    the last flush, and is younger than every bound its own records put on it.
   */
  lemma HitsAreFresh<C(!new)>(ops: seq<Op<Key<C>>>, max: nat, q: Key<C>, now: int, room: nat) returns (i: nat)
    requires max > 0 && LookupKey(RunKeys(ops, max), q, now, room).1.Found?
    ensures i < |ops| && ops[i].Put? && Matches(q, ops[i].q)
    ensures LookupKey(RunKeys(ops, max), q, now, room).1 == Found(ops[i].answer)
    ensures forall k :: i < k < |ops| ==> ops[k] != Flush
    ensures Allows(ops[i].reply, now - ops[i].later)
  {
    var items := RunKeys(ops, max);
    var x := items[Find(items, q)];
    i := ItemsAreStored(ops, max, x);
    ReplyMeaning(ops[i].reply);
  }

  // ---------------------------------------------------------------------------
  // Misses leave room for an answer
  // ---------------------------------------------------------------------------

  lemma UniqueCons<C>(x: Item<Key<C>>, s: seq<Item<Key<C>>>)
    requires UniqueKeys(s) && forall y :: y in s ==> !Matches(x.cls, y.cls)
    ensures UniqueKeys([x] + s)
  {
  }

  lemma {:induction false} SweptUnique<C>(items: seq<Item<Key<C>>>, now: int)
    requires UniqueKeys(items)
    ensures UniqueKeys(Swept(items, now))
  {
    if items != [] {
      var rest := Swept(items[1..], now);
      SweptUnique(items[1..], now);
      if now < items[0].expires {
        forall y | y in rest
          ensures !Matches(items[0].cls, y.cls)
        {
          SweptMembers(items[1..], now, y);
          var j :| 0 <= j < |items[1..]| && items[1..][j] == y;
          assert items[j + 1] == y;
        }
        UniqueCons(items[0], rest);
      }
    }
  }

  lemma LookUnique<C>(items: seq<Item<Key<C>>>, q: Key<C>, now: int, room: nat)
    requires UniqueKeys(items)
    ensures UniqueKeys(LookupKey(items, q, now, room).0)
    ensures LookupKey(items, q, now, room).1.NotFound? ==>
              var r := LookupKey(items, q, now, room).0; FindKey(r, q) == |r|
  {
    var i := FindKey(items, q);
    if i < |items| {
      var rest := Without(items, i);
      assert UniqueKeys(rest);
      forall y | y in rest
        ensures !Matches(q, y.cls)
      {
        var j :| 0 <= j < |items| && j != i && items[j] == y;
      }
      UniqueCons(items[i], rest);
    }
  }

  lemma AddUnique<C>(items: seq<Item<Key<C>>>, q: Key<C>, answer: seq<byte>, ttl: nat, now: int, later: int, max: nat)
    requires max > 0 && UniqueKeys(items)
    ensures UniqueKeys(AddKey(items, q, answer, ttl, now, later, max))
  {
    hide Swept;
    SweptUnique(items, now);
    var kept := EvictKeys(items, now, max);
    assert UniqueKeys(kept);
    if FindKey(items, q) == |items| {
      forall y | y in kept
        ensures !Matches(q, y.cls)
      {
        EvictKeysMembers(items, now, max, y);
      }
      UniqueCons(Item(q, answer, ttl + later), kept);
    }
  }

  /** In every run no two entries match: at most one answer can be found for a query. */
  lemma {:induction false} KeysAreUnique<C>(ops: seq<Op<Key<C>>>, max: nat)
    requires max > 0
    ensures UniqueKeys(RunKeys(ops, max))
  {
    hide LookupKey, AddKey, UniqueKeys, Ttl, Limits;
    if ops == [] {
      NothingRepeats<C>();
    } else {
      var was, op := RunKeys(ops[..|ops| - 1], max), ops[|ops| - 1];
      KeysAreUnique(ops[..|ops| - 1], max);
      match op {
        case Look(q, now, room) => LookUnique(was, q, now, room);
        case Put(q, answer, reply, now, later) => AddUnique(was, q, answer, Ttl(Limits(reply)), now, later, max);
        case Flush => NothingRepeats<C>();
      }
    }
  }

  lemma NothingRepeats<C>()
    ensures UniqueKeys<C>([])
  {
  }

  /** In every run a lookup that misses leaves no entry for its key, so that a new answer can be stored. */
  lemma MissesLeaveNothing<C>(ops: seq<Op<Key<C>>>, max: nat, q: Key<C>, now: int, room: nat)
    requires max > 0 && LookupKey(RunKeys(ops, max), q, now, room).1.NotFound?
    ensures var r := RunKeys(ops + [Look(q, now, room)], max); FindKey(r, q) == |r|
  {
    hide UniqueKeys, LookupKey, FindKey;
    KeysAreUnique(ops, max);
    LookUnique(RunKeys(ops, max), q, now, room);
    assert (ops + [Look(q, now, room)])[..|ops|] == ops;
  }
}
