/**
  Queries outstanding on a DNS-over-TLS connection (DnsTlsQueryMap.cpp): each is renumbered,
  and the promise made to its caller is kept until a response or an error settles it.
 */
module QueryMapSpec {
  import opened Bytes

  const ID_COUNT: nat := 0x1_0000

  /** A query as recorded: its bytes still carry the caller's own ID. */
  datatype Query = Query(newId: nat, bytes: seq<byte>)

  /** `promise` identifies the promise whose future the caller holds. */
  datatype Pending = Pending(query: Query, tries: nat, promise: nat)

  datatype Result = Success(response: seq<byte>) | NetworkError

  type Queries = map<nat, Pending>

  function MarkTried(m: Queries, id: nat): (r: Queries)
  {
    if id in m then m[id := m[id].(tries := m[id].tries + 1)] else m
  }

  /** The queries that `cleanup` keeps. */
  function Keep(m: Queries, maxTries: nat): (r: Queries)
  {
    map id | id in m && m[id].tries < maxTries :: m[id]
  }

  /** The promises of the queries that `cleanup` gives up on. */
  function Expired(m: Queries, maxTries: nat): (r: set<nat>)
  {
    set id | id in m && m[id].tries >= maxTries :: m[id].promise
  }

  function Promises(m: Queries): (r: set<nat>)
  {
    set id | id in m :: m[id].promise
  }

  /** The ID of a response, if it is long enough to have one. */
  function ResponseId(response: seq<byte>): (r: Option<nat>)
  {
    if |response| < 2 then None else Some(Be16At(response, 0))
  }

  /** The response with the caller's own ID put back. */
  function Restored(response: seq<byte>, query: seq<byte>): (r: seq<byte>)
    requires |response| >= 2 && |query| >= 2
  {
    query[..2] + response[2..]
  }

  /** Settle a set of promises in the same way. */
  function SettleAll(settled: map<nat, Result>, promises: set<nat>, r: Result): (t: map<nat, Result>)
  {
    settled + map p | p in promises :: r
  }
}

module QueryMap {
  import opened Bytes
  import opened QueryMapSpec

  /** Every outstanding query has an ID, and a promise of its own that is not yet settled. */
  ghost predicate Sound(queries: Queries, settled: map<nat, Result>, nextPromise: nat)
  {
    && (forall id :: id in queries ==>
          && id < ID_COUNT && queries[id].query.newId == id && |queries[id].query.bytes| >= 2
          && queries[id].promise < nextPromise && queries[id].promise !in settled)
    && (forall i, j :: i in queries && j in queries && i != j ==> queries[i].promise != queries[j].promise)
    && (forall p :: p in settled ==> p < nextPromise)
  }

  lemma SoundWithout(queries: Queries, settled: map<nat, Result>, nextPromise: nat, id: nat, r: Result)
    requires Sound(queries, settled, nextPromise) && id in queries
    ensures queries[id].promise !in settled
    ensures Sound(queries - {id}, settled[queries[id].promise := r], nextPromise)
  {
  }

  ghost predicate Ascending(s: seq<nat>)
  {
    forall i, j :: 0 <= i < j < |s| ==> s[i] < s[j]
  }

  /** `keys` are the keys of `m`, in order. */
  ghost predicate InOrder(keys: seq<nat>, m: Queries)
  {
    Ascending(keys) && forall id :: id in keys <==> id in m
  }

  lemma {:induction false} KeyCount(keys: seq<nat>, s: set<nat>)
    requires Ascending(keys) && forall id :: id in keys <==> id in s
    ensures |keys| == |s|
  {
    if keys == [] {
      assert s == {};
    } else {
      var n := |keys| - 1;
      assert keys[n] in s;
      forall id
        ensures id in keys[..n] <==> id in s - {keys[n]}
      {
        if id in keys && id != keys[n] {
          var i :| 0 <= i < |keys| && keys[i] == id;
          assert keys[..n][i] == id;
        }
      }
      KeyCount(keys[..n], s - {keys[n]});
    }
  }

  /** Ascending keys start at their own position at least. */
  lemma {:induction false} KeyAtLeast(keys: seq<nat>, i: nat)
    requires Ascending(keys) && i < |keys|
    ensures keys[i] >= i
  {
    if i > 0 {
      KeyAtLeast(keys, i - 1);
    }
  }

  /** The search of `getFreeId` over the keys in order. */
  method FreeAmong(keys: seq<nat>) returns (id: int)
    requires Ascending(keys) && forall i :: 0 <= i < |keys| ==> keys[i] < ID_COUNT
    ensures id == -1 <==> |keys| == ID_COUNT
    ensures id != -1 ==> 0 <= id < ID_COUNT && id !in keys
    ensures keys == [] ==> id == 0
    ensures keys != [] && keys[|keys| - 1] < ID_COUNT - 1 ==> id == keys[|keys| - 1] + 1
    ensures keys != [] && keys[|keys| - 1] == ID_COUNT - 1 && id != -1 ==> forall k :: 0 <= k < id ==> k in keys
  {
    if |keys| == 0 { return 0; }
    var maxId := keys[|keys| - 1];
    KeyAtLeast(keys, |keys| - 1);
    if maxId < ID_COUNT - 1 {
      return maxId + 1;
    }
    if |keys| == ID_COUNT { return -1; }
    var nextId := 0;
    for i := 0 to |keys|
      invariant nextId == i
      invariant forall k :: 0 <= k < i ==> keys[k] == k
    {
      if keys[i] != nextId {
        KeyAtLeast(keys, i);
        forall k | 0 <= k < i ensures k in keys { assert keys[k] in keys; }
        return nextId;
      }
      nextId := keys[i] + 1;
    }
    // Every ID up to the largest is in use, so the map would be full.
    assert false;
  }

  class DnsTlsQueryMap {
    const maxTries: nat
    var queries: Queries
    var settled: map<nat, Result>
    var nextPromise: nat

    ghost predicate Valid()
      reads this
    {
      maxTries >= 1 && Sound(queries, settled, nextPromise)
    }

    constructor (flag: int)
      ensures Valid() && queries == map[] && settled == map[] && nextPromise == 0
      ensures maxTries == if flag < 1 then 1 else flag
    {
      maxTries := if flag < 1 then 1 else flag;
      queries, settled, nextPromise := map[], map[], 0;
    }

    /** The keys in the order in which an ordered map is traversed. */
    method Keys() returns (keys: seq<nat>)
      requires Valid()
      ensures InOrder(keys, queries)
      ensures forall i :: 0 <= i < |keys| ==> keys[i] in queries && keys[i] < ID_COUNT
    {
      keys := [];
      for id := 0 to ID_COUNT
        invariant Ascending(keys)
        invariant forall k :: k in keys <==> k in queries && k < id
        invariant forall i :: 0 <= i < |keys| ==> keys[i] < id && keys[i] in queries
      {
        if id in queries {
          keys := keys + [id];
        }
      }
    }

    /** `getFreeId`: an unused ID, or -1 when all are in use. */
    method GetFreeId() returns (id: int)
      requires Valid()
      ensures id == -1 <==> |queries| == ID_COUNT
      ensures id != -1 ==> 0 <= id < ID_COUNT && id !in queries
      ensures queries == map[] ==> id == 0
      ensures queries != map[] && 65535 !in queries ==> id - 1 in queries && forall k :: k in queries ==> k < id
      ensures 65535 in queries && id != -1 ==> forall k :: 0 <= k < id ==> k in queries
    {
      hide Sound;
      var keys := Keys();
      KeyCount(keys, queries.Keys);
      id := FreeAmong(keys);
    }

    /** `recordQuery` */
    method RecordQuery(query: seq<byte>) returns (r: Option<Pending>)
      requires Valid()
      modifies this
      ensures Valid()
      ensures r.None? <==> |query| < 2 || |old(queries)| == ID_COUNT
      ensures r.None? ==> queries == old(queries) && settled == old(settled) && nextPromise == old(nextPromise)
      ensures r.Some? ==>
        && var id := r.value.query.newId;
        && id < ID_COUNT && id !in old(queries)
        && r.value == Pending(Query(id, query), 0, old(nextPromise))
        && queries == old(queries)[id := r.value]
        && settled == old(settled) && nextPromise == old(nextPromise) + 1
    {
      if |query| < 2 { return None; }
      var newId := GetFreeId();
      if newId < 0 { return None; }
      var q := Pending(Query(newId, query), 0, nextPromise);
      queries := queries[newId := q];
      nextPromise := nextPromise + 1;
      return Some(q);
    }

    method MarkTriedId(newId: nat)
      requires Valid()
      modifies this
      ensures Valid()
      ensures queries == MarkTried(old(queries), newId)
      ensures settled == old(settled) && nextPromise == old(nextPromise)
    {
      if newId in queries {
        queries := queries[newId := queries[newId].(tries := queries[newId].tries + 1)];
      }
    }

    /** Set a promise; setting one twice would throw. */
    method SetValue(promise: nat, r: Result)
      requires promise !in settled
      modifies this`settled
      ensures settled == old(settled)[promise := r]
    {
      settled := settled[promise := r];
    }

    /** `cleanup`: give up on the queries that have been tried often enough. */
    method Cleanup()
      requires Valid()
      modifies this
      ensures Valid()
      ensures queries == Keep(old(queries), maxTries) && nextPromise == old(nextPromise)
      ensures settled == SettleAll(old(settled), Expired(old(queries), maxTries), NetworkError)
    {
      hide Keep, Expired, SettleAll, Sound;
      var keys := Keys();
      for i := 0 to |keys|
        invariant Valid() && nextPromise == old(nextPromise)
        invariant forall id :: id in queries ==> id in keys
        invariant forall k :: i <= k < |keys| ==> keys[k] in queries
        invariant forall k :: 0 <= k < i && keys[k] in queries ==> queries[keys[k]].tries < maxTries
        invariant Keep(queries, maxTries) == Keep(old(queries), maxTries)
        invariant SettleAll(settled, Expired(queries, maxTries), NetworkError)
               == SettleAll(old(settled), Expired(old(queries), maxTries), NetworkError)
      {
        var id := keys[i];
        if queries[id].tries >= maxTries {
          ExpireOne(queries, settled, id, maxTries);
          SoundWithout(queries, settled, nextPromise, id, NetworkError);
          SetValue(queries[id].promise, NetworkError);
          queries := queries - {id};
        }
      }
      NothingExpired(queries, settled, maxTries);
    }

    /** `clear`: settle everything with an error. */
    method Clear()
      requires Valid()
      modifies this
      ensures Valid() && queries == map[] && nextPromise == old(nextPromise)
      ensures settled == SettleAll(old(settled), Promises(old(queries)), NetworkError)
    {
      hide Expired, SettleAll, Promises, Sound;
      var keys := Keys();
      PromisesExpired(queries);
      ghost var left := queries;
      for i := 0 to |keys|
        invariant Sound(left, settled, nextPromise)
        invariant forall k :: i <= k < |keys| ==> keys[k] in left
        invariant forall id :: id in left ==> id in queries && left[id] == queries[id] && id in keys
        invariant forall k :: 0 <= k < i ==> keys[k] !in left
        invariant queries == old(queries) && nextPromise == old(nextPromise)
        invariant SettleAll(settled, Expired(left, 0), NetworkError)
               == SettleAll(old(settled), Expired(queries, 0), NetworkError)
      {
        ExpireOne(left, settled, keys[i], 0);
        SoundWithout(left, settled, nextPromise, keys[i], NetworkError);
        SetValue(queries[keys[i]].promise, NetworkError);
        left := left - {keys[i]};
      }
      assert left == map[];
      queries := map[];
      PromisesExpired(left);
    }

    /** `getAll`: the outstanding queries, in the order of their IDs. */
    method GetAll() returns (qs: seq<Query>)
      requires Valid()
      ensures forall i :: 0 <= i < |qs| ==> qs[i].newId in queries && queries[qs[i].newId].query == qs[i]
      ensures forall id :: id in queries ==> queries[id].query in qs
      ensures forall i, j :: 0 <= i < j < |qs| ==> qs[i].newId < qs[j].newId
    {
      var keys := Keys();
      qs := [];
      for i := 0 to |keys|
        invariant |qs| == i && forall k :: 0 <= k < i ==> qs[k] == queries[keys[k]].query
      {
        qs := qs + [queries[keys[i]].query];
      }
      forall id | id in queries
        ensures queries[id].query in qs
      {
        var k :| 0 <= k < |keys| && keys[k] == id;
        assert qs[k] == queries[id].query;
      }
    }

    /** `onResponse`: deliver a response under the caller's own ID, once. */
    method OnResponse(response: seq<byte>)
      requires Valid()
      modifies this
      ensures Valid() && nextPromise == old(nextPromise)
      ensures var id := ResponseId(response);
        if id.Some? && id.value in old(queries) then
          && queries == old(queries) - {id.value}
          && settled == old(settled)[old(queries)[id.value].promise :=
               Success(Restored(response, old(queries)[id.value].query.bytes))]
        else
          queries == old(queries) && settled == old(settled)
    {
      if |response| < 2 { return; }
      var id := Be16At(response, 0);
      if id !in queries { return; }
      var data := queries[id].query.bytes;
      var r := response[0 := data[0]][1 := data[1]];
      assert r == Restored(response, data);
      SetValue(queries[id].promise, Success(r));
      queries := queries - {id};
    }
  }

  /** Giving up on one query leaves the rest of the cleanup to do. */
  lemma ExpireOne(m: Queries, settled: map<nat, Result>, id: nat, max: nat)
    requires id in m && m[id].tries >= max
    ensures Keep(m - {id}, max) == Keep(m, max)
    ensures SettleAll(settled[m[id].promise := NetworkError], Expired(m - {id}, max), NetworkError)
         == SettleAll(settled, Expired(m, max), NetworkError)
  {
    hide Expired;
    ExpiredSplit(m, id, max);
  }

  lemma ExpiredSplit(m: Queries, id: nat, max: nat)
    requires id in m && m[id].tries >= max
    ensures Expired(m, max) == Expired(m - {id}, max) + {m[id].promise}
  {
    var rest := m - {id};
    forall p | p in Expired(m, max)
      ensures p in Expired(rest, max) || p == m[id].promise
    {
      var j :| j in m && m[j].tries >= max && m[j].promise == p;
      if j != id { assert j in rest; }
    }
    forall p | p in Expired(rest, max)
      ensures p in Expired(m, max)
    {
      var j :| j in rest && rest[j].tries >= max && rest[j].promise == p;
      assert j in m;
    }
  }

  lemma NothingExpired(m: Queries, settled: map<nat, Result>, max: nat)
    requires forall id :: id in m ==> m[id].tries < max
    ensures Keep(m, max) == m
    ensures SettleAll(settled, Expired(m, max), NetworkError) == settled
  {
  }

  lemma PromisesExpired(m: Queries)
    ensures Expired(m, 0) == Promises(m)
    ensures m == map[] ==> forall s: map<nat, Result> :: SettleAll(s, Expired(m, 0), NetworkError) == s
  {
  }
}
