/**
  The answer cache as a value: a list of answers, most recently used first, at most one per
  query class. This is the simple form that the hash table and the ring of `CacheHeap` refine.
 */
module LruSpec {
  import opened Bytes

  /** The answer stored for the query class `cls`. */
  datatype Item<C> = Item(cls: C, answer: seq<byte>, expires: int)

  datatype Lookup = Found(answer: seq<byte>) | NotFound | TooLong(length: nat)

  /** No two answers are for the same query class. */
  ghost predicate Unique<C>(items: seq<Item<C>>)
  {
    forall i, j :: 0 <= i < j < |items| ==> items[i].cls != items[j].cls
  }

  /** The position of the answer for `q`, or the length of the list. */
  function Find<C(==)>(items: seq<Item<C>>, q: C): (i: nat)
    ensures i <= |items|
    ensures forall k :: 0 <= k < i ==> items[k].cls != q
    ensures i < |items| ==> items[i].cls == q
  {
    if items == [] || items[0].cls == q then 0 else 1 + Find(items[1..], q)
  }

  function Without<T>(s: seq<T>, i: nat): (r: seq<T>)
    requires i < |s|
    ensures |r| == |s| - 1
  {
    s[..i] + s[i + 1..]
  }

  function Unexpired<C>(items: seq<Item<C>>, now: int): (r: seq<Item<C>>)
    ensures |r| <= |items|
  {
    if items == [] then []
    else if now >= items[0].expires then Unexpired(items[1..], now)
    else [items[0]] + Unexpired(items[1..], now)
  }

  /** A lookup that reached the stored answer, or missed. */
  function AfterLookup<C(==)>(items: seq<Item<C>>, q: C, now: int, room: nat): (r: (seq<Item<C>>, Lookup))
  {
    var i := Find(items, q);
    if i == |items| then (items, NotFound)
    else if now >= items[i].expires then (Without(items, i), NotFound)
    else if |items[i].answer| > room then (items, TooLong(|items[i].answer|))
    else ([items[i]] + Without(items, i), Found(items[i].answer))
  }

  /** Make room in a full cache: first everything expired, then the least recently used. */
  function Evict<C>(items: seq<Item<C>>, now: int, max: nat): (r: seq<Item<C>>)
    requires max > 0
  {
    if |items| < max then items
    else
      var live := Unexpired(items, now);
      if |live| < max then live else live[..|live| - 1]
  }

  /** Store an answer for a query that has none. `ttl` 0 stores nothing, but still makes room. */
  function AfterAdd<C(==)>(items: seq<Item<C>>, q: C, answer: seq<byte>, ttl: nat, now: int, later: int, max: nat)
    : (r: seq<Item<C>>)
    requires max > 0
  {
    if Find(items, q) < |items| then items
    else
      var kept := Evict(items, now, max);
      if ttl > 0 then [Item(q, answer, ttl + later)] + kept else kept
  }

  // ---------------------------------------------------------------------------
  // Keys that match nothing
  // ---------------------------------------------------------------------------

  /** A key: a query class, or a packet so incomplete that it matches no packet, not even itself. */
  datatype Key<C> = Whole(cls: C) | Torn

  predicate Matches<C(==)>(c: Key<C>, d: Key<C>)
  {
    c.Whole? && c == d
  }

  /** No two items match. */
  ghost predicate UniqueKeys<C>(items: seq<Item<Key<C>>>)
  {
    forall i, j :: 0 <= i < j < |items| ==> !Matches(items[i].cls, items[j].cls)
  }

  /** The position of the item that matches `q`, or the length of the list. */
  function FindKey<C(==)>(items: seq<Item<Key<C>>>, q: Key<C>): (i: nat)
    ensures i <= |items|
    ensures forall k :: 0 <= k < i ==> !Matches(q, items[k].cls)
    ensures i < |items| ==> Matches(q, items[i].cls)
  {
    if q.Torn? then |items| else Find(items, q)
  }

  /** A lookup with any key. */
  function LookupKey<C(==)>(items: seq<Item<Key<C>>>, q: Key<C>, now: int, room: nat): (r: (seq<Item<Key<C>>>, Lookup))
    ensures FindKey(items, q) == |items| ==> r == (items, NotFound)
  {
    if q.Torn? then (items, NotFound) else AfterLookup(items, q, now, room)
  }

  /** The expiry pass: it gives up at the first expired item that it cannot find by its key. */
  function Swept<C>(items: seq<Item<Key<C>>>, now: int): (r: seq<Item<Key<C>>>)
    ensures |r| <= |items|
  {
    if items == [] then []
    else if now < items[0].expires then [items[0]] + Swept(items[1..], now)
    else if items[0].cls.Whole? then Swept(items[1..], now)
    else items
  }

  /** Make room in a full cache: neither the pass nor the removal of the last item gets past an incomplete key. */
  function EvictKeys<C>(items: seq<Item<Key<C>>>, now: int, max: nat): (r: seq<Item<Key<C>>>)
    requires max > 0
  {
    if |items| < max then items
    else
      var live := Swept(items, now);
      if |live| < max || live[|live| - 1].cls.Torn? then live else live[..|live| - 1]
  }

  /** A store with any key. */
  function AddKey<C(==)>(items: seq<Item<Key<C>>>, q: Key<C>, answer: seq<byte>, ttl: nat, now: int, later: int,
                         max: nat): (r: seq<Item<Key<C>>>)
    requires max > 0
  {
    if FindKey(items, q) < |items| then items
    else
      var kept := EvictKeys(items, now, max);
      if ttl > 0 then [Item(q, answer, ttl + later)] + kept else kept
  }
}
