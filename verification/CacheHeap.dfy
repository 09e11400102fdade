/**
  The answer cache as the resolver keeps it (res_cache.cpp): entries linked into collision
  chains through `hlink` and into a circular most-recently-used ring through `mruPrev` and
  `mruNext`, updated by hand.
 */
module CacheHeap {
  import opened Bytes
  import opened PacketSpec
  import opened PacketLaws
  import opened LruSpec
  import opened AnswerTtl
  import opened Pending
  import PacketWalk

  /** Two complete packets are the same key exactly when they have the same class. */
  datatype QueryClass = QueryClass(length: nat, key: QueryKey)

  type KeyClass = Key<QueryClass>

  /** A packet that the cache can be given: it is refused, or comparing it never leaves it. */
  predicate Sound(query: seq<byte>)
  {
    Checked(query) ==> !CutInRdLength(query)
  }

  /** The class of a checked query. */
  ghost function ClassOf(query: seq<byte>): (c: KeyClass)
    requires Checked(query)
  {
    if Complete(query) then Whole(QueryClass(|query|, KeyOf(query))) else Torn
  }

  /** The hash of every query of a class. */
  ghost function HashOf(cls: QueryClass): (h: nat)
  {
    Fnv(FedByKey(cls.key))
  }

  /** `query` is a key of class `cls`, and `hash` is its hash; incomplete keys may have any. */
  ghost predicate Keyed(query: seq<byte>, cls: KeyClass, hash: nat)
  {
    Checked(query) && Sound(query) && cls == ClassOf(query) && (cls.Whole? ==> hash == HashOf(cls.cls))
  }

  /** `entry_equals` decides whether two keys match. */
  method KeyEquals(q: seq<byte>, r: seq<byte>, ghost c: KeyClass, ghost d: KeyClass, ghost h: nat, ghost g: nat)
    returns (same: bool)
    requires Keyed(q, c, h) && Keyed(r, d, g)
    ensures same <==> Matches(c, d)
  {
    assert |q| >= HEADER_SIZE && |r| >= HEADER_SIZE;
    hide CompareQuery, Checked, Complete, CutInRdLength, KeyOf, HashQuery;
    var answer := PacketWalk.EntryEquals(q, r);
    if Complete(q) && Complete(r) {
      EqQueryIff(q, r);
    } else {
      EqualImpliesComplete(q, r);
    }
    OutOfBoundsOnlyIfCut(q, r);
    assert answer != PacketWalk.Undefined;
    same := answer == PacketWalk.Yes;
  }

  const EINVAL: int := -22
  const EEXIST: int := -17

  /** `ResolvCacheStatus`, with what is returned beside it; `Wait` is a lookup that must wait. */
  datatype Status = Hit(answer: seq<byte>) | Miss | Unsupported(length: Option<nat>) | Skip | Wait

  /** How the outcome of the simple cache is reported. */
  ghost predicate Returns(status: Status, outcome: Lookup)
  {
    match outcome
    case Found(answer) => status == Hit(answer)
    case NotFound => status == Miss
    case TooLong(length) => status == Unsupported(Some(length))
  }

  /** A cached answer, or the ring's list head. What identifies it never changes; links do. */
  class Entry {
    const hash: nat
    const query: seq<byte>
    const answer: seq<byte>
    const expires: int
    ghost const cls: KeyClass
    var id: nat
    var hlink: Entry?
    var mruPrev: Entry
    var mruNext: Entry

    constructor (hash: nat, query: seq<byte>, ghost cls: KeyClass, answer: seq<byte>, expires: int)
      ensures this.hash == hash && this.query == query && this.cls == cls
      ensures this.answer == answer && this.expires == expires
      ensures hlink == null && mruPrev == this && mruNext == this
    {
      this.hash, this.query, this.cls, this.answer, this.expires := hash, query, cls, answer, expires;
      id, hlink, mruPrev, mruNext := 0, null, this, this;
    }
  }

  ghost function ItemOf(e: Entry): (i: Item<KeyClass>)
  {
    Item(e.cls, e.answer, e.expires)
  }

  ghost function Items(ring: seq<Entry>): (r: seq<Item<KeyClass>>)
    ensures |r| == |ring|
    ensures forall i :: 0 <= i < |ring| ==> r[i] == ItemOf(ring[i])
  {
    seq(|ring|, i requires 0 <= i < |ring| => ItemOf(ring[i]))
  }

  /** The node in position `k` of a chain, or the end of the chain. */
  function Nth(c: seq<Entry>, k: nat): (e: Entry?)
  {
    if k < |c| then c[k] else null
  }

  function Bucket(hash: nat, max: nat): (b: nat)
    requires max > 0
    ensures b < max
  {
    hash % max
  }

  ghost predicate AllKeyed(ring: seq<Entry>)
  {
    forall e {:trigger Keyed(e.query, e.cls, e.hash)} :: e in ring ==> Keyed(e.query, e.cls, e.hash)
  }

  /** The ring and the chains hold the same entries, each once, in the right chain. */
  ghost predicate Filed(max: nat, ring: seq<Entry>, chains: seq<seq<Entry>>)
    requires max > 0 && |chains| == max
  {
    && Distinct(ring)
    && (forall b :: 0 <= b < max ==> Distinct(chains[b]))
    && (forall e {:trigger e in ring} :: e in ring ==> e in chains[Bucket(e.hash, max)])
    && (forall b, e {:trigger e in chains[b]} :: 0 <= b < max && e in chains[b] ==>
          e in ring && Bucket(e.hash, max) == b)
  }

  /** A consistent set of entries: filed, keyed, at most one per query class. */
  ghost predicate Stored(max: nat, ring: seq<Entry>, chains: seq<seq<Entry>>)
  {
    max > 0 && |chains| == max && Filed(max, ring, chains) && AllKeyed(ring) && UniqueKeys(Items(ring))
  }

  ghost predicate RingLinked(nodes: seq<Entry>)
    reads nodes`mruPrev, nodes`mruNext
  {
    && (forall i {:trigger nodes[i].mruNext} :: 0 <= i < |nodes| - 1 ==> nodes[i].mruNext == nodes[i + 1])
    && (forall i {:trigger nodes[i].mruPrev} :: 0 < i < |nodes| ==> nodes[i].mruPrev == nodes[i - 1])
  }

  /** The `hlink` of every entry. */
  ghost function Hlinks(all: seq<Entry>): (h: map<Entry, Entry?>)
    reads all`hlink
  {
    map e | e in all :: e.hlink
  }

  /** Slot 0 of a chain is its bucket head; slot `k + 1` is the `hlink` of its node `k`. */
  ghost predicate ChainsLinked(heads: seq<Entry?>, chains: seq<seq<Entry>>, hlinks: map<Entry, Entry?>)
    requires |heads| == |chains|
  {
    && (forall b :: 0 <= b < |chains| ==> heads[b] == Nth(chains[b], 0))
    && (forall b, k {:trigger hlinks[chains[b][k]]} :: 0 <= b < |chains| && 0 <= k < |chains[b]| ==>
          chains[b][k] in hlinks && hlinks[chains[b][k]] == Nth(chains[b], k + 1))
  }

  /** Following `hlink` from `head` visits exactly `c`. */
  ghost predicate ChainWalk(head: Entry?, c: seq<Entry>)
    reads c`hlink
  {
    head == Nth(c, 0) && forall k {:trigger c[k].hlink} :: 0 <= k < |c| ==> c[k].hlink == Nth(c, k + 1)
  }

  lemma ClassNeedsHash(e: Entry, query: seq<byte>, cls: KeyClass, hash: nat)
    requires Keyed(e.query, e.cls, e.hash) && Keyed(query, cls, hash)
    ensures e.hash != hash ==> !Matches(cls, e.cls)
  {
  }

  /** A class absent from its own chain is absent from the cache. */
  lemma NotInChain(max: nat, ring: seq<Entry>, chains: seq<seq<Entry>>,
                   query: seq<byte>, cls: KeyClass, hash: nat)
    requires max > 0 && |chains| == max && Filed(max, ring, chains) && AllKeyed(ring)
    requires Keyed(query, cls, hash)
    requires forall e :: e in chains[Bucket(hash, max)] ==> !Matches(cls, e.cls)
    ensures forall e :: e in ring ==> !Matches(cls, e.cls)
  {
    hide Keyed, Bucket;
    forall e | e in ring
      ensures !Matches(cls, e.cls)
    {
      ClassNeedsHash(e, query, cls, hash);
    }
  }

  lemma WithoutMembers<T>(s: seq<T>, i: nat)
    requires Distinct(s) && i < |s|
    ensures Distinct(Without(s, i))
    ensures forall e :: e in Without(s, i) <==> e in s && e != s[i]
  {
  }

  lemma FiledWithout(max: nat, ring: seq<Entry>, chains: seq<seq<Entry>>, r: nat, b: nat, k: nat)
    requires max > 0 && |chains| == max && Filed(max, ring, chains)
    requires r < |ring| && b < max && k < |chains[b]| && ring[r] == chains[b][k]
    ensures Filed(max, Without(ring, r), chains[b := Without(chains[b], k)])
  {
    hide Distinct, Bucket;
    var e0, ring', chains' := ring[r], Without(ring, r), chains[b := Without(chains[b], k)];
    assert e0 in chains[b];
    WithoutMembers(ring, r);
    WithoutMembers(chains[b], k);
    forall e | e in ring'
      ensures e in chains'[Bucket(e.hash, max)]
    {
      assert e in ring && e in chains[Bucket(e.hash, max)];
    }
    forall c, e: Entry | 0 <= c < max && e in chains'[c]
      ensures e in ring' && Bucket(e.hash, max) == c
    {
      if c == b { assert e in Without(chains[b], k); }
      assert e in chains[c] && e in ring;
    }
  }

  lemma FiledWith(max: nat, ring: seq<Entry>, chains: seq<seq<Entry>>, e: Entry)
    requires max > 0 && |chains| == max && Filed(max, ring, chains)
    requires e !in ring
    ensures var b := Bucket(e.hash, max); Filed(max, [e] + ring, chains[b := chains[b] + [e]])
  {
    hide Bucket;
    var b := Bucket(e.hash, max);
    var ring', chains' := [e] + ring, chains[b := chains[b] + [e]];
    assert e !in chains[b];
    forall x | x in ring'
      ensures x in chains'[Bucket(x.hash, max)]
    {
      assert x == e || x in ring;
    }
    forall c, x: Entry | 0 <= c < max && x in chains'[c]
      ensures x in ring' && Bucket(x.hash, max) == c
    {
      assert x == e || x in chains[c];
    }
  }

  lemma ItemsWithout(ring: seq<Entry>, r: nat)
    requires r < |ring|
    ensures Items(Without(ring, r)) == Without(Items(ring), r)
    ensures UniqueKeys(Items(ring)) ==> UniqueKeys(Items(Without(ring, r)))
  {
  }

  lemma StoredWithout(max: nat, ring: seq<Entry>, chains: seq<seq<Entry>>, r: nat, b: nat, k: nat)
    requires Stored(max, ring, chains)
    requires r < |ring| && b < max && k < |chains[b]| && ring[r] == chains[b][k]
    ensures Stored(max, Without(ring, r), chains[b := Without(chains[b], k)])
  {
    FiledWithout(max, ring, chains, r, b, k);
    ItemsWithout(ring, r);
    hide Filed, UniqueKeys, Keyed;
  }

  /** Bypassing node `k` of chain `b` leaves every chain linked. */
  lemma LinksWithout(max: nat, ring: seq<Entry>, heads: seq<Entry?>, chains: seq<seq<Entry>>,
                     hlinks: map<Entry, Entry?>, b: nat, k: nat, heads': seq<Entry?>, hlinks': map<Entry, Entry?>)
    requires max > 0 && |heads| == |heads'| == |chains| == max && b < max && k < |chains[b]|
    requires Filed(max, ring, chains) && ChainsLinked(heads, chains, hlinks)
    requires heads' == if k == 0 then heads[b := Nth(chains[b], 1)] else heads
    requires hlinks.Keys == (set x | x in ring)
    requires forall x :: x in ring && x != chains[b][k] ==> x in hlinks'
    requires forall x :: x in ring && x != chains[b][k] ==>
               hlinks'[x] == if k > 0 && x == chains[b][k - 1] then Nth(chains[b], k + 1) else hlinks[x]
    ensures ChainsLinked(heads', chains[b := Without(chains[b], k)], hlinks')
  {
    hide Bucket;
    var chains' := chains[b := Without(chains[b], k)];
    assert chains[b][k] in chains[b];
    forall c, i | 0 <= c < max && 0 <= i < |chains'[c]|
      ensures chains'[c][i] in hlinks' && hlinks'[chains'[c][i]] == Nth(chains'[c], i + 1)
    {
      var j := if c == b && i >= k then i + 1 else i;
      assert chains'[c][i] == chains[c][j];
      assert chains[c][j] in chains[c];
      assert k > 0 ==> chains[b][k - 1] in chains[b];
      assert hlinks[chains[c][j]] == Nth(chains[c], j + 1);
    }
  }

  lemma SamePosition(ring: seq<Entry>, r: nat, p: nat)
    requires Distinct(ring) && r < |ring| && p < |ring| && ring[r] == ring[p]
    ensures r == p
  {
  }

  /** What remains of a list whose first `p` items have been kept by the expiry pass. */
  ghost function Pass(items: seq<Item<KeyClass>>, p: nat, now: int): (r: seq<Item<KeyClass>>)
    requires p <= |items|
  {
    items[..p] + Swept(items[p..], now)
  }

  lemma PassEnds(items: seq<Item<KeyClass>>, now: int)
    ensures Pass(items, 0, now) == Swept(items, now)
    ensures Pass(items, |items|, now) == items
  {
    assert items[0..] == items;
  }

  lemma PassKeeps(items: seq<Item<KeyClass>>, p: nat, now: int)
    requires p < |items| && now < items[p].expires
    ensures Pass(items, p, now) == Pass(items, p + 1, now)
  {
    assert items[p..][1..] == items[p + 1..];
  }

  lemma PassDrops(items: seq<Item<KeyClass>>, p: nat, now: int)
    requires p < |items| && now >= items[p].expires && items[p].cls.Whole?
    ensures Pass(items, p, now) == Pass(Without(items, p), p, now)
  {
    assert items[p..][1..] == items[p + 1..];
    assert Without(items, p)[..p] == items[..p] && Without(items, p)[p..] == items[p + 1..];
  }

  lemma PassStops(items: seq<Item<KeyClass>>, p: nat, now: int)
    requires p < |items| && now >= items[p].expires && items[p].cls.Torn?
    ensures Pass(items, p, now) == items
  {
  }

  lemma PassStep(ring: seq<Entry>, p: nat, now: int)
    requires p < |ring|
    ensures now < ring[p].expires ==> Pass(Items(ring), p, now) == Pass(Items(ring), p + 1, now)
    ensures now >= ring[p].expires && ring[p].cls.Whole? ==>
              Pass(Items(ring), p, now) == Pass(Items(Without(ring, p)), p, now)
    ensures now >= ring[p].expires && ring[p].cls.Torn? ==> Pass(Items(ring), p, now) == Items(ring)
  {
    hide Pass, Without;
    if now < ring[p].expires {
      PassKeeps(Items(ring), p, now);
    } else if ring[p].cls.Whole? {
      PassDrops(Items(ring), p, now);
      ItemsWithout(ring, p);
    } else {
      PassStops(Items(ring), p, now);
    }
  }

  lemma ItemsWith(ring: seq<Entry>, e: Entry)
    ensures Items([e] + ring) == [ItemOf(e)] + Items(ring)
    ensures UniqueKeys(Items(ring)) && (forall x :: x in ring ==> !Matches(e.cls, x.cls)) ==>
              UniqueKeys(Items([e] + ring))
  {
  }

  lemma StoredWith(max: nat, ring: seq<Entry>, chains: seq<seq<Entry>>, e: Entry)
    requires Stored(max, ring, chains)
    requires e !in ring && Keyed(e.query, e.cls, e.hash)
    requires forall x :: x in ring ==> !Matches(e.cls, x.cls)
    ensures var b := Bucket(e.hash, max); Stored(max, [e] + ring, chains[b := chains[b] + [e]])
  {
    hide Filed, Keyed, Bucket, UniqueKeys;
    FiledWith(max, ring, chains, e);
    ItemsWith(ring, e);
  }

  /** Appending `e` to chain `b` leaves every chain linked. */
  lemma LinksWith(max: nat, ring: seq<Entry>, heads: seq<Entry?>, chains: seq<seq<Entry>>, hlinks: map<Entry, Entry?>,
                  b: nat, e: Entry, heads': seq<Entry?>, hlinks': map<Entry, Entry?>)
    requires max > 0 && |heads| == |heads'| == |chains| == max && b < max
    requires Filed(max, ring, chains) && ChainsLinked(heads, chains, hlinks)
    requires var c := chains[b]; heads' == if c == [] then heads[b := e] else heads
    requires e in hlinks' && hlinks'[e] == null && e !in ring
    requires hlinks.Keys == (set x | x in ring)
    requires forall x :: x in ring ==> x in hlinks'
    requires var c := chains[b];
             forall x :: x in ring ==> hlinks'[x] == if c != [] && x == c[|c| - 1] then e else hlinks[x]
    ensures ChainsLinked(heads', chains[b := chains[b] + [e]], hlinks')
  {
    hide Bucket;
    var chains' := chains[b := chains[b] + [e]];
    forall c, i | 0 <= c < max && 0 <= i < |chains'[c]|
      ensures chains'[c][i] in hlinks' && hlinks'[chains'[c][i]] == Nth(chains'[c], i + 1)
    {
      if i < |chains[c]| {
        assert chains'[c][i] == chains[c][i];
        assert chains[c][i] in chains[c];
        assert chains[b] != [] ==> chains[b][|chains[b]| - 1] in chains[b];
        assert hlinks[chains[c][i]] == Nth(chains[c], i + 1);
      }
    }
  }

  ghost function Nexts(nodes: seq<Entry>): (m: map<Entry, Entry>)
    reads nodes`mruNext
  {
    map x | x in nodes :: x.mruNext
  }

  ghost function Prevs(nodes: seq<Entry>): (m: map<Entry, Entry>)
    reads nodes`mruPrev
  {
    map x | x in nodes :: x.mruPrev
  }

  /** `RingLinked` as a fact about link values. */
  ghost predicate LinkedBy(nodes: seq<Entry>, nexts: map<Entry, Entry>, prevs: map<Entry, Entry>)
  {
    && (forall i :: 0 <= i < |nodes| ==> nodes[i] in nexts && nodes[i] in prevs)
    && (forall i {:trigger nexts[nodes[i]]} :: 0 <= i < |nodes| - 1 ==> nexts[nodes[i]] == nodes[i + 1])
    && (forall i {:trigger prevs[nodes[i]]} :: 0 < i < |nodes| ==> prevs[nodes[i]] == nodes[i - 1])
  }

  lemma RingToMaps(nodes: seq<Entry>)
    requires RingLinked(nodes)
    ensures LinkedBy(nodes, Nexts(nodes), Prevs(nodes))
  {
  }

  lemma MapsToRing(all: seq<Entry>, nodes: seq<Entry>)
    requires LinkedBy(nodes, Nexts(all), Prevs(all)) && forall x :: x in nodes ==> x in all
    ensures RingLinked(nodes)
  {
    forall i | 0 <= i < |nodes| - 1 ensures nodes[i].mruNext == nodes[i + 1] {
      assert Nexts(all)[nodes[i]] == nodes[i + 1];
    }
    forall i | 0 < i < |nodes| ensures nodes[i].mruPrev == nodes[i - 1] {
      assert Prevs(all)[nodes[i]] == nodes[i - 1];
    }
  }

  /** Makes two nodes neighbours. */
  method Join(prev: Entry, next: Entry, ghost nodes: seq<Entry>)
    requires prev in nodes && next in nodes
    modifies prev`mruNext, next`mruPrev
    ensures Nexts(nodes) == old(Nexts(nodes))[prev := next] && Prevs(nodes) == old(Prevs(nodes))[next := prev]
  {
    prev.mruNext := next;
    next.mruPrev := prev;
  }

  /** The list head is at both ends of the ring; every other node is there once. */
  lemma NodesApart(m: Entry, ring: seq<Entry>, j: nat, k: nat)
    requires Distinct(ring) && m !in ring && j <= |ring| + 1 && k <= |ring| + 1
    ensures var nodes := [m] + ring + [m];
      nodes[j] == nodes[k] ==> j == k || (j in {0, |ring| + 1} && k in {0, |ring| + 1})
  {
  }

  lemma NodesWithout(m: Entry, ring: seq<Entry>, r: nat)
    requires r < |ring|
    ensures var nodes := [m] + ring + [m];
      && nodes[r + 1] == ring[r] && [m] + Without(ring, r) + [m] == Without(nodes, r + 1)
      && forall x :: x in Without(nodes, r + 1) ==> x in nodes
  {
  }

  /** Where the links of a node of the ring lead. */
  lemma Neighbours(m: Entry, ring: seq<Entry>, r: nat)
    requires r < |ring| && RingLinked([m] + ring + [m])
    ensures var nodes, e := [m] + ring + [m], ring[r];
      && e.mruPrev == nodes[r] && e.mruNext == nodes[r + 2]
      && (e.mruPrev == m || e.mruPrev in ring) && (e.mruNext == m || e.mruNext in ring)
  {
    var nodes := [m] + ring + [m];
    assert nodes[r + 1] == ring[r];
    assert nodes[r + 1].mruNext == nodes[r + 2] && nodes[r + 1].mruPrev == nodes[r];
  }

  lemma UnlinkNexts(m: Entry, ring: seq<Entry>, r: nat, nexts: map<Entry, Entry>, prevs: map<Entry, Entry>, i: nat)
    requires Distinct(ring) && m !in ring && r < |ring| && LinkedBy([m] + ring + [m], nexts, prevs) && i < |ring|
    ensures var nodes := [m] + ring + [m]; var left := Without(nodes, r + 1);
      left[i] in nexts && nexts[nodes[r] := nodes[r + 2]][left[i]] == left[i + 1]
  {
    hide Distinct;
    var nodes := [m] + ring + [m];
    var j := if i <= r then i else i + 1;
    NodesApart(m, ring, j, r);
    assert nexts[nodes[j]] == nodes[j + 1];
  }

  lemma UnlinkPrevs(m: Entry, ring: seq<Entry>, r: nat, nexts: map<Entry, Entry>, prevs: map<Entry, Entry>, i: nat)
    requires Distinct(ring) && m !in ring && r < |ring| && LinkedBy([m] + ring + [m], nexts, prevs) && 0 < i <= |ring|
    ensures var nodes := [m] + ring + [m]; var left := Without(nodes, r + 1);
      left[i] in prevs && prevs[nodes[r + 2] := nodes[r]][left[i]] == left[i - 1]
  {
    hide Distinct;
    var nodes := [m] + ring + [m];
    var j := if i <= r then i else i + 1;
    NodesApart(m, ring, j, r + 2);
    assert prevs[nodes[j]] == nodes[j - 1];
  }

  /** Two writes around a node take it out of the ring. */
  lemma UnlinkNode(m: Entry, ring: seq<Entry>, r: nat, nexts: map<Entry, Entry>, prevs: map<Entry, Entry>)
    requires Distinct(ring) && m !in ring && r < |ring| && LinkedBy([m] + ring + [m], nexts, prevs)
    ensures var nodes := [m] + ring + [m];
      && ring[r] in nexts && nexts[ring[r]] == nodes[r + 2] && ring[r] in prevs && prevs[ring[r]] == nodes[r]
      && LinkedBy(Without(nodes, r + 1), nexts[nodes[r] := nodes[r + 2]], prevs[nodes[r + 2] := nodes[r]])
  {
    hide Distinct;
    var nodes := [m] + ring + [m];
    NodesWithout(m, ring, r);
    assert nexts[nodes[r + 1]] == nodes[r + 2] && prevs[nodes[r + 1]] == nodes[r];
    var left := Without(nodes, r + 1);
    forall i | 0 <= i < |left| ensures left[i] in nexts && left[i] in prevs {
      assert left[i] == nodes[if i <= r then i else i + 1];
    }
    forall i | 0 <= i < |left| - 1 ensures nexts[nodes[r] := nodes[r + 2]][left[i]] == left[i + 1] {
      UnlinkNexts(m, ring, r, nexts, prevs, i);
    }
    forall i | 0 < i < |left| ensures prevs[nodes[r + 2] := nodes[r]][left[i]] == left[i - 1] {
      UnlinkPrevs(m, ring, r, nexts, prevs, i);
    }
  }

  /** Storing an answer for a class that has none. */
  lemma EvictFull(items: seq<Item<KeyClass>>, now: int, max: nat)
    requires |items| >= max > 0
    ensures var live := Swept(items, now);
      EvictKeys(items, now, max) ==
        if |live| < max || live[|live| - 1].cls.Torn? then live else live[..|live| - 1]
  {
  }

  lemma ItemsInit(ring: seq<Entry>)
    requires ring != []
    ensures Items(ring)[|ring| - 1].cls == ring[|ring| - 1].cls
    ensures Items(ring[..|ring| - 1]) == Items(ring)[..|ring| - 1]
  {
  }

  lemma AddAbsent(items: seq<Item<KeyClass>>, q: KeyClass, answer: seq<byte>, ttl: nat, now: int, later: int, max: nat)
    requires max > 0 && FindKey(items, q) == |items|
    ensures var kept := EvictKeys(items, now, max);
      AddKey(items, q, answer, ttl, now, later, max)
        == if ttl > 0 then [Item(q, answer, ttl + later)] + kept else kept
  {
  }

  lemma LinkOf(heads: seq<Entry?>, chains: seq<seq<Entry>>, hlinks: map<Entry, Entry?>, b: nat, k: nat)
    requires |heads| == |chains| && ChainsLinked(heads, chains, hlinks) && b < |chains| && k < |chains[b]|
    ensures chains[b][k] in hlinks && hlinks[chains[b][k]] == Nth(chains[b], k + 1)
  {
  }

  class Cache {
    const maxEntries: nat
    const heads: array<Entry?>
    const mruList: Entry
    const pending: PendingList
    var numEntries: nat
    var lastId: nat

    /** The entries, most recently used first. */
    ghost var ring: seq<Entry>
    /** The entries of each bucket, in chain order. */
    ghost var chains: seq<seq<Entry>>

    ghost predicate Valid()
      reads this, heads, mruList, ring
    {
      && mruList !in ring
      && RingLinked([mruList] + ring + [mruList])
      && numEntries == |ring|
      && heads.Length == maxEntries == |chains|
      && ChainsLinked(heads[..], chains, Hlinks(ring))
      && Stored(maxEntries, ring, chains)
    }

    constructor (max: nat)
      requires max > 0
      ensures Valid() && ring == [] && pending.hashes == [] && maxEntries == max
      ensures fresh(heads) && fresh(mruList) && fresh(pending)
    {
      maxEntries := max;
      heads := new Entry?[max](_ => null);
      mruList := new Entry(0, [], Torn, [], 0);
      pending := new PendingList();
      numEntries, lastId := 0, 0;
      ring := [];
      chains := seq(max, _ => []);
    }

    lemma RingDistinct()
      requires Valid()
      ensures Distinct(ring) && |chains| == maxEntries > 0
    {
    }

    /** Where node `k` of chain `b` is, and what it is linked to. */
    lemma NodeFacts(b: nat, k: nat)
      requires Valid() && b < maxEntries && k < |chains[b]|
      ensures chains[b][k] in ring && chains[b][k].hlink == Nth(chains[b], k + 1)
      ensures k > 0 ==> chains[b][k - 1] in ring && chains[b][k - 1] != chains[b][k]
    {
      hide Bucket, Keyed, RingLinked, UniqueKeys;
      assert chains[b][k] in chains[b];
      assert Hlinks(ring)[chains[b][k]] == Nth(chains[b], k + 1);
      if k > 0 { assert chains[b][k - 1] in chains[b]; }
    }

    /**
      `_cache_lookup_p`: walk the chain of the key's bucket. The slot found is the `k`-th of the
      chain: the bucket head for `k == 0`, otherwise the `hlink` of `prev`.
     */
    method LookupSlot(hash: nat, query: seq<byte>, ghost cls: KeyClass)
      returns (prev: Entry?, node: Entry?, ghost k: nat)
      requires Valid() && Keyed(query, cls, hash)
      ensures var c := chains[Bucket(hash, maxEntries)];
        && k <= |c|
        && node == Nth(c, k)
        && prev == (if k == 0 then null else c[k - 1])
      ensures node != null ==> node in ring && Matches(cls, node.cls) && node.hash == hash
      ensures node == null ==> k == |chains[Bucket(hash, maxEntries)]| && forall e :: e in ring ==> !Matches(cls, e.cls)
    {
      hide Keyed, Bucket, RingLinked, UniqueKeys;
      var index := Bucket(hash, maxEntries);
      ghost var c := chains[index];
      prev, node, k := null, heads[index], 0;
      while node != null
        invariant k <= |c| && node == Nth(c, k) && prev == (if k == 0 then null else c[k - 1])
        invariant forall i :: 0 <= i < k ==> !Matches(cls, c[i].cls)
        decreases |c| - k
      {
        NodeFacts(index, k);
        if node.hash == hash {
          var same := KeyEquals(node.query, query, node.cls, cls, node.hash, hash);
          if same { return; }
        } else {
          ClassNeedsHash(node, query, cls, hash);
        }
        prev, node, k := node, node.hlink, k + 1;
      }
      NotInChain(maxEntries, ring, chains, query, cls, hash);
    }

    // -------------------------------------------------------------------------
    // The ring
    // -------------------------------------------------------------------------

    /** `entry_mru_remove` */
    method MruRemove(e: Entry, ghost r: nat)
      requires Distinct(ring) && mruList !in ring && RingLinked([mruList] + ring + [mruList])
      requires r < |ring| && ring[r] == e
      modifies this`ring, mruList`mruPrev, mruList`mruNext, ring`mruPrev, ring`mruNext
      ensures ring == Without(old(ring), r)
      ensures RingLinked([mruList] + ring + [mruList])
    {
      hide Distinct, RingLinked, LinkedBy, Nexts, Prevs, Without;
      ghost var was, nodes := ring, [mruList] + ring + [mruList];
      RingToMaps(nodes);
      UnlinkNode(mruList, was, r, Nexts(nodes), Prevs(nodes));
      Neighbours(mruList, was, r);
      NodesWithout(mruList, was, r);
      Join(e.mruPrev, e.mruNext, nodes);
      ring := Without(ring, r);
      MapsToRing(nodes, Without(nodes, r + 1));
    }

    /** `entry_mru_add` */
    method MruAdd(e: Entry)
      requires Distinct(ring) && mruList !in ring && RingLinked([mruList] + ring + [mruList])
      requires e !in ring && e != mruList
      modifies this`ring, mruList`mruPrev, mruList`mruNext, ring`mruPrev, e`mruPrev, e`mruNext
      ensures ring == [e] + old(ring)
      ensures RingLinked([mruList] + ring + [mruList])
    {
      ghost var nodes := [mruList] + ring + [mruList];
      assert nodes[0].mruNext == nodes[1];
      var first := mruList.mruNext;
      e.mruNext := first;
      e.mruPrev := mruList;
      mruList.mruNext := e;
      first.mruPrev := e;
      ring := [e] + ring;
      assert [mruList] + ring + [mruList] == [mruList, e] + nodes[1..];
    }

    // -------------------------------------------------------------------------
    // The table
    // -------------------------------------------------------------------------

    /** Write slot `k` of chain `b`: the bucket head, or the `hlink` of `prev`. */
    method WriteSlot(b: nat, prev: Entry?, e: Entry?, ghost k: nat, ghost all: seq<Entry>)
      requires heads.Length == maxEntries == |chains| && b < maxEntries && k <= |chains[b]|
      requires prev == (if k == 0 then null else chains[b][k - 1]) && (prev != null ==> prev in all)
      modifies heads, all`hlink
      ensures prev == null ==> heads[..] == old(heads[..])[b := e]
      ensures prev != null ==> heads[..] == old(heads[..]) && prev.hlink == e
      ensures forall x :: x in all && x != prev ==> x.hlink == old(x.hlink)
    {
      if prev == null { heads[b] := e; } else { prev.hlink := e; }
    }

    /** Take node `k` out of chain `b`, for an entry `e` that has already left the ring `was`. */
    method Unchain(b: nat, prev: Entry?, e: Entry, ghost k: nat, ghost was: seq<Entry>)
      requires heads.Length == maxEntries == |chains| > 0
      requires Filed(maxEntries, was, chains) && ChainsLinked(heads[..], chains, Hlinks(was))
      requires b < maxEntries && k < |chains[b]| && chains[b][k] == e
      requires prev == if k == 0 then null else chains[b][k - 1]
      requires forall x :: x in ring <==> x in was && x != e
      modifies heads, was`hlink, this`chains
      ensures chains == old(chains)[b := Without(old(chains)[b], k)]
      ensures ChainsLinked(heads[..], chains, Hlinks(ring))
    {
      hide Bucket, Distinct, ChainsLinked;
      assert e in chains[b] && (k > 0 ==> chains[b][k - 1] in chains[b]);
      LinkOf(heads[..], chains, Hlinks(was), b, k);
      WriteSlot(b, prev, e.hlink, k, was);
      LinksWithout(maxEntries, was, old(heads[..]), chains, old(Hlinks(was)), b, k, heads[..], Hlinks(ring));
      chains := chains[b := Without(chains[b], k)];
    }

    /** What taking out node `k` of chain `b` leaves in the ring and the chains. */
    lemma RemovalFacts(b: nat, k: nat) returns (r: nat)
      requires Valid() && b < maxEntries && k < |chains[b]|
      ensures |chains| == maxEntries && r < |ring| && ring[r] == chains[b][k]
      ensures Distinct(ring) && Filed(maxEntries, ring, chains)
      ensures Stored(maxEntries, Without(ring, r), chains[b := Without(chains[b], k)])
      ensures forall x :: x in Without(ring, r) <==> x in ring && x != ring[r]
    {
      hide RingLinked, ChainsLinked, UniqueKeys, AllKeyed, Bucket;
      assert chains[b][k] in chains[b];
      r :| 0 <= r < |ring| && ring[r] == chains[b][k];
      StoredWithout(maxEntries, ring, chains, r, b, k);
      WithoutMembers(ring, r);
    }

    /** `_cache_remove_p` on slot `k` of chain `b`. */
    method RemoveAt(b: nat, prev: Entry?, e: Entry, ghost k: nat) returns (ghost r: nat)
      requires Valid()
      requires b < maxEntries && k < |chains[b]| && chains[b][k] == e
      requires prev == if k == 0 then null else chains[b][k - 1]
      modifies this, heads, mruList, ring
      ensures Valid()
      ensures r < |old(ring)| && old(ring)[r] == e && ring == Without(old(ring), r)
    {
      hide Stored, Filed, RingLinked, ChainsLinked, Distinct, Hlinks, Nth;
      ghost var was := ring;
      r := RemovalFacts(b, k);
      MruRemove(e, r);
      Unchain(b, prev, e, k, was);
      numEntries := numEntries - 1;
    }

    /** Append `e` to chain `b`. */
    method Chain(b: nat, prev: Entry?, e: Entry)
      requires heads.Length == maxEntries == |chains| > 0
      requires Filed(maxEntries, ring, chains) && ChainsLinked(heads[..], chains, Hlinks(ring))
      requires b < maxEntries && e !in ring && e.hlink == null
      requires prev == if chains[b] == [] then null else chains[b][|chains[b]| - 1]
      modifies heads, ring`hlink, this`chains
      ensures chains == old(chains)[b := old(chains)[b] + [e]]
      ensures ChainsLinked(heads[..], chains, Hlinks([e] + ring))
    {
      hide Bucket, Distinct, ChainsLinked;
      assert chains[b] != [] ==> chains[b][|chains[b]| - 1] in chains[b];
      WriteSlot(b, prev, e, |chains[b]|, ring);
      LinksWith(maxEntries, ring, old(heads[..]), chains, old(Hlinks(ring)), b, e, heads[..], Hlinks([e] + ring));
      chains := chains[b := chains[b] + [e]];
    }

    lemma AdditionFacts(e: Entry)
      requires Valid() && e !in ring && Keyed(e.query, e.cls, e.hash)
      requires forall x :: x in ring ==> !Matches(e.cls, x.cls)
      ensures Distinct(ring) && |chains| == maxEntries > 0 && Filed(maxEntries, ring, chains)
      ensures var b := Bucket(e.hash, maxEntries); Stored(maxEntries, [e] + ring, chains[b := chains[b] + [e]])
    {
      hide RingLinked, ChainsLinked, UniqueKeys, AllKeyed, Bucket, Keyed;
      StoredWith(maxEntries, ring, chains, e);
    }

    /** `_cache_add_p` on the empty slot at the end of the chain of `e`. */
    method AddAt(prev: Entry?, e: Entry)
      requires Valid()
      requires e !in ring && e != mruList && e.hlink == null && Keyed(e.query, e.cls, e.hash)
      requires forall x :: x in ring ==> !Matches(e.cls, x.cls)
      requires EndOfChain(prev, e.hash)
      modifies this, heads, mruList, ring, e
      ensures Valid() && ring == [e] + old(ring)
    {
      hide Stored, Filed, RingLinked, ChainsLinked, Distinct, Hlinks, Nth, Keyed, Bucket;
      AdditionFacts(e);
      Chain(Bucket(e.hash, maxEntries), prev, e);
      lastId := lastId + 1;
      e.id := lastId;
      MruAdd(e);
      numEntries := numEntries + 1;
    }

    // -------------------------------------------------------------------------
    // Eviction
    // -------------------------------------------------------------------------

    /** An entry of the ring is found by its own key, in its own chain, if its key is complete; otherwise nothing is. */
    method LookupEntry(e: Entry) returns (prev: Entry?, node: Entry?, ghost k: nat)
      requires Valid() && e in ring
      ensures node == if e.cls.Whole? then e else null
      ensures node != null ==>
        var c := chains[Bucket(e.hash, maxEntries)];
        k < |c| && c[k] == e && prev == (if k == 0 then null else c[k - 1])
    {
      hide Keyed, Bucket, RingLinked, ChainsLinked;
      prev, node, k := LookupSlot(e.hash, e.query, e.cls);
      if node != null {
        ghost var i :| 0 <= i < |ring| && ring[i] == e;
        ghost var j :| 0 <= j < |ring| && ring[j] == node;
        assert Items(ring)[i].cls == Items(ring)[j].cls;
      }
    }

    /**
      Look an entry of the ring up in the table and remove it. The search fails, and the "not in
      htable" branch of both eviction passes is taken, exactly for an entry with an incomplete key.
     */
    method RemoveListed(e: Entry, ghost p: nat) returns (found: bool)
      requires Valid() && p < |ring| && ring[p] == e
      modifies this, heads, mruList, ring
      ensures found <==> e.cls.Whole?
      ensures Valid() && ring == if found then Without(old(ring), p) else old(ring)
    {
      hide Stored, Keyed, Bucket, ChainsLinked, Distinct, RingLinked;
      RingDistinct();
      var prev, node, k := LookupEntry(e);
      if node == null { return false; }
      ghost var was := ring;
      ghost var r := RemoveAt(Bucket(e.hash, maxEntries), prev, node, k);
      SamePosition(was, r, p);
      return true;
    }

    /** `_cache_remove_oldest`, called on a full cache only. */
    method RemoveOldest()
      requires Valid() && numEntries > 0
      modifies this, heads, mruList, ring
      ensures var n := |old(ring)| - 1;
        Valid() && ring == if old(ring)[n].cls.Whole? then old(ring)[..n] else old(ring)
    {
      hide Stored, Keyed, Bucket, ChainsLinked;
      var oldest := mruList.mruPrev;
      ghost var nodes := [mruList] + ring + [mruList];
      assert nodes[|ring| + 1].mruPrev == nodes[|ring|] == ring[|ring| - 1];
      var _ := RemoveListed(oldest, |ring| - 1);
    }

    /** `_cache_remove_expired`: one pass over the ring, most recently used first. */
    method RemoveExpired(now: int)
      requires Valid()
      modifies this, heads, mruList, ring
      ensures Valid() && Items(ring) == Swept(Items(old(ring)), now)
      ensures forall i :: 0 <= i < |ring| ==> ring[i] in old(ring)
    {
      hide Stored, Keyed, Bucket, ChainsLinked, Distinct, UniqueKeys, RingLinked, Pass, Swept, Items;
      hide AllKeyed, Filed, Hlinks, Nexts, Prevs;
      RingNode(0);
      PassEnds(Items(ring), now);
      var e := mruList.mruNext;
      ghost var p := 0;
      while e != mruList
        invariant Valid() && p <= |ring|
        invariant forall i :: 0 <= i < |ring| ==> ring[i] in old(ring)
        invariant e == NodeAt(p)
        invariant Pass(Items(ring), p, now) == Swept(Items(old(ring)), now)
        decreases |ring| - p
      {
        RingNode(p + 1);
        PassStep(ring, p, now);
        var next := e.mruNext;
        if now >= e.expires {
          var found := RemoveListed(e, p);
          if !found { return; }
        } else {
          p := p + 1;
        }
        e := next;
      }
      PassEnds(Items(ring), now);
    }

    /** The `p`-th entry of the ring; after the last one the ring is back at its list head. */
    ghost function NodeAt(p: nat): (e: Entry)
      reads this
    {
      if p < |ring| then ring[p] else mruList
    }

    lemma RingNode(p: nat)
      requires Valid() && p <= |ring|
      ensures p == 0 ==> mruList.mruNext == NodeAt(0)
      ensures p > 0 ==> ring[p - 1].mruNext == NodeAt(p)
    {
      hide Stored, ChainsLinked;
      var nodes := [mruList] + ring + [mruList];
      assert nodes[p].mruNext == nodes[p + 1];
    }

    // -------------------------------------------------------------------------
    // The cache operations
    // -------------------------------------------------------------------------

    /** Make `e`, an entry of the ring, the most recently used one. */
    method Touch(e: Entry, ghost p: nat)
      requires Valid() && p < |ring| && ring[p] == e
      modifies this, mruList, ring
      ensures Valid() && ring == [e] + Without(old(ring), p)
      ensures unchanged(heads)
    {
      hide Stored, ChainsLinked, RingLinked, Distinct, Hlinks;
      RingNode(0);
      TouchFacts(p);
      if e != mruList.mruNext {
        MruRemove(e, p);
        MruAdd(e);
      } else {
        assert ring == [e] + Without(ring, p);
      }
    }

    lemma TouchFacts(p: nat)
      requires Valid() && p < |ring|
      ensures Distinct(ring) && Distinct(Without(ring, p)) && ring[p] !in Without(ring, p)
      ensures ring[p] == ring[0] ==> p == 0
      ensures mruList !in Without(ring, p)
      ensures Stored(maxEntries, [ring[p]] + Without(ring, p), chains)
      ensures |chains| == maxEntries
      ensures Hlinks([ring[p]] + Without(ring, p)) == Hlinks(ring)
    {
      hide ChainsLinked, RingLinked, Keyed, Bucket;
      WithoutMembers(ring, p);
      var e, rest := ring[p], Without(ring, p);
      assert forall x :: x in [e] + rest <==> x in ring;
      ItemsWithout(ring, p);
      TouchUnique(ring, p);
    }

    /** Free the chain `c` of bucket `b`, node by node. */
    method ClearBucket(b: nat, ghost c: seq<Entry>)
      requires b < heads.Length && ChainWalk(heads[b], c)
      modifies heads
      ensures heads[..] == old(heads[..])[b := null]
    {
      ghost var k := 0;
      while heads[b] != null
        invariant k <= |c| && heads[b] == Nth(c, k)
        invariant heads[..] == old(heads[..])[b := heads[b]]
        decreases |c| - k
      {
        heads[b] := heads[b].hlink;
        k := k + 1;
      }
    }

    lemma ChainWalks(b: nat)
      requires Valid() && b < maxEntries
      ensures |chains| == maxEntries && ChainWalk(heads[b], chains[b])
    {
      hide RingLinked, Filed, AllKeyed, UniqueKeys;
      forall k | 0 <= k < |chains[b]|
        ensures chains[b][k].hlink == Nth(chains[b], k + 1)
      {
        NodeFacts(b, k);
      }
    }

    /** Point an emptied table at no entries. */
    method Reset()
      requires heads.Length == maxEntries > 0 && forall b :: 0 <= b < maxEntries ==> heads[b] == null
      modifies this, mruList
      ensures Valid() && ring == []
    {
      mruList.mruNext, mruList.mruPrev := mruList, mruList;
      numEntries, lastId := 0, 0;
      ring, chains := [], seq(maxEntries, _ => []);
      assert [mruList] + ring + [mruList] == [mruList, mruList];
    }

    /** `Cache::flush`: free every chain, forget the requests in flight, empty the ring. */
    method FlushAll()
      requires Valid()
      modifies this, heads, mruList, pending
      ensures Valid() && ring == [] && pending.hashes == []
    {
      hide Stored, RingLinked, ChainsLinked, ChainWalk;
      RingDistinct();
      forall b | 0 <= b < maxEntries ensures ChainWalk(heads[b], chains[b]) { ChainWalks(b); }
      for nn := 0 to maxEntries
        invariant forall b :: 0 <= b < nn ==> heads[b] == null
        invariant forall b :: nn <= b < maxEntries ==> ChainWalk(heads[b], chains[b])
        modifies heads
      {
        ghost var was := heads[..];
        ClearBucket(nn, chains[nn]);
        assert forall b :: 0 <= b < maxEntries ==> heads[b] == if b == nn then null else was[b];
      }
      pending.Flush();
      Reset();
    }

    lemma FindPosition(p: nat)
      requires Valid() && p < |ring| && ring[p].cls.Whole?
      ensures Find(Items(ring), ring[p].cls) == p
      ensures Items(Without(ring, p)) == Without(Items(ring), p)
      ensures Items([ring[p]] + Without(ring, p)) == [Items(ring)[p]] + Without(Items(ring), p)
    {
      hide RingLinked, ChainsLinked, Filed, AllKeyed;
      assert Items(ring)[p].cls == ring[p].cls;
      ItemsWithout(ring, p);
      ItemsWith(Without(ring, p), ring[p]);
    }

    /** What a lookup of the simple cache makes of the entry in position `p`. */
    lemma LookupAt(p: nat, now: int, room: nat)
      requires Valid() && p < |ring| && ring[p].cls.Whole?
      ensures var e := ring[p];
        AfterLookup(Items(ring), e.cls, now, room) ==
          if now >= e.expires then (Items(Without(ring, p)), NotFound)
          else if |e.answer| > room then (Items(ring), TooLong(|e.answer|))
          else (Items([e] + Without(ring, p)), Found(e.answer))
    {
      hide Stored, RingLinked, ChainsLinked, Find, Without;
      FindPosition(p);
      assert Items(ring)[p] == ItemOf(ring[p]);
    }

    /** `_cache_remove_p` on the stale entry in position `p` of the ring. */
    method Discard(prev: Entry?, e: Entry, ghost k: nat, ghost p: nat)
      requires Valid() && Bucket(e.hash, maxEntries) < |chains| && p < |ring| && ring[p] == e
      requires var c := chains[Bucket(e.hash, maxEntries)];
        k < |c| && c[k] == e && prev == if k == 0 then null else c[k - 1]
      modifies this, heads, mruList, ring
      ensures Valid() && ring == Without(old(ring), p)
    {
      hide Stored, RingLinked, ChainsLinked, Bucket, Distinct;
      RingDistinct();
      ghost var r := RemoveAt(Bucket(e.hash, maxEntries), prev, e, k);
      SamePosition(old(ring), r, p);
    }

    /** The end of `resolv_cache_lookup`, once the entry has been found. */
    method Deliver(prev: Entry?, e: Entry, ghost k: nat, now: int, room: nat) returns (status: Status)
      requires Valid() && Bucket(e.hash, maxEntries) < |chains| && e.cls.Whole?
      requires var c := chains[Bucket(e.hash, maxEntries)];
        k < |c| && c[k] == e && prev == if k == 0 then null else c[k - 1]
      modifies this, heads, mruList, ring
      ensures Valid() && forall i :: 0 <= i < |ring| ==> ring[i] in old(ring)
      ensures Items(ring) == AfterLookup(Items(old(ring)), e.cls, now, room).0
      ensures Returns(status, AfterLookup(Items(old(ring)), e.cls, now, room).1)
    {
      hide Stored, RingLinked, ChainsLinked, Keyed, Bucket, Distinct, Items, AfterLookup;
      NodeFacts(Bucket(e.hash, maxEntries), k);
      RingDistinct();
      ghost var p :| 0 <= p < |ring| && ring[p] == e;
      LookupAt(p, now, room);
      if now >= e.expires {
        Discard(prev, e, k, p);
        return Miss;
      }
      if |e.answer| > room {
        return Unsupported(Some(|e.answer|));
      }
      Touch(e, p);
      return Hit(e.answer);
    }

    /** A key is found in the list form exactly when some entry matches it. */
    lemma FindAbsent(cls: KeyClass)
      ensures FindKey(Items(ring), cls) == |ring| <==> forall e :: e in ring ==> !Matches(cls, e.cls)
    {
    }

    /**
      `resolv_cache_lookup` up to the point where the caller has an answer or must wait for a
      request in flight. The network's cache is this one.
     */
    method Lookup(query: seq<byte>, room: nat, noLookup: bool, noStore: bool, now: int) returns (status: Status)
      requires Valid() && Sound(query)
      modifies this, heads, mruList, ring, pending
      ensures Valid() && forall i :: 0 <= i < |ring| ==> ring[i] in old(ring)
      ensures noLookup || noStore ==> status == if noStore then Skip else Miss
      ensures !noLookup && !noStore && !Checked(query) ==> status == Unsupported(None)
      ensures noLookup || noStore || !Checked(query) ==> ring == old(ring) && pending.hashes == old(pending.hashes)
      ensures !noLookup && !noStore && Checked(query) ==>
        var items, cls, h := Items(old(ring)), ClassOf(query), HashQuery(query);
        && Items(ring) == LookupKey(items, cls, now, room).0
        && if FindKey(items, cls) < |items| then
             Returns(status, LookupKey(items, cls, now, room).1) && pending.hashes == old(pending.hashes)
           else if h in old(pending.hashes) then
             status == Wait && pending.hashes == old(pending.hashes)
           else
             status == Miss && pending.hashes == old(pending.hashes) + [h]
    {
      hide Stored, RingLinked, ChainsLinked, Bucket, Distinct, ClassOf, Sound, HashQuery, Checked, FindKey, AfterLookup;
      if noLookup || noStore {
        return if noStore then Skip else Miss;
      }
      var ok, hash := PacketWalk.InitKey(query);
      if !ok {
        return Unsupported(None);
      }
      ghost var cls := KeyFacts(query);
      FindAbsent(cls);
      RingDistinct();
      var prev, node, k := LookupSlot(hash, query, cls);
      if node == null {
        var waiting := pending.Has(hash, true);
        return if waiting then Wait else Miss;
      }
      status := Deliver(prev, node, k, now, room);
    }

    /** `resolv_cache_lookup` after the wait: the request in flight is over, or the wait timed out. */
    method Resume(query: seq<byte>, room: nat, now: int) returns (status: Status)
      requires Valid() && Checked(query) && Sound(query)
      modifies this, heads, mruList, ring
      ensures Valid() && forall i :: 0 <= i < |ring| ==> ring[i] in old(ring)
      ensures Items(ring) == LookupKey(Items(old(ring)), ClassOf(query), now, room).0
      ensures Returns(status, LookupKey(Items(old(ring)), ClassOf(query), now, room).1)
    {
      hide Stored, RingLinked, ChainsLinked, Bucket, Distinct, ClassOf, Sound, HashQuery, Checked, FindKey, AfterLookup;
      var ok, hash := PacketWalk.InitKey(query);
      ghost var cls := KeyFacts(query);
      FindAbsent(cls);
      RingDistinct();
      var prev, node, k := LookupSlot(hash, query, cls);
      if node == null {
        return Miss;
      }
      status := Deliver(prev, node, k, now, room);
    }

    /** `_resolv_cache_query_failed`; `bypass` stands for either cache-bypass flag. */
    method QueryFailed(query: seq<byte>, bypass: bool)
      modifies pending
      ensures pending.hashes == if !bypass && Checked(query) then RemoveOne(old(pending.hashes), HashQuery(query))
                                else old(pending.hashes)
    {
      hide Checked, HashQuery;
      if bypass { return; }
      var ok, hash := PacketWalk.InitKey(query);
      if !ok { return; }
      pending.Notify(hash);
    }

    /** Make room in a full cache. */
    method MakeRoom(now: int)
      requires Valid() && numEntries >= maxEntries
      modifies this, heads, mruList, ring
      ensures Valid()
      ensures Items(ring) == EvictKeys(Items(old(ring)), now, maxEntries)
      ensures forall i :: 0 <= i < |ring| ==> ring[i] in old(ring)
    {
      hide Stored, RingLinked, ChainsLinked, Swept, EvictKeys, Items;
      RingDistinct();
      EvictFull(Items(ring), now, maxEntries);
      RemoveExpired(now);
      if numEntries >= maxEntries {
        ItemsInit(ring);
        RemoveOldest();
      }
    }

    /** The part of `resolv_cache_add` between a failed search and the new entry: `prev` ends its chain. */
    method PrepareSlot(first: Entry?, hash: nat, query: seq<byte>, ghost cls: KeyClass, now: int)
      returns (prev: Entry?)
      requires Valid() && Keyed(query, cls, hash) && EndOfChain(first, hash)
      requires forall e :: e in ring ==> !Matches(cls, e.cls)
      modifies this, heads, mruList, ring
      ensures Valid() && EndOfChain(prev, hash)
      ensures Items(ring) == EvictKeys(Items(old(ring)), now, maxEntries)
      ensures forall i :: 0 <= i < |ring| ==> ring[i] in old(ring)
      ensures forall e :: e in ring ==> !Matches(cls, e.cls)
    {
      hide Stored, RingLinked, ChainsLinked, Swept, Bucket, Keyed, Items;
      prev := first;
      if numEntries >= maxEntries {
        MakeRoom(now);
        assert forall i :: 0 <= i < |ring| ==> !Matches(cls, ring[i].cls);
        RingDistinct();
        var node;
        ghost var k;
        prev, node, k := LookupSlot(hash, query, cls);
        if node != null {
          // "ALREADY IN CACHE" a second time
          assert false;
        }
      }
    }

    /** `entry_alloc` and `_cache_add_p` */
    method Store(prev: Entry?, hash: nat, query: seq<byte>, ghost cls: KeyClass, answer: seq<byte>, expires: int)
      requires Valid() && Keyed(query, cls, hash) && EndOfChain(prev, hash)
      requires forall e :: e in ring ==> !Matches(cls, e.cls)
      modifies this, heads, mruList, ring
      ensures Valid() && |ring| == |old(ring)| + 1 && fresh(ring[0]) && ring[1..] == old(ring)
      ensures Items(ring) == [Item(cls, answer, expires)] + Items(old(ring))
    {
      hide Stored, RingLinked, ChainsLinked, Bucket, Distinct, Keyed, UniqueKeys, Items;
      var e := new Entry(hash, query, cls, answer, expires);
      ItemsWith(ring, e);
      AddAt(prev, e);
    }

    /** `prev` is the last node of the chain for `hash`, or null if that chain is empty. */
    ghost predicate EndOfChain(prev: Entry?, hash: nat)
      requires maxEntries > 0 && |chains| == maxEntries
      reads this
    {
      var c := chains[Bucket(hash, maxEntries)];
      prev == if c == [] then null else c[|c| - 1]
    }

    /**
      `resolv_cache_add`. `reply` is the answer as the record parser sees it; `now` and `later`
      are the clock when making room and when storing.
     */
    method Add(query: seq<byte>, answer: seq<byte>, reply: Reply, now: int, later: int)
      returns (code: int)
      requires Valid() && Sound(query)
      modifies this, heads, mruList, ring, pending
      ensures Valid() && forall i :: 0 <= i < |ring| ==> ring[i] in old(ring) || fresh(ring[i])
      ensures !Checked(query) ==> code == EINVAL && ring == old(ring) && pending.hashes == old(pending.hashes)
      ensures Checked(query) ==>
        var items, cls := Items(old(ring)), ClassOf(query);
        && Items(ring) == AddKey(items, cls, answer, Ttl(Limits(reply)), now, later, maxEntries)
        && pending.hashes == RemoveOne(old(pending.hashes), HashQuery(query))
        && code == if FindKey(items, cls) < |items| then EEXIST else 0
    {
      hide Stored, RingLinked, ChainsLinked, Bucket, Distinct, ClassOf, Sound, HashQuery, Checked;
      hide FindKey, Ttl, Limits, EvictKeys, RemoveOne;
      var ok, hash := PacketWalk.InitKey(query);
      if !ok {
        return EINVAL;
      }
      ghost var cls := KeyFacts(query);
      FindAbsent(cls);
      RingDistinct();
      var prev, node, k := LookupSlot(hash, query, cls);
      if node != null {
        pending.Notify(hash);
        return EEXIST;
      }
      Insert(prev, hash, query, cls, answer, reply, now, later);
      pending.Notify(hash);
      return 0;
    }

    /** The part of `resolv_cache_add` for a query that is not in the cache. */
    method Insert(first: Entry?, hash: nat, query: seq<byte>, ghost cls: KeyClass, answer: seq<byte>, reply: Reply,
                  now: int, later: int)
      requires Valid() && maxEntries > 0 && Keyed(query, cls, hash) && EndOfChain(first, hash)
      requires forall e :: e in ring ==> !Matches(cls, e.cls)
      modifies this, heads, mruList, ring
      ensures Valid() && forall i :: 0 <= i < |ring| ==> ring[i] in old(ring) || fresh(ring[i])
      ensures Items(ring) == AddKey(Items(old(ring)), cls, answer, Ttl(Limits(reply)), now, later, maxEntries)
    {
      hide Stored, RingLinked, ChainsLinked, Bucket, Distinct, Keyed, Ttl, Limits, EndOfChain, Hlinks, AddKey, Items;
      hide FindKey, EvictKeys, AllKeyed, UniqueKeys, Matches, Nexts, Prevs, Filed;
      FindAbsent(cls);
      RingDistinct();
      AddAbsent(Items(ring), cls, answer, Ttl(Limits(reply)), now, later, maxEntries);
      var prev := PrepareSlot(first, hash, query, cls, now);
      var ttl := GetTtl(reply);
      if ttl > 0 {
        Store(prev, hash, query, cls, answer, ttl + later);
      }
    }
  }

  lemma KeyFacts(query: seq<byte>) returns (cls: KeyClass)
    requires Checked(query) && Sound(query)
    ensures cls == ClassOf(query) && Keyed(query, cls, HashQuery(query))
  {
    hide Fnv, FedByKey, KeyOf, HashQuery, CutInRdLength;
    cls := ClassOf(query);
    if Complete(query) { HashIsOfKey(query); }
  }

  lemma TouchUnique(ring: seq<Entry>, p: nat)
    requires p < |ring| && UniqueKeys(Items(ring))
    ensures UniqueKeys(Items([ring[p]] + Without(ring, p)))
  {
  }
}
