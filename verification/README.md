# A Dafny model of the Android DNS resolver

The project models the parts of the resolver that keep state under concurrency or do byte-level
work, and proves what they keep over every input and every run.

| files | subject |
|---|---|
| `PacketSpec`, `PacketWalk`, `PacketLaws`, `PacketEncoding`, `HashLaws` | the query packet as a cache key: three cursor walks that check, hash and compare it, and how such packets are written |
| `LruSpec`, `CacheHeap`, `CacheRuns`, `KeyRuns`, `CacheRefinement`, `AnswerTtl` | the answer cache: a hash table and a ring of linked entries, refining a small LRU list with expiry |
| `Pending`, `PendingProtocol`, `PendingRefinement` | lookups that wait for another lookup of the same query |
| `QueryMap`, `Transport`, `TlsSocket` | the DNS-over-TLS query engine: IDs, promises, reconnects, framing |
| `PrivateDns` | validation of DNS-over-TLS servers by detached threads |
| `Dns64` | discovery of the NAT64 prefix by detached threads |
| `NrFilter`, `NrCname`, `NrCnameLaws` | the Nullroute filter: readers and publishers of an index, the walk over CNAME records |
| `Rfc6724` | destination address selection and sorting |
| `MkQuery` | building a query and its padded OPT record |
| `DnsStats` | scoring of servers |
| `SendLoop` | the plaintext retry loop |

Code that updates things in place is modelled by classes and methods with loops, each proved
against a function of the old state. Code that runs on several threads is modelled as a system of
atomic steps (a critical section, or one atomic access), and its theorems are about every sequence
of steps. Sockets, clocks, the kernel and code outside the repository appear as parameters with
arbitrary values.

Several properties one might expect do not hold of the code, and the model says exactly when they do:

- The check of a query packet accepts an announced additional record without looking at it, so
  packet equality is not reflexive on checked packets. `PacketLaws.SelfComparison` shows that a
  checked packet equals itself iff its additional record is all there, that its comparison with
  itself leaves the packet iff the packet ends inside that record's length field, and that it
  differs from itself otherwise. Only complete packets are ever found equal
  (`PacketLaws.EqualImpliesComplete`).
- The cache can hold more entries than its maximum. An entry with an incomplete key is found neither
  by a lookup nor by the two eviction passes: `KeyRuns.TornItemsStay` shows that each one stays until
  the next flush, and `CacheRefinement.CutQueryOverfills` is a cache for one entry that holds two.
  `CacheRefinement.MaximumKeptIff` shows that the maximum holds in all runs over a set of queries iff
  the keys among them are complete. `MkQuery.BuiltQueryIsKey` shows that queries built by the resolver are.
- The time an answer is kept is not always the least TTL of its readable records, nor the bound of
  the SOA record of a negative answer. `AnswerTtl.TtlIsLeastIff` shows that it is iff the first
  record is readable, or no record is, or that bound is 0; otherwise the answer is not kept at all.
  `AnswerTtl.LateSoaIsLost` is the case of an SOA record behind another authority record.
- A DNS-over-TLS query can be handed to sockets more often than the limit on tries. A socket queues
  a query before it knows whether it can wake its loop, and a failure is not counted as a try.
  `Transport.TriesInEveryRun` bounds the hand-overs by the limit plus the failures of that query,
  `Transport.HandOversReachBound` shows that this bound is reached, and `Transport.LimitHoldsIff`
  that the limit itself holds for exactly the runs without such a failure.
- A lookup that waits can go on now, or after one report that some request can make, but not always.
  `PendingProtocol.WaitersAreServedIff` shows that it can iff it is not stranded: its hash is listed,
  the request recorded for it went away without a report, and no other request that may report that
  hash remains. `PendingProtocol.LeaversBlock` is a run that strands a lookup.
- The comparator for destinations is not transitive on every list.
  `Rfc6724.MappedDestinationsCanCycle` gives a cycle, and `Rfc6724.TransitiveIff` shows that a list
  is free of cycles iff it holds no crossed triple: two tied IPv6 destinations that rule 9 orders
  against the list, with a tied IPv4 destination between them. Only IPv4-mapped destinations can
  tie with IPv4 ones. `Rfc6724.SortableIff` shows that exactly the lists without a crossed triple can
  be sorted at all.
- Precedence and label do not follow the policy table for every address: `Rfc6724.PolicyIff` shows
  that they do iff the address is not the unspecified one, which the code treats as a global address.

Two bounds are exact as well: in every run a discovery thread is taken for the current one iff the
current discovery started a multiple of 2^32 - 1 starts away from its own
(`Dns64Spec.TakenForCurrentIff`, with the run `Dns64Spec.StaleThreadOverwrites`), and a framed query
can be decoded iff it has at most 65535 octets (`Frames.FrameRoundTripIff`).

Where the code and its comments differ, the model follows the code. The second lookup in
`resolv_cache_add` is marked as looking useless: `CacheHeap.Cache.PrepareSlot` proves that it never
finds an entry.

## Model

| member | source | states |
|---|---|---|
| `PacketWalk.DnsPacket.CheckQName` | res_cache.cpp:331-357 | the loop accepts exactly the uncompressed names that end inside the packet, and leaves the cursor behind the name or where it was |
| `PacketWalk.DnsPacket.CheckQr` | res_cache.cpp:359-381 | accepts exactly a name followed by a supported type and class IN |
| `PacketWalk.DnsPacket.CheckQuery` | res_cache.cpp:383-443 | accepts exactly the packets with a plain query header and well-formed questions; the additional record is not looked at |
| `PacketWalk.DnsPacket.HashQName` | res_cache.cpp:467-499 | feeds the lower-case octets of the labels to the hash and stops where the name is malformed |
| `PacketWalk.DnsPacket.HashRr` | res_cache.cpp:507-514 | feeds the name, the fixed fields and the data of a record to the hash |
| `PacketWalk.DnsPacket.HashPacket` | res_cache.cpp:516-555 | computes the FNV hash of the octets that the walk visits, for packets of any length that reaches the flags; undefined for shorter ones, whose flags are read regardless |
| `PacketWalk.MemCaseEqual` | res_cache.cpp:263-277 | equal exactly when the octets are pairwise equal up to the case of ASCII letters |
| `PacketWalk.IsEqualDomainName` | res_cache.cpp:563-599 | both cursors pass the names iff they agree label by label up to ASCII case |
| `PacketWalk.IsEqualRr` | res_cache.cpp:601-634 | both cursors pass the records iff names, fixed fields, TTL, length and data agree; the comparison leaves the packets when both lengths cannot be read |
| `PacketWalk.IsEqualQuery` | res_cache.cpp:636-694 | the comparison walk ends exactly as specified: equal, different, or outside the packets |
| `PacketWalk.InitKey` | res_cache.cpp:832-843 | a key is made iff the packet is checked, with the packet's hash |
| `PacketWalk.EntryEquals` | res_cache.cpp:867-877 | yes iff lengths and packets are equal; undefined exactly when the packet comparison is |
| `PacketLaws.HashIsOfKey` | res_cache.cpp:451-555 | the hash walk visits exactly the octets of the packet's meaning, so packets of the same meaning hash alike |
| `PacketLaws.EqQueryIff` | res_cache.cpp:563-694 | on complete checked packets the comparison walk answers exactly whether the packets mean the same, and never leaves them |
| `PacketLaws.SameIsCongruence` | res_cache.cpp:867-877 | key equality is reflexive, symmetric and transitive, and equal keys have equal hashes |
| `PacketLaws.SelfComparison` | res_cache.cpp:387-443 | a checked packet compared with itself: equal iff its announced additional record is complete, outside the packet iff it ends inside that record's length, different otherwise |
| `PacketLaws.EqualImpliesComplete` | res_cache.cpp:623-694 | two checked packets are found equal only if both are complete |
| `PacketLaws.OutOfBoundsOnlyIfCut` | res_cache.cpp:601-634 | comparing two checked packets leaves them only if both end inside the length field of their additional record |
| `PacketLaws.IncompleteExample` | res_cache.cpp:426-442 | a concrete checked packet that is not equal to itself |
| `PacketLaws.OutOfBoundsExample` | res_cache.cpp:601-634 | a concrete checked packet whose comparison with itself leaves the packet |
| `PacketLaws.DisguiseKeepsKey` | res_cache.cpp:387-443 | changing the ID, the TC bit and the case of letters in labels keeps a packet a key, with the same meaning |
| `PacketLaws.DisguisesAreSame` | res_cache.cpp:563-694 | such packets are equal keys with equal hashes (section 2.3.3 of RFC 1035) |
| `PacketSpec.FoldAlike` | res_cache.cpp:263-265 | two octets fold alike iff they are equal, or one is in 65..90 and the other is that plus 32 |
| `PacketLaws.SameIff` | res_cache.cpp:563-694 | two keys are the same iff one is the other in disguise: RD bit equal, and every octet from the second flags octet to the end of the last record equal, or a label octet that differs only in letter case |
| `PacketEncoding.NameReadsBack` | res_cache.cpp:331-357 | labels of 1 to 63 octets, written as a name, end where they were written to end and read back in lower case |
| `PacketEncoding.NameWasWritten` | res_cache.cpp:331-357 | every accepted name was written that way |
| `PacketEncoding.CheckedIff` | res_cache.cpp:383-443 | the check accepts a packet iff its header octets are those of a plain query and the questions it counts, at least one, follow as written, each of a cacheable type and class IN |
| `PacketEncoding.RecordReadsBack` | res_cache.cpp:601-634 | a written record ends where it was written to end and reads back as its labels, fixed fields, TTL and data |
| `PacketEncoding.KeyIff` | res_cache.cpp:426-442 | a checked packet is complete iff it announces no additional record or a whole written record follows its questions |
| `HashLaws.MixCancels` | res_cache.cpp:451-465 | a step of the hash keeps different hashes and different octets apart |
| `HashLaws.OneOctetMatters` | res_cache.cpp:451-555 | octets that differ in exactly one place have different hashes |
| `CacheHeap.Cache.constructor` | res_cache.cpp:940-944 | an empty, consistent table and ring |
| `CacheHeap.Cache.LookupSlot` | res_cache.cpp:1155-1174 | the chain walk ends at the one entry that matches the key, or at the end of the chain of its bucket if no entry of the whole cache does |
| `CacheHeap.Cache.MruRemove` | res_cache.cpp:815-818 | unlinks one entry from the ring and leaves the ring well linked in both directions |
| `CacheHeap.Cache.MruAdd` | res_cache.cpp:820-828 | links an entry in front of the ring |
| `CacheHeap.Cache.AddAt` | res_cache.cpp:1176-1187 | links a new entry at the end of its chain and in front of the ring; table, ring and counter stay consistent |
| `CacheHeap.Cache.RemoveAt` | res_cache.cpp:1189-1201 | takes an entry out of its chain and the ring; everything stays consistent |
| `CacheHeap.Cache.RemoveListed` | res_cache.cpp:1203-1236 | an entry found through the ring is found in the table and removed iff its key is complete; otherwise the branch for an entry that is not in the table is taken and nothing changes |
| `CacheHeap.Cache.RemoveOldest` | res_cache.cpp:1203-1216 | removes exactly the last entry of the ring, or nothing if its key is incomplete |
| `CacheHeap.Cache.RemoveExpired` | res_cache.cpp:1218-1236 | removes exactly the expired entries in front of the first expired one with an incomplete key and keeps the order of the others, although it walks the ring it unlinks from |
| `CacheHeap.Cache.FlushAll` | res_cache.cpp:947-977 | empties table, ring and pending list |
| `CacheHeap.Cache.Lookup` | res_cache.cpp:1241-1338 | the new entries and the result are those of the simple cache; on a miss the request is recorded or told to wait; bypass flags and unchecked queries change nothing |
| `CacheHeap.Cache.Resume` | res_cache.cpp:1308-1337 | the part of a lookup after its wait is a lookup of the simple cache |
| `CacheHeap.Cache.PrepareSlot` | res_cache.cpp:1371-1385 | a full cache drops the expired entries, then the least recently used one if still full, as far as their keys are complete; the repeated lookup never finds the key |
| `CacheHeap.Cache.Add` | res_cache.cpp:1340-1399 | the new entries are those of the simple cache, the pending record is removed, and the code is the specified one in every case |
| `CacheHeap.Cache.Insert` | res_cache.cpp:1371-1394 | a query without an entry: room is made, and the answer is stored unless its TTL is 0 |
| `CacheHeap.Cache.QueryFailed` | res_cache.cpp:1114-1130 | removes the pending record of a checked query unless the cache was bypassed |
| `CacheRefinement.Perform` | res_cache.cpp:1114-1399 | one call on the linked cache (a lookup, the rest of a lookup that waited, a store, a failure report, a flush) is one step of the simple cache and of the pending list, with the same reply |
| `CacheRefinement.Replay` | res_cache.cpp:1114-1399 | after any sequence of calls the linked cache is consistent, holds the entries and pending hashes of the simple cache, and gave its replies: in particular a miss waits exactly if its hash is pending |
| `CacheRefinement.ItemsAreOfRun` | res_cache.cpp:1241-1399 | the entries of a run depend only on its lookups, resumed lookups, stores and flushes |
| `CacheRefinement.IncompleteStoresAddUp` | res_cache.cpp:1371-1394 | n stores for a query with an incomplete additional record leave at least n entries, whatever the maximum |
| `CacheRefinement.CutQueryOverfills` | res_cache.cpp:1203-1216 | a concrete run that leaves more than one entry in a cache for one |
| `CacheRefinement.MaximumKeptIff` | res_cache.cpp:1371-1394 | the number of entries stays within the maximum in all runs over a set of queries iff those of them that are keys are complete |
| `CacheRefinement.PendingIff` | res_cache.cpp:1071-1130 | in every run a hash is pending at most once, and exactly if a lookup recorded it and it was neither reported nor flushed since |
| `CacheRefinement.WaitsIff` | res_cache.cpp:1278-1309 | in every run a lookup is told to wait iff nothing is stored for it and some earlier lookup with its hash recorded a request that was neither reported nor flushed |
| `CacheRefinement.StoredIsFound` | res_cache.cpp:1311-1399 | in every run a lookup for the same key right after a store gets exactly the stored octets until their time is over, or their length if the buffer is too small |
| `CacheRefinement.StoredIsKept` | res_cache.cpp:1360-1369 | a second store for a key changes no entry and is refused |
| `KeyRuns.WholeRuns` | res_cache.cpp:1203-1236 | a run with complete keys only is a run of the simple cache in which every entry is found again, the one that the theorems of `CacheRuns` are about |
| `KeyRuns.TornItemsStay` | res_cache.cpp:1203-1236 | in every run the entries with an incomplete key are as many as were stored since the last flush: none is ever evicted |
| `KeyRuns.MaximumHoldsIff` | res_cache.cpp:1371-1394 | no run over a set of keys passes the maximum iff they are all complete |
| `KeyRuns.ItemsAreStored` | res_cache.cpp:1387-1394 | every entry of every run comes from a store since the last flush |
| `KeyRuns.HitsAreFresh` | res_cache.cpp:774-806 | every answer delivered in a run is one stored for that class since the last flush; its age is below the TTL of every readable answer record or, without answers, below the TTL and the minimum of every readable SOA record |
| `KeyRuns.KeysAreUnique` | res_cache.cpp:1340-1399 | in every run no two entries match each other |
| `KeyRuns.MissesLeaveNothing` | res_cache.cpp:1311-1337 | in every run a lookup that misses leaves no entry for its key behind, expired or not |
| `CacheRuns.RunsAreOk` | res_cache.cpp:1371-1394 | in every run with complete keys at most one entry per query class, never more than the maximum |
| `CacheRuns.RunsAreOrdered` | res_cache.cpp:1330-1334 | in every such run the entries are in the order of their last store or hit |
| `CacheRuns.VictimIsLeastUsed` | res_cache.cpp:1203-1216 | a full cache without expired entries loses exactly the entry used longest ago |
| `CacheRuns.FoundIff` | res_cache.cpp:1311-1337 | a lookup finds an answer iff an unexpired entry of the class holds it and it fits the buffer |
| `CacheRuns.LiveAnswersStay` | res_cache.cpp:1371-1385 | an unexpired answer is still found after fewer calls than there are places behind it, without a flush |
| `AnswerTtl.TtlMeaning` | res_cache.cpp:774-806 | the TTL is the least bound of the readable records if the first record is readable, and zero otherwise |
| `AnswerTtl.TtlIsLeastIff` | res_cache.cpp:774-806 | the TTL is the least bound of the readable records, or zero without any, iff the first record is readable, or none is, or that bound is zero |
| `AnswerTtl.LateSoaIsLost` | res_cache.cpp:743-759 | an SOA record behind another authority record has no effect: the negative answer is not kept |
| `AnswerTtl.TtlIsLeast` | res_cache.cpp:774-806 | that value is unique and no larger than any bound |
| `AnswerTtl.NegativeMeaning` | res_cache.cpp:721-772 | a negative answer is kept for the TTL or the minimum of some readable SOA record and no longer than either of any, if the first authority record is readable; otherwise not at all |
| `AnswerTtl.ReplyMeaning` | res_cache.cpp:774-806 | the same for a whole reply, in terms of its answer records, or of its SOA records if it has none |
| `AnswerTtl.GetTtl` | res_cache.cpp:774-806 | the loop over the answer records, or over the authority section of an empty answer, computes that TTL: the TTL of some readable answer, and no more than any |
| `AnswerTtl.NegativeTtl` | res_cache.cpp:721-772 | the loop over the authority section computes a value that is the TTL or the minimum of some readable SOA record and no more than either of any, or 0 if the first record is not readable; `TtlIsLeastIff` says when this is the bound that section 5 of RFC 2308 asks for |
| `Pending.PendingList.Has` | res_cache.cpp:1071-1093 | finds a record by hash, appending one only if asked and absent |
| `Pending.PendingList.Notify` | res_cache.cpp:1096-1112 | removes the first record of the hash and no other |
| `Pending.RemoveOneMembers` | res_cache.cpp:1096-1112 | on a list without repeats, removal leaves no record of the hash and keeps all others |
| `PendingProtocol.ExecKeepsInv` | res_cache.cpp:1071-1130 | in every interleaving there is at most one record per hash, and every record's creator has not reported |
| `PendingProtocol.MissesNeverRace` | res_cache.cpp:1278-1309 | in every run, a miss after another request for the same hash was sent to ask, and before a report or the end of the list, waits |
| `PendingProtocol.AskersTakeTurns` | res_cache.cpp:1071-1130 | in every run, two requests for the same hash are both sent to ask only if a report or the end of the list came between |
| `PendingProtocol.ReportsWakeWaiters` | res_cache.cpp:1114-1130 | a report makes the wake-up predicate of every waiter for that hash true |
| `PendingProtocol.CacheExistsIff` | res_cache.cpp:1284-1299 | in every interleaving the network has a cache iff it was created and not deleted since |
| `PendingProtocol.DeletionWakesWaiters` | res_cache.cpp:1284-1299 | while it has none, every waiter can go on and is told to ask for itself |
| `PendingProtocol.FreesIff` | res_cache.cpp:1096-1130 | in every run, while a hash is listed, the reports after which its waiters can wake are exactly those of requests for that hash |
| `PendingProtocol.WaitersAreServedIff` | res_cache.cpp:1278-1309 | in every run a waiter can wake, or some request can make a report after which it can, iff it is not stranded: its creator left without a report and no request that may report the hash remains |
| `PendingProtocol.LeaversBlock` | res_send.cpp:728-736 | a concrete run that strands a waiter: its creator leaves without a report, nobody can report, and it cannot wake |
| `PendingRefinement.LookupsAgree` | res_cache.cpp:1241-1309 | a lookup on the cache and the matching step of the racing lookups leave the same list of requests; it waits, records its request or is done exactly as it is answered |
| `PendingRefinement.ReportsAgree` | res_cache.cpp:1096-1130 | so do stores and failure reports |
| `PendingRefinement.FlushesAgree` | res_cache.cpp:947-977 | and flushes |
| `PendingRefinement.ResumesAgree` | res_cache.cpp:1308-1337 | a lookup back from its wait asks exactly if the cache has no answer for it |
| `QueryMap.FreeAmong` | DnsTlsQueryMap.cpp:86-110 | scanning the ascending IDs finds an unused 16-bit ID iff one exists; the last return is unreachable |
| `QueryMap.DnsTlsQueryMap.GetFreeId` | DnsTlsQueryMap.cpp:86-110 | -1 iff all 65536 IDs are taken, otherwise the ID after the largest in use, or the least unused one once 65535 is in use |
| `QueryMap.DnsTlsQueryMap.RecordQuery` | DnsTlsQueryMap.cpp:33-58 | refuses short queries and a full map; otherwise adds one entry under a fresh ID with a fresh promise |
| `QueryMap.DnsTlsQueryMap.MarkTriedId` | DnsTlsQueryMap.cpp:65-71 | counts a try for that ID only |
| `QueryMap.DnsTlsQueryMap.Cleanup` | DnsTlsQueryMap.cpp:73-84 | fails exactly the queries without tries left and keeps the others; no promise is set twice |
| `QueryMap.DnsTlsQueryMap.Clear` | DnsTlsQueryMap.cpp:127-133 | fails every query, each promise once |
| `QueryMap.DnsTlsQueryMap.GetAll` | DnsTlsQueryMap.cpp:112-120 | every pending query once, in ascending ID order |
| `QueryMap.DnsTlsQueryMap.OnResponse` | DnsTlsQueryMap.cpp:135-156 | settles the promise of the ID with the response, its two ID octets restored, and removes the entry; anything else changes nothing |
| `Transport.PromisesInEveryRun` | DnsTlsTransport.cpp:198-318 | in every interleaving a query is in the map iff its promise is unset, no promise is set twice, and all are set once the destructor has run |
| `Transport.LockInEveryRun` | DnsTlsTransport.cpp:198-296 | whenever the lock is free a null socket means no pending queries, and pending queries have an open socket or a reconnect on its way |
| `Transport.AskedIsSent` | DnsTlsTransport.cpp:198-256 | in every run, with the lock free and a socket on which no send failed since it was connected, every query of the map has been handed to that socket under its own ID |
| `Transport.ResultsInEveryRun` | DnsTlsQueryMap.cpp:73-156 | in every run a caller is told a network error, or gets its own ID and the octets of a response that the socket delivered |
| `Transport.TriesInEveryRun` | DnsTlsTransport.cpp:223-256 | every hand-over of a query to a socket is a counted try or a failed send, and at most the limit are counted; so hand-overs are bounded by the limit plus the failed sends of that query |
| `Transport.HandOversReachBound` | DnsTlsSocket.cpp:527-544 | for every limit and every number of failed sends there is a run that reaches that bound |
| `Transport.LimitHoldsIff` | DnsTlsTransport.cpp:223-230 | the limit itself holds in all runs with k failed sends of a query iff k is 0 |
| `Transport.FailedSendsAreNotCounted` | DnsTlsTransport.cpp:223-256 | a concrete run with a limit of one in which two sockets are handed the query and no try is counted |
| `Transport.MarkChargesTheSender` | DnsTlsTransport.cpp:223-230 | a try is charged to the query that was sent, even if responses came in between |
| `Transport.ResponsesReachTheirCallers` | DnsTlsTransport.cpp:223-296 | if servers answer each received ID at most once per connection, every answer reaches its caller with only the ID restored, across any reconnects |
| `Transport.RoundsMakeProgress` | DnsTlsTransport.cpp:232-296 | a reconnect round whose sends succeed strictly lowers the total of tries left |
| `Frames.FrameRoundTripIff` | DnsTlsTransport.cpp:223-230 | decoding the frame of a query gives the query with only its ID replaced, and the rest of the stream, iff the query has at most 65535 octets |
| `Frames.StreamRoundTrip` | DnsTlsSocket.cpp:527-544 | a stream of framed queries decodes to exactly those queries in order, each cut to 8192 octets |
| `TlsSocket.DnsTlsSocket.Query` | DnsTlsSocket.cpp:527-544 | queues the frame (length, ID, body) in front whether or not the loop can be woken, and reports whether it was |
| `TlsSocket.DnsTlsSocket.SslRead` | DnsTlsSocket.cpp:581-609 | for any split into reads, success fills the buffer with the next octets of the stream, and enough reads that give something lead to success; "want read" is returned only without waiting and with nothing consumed |
| `TlsSocket.DnsTlsSocket.ReadResponse` | DnsTlsSocket.cpp:619-655 | success consumes nothing, or one whole frame of which the first 8192 octets are delivered; with the frame in the stream and enough reads it is delivered |
| `TlsSocket.DnsTlsSocket.ReadResponses` | DnsTlsSocket.cpp:619-655 | as long as reads succeed the observer gets the frames of the stream in order; if all reads give something, one frame per wake-up |
| `PrivateDnsSpec.ExecKeepsInv` | PrivateDnsConfiguration.cpp:115-189 | the invariant of modes, trackers, threads and reports holds in every interleaving |
| `PrivateDnsSpec.ValidationInEveryRun` | PrivateDnsConfiguration.cpp:339-521 | a server in state success is active and its latest report succeeded; one in process has a live thread; no active server is undecided; active servers share one provider name |
| `PrivateDnsSpec.DecidedInEveryRun` | PrivateDnsConfiguration.cpp:429-488 | in every run an active server on which no thread will report is validated iff its latest report was a success, and failed otherwise |
| `PrivateDnsSpec.ReportOutcome` | PrivateDnsConfiguration.cpp:429-488 | in every run a report makes an active server validated if it is a success; if not, in process with its thread alive iff the mode is strict, or opportunistic and the thread a revalidation; failed otherwise, as is an inactive server |
| `PrivateDnsSpec.SetOutcome` | PrivateDnsConfiguration.cpp:115-189 | after a configuration the mode follows from the name, exactly the named servers are active, those neither validated nor in process are in process, and inactive ones keep no success |
| `PrivateDnsSpec.SetStarts` | PrivateDnsConfiguration.cpp:173-186 | it starts exactly one thread for each of those servers and no other |
| `PrivateDnsSpec.SetNothing` | PrivateDnsConfiguration.cpp:123-140 | an invalid address changes nothing; without name and servers the network is switched off and forgotten |
| `PrivateDns.DotStatus` | PrivateDnsConfiguration.cpp:201-228 | the map by address lists each active server exactly once, with its own state |
| `PrivateDns.PrivateDnsConfiguration.Configure` | PrivateDnsConfiguration.cpp:115-147 | the new state is the specified one; a configuration with an invalid address changes nothing; each return code exactly in its case |
| `PrivateDns.PrivateDnsConfiguration.SetDot` | PrivateDnsConfiguration.cpp:149-189 | the three loops retire, activate and start validating exactly the specified servers |
| `PrivateDns.ConfigureAll` | PrivateDnsConfiguration.cpp:173-186 | whatever the order of the map, every server is activated or retired once, and those that need it get a thread |
| `PrivateDns.PrivateDnsConfiguration.RequestDotValidation` | PrivateDnsConfiguration.cpp:301-337 | accepted iff the server is active, validated and has the right mark on an opportunistic network; then it is in process with a revalidation thread |
| `PrivateDns.PrivateDnsConfiguration.RecordDotValidation` | PrivateDnsConfiguration.cpp:429-488 | the server is validated, in process or failed as `ReportOutcome` says, and the thread goes on exactly when it is to try again |
| `PrivateDns.PrivateDnsConfiguration.ClearNet` | PrivateDnsConfiguration.cpp:287-299 | forgets mode and servers of the network, not its threads |
| `Dns64Spec.NoticesInEveryRun` | Dns64Configuration.cpp:51-238 | in every interleaving notices alternate between an added prefix and its removal; one is outstanding iff the current entry holds that discovered prefix; an unfinished discovery has its thread |
| `Dns64Spec.SupersededThreadsAreFenced` | Dns64Configuration.cpp:193-238 | a thread whose entry was replaced, removed or overridden changes neither table nor notices |
| `Dns64Spec.ExecKeepsInv` | Dns64Configuration.cpp:51-275 | the invariant of IDs, entries, threads and notices holds in every run in which no thread outlives a period of IDs |
| `Dns64Spec.IdsCollideIff` | Dns64Configuration.h:111-112 | two starts share an ID iff they are a multiple of 2^32 - 1 apart |
| `Dns64Spec.IdsInEveryRun` | Dns64Configuration.cpp:51-105 | in every run, however long threads live, every thread and every discovered entry holds the ID of its own start |
| `Dns64Spec.TakenForCurrentIff` | Dns64Configuration.cpp:193-238 | in every such run a thread is taken for the current one iff the entry of its network was made by a discovery whose start is a multiple of 2^32 - 1 starts away from its own |
| `Dns64Spec.StaleThreadOverwrites` | Dns64Configuration.cpp:193-238 | a concrete run of 2^32 starts: the first thread, still alive, replaces the entry of the discovery in progress and announces its prefix |
| `Dns64.Dns64Configuration.GetNextId` | Dns64Configuration.h:111-112 | the next 32-bit ID, never 0 |
| `Dns64.Dns64Configuration.StartPrefixDiscovery` | Dns64Configuration.cpp:51-105 | withdraws the old entry and installs one without a prefix, with a new ID and thread; other networks keep theirs |
| `Dns64.Dns64Configuration.StopPrefixDiscovery` | Dns64Configuration.cpp:107-111 | withdraws the entry; its thread finds out later |
| `Dns64.Dns64Configuration.RemoveDns64Config` | Dns64Configuration.cpp:217-228 | removes the entry and reports a removal only for a discovered prefix |
| `Dns64.Dns64Configuration.RecordDns64Config` | Dns64Configuration.cpp:230-238 | records and announces the /96 prefix of the discovered address if the ID is still the current one, and changes nothing otherwise |
| `Dns64.Dns64Configuration.SetPrefix64` | Dns64Configuration.cpp:240-262 | the entry then holds the given /96 IPv6 prefix, unless discovery owns it; each error code exactly in its case, changing nothing |
| `Dns64.Dns64Configuration.ClearPrefix64` | Dns64Configuration.cpp:264-275 | clears only an entry that was set |
| `NrFilter.ExecKeepsInv` | nullroute/NrFilter.cpp:395-432 | reference counts count readers, one publisher at a time, and every thread may rely on what its position promises, in every interleaving |
| `NrFilter.EvaluatedIndexStaysMapped` | nullroute/NrFilter.cpp:406-432 | the slot of a confirmed reader is mapped, holds the index it confirmed, has references, and no publisher is about to unmap it |
| `NrFilter.NothingLeaks` | nullroute/NrFilter.cpp:236-255 | when no publisher is at work, every mapping is the published one or retired |
| `NrFilter.ReadersAreWaitFree` | nullroute/NrFilter.cpp:417-428 | every step of a reader lowers its bound of at most 18 steps, whatever publishers do |
| `NrFilter.ReadersAreNeverStuck` | nullroute/NrFilter.cpp:417-432 | a reader inside a call always has a next step |
| `NrFilter.ReadersEvaluate` | nullroute/NrFilter.cpp:393-426 | however threads interleave, while nothing new is published a reader that begins with an index published evaluates that index after three steps of its own |
| `NrFilter.TriesAreLostToPublications` | nullroute/NrFilter.cpp:417-428 | in every run a reader has lost no more tries than there were publications during its call |
| `NrFilter.GivesUpOnlyAfterChurn` | nullroute/NrFilter.cpp:417-429 | so with an index published it gives up only after at least four publications |
| `NrFilter.PublishesAlone` | nullroute/NrFilter.cpp:236-255 | a publisher that is left alone unmaps the retired mappings without readers, publishes its index and retires the one before |
| `NrCname.NrCnameChain.WalkRecords` | nullroute/NrCname.h:148-242 | the walk, which reads and picks at once and exits early, computes the targets picked from the parsed records, for every message and every name reader |
| `NrCname.ReadStart` | nullroute/NrCname.h:160-187 | the reads of header and question end as specified: where the answer section starts, or why not |
| `NrCname.ReadNext` | nullroute/NrCname.h:192-212 | the reads of a record's owner and fixed fields end as specified |
| `NrCname.NrCnameChain.Collect` | nullroute/NrCname.h:244-262 | on success exactly the first at most 8 readable IN CNAME targets of the first at most 64 records, truncated iff a record or target is missing; otherwise empty |
| `NrCnameLaws.WrittenChainIsCollected` | nullroute/NrCname.h:148-262 | from a reply written with at most 64 legible records exactly the targets of its IN CNAME records with data are collected, in order; of more than 8 the first 8, marked as truncated |
| `NrCnameLaws.HeaderDecides` | nullroute/NrCname.h:160-178 | the status that the header alone decides, in terms of its octets |
| `NrCname.OutcomeIfFull` | nullroute/NrCname.h:215-219 | once a target finds the chain full, later records cannot change the result |
| `NrCname.NrCnameChain.Add` | nullroute/NrCname.h:214-237 | one record adds its target if readable, and marks the chain if not |
| `Rfc6724.PolicyIff` | getaddrinfo.cpp:1132-1158 | precedence and label of an IPv6 address are those of the longest matching row of the default policy table (section 2.1 of RFC 6724) iff the address is not the unspecified one |
| `Rfc6724.UnspecifiedExample` | getaddrinfo.cpp:1147-1153 | the unspecified address has precedence 40, where its row of the table has 1 |
| `Rfc6724.ScopeByPrefix` | getaddrinfo.cpp:1087-1125 | the scope of an IPv6 address is that of its block: multicast by its scope field, link-local and loopback, site-local, or global |
| `Rfc6724.ScopeOfV4` | getaddrinfo.cpp:1104-1117 | IPv4 loopback and autoconfigured addresses are link-local, all others global (section 3.2 of RFC 6724) |
| `Rfc6724.SomeRowIsBest` | addrlabel.cpp:31-62 | every address has a longest matching row |
| `Rfc6724.V4LikeMapped` | addrlabel.cpp:31-41 | an IPv4 address has the precedence and label of its IPv4-mapped form |
| `Rfc6724.CommonPrefixLen` | getaddrinfo.cpp:1164-1183 | the loops over octets and bits compute the length of the longest common bit prefix |
| `Rfc6724.PrefixFrom` | getaddrinfo.cpp:1164-1183 | all bits before the result agree and the next one differs |
| `Rfc6724.CompareIsLexicographic` | getaddrinfo.cpp:1191-1266 | without IPv4-mapped destinations the comparator is the lexicographic order of rules 1, 2, 5, 6, 8, 9 and 10 of section 6 of RFC 6724 |
| `Rfc6724.RuleByRule` | getaddrinfo.cpp:1191-1266 | on all pairs, each rule of section 6 of RFC 6724 that the code implements decides where those before it do not |
| `Rfc6724.CompareIsAntisymmetric` | getaddrinfo.cpp:1191-1266 | of two list entries exactly one comes first, on every list |
| `Rfc6724.TransitiveIff` | getaddrinfo.cpp:1191-1266 | the comparator is transitive on a list iff the list holds no crossed triple |
| `Rfc6724.MappedDestinationsCanCycle` | getaddrinfo.cpp:1242-1266 | three concrete destinations that go round in a circle |
| `Rfc6724.UnmappedIsTransitive` | getaddrinfo.cpp:1040-1047 | no IPv4-mapped destination, no cycle |
| `Rfc6724.SortedPermutationIsUnique` | getaddrinfo.cpp:1340-1342 | two sorted arrangements of the same elements are equal |
| `Rfc6724.AnySortAgrees` | getaddrinfo.cpp:1340-1342 | whatever sort is used, a list without a crossed triple has exactly one sorted arrangement |
| `Rfc6724.SortableIff` | getaddrinfo.cpp:1340-1342 | some arrangement of a list is sorted iff the list holds no crossed triple |
| `AddrInfoSort.QSort` | getaddrinfo.cpp:1340-1342 | the library's sort gives an arrangement of the elements, sorted if the comparator is transitive on them |
| `AddrInfoSort.Collect` | getaddrinfo.cpp:1370-1392 | the array holds the nodes of the list in order with their sources, unless a lookup fails fatally |
| `AddrInfoSort.Relink` | getaddrinfo.cpp:1397-1401 | the nodes are chained in sorted order, none lost or repeated |
| `AddrInfoSort.Sort` | getaddrinfo.cpp:1349-1405 | whatever the library's sort does, the list is relinked into an arrangement of the same nodes, or left alone on a fatal error; it is sorted iff there is no crossed triple, in particular without IPv4-mapped destinations, and then it is the only sorted one |
| `MkQuery.MakeQuery` | res_mkquery.cpp:100-146 | writes exactly the header and question, or fails iff there is no name or no room |
| `MkQuery.AddOpt` | res_mkquery.cpp:192-243 | in a buffer of any size, appends exactly the OPT record with as much padding as wanted or possible, counted in 16 bits, and announces it; fails iff the record does not fit |
| `MkQuery.BuildQuery` | res_query.cpp:118-123 | a question and OPT record in a buffer of 8192 octets make the padded query |
| `MkQuery.BuiltQueryIsKey` | res_mkquery.cpp:192-243 | the padded query has a length that is a multiple of 128 (section 4.1 of RFC 8467), one exact OPT record (section 3 of RFC 7830), and is a complete cache key equal to itself |
| `MkQuery.PlainQueryIsKey` | res_mkquery.cpp:100-146 | without an OPT record it is a complete cache key as well |
| `MkQuery.BuiltQueryOctets` | res_mkquery.cpp:100-243 | the built query octet by octet: ID, flags, counts, name, type and class, and the OPT record with its payload size, DO bit and padding option |
| `DnsStatsSpec.StatsInEveryRun` | DnsStats.cpp:101-216 | in every run each server's totals, rcode counts and latency sum up its last at most 128 records since it was registered, and its penalty is 0 or between 100 and 10000 |
| `DnsStatsSpec.PushSumsUp` | DnsStats.cpp:101-136 | adding a record and dropping the oldest keeps the sums those of the window |
| `DnsStatsSpec.TopScoreIff` | DnsStats.cpp:157-171 | after n skips a server has the maximum score iff they outnumber its latency plus penalty |
| `DnsStatsSpec.ScoreIff` | DnsStats.cpp:157-167 | a server scores higher than another iff its latency plus penalty less skips is smaller, within the bounds -1 and 10000 |
| `DnsStatsSpec.AverageIs` | DnsStats.cpp:79-81 | the latency is the sum of the latencies divided by their number, in whole milliseconds |
| `DnsStatsSpec.PenaltyIsOfFailures` | DnsStats.cpp:138-155 | the penalty is 0 without a failure since the last good answer, 100 for the first, doubled by each further one up to 10000 |
| `DnsStatsSpec.RegisteredIff` | DnsStats.cpp:173-195 | in every run the servers with statistics are those of the last valid list |
| `DnsStatsSpec.EveryServerReturns` | DnsStats.cpp:157-216 | in every run a server with latency plus penalty q below 10000 has the maximum score after q + 1 records for others |
| `DnsStatsSpec.SkipsInEveryRun` | DnsStats.cpp:169-216 | in every run a server has been skipped once for each record for another one since its latest own record, up to 10000 times |
| `DnsStats.StatsRecords.Push` | DnsStats.cpp:101-122 | the new statistics are the specified ones |
| `DnsStats.DnsStats.SetAddrs` | DnsStats.cpp:173-195 | keeps the statistics of servers that stay, adds empty ones, drops the rest; an invalid address changes nothing |
| `DnsStats.DnsStats.AddStats` | DnsStats.cpp:197-216 | adds the record to its server and skips all others |
| `DnsStats.DnsStats.GetSortedServers` | DnsStats.cpp:218-239 | every server once, by decreasing score, equal scores in map order; nothing for DNS over TLS |
| `SendLoop.Send` | res_send.cpp:597-743 | ends for every behaviour of the servers; no usable server is passed over within or between passes unless its answer was shelved, the protocol follows from the replies, a fallback repeats the server over TCP, and an unsettled run has made every pass, except after TCP or for a client that has gone; the result is explained by the exchanges |
| `SendLoop.SendIsDetermined` | res_send.cpp:597-743 | for every behaviour of the servers these promises leave exactly one sequence of exchanges and one outcome |
| `SendLoop.FirstIsAsked` | res_send.cpp:601-620 | the first usable server is asked first, over UDP iff the query is small |
| `SendLoop.FallbackIsTaken` | res_send.cpp:650-698 | a UDP exchange that asks for TCP, unless it ended without a result, is followed by the same server over TCP in the same pass |
| `SendLoop.ProtocolFollows` | res_send.cpp:636-652 | UDP is left for TCP iff the server asks for it, TCP for UDP iff a small query got nothing over TCP in the mode that allows both |
| `SendLoop.LargeUsesTcp` | res_send.cpp:600 | a query of more than 512 octets is never sent over UDP |
| `SendLoop.ResultSettles` | res_send.cpp:694-723 | a failure or an answer ends the run with that result; an error or an answer without data, while all servers are tried, does not, and its server is not asked again |
| `SendLoop.EveryoneIsAsked` | res_send.cpp:608-620 | a run without a result has asked every usable server in its first pass, and in every pass if it never used TCP and the client is still there, except those whose error it has |
| `SendLoop.ExchangesAreBounded` | res_send.cpp:608-723 | at most two exchanges per server and pass |

## Left out

- Sockets, polling, the TLS handshake, eventfds, binder, properties, clocks, logs, dumps and metrics: their outcomes are parameters.
- The record parser, name compression and the Nullroute index: parsed replies, name encodings and name reads are arbitrary values.
- The lookup of the cache of a network by its ID: the cache and pending-list methods are about one existing cache; its absence is a state of `PendingProtocol` only.
- Allocation failure in `entry_alloc`, and overflow of times and entry numbers: numbers are unbounded there.
- `CacheHeap.Cache.Lookup`: checked queries that end inside the length field of their additional record are excluded, since comparing two of them reads outside the packets; the same holds of `Resume` and `Add`.
- `CacheRuns.RunsAreOrdered`: the order of last use, like retention, is stated for complete keys; entries with an incomplete key have no last use.
- `Transport.ResponsesReachTheirCallers`: assumes that a server answers only IDs it received on the connection and each at most once.
- Memory orders weaker than sequential consistency: every atomic access is one step.
- Backoff of validation and discovery threads is endless; certificates of servers, DNS over HTTPS, and what listeners, logs and statistics are told are not modelled.
- `NrFilter.ExecKeepsInv`: the mapping pool is taken from the comments at its call sites, reclaiming checks and unmaps in two steps, and when the slow path is entered is arbitrary; the control page, faults and the kill switch are not modelled.
- The null-pointer checks of the CNAME walk: messages are values.
- `AddrInfoSort.Sort`: with a comparator that is not transitive on the list, the C library's sort still gives some arrangement. Lists are not empty, as at both call sites.
- `MkQuery.AddOpt`: excludes a record that does not fit while its 16-bit length, wrapped around, says that it does; buffers have 8192 octets at all call sites.
- NOTIFY and IQUERY messages of the query builder.
- `DnsStats.DnsStats.AddStats`: one protocol at a time; servers of different protocols do not affect each other.
- `DnsStats.DnsStats.GetSortedServers`: scores are real numbers; the ranking depends on whole-number qualities only.
- The choice of usable servers before the send loop, the contents of answers, and the reporting of samples on restricted networks.
- Parsing of commands, permission checks, host files, session caches, ring buffers and other wrappers: no theorem above depends on them.
