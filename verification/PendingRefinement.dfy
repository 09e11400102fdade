/**
  The two views of requests in flight agree: what one call on the cache answers and does to its list
  of requests (`CacheRefinement`) is what the matching step of the racing lookups does
  (`PendingProtocol`).
 */
module PendingRefinement {
  import opened Bytes
  import opened PacketSpec
  import opened LruSpec
  import opened CacheHeap
  import opened CacheRefinement
  import P = PendingProtocol

  /** What the cache holds for the query of a lookup: nothing, something out of date, or an answer. */
  ghost function FoundFor(v: Simple, call: Call): (f: P.Found)
    requires Fit(call) && call.LookUp? && Checked(call.query)
  {
    if FindKey(v.items, ClassOf(call.query)) == |v.items| then P.Absent
    else if LookupKey(v.items, ClassOf(call.query), call.now, call.room).1.NotFound? then P.Stale
    else P.Fresh
  }

  /** The racing lookups see the list of requests of the cache. */
  predicate Sees(s: P.State, v: Simple)
  {
    s.pending == Some(v.pending)
  }

  /**
    A lookup that reaches the cache leaves the same list of requests, waits exactly if it is told to,
    records its request exactly if it becomes the creator, and is done exactly if it is answered.
   */
  lemma LookupsAgree(s: P.State, v: Simple, call: Call, max: nat, r: nat)
    requires max > 0 && Fit(call) && call.LookUp? && Reaches(call) && Sees(s, v) && r !in s.phases
    ensures var t := P.Next(s, P.Lookup(r, KeyHash(call.query), FoundFor(v, call)));
      && t.Some? && Sees(t.value, After(v, call, max)) && r in t.value.phases
      && (t.value.phases[r].Waiting? <==> Answer(v, call) == Looked(Wait))
      && (t.value.phases[r].Creator? <==> Records(v, call))
      && (t.value.phases[r].Creator? || t.value.phases[r].Asking? <==> Answer(v, call) == Looked(Miss))
      && (t.value.phases[r].Done? <==> Answer(v, call).status.Hit? || Answer(v, call).status.Unsupported?)
  {
    hide Checked, ClassOf, KeyHash, LookupKey, FindKey;
  }

  /** A report, a failure or a flush does the same to both lists. */
  lemma ReportsAgree(s: P.State, v: Simple, call: Call, max: nat, r: nat)
    requires max > 0 && Fit(call) && (call.AddTo? || call.FailQuery?) && Reaches(call) && Sees(s, v)
    requires r in s.phases
    requires s.phases[r] == P.Creator(KeyHash(call.query)) || s.phases[r] == P.Asking(KeyHash(call.query))
    ensures var t := P.Next(s, P.Report(r)); t.Some? && Sees(t.value, After(v, call, max))
  {
    hide Checked, ClassOf, KeyHash, AddKey;
  }

  lemma FlushesAgree(s: P.State, v: Simple, max: nat)
    requires max > 0 && Sees(s, v)
    ensures var t := P.Next(s, P.FlushCache); t.Some? && Sees(t.value, After(v, FlushCache, max))
  {
  }

  /** A lookup that comes back from its wait asks exactly if the cache has no answer for it. */
  lemma ResumesAgree(s: P.State, v: Simple, call: Call, max: nat, r: nat)
    requires max > 0 && Fit(call) && call.ResumeLookUp? && Sees(s, v)
    requires r in s.phases && s.phases[r] == P.Waiting(KeyHash(call.query))
    ensures var found := if StatusOf(LookupKey(v.items, ClassOf(call.query), call.now, call.room).1) == Miss
                         then P.Stale else P.Fresh;
      var t := P.Next(s, P.TimeOut(r, found));
      && t.Some? && Sees(t.value, After(v, call, max)) && r in t.value.phases
      && (t.value.phases[r].Asking? <==> Answer(v, call) == Looked(Miss))
      && (t.value.phases[r].Done? <==> Answer(v, call) != Looked(Miss))
      && (P.MayWake(s, KeyHash(call.query)) ==> P.Next(s, P.Wake(r, found)) == t)
  {
    hide Checked, ClassOf, KeyHash, LookupKey;
  }
}
