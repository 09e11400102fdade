/** The list of requests in flight, one per query hash (res_cache.cpp). */
module Pending {
  import opened Bytes

  /** `s` without its first `h`, if it has one. */
  function RemoveOne(s: seq<nat>, h: nat): (r: seq<nat>)
  {
    if s == [] then [] else if s[0] == h then s[1..] else [s[0]] + RemoveOne(s[1..], h)
  }

  /** On a list without repetitions, removing one record for `h` leaves none. */
  lemma {:induction false} RemoveOneMembers(s: seq<nat>, h: nat)
    requires Distinct(s)
    ensures Distinct(RemoveOne(s, h))
    ensures forall x :: x in RemoveOne(s, h) <==> x in s && x != h
  {
    if s != [] {
      assert s == [s[0]] + s[1..];
      if s[0] != h {
        RemoveOneMembers(s[1..], h);
        var r := RemoveOne(s[1..], h);
        forall j | 0 <= j < |r| ensures r[j] != s[0] { assert r[j] in r; }
      }
    }
  }

  lemma {:induction false} RemoveOneAt(s: seq<nat>, i: nat, h: nat)
    requires i < |s| && s[i] == h && forall k :: 0 <= k < i ==> s[k] != h
    ensures RemoveOne(s, h) == s[..i] + s[i + 1..]
  {
    if i > 0 {
      RemoveOneAt(s[1..], i - 1, h);
      assert s[1..][..i - 1] == s[1..i] && s[1..][i..] == s[i + 1..];
      assert [s[0]] + s[1..i] == s[..i];
    }
  }

  lemma {:induction false} RemoveOneAbsent(s: seq<nat>, h: nat)
    requires h !in s
    ensures RemoveOne(s, h) == s
  {
    if s != [] {
      RemoveOneAbsent(s[1..], h);
    }
  }

  class PendingList {
    var hashes: seq<nat>

    constructor ()
      ensures hashes == []
    {
      hashes := [];
    }

    /** `cache_has_pending_request_locked` */
    method Has(hash: nat, appendIfNotFound: bool) returns (found: bool)
      modifies this
      ensures found <==> hash in old(hashes)
      ensures hashes == if !found && appendIfNotFound then old(hashes) + [hash] else old(hashes)
    {
      var i := 0;
      while i < |hashes|
        invariant 0 <= i <= |hashes| && hashes == old(hashes)
        invariant hash !in hashes[..i]
      {
        if hashes[i] == hash { return true; }
        i := i + 1;
      }
      if appendIfNotFound {
        hashes := hashes + [hash];
      }
      return false;
    }

    /** `cache_notify_waiting_tid_locked`: drop the record, if any, and wake every waiter. */
    method Notify(hash: nat)
      modifies this
      ensures hashes == RemoveOne(old(hashes), hash)
    {
      var i := 0;
      while i < |hashes|
        invariant 0 <= i <= |hashes| && hashes == old(hashes)
        invariant hash !in hashes[..i]
      {
        if hashes[i] == hash {
          RemoveOneAt(hashes, i, hash);
          hashes := hashes[..i] + hashes[i + 1..];
          return;
        }
        i := i + 1;
      }
      RemoveOneAbsent(hashes, hash);
    }

    /** `flushPendingRequests` */
    method Flush()
      modifies this
      ensures hashes == []
    {
      hashes := [];
    }
  }
}
