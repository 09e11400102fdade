/**
  How long an answer may be kept (res_cache.cpp): the smallest TTL of its answer records, or
  the bound that section 5 of RFC 2308 puts on a negative answer, provided the first record is
  readable. The record parser is not part of this model; its outcome for each record is an input.
 */
module AnswerTtl {
  import opened Bytes

  /** A start-of-authority record of the authority section that could be read to its end. */
  datatype Soa = Soa(ttl: nat, minimum: nat)

  /**
    A reply as the record parser sees it. A record that it rejects is `None`; so is an authority
    record that is not a readable SOA.
   */
  datatype Reply = Unparsable | Reply(answers: seq<Option<nat>>, authority: seq<Option<Soa>>)

  function SoaBound(s: Soa): (b: nat)
  {
    if s.minimum < s.ttl then s.minimum else s.ttl
  }

  /** The bounds of an authority section: one per readable SOA record. */
  function SoaBounds(records: seq<Option<Soa>>): (b: seq<Option<nat>>)
    ensures |b| == |records|
    ensures forall i :: 0 <= i < |b| ==>
              b[i] == if records[i].Some? then Some(SoaBound(records[i].value)) else None
  {
    seq(|records|, i requires 0 <= i < |records| =>
      if records[i].Some? then Some(SoaBound(records[i].value)) else None)
  }

  /** The bounds that apply to a reply: those of its answers, or of its SOA records if it has none. */
  function Limits(r: Reply): (b: seq<Option<nat>>)
  {
    match r
    case Unparsable => []
    case Reply(answers, authority) => if answers == [] then SoaBounds(authority) else answers
  }

  /** `ttl` is the smallest bound, provided the first record was readable; otherwise it is 0. */
  ghost predicate IsTtl(ttl: nat, bounds: seq<Option<nat>>)
  {
    if bounds == [] || bounds[0].None? then ttl == 0
    else
      && (exists i :: 0 <= i < |bounds| && bounds[i] == Some(ttl))
      && (forall i :: 0 <= i < |bounds| && bounds[i].Some? ==> ttl <= bounds[i].value)
  }

  /** The rule fixes the value, and no record is ever kept longer than it allows. */
  lemma TtlIsLeast(t: nat, u: nat, bounds: seq<Option<nat>>)
    requires IsTtl(t, bounds)
    ensures forall i :: 0 <= i < |bounds| && bounds[i].Some? ==> t <= bounds[i].value
    ensures IsTtl(u, bounds) ==> u == t
  {
  }

  /** The rule as a fold over the records, as the loops below apply it. */
  function Ttl(bounds: seq<Option<nat>>): (ttl: nat)
  {
    if bounds == [] then 0
    else
      var was := Ttl(bounds[..|bounds| - 1]);
      var b := bounds[|bounds| - 1];
      if b.Some? && (|bounds| == 1 || b.value < was) then b.value else was
  }

  lemma {:induction false} TtlMeaning(bounds: seq<Option<nat>>)
    ensures IsTtl(Ttl(bounds), bounds)
  {
    if bounds != [] {
      var n := |bounds| - 1;
      TtlMeaning(bounds[..n]);
      TtlStep(bounds[..n], bounds[n], Ttl(bounds[..n]));
      assert bounds == bounds[..n] + [bounds[n]];
    }
  }

  /** The least bound of the readable records. */
  function Least(bounds: seq<Option<nat>>): (least: Option<nat>)
    ensures least.None? <==> forall i :: 0 <= i < |bounds| ==> bounds[i].None?
    ensures least.Some? ==> least in bounds
    ensures least.Some? ==> forall i :: 0 <= i < |bounds| && bounds[i].Some? ==> least.value <= bounds[i].value
  {
    if bounds == [] then None
    else
      assert bounds == [bounds[0]] + bounds[1..];
      var rest := Least(bounds[1..]);
      if bounds[0].None? then rest
      else if rest.None? || bounds[0].value <= rest.value then bounds[0]
      else rest
  }

  /**
    The TTL is the least bound of the readable records, or 0 without any, exactly when the first
    record is readable, or no record is, or that bound is 0. In every other case it is 0.
   */
  lemma TtlIsLeastIff(bounds: seq<Option<nat>>)
    ensures var least := Least(bounds);
      && (Ttl(bounds) == (if least.Some? then least.value else 0) <==>
            least.None? || bounds[0].Some? || least == Some(0))
      && (least.Some? && bounds[0].None? ==> Ttl(bounds) == 0)
  {
    TtlMeaning(bounds);
  }

  /** An SOA record behind another authority record does not bound the negative answer: it is not kept at all. */
  lemma LateSoaIsLost(soa: Soa)
    requires SoaBound(soa) > 0
    ensures var bounds := Limits(Reply([], [None, Some(soa)]));
      Least(bounds) == Some(SoaBound(soa)) && Ttl(bounds) == 0
  {
    var bounds := Limits(Reply([], [None, Some(soa)]));
    assert bounds[1] == Some(SoaBound(soa));
    TtlIsLeastIff(bounds);
  }

  /** One record more: the first readable one starts the minimum, later ones may lower it. */
  lemma TtlStep(bounds: seq<Option<nat>>, b: Option<nat>, was: nat)
    requires IsTtl(was, bounds)
    ensures IsTtl(if b.Some? && (bounds == [] || b.value < was) then b.value else was, bounds + [b])
  {
    var all := bounds + [b];
    assert all[|bounds|] == b;
    if bounds != [] && bounds[0].Some? {
      var i :| 0 <= i < |bounds| && bounds[i] == Some(was);
      assert all[i] == Some(was);
    }
  }

  /** `ttl` is the TTL of a readable answer, and no readable answer has a smaller one. */
  ghost predicate LeastAnswer(ttl: nat, answers: seq<Option<nat>>)
  {
    Some(ttl) in answers && forall i :: 0 <= i < |answers| && answers[i].Some? ==> ttl <= answers[i].value
  }

  /** `ttl` is the TTL or the minimum of a readable SOA record, and none has a smaller one. */
  ghost predicate LeastSoa(ttl: nat, authority: seq<Option<Soa>>)
  {
    && (exists i :: 0 <= i < |authority| && authority[i].Some?
                    && (ttl == authority[i].value.ttl || ttl == authority[i].value.minimum))
    && (forall i :: 0 <= i < |authority| && authority[i].Some? ==>
          ttl <= authority[i].value.ttl && ttl <= authority[i].value.minimum)
  }

  /** How long a negative answer is kept, in terms of the SOA records themselves. */
  lemma NegativeMeaning(authority: seq<Option<Soa>>)
    ensures var ttl := Ttl(SoaBounds(authority));
      if authority == [] || authority[0].None? then ttl == 0 else LeastSoa(ttl, authority)
  {
    var bounds := SoaBounds(authority);
    var ttl := Ttl(bounds);
    TtlMeaning(bounds);
    if authority != [] && authority[0].Some? {
      var i :| 0 <= i < |bounds| && bounds[i] == Some(ttl);
      assert authority[i].Some?;
      forall k | 0 <= k < |authority| && authority[k].Some?
        ensures ttl <= authority[k].value.ttl && ttl <= authority[k].value.minimum
      {
        assert bounds[k].Some?;
      }
    }
  }

  /** How long a reply is kept, in terms of its records: what its first record allows, and no longer than any. */
  lemma ReplyMeaning(reply: Reply)
    ensures var ttl := Ttl(Limits(reply));
      if reply.Unparsable? then ttl == 0
      else if reply.answers != [] then
        if reply.answers[0].None? then ttl == 0 else LeastAnswer(ttl, reply.answers)
      else if reply.authority == [] || reply.authority[0].None? then ttl == 0
      else LeastSoa(ttl, reply.authority)
  {
    if reply.Reply? {
      TtlMeaning(reply.answers);
      NegativeMeaning(reply.authority);
    }
  }

  /** `answer_getTTL`: 0 means "do not cache". */
  method GetTtl(reply: Reply) returns (result: nat)
    ensures result == Ttl(Limits(reply))
    ensures reply.Reply? && reply.answers != [] && reply.answers[0].Some? ==> LeastAnswer(result, reply.answers)
  {
    ReplyMeaning(reply);
    if reply.Unparsable? { return 0; }
    var answers := reply.answers;
    if |answers| == 0 {
      result := NegativeTtl(reply.authority);
      return;
    }
    result := 0;
    for n := 0 to |answers|
      invariant result == Ttl(answers[..n])
    {
      assert answers[..n + 1][..n] == answers[..n];
      if answers[n].Some? {
        var ttl := answers[n].value;
        if n == 0 || ttl < result {
          result := ttl;
        }
      }
    }
    assert answers[..|answers|] == answers;
  }

  /** `answer_getNegativeTTL` */
  method NegativeTtl(authority: seq<Option<Soa>>) returns (result: nat)
    ensures result == Ttl(SoaBounds(authority))
    ensures if authority == [] || authority[0].None? then result == 0 else LeastSoa(result, authority)
  {
    NegativeMeaning(authority);
    result := 0;
    ghost var bounds := SoaBounds(authority);
    for n := 0 to |authority|
      invariant result == Ttl(bounds[..n])
    {
      assert bounds[..n + 1][..n] == bounds[..n];
      if authority[n].Some? {
        var recResult := authority[n].value.ttl;
        var ttl := authority[n].value.minimum;
        if ttl < recResult {
          recResult := ttl;
        }
        if n == 0 || recResult < result {
          result := recResult;
        }
      }
    }
    assert bounds[..|authority|] == bounds;
  }
}
