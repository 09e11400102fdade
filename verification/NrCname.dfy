/**
  Collection of the CNAME targets of a reply (nullroute/NrCname.h), over any name reader. The
  specification parses the records first and picks the targets afterwards; the walk does both
  at once, and stops early.
 */
module NrCnameSpec {
  import opened Bytes

  type Name = seq<byte>

  datatype NameRead = NameOk(name: Name, end: nat) | NameShort | NameBad

  /** Reads the name at an offset of a message. */
  type Reader = (seq<byte>, nat) -> NameRead

  datatype Status = Ok | Nothing | Short | Malformed | NotAReply

  datatype Result = Result(status: Status, links: seq<Name>, truncated: bool)

  /** A resource record: its type, class and the place of its data. */
  datatype Record = Record(rtype: nat, rclass: nat, rdata: nat, rdlen: nat)

  datatype RecordRead = Bad(status: Status) | Good(record: Record)

  datatype Records = Records(list: seq<Record>, failure: Option<Status>)

  datatype Start = Decline(status: Status) | Walk(p: nat, ancount: nat)

  const HEADER: nat := 12
  const FIXED: nat := 10
  const MAX_MESSAGE: nat := 65535
  const MAX_LINKS: nat := 8
  const MAX_RECORDS: nat := 64
  const CNAME: nat := 5
  const CLASS_IN: nat := 1

  /** The header and question checks, and where the answer section starts. */
  function StartOf(msg: seq<byte>, read: Reader): (s: Start)
    ensures s.Walk? ==> HEADER <= s.p <= |msg| && s.ancount >= 1
    ensures s != Decline(Ok)
  {
    if |msg| < HEADER then Decline(Short)
    else if |msg| > MAX_MESSAGE then Decline(Malformed)
    else
      var flags, qdcount, ancount := Be16At(msg, 2), Be16At(msg, 4), Be16At(msg, 6);
      if flags / 0x8000 == 0 || flags / 0x800 % 16 != 0 then Decline(NotAReply)
      else if flags % 16 != 0 then Decline(Nothing)
      else if qdcount > 1 then Decline(Malformed)
      else if ancount == 0 then Decline(Nothing)
      else if qdcount == 0 then Walk(HEADER, ancount)
      else
        match read(msg, HEADER)
        case NameShort => Decline(Short)
        case NameBad => Decline(Malformed)
        case NameOk(_, end) =>
          if end <= HEADER || end > |msg| then Decline(Malformed)
          else if |msg| - end < 4 then Decline(Short)
          else Walk(end + 4, ancount)
  }

  /** The record at `p`. */
  function ReadRecord(msg: seq<byte>, read: Reader, p: nat): (r: RecordRead)
    requires p <= |msg|
    ensures r.Good? ==> p + FIXED < r.record.rdata && r.record.rdata + r.record.rdlen <= |msg|
    ensures r.Bad? ==> r.status == Short || r.status == Malformed
  {
    match read(msg, p)
    case NameShort => Bad(Short)
    case NameBad => Bad(Malformed)
    case NameOk(_, end) =>
      if end <= p || end > |msg| then Bad(Malformed)
      else if |msg| - end < FIXED then Bad(Short)
      else
        var r := Record(Be16At(msg, end), Be16At(msg, end + 2), end + FIXED, Be16At(msg, end + 8));
        if |msg| - r.rdata < r.rdlen then Bad(Short) else Good(r)
  }

  /** Up to `n` records from `p` on, and why there are fewer if there are. */
  function ParseRecords(msg: seq<byte>, read: Reader, p: nat, n: nat): (r: Records)
    requires p <= |msg|
    ensures |r.list| <= n && (r.failure.None? <==> |r.list| == n)
    ensures r.failure.Some? ==> r.failure.value == Short || r.failure.value == Malformed
    decreases n
  {
    if n == 0 then Records([], None)
    else
      match ReadRecord(msg, read, p)
      case Bad(status) => Records([], Some(status))
      case Good(x) =>
        var rest := ParseRecords(msg, read, x.rdata + x.rdlen, n - 1);
        Records([x] + rest.list, rest.failure)
  }

  /** The record announces a CNAME target. */
  predicate Announces(r: Record)
  {
    r.rtype == CNAME && r.rclass == CLASS_IN && r.rdlen != 0
  }

  /** The announced target, if it can be read. */
  function Target(msg: seq<byte>, read: Reader, r: Record): (t: Option<Name>)
  {
    if !Announces(r) then None
    else
      match read(msg, r.rdata)
      case NameOk(name, _) => if name != [] then Some(name) else None
      case _ => None
  }

  function Announced(rs: seq<Record>): (n: nat)
  {
    if rs == [] then 0 else Announced(rs[..|rs| - 1]) + if Announces(rs[|rs| - 1]) then 1 else 0
  }

  function Readable(msg: seq<byte>, read: Reader, rs: seq<Record>): (names: seq<Name>)
  {
    if rs == [] then []
    else
      var t := Target(msg, read, rs[|rs| - 1]);
      Readable(msg, read, rs[..|rs| - 1]) + if t.Some? then [t.value] else []
  }

  /** Some record announces a target when the chain already has all the links it can hold. */
  ghost predicate Overflows(msg: seq<byte>, read: Reader, rs: seq<Record>)
  {
    exists i :: 0 <= i < |rs| && Announces(rs[i]) && |Readable(msg, read, rs[..i])| >= MAX_LINKS
  }

  /** The first links that fit. */
  function FirstLinks(names: seq<Name>): (r: seq<Name>)
  {
    if |names| <= MAX_LINKS then names else names[..MAX_LINKS]
  }

  /**
    The result for the parsed records: the first at most 8 readable targets among them, marked
    as truncated iff records were left out or a target is missing. A record that cannot be read
    spoils the result, unless the chain had overflowed before it.
   */
  ghost function Outcome(msg: seq<byte>, read: Reader, skipped: bool, rs: Records): (r: Result)
  {
    if rs.failure.Some? && !Overflows(msg, read, rs.list) then Result(rs.failure.value, [], false)
    else
      var links := FirstLinks(Readable(msg, read, rs.list));
      if links == [] then Result(Nothing, [], false)
      else Result(Ok, links, skipped || Announced(rs.list) > |links|)
  }

  /** The targets of a reply, taken from its first at most 64 answer records. */
  ghost function Collected(msg: seq<byte>, read: Reader): (r: Result)
    ensures r.status != Ok ==> r.links == [] && !r.truncated
    ensures r.status == Ok ==> 1 <= |r.links| <= MAX_LINKS
  {
    match StartOf(msg, read)
    case Decline(status) => Result(status, [], false)
    case Walk(p, ancount) =>
      var n := Min(ancount, MAX_RECORDS);
      Outcome(msg, read, ancount > n, ParseRecords(msg, read, p, n))
  }

  // ---------------------------------------------------------------------------

  lemma {:induction false} ReadableConcat(msg: seq<byte>, read: Reader, a: seq<Record>, b: seq<Record>)
    ensures Readable(msg, read, a + b) == Readable(msg, read, a) + Readable(msg, read, b)
    ensures Announced(a + b) == Announced(a) + Announced(b)
  {
    if b == [] {
      assert a + b == a;
    } else {
      var c := b[..|b| - 1];
      ReadableConcat(msg, read, a, c);
      assert (a + b)[..|a + b| - 1] == a + c;
    }
  }

  /** No more targets can be read than are announced. */
  lemma {:induction false} ReadableBounded(msg: seq<byte>, read: Reader, rs: seq<Record>)
    ensures |Readable(msg, read, rs)| <= Announced(rs)
  {
    if rs != [] { ReadableBounded(msg, read, rs[..|rs| - 1]); }
  }

  /** One more record overflows the chain iff it announces a target when the chain is full. */
  lemma OverflowsStep(msg: seq<byte>, read: Reader, rs: seq<Record>, r: Record)
    ensures Overflows(msg, read, rs + [r]) <==>
            Overflows(msg, read, rs) || (Announces(r) && |Readable(msg, read, rs)| >= MAX_LINKS)
  {
    hide Readable, Announces;
    var more := rs + [r];
    assert more[..|rs|] == rs && more[|rs|] == r;
    if Overflows(msg, read, rs) {
      var i :| 0 <= i < |rs| && Announces(rs[i]) && |Readable(msg, read, rs[..i])| >= MAX_LINKS;
      assert more[..i] == rs[..i] && more[i] == rs[i];
    }
    if Overflows(msg, read, more) {
      var i :| 0 <= i < |more| && Announces(more[i]) && |Readable(msg, read, more[..i])| >= MAX_LINKS;
      assert i < |rs| ==> more[..i] == rs[..i] && more[i] == rs[i];
    }
  }

  lemma OverflowsStays(msg: seq<byte>, read: Reader, a: seq<Record>, b: seq<Record>)
    requires Overflows(msg, read, a)
    ensures Overflows(msg, read, a + b)
  {
    hide Readable, Announces;
    var i :| 0 <= i < |a| && Announces(a[i]) && |Readable(msg, read, a[..i])| >= MAX_LINKS;
    assert (a + b)[..i] == a[..i] && (a + b)[i] == a[i];
  }
}

module NrCname {
  import opened Bytes
  import opened NrCnameSpec

  class NrCnameChain {
    const link: array<Name>
    var count: nat
    var truncated: bool

    ghost predicate Valid()
      reads this
    {
      link.Length == MAX_LINKS && count <= MAX_LINKS
    }

    ghost function Contents(status: Status): (r: Result)
      requires Valid()
      reads this, link
    {
      Result(status, link[..count], truncated)
    }

    constructor ()
      ensures Valid() && fresh(link) && count == 0 && !truncated
    {
      link := new Name[MAX_LINKS](_ => []);
      count, truncated := 0, false;
    }

    /** `nr_cname_walk`: on success, exactly the specified links; otherwise the right status. */
    method WalkRecords(msg: seq<byte>, read: Reader) returns (status: Status)
      requires link.Length == MAX_LINKS
      modifies this, link
      ensures Valid() && status == Collected(msg, read).status
      ensures status == Ok ==> Contents(Ok) == Collected(msg, read)
    {
      hide ReadRecord, StartOf, ParseRecords, Overflows, Readable, Announced, Outcome;
      count, truncated := 0, false;
      var start := ReadStart(msg, read);
      if start.Decline? { return start.status; }
      var p: nat := start.p;
      var records: nat := if start.ancount < MAX_RECORDS then start.ancount else MAX_RECORDS;
      if start.ancount > records { truncated := true; }
      ghost var skipped, whole := truncated, ParseRecords(msg, read, p, records);
      ghost var done: seq<Record> := [];
      NoRecords(msg, read);
      var i: nat := 0;
      while i < records
        invariant i <= records && p <= |msg|
        invariant Continues(msg, read, whole, done, p, records - i)
        invariant Reflects(msg, read, skipped, done)
      {
        var next := ReadNext(msg, read, p);
        ParseStep(msg, read, whole, done, p, records - i);
        if next.Bad? {
          OutcomeIfBad(msg, read, skipped, whole);
          return next.status;
        }
        var r := next.record;
        var full := Add(msg, read, r, skipped, done);
        if full {
          OutcomeIfFull(msg, read, skipped, whole, done, r);
          return Ok;
        }
        done := done + [r];
        p := r.rdata + r.rdlen;
        i := i + 1;
      }
      OutcomeAtEnd(msg, read, skipped, whole, done, p);
      return if count > 0 then Ok else Nothing;
    }

    /** The chain holds the targets of the records seen so far. */
    ghost predicate Reflects(msg: seq<byte>, read: Reader, skipped: bool, done: seq<Record>)
      reads this, link
    {
      && Valid() && !Overflows(msg, read, done)
      && link[..count] == Readable(msg, read, done)
      && (truncated <==> skipped || Announced(done) > count)
    }

    /** What the walk does with one record; reports whether a target found the chain full. */
    method Add(msg: seq<byte>, read: Reader, r: Record, ghost skipped: bool, ghost done: seq<Record>)
      returns (full: bool)
      requires Reflects(msg, read, skipped, done)
      modifies this`count, this`truncated, link
      ensures full <==> Announces(r) && |Readable(msg, read, done)| == MAX_LINKS
      ensures !full ==> Reflects(msg, read, skipped, done + [r])
      ensures full ==> Valid() && link[..count] == Readable(msg, read, done) && truncated
    {
      hide Overflows;
      OverflowsStep(msg, read, done, r);
      ReadableConcat(msg, read, done, [r]);
      ReadableBounded(msg, read, done);
      assert [r][..0] == [];
      if Announces(r) {
        if count >= MAX_LINKS {
          truncated := true;
          return true;
        }
        var target := read(msg, r.rdata);
        if target.NameOk? && |target.name| != 0 {
          link[count] := target.name;
          count := count + 1;
        } else {
          truncated := true;
        }
      }
      return false;
    }

    /** `nr_cname_collect`: any status but success leaves the chain empty. */
    method Collect(msg: seq<byte>, read: Reader) returns (status: Status)
      requires link.Length == MAX_LINKS
      modifies this, link
      ensures Valid() && Contents(status) == Collected(msg, read)
    {
      status := WalkRecords(msg, read);
      if status != Ok {
        count, truncated := 0, false;
      }
    }
  }

  /** The 16-bit number at an offset, read octet by octet. */
  method ReadU16(msg: seq<byte>, p: nat) returns (v: nat)
    requires p + 2 <= |msg|
    ensures v == Be16At(msg, p)
  {
    var hi: nat, lo: nat := msg[p], msg[p + 1];
    v := hi * 256 + lo;
  }

  /** The front part of the walk: the header fields and the question. */
  method ReadStart(msg: seq<byte>, read: Reader) returns (start: Start)
    ensures start == StartOf(msg, read)
  {
    if |msg| < HEADER { return Decline(Short); }
    if |msg| > MAX_MESSAGE { return Decline(Malformed); }
    var flags := ReadU16(msg, 2);
    if flags < 0x8000 { return Decline(NotAReply); }
    if flags / 0x800 % 0x10 != 0 { return Decline(NotAReply); }
    if flags % 0x10 != 0 { return Decline(Nothing); }
    var qdcount := ReadU16(msg, 4);
    var ancount := ReadU16(msg, 6);
    if qdcount > 1 { return Decline(Malformed); }
    if ancount == 0 { return Decline(Nothing); }
    var p: nat := HEADER;
    if qdcount == 1 {
      var qname := read(msg, p);
      if qname.NameShort? { return Decline(Short); }
      if !qname.NameOk? { return Decline(Malformed); }
      if qname.end <= p || qname.end > |msg| { return Decline(Malformed); }
      if |msg| - qname.end < 4 { return Decline(Short); }
      p := qname.end + 4;
    }
    return Walk(p, ancount);
  }

  /** The front part of the loop body: the owner name and the fixed fields of a record. */
  method ReadNext(msg: seq<byte>, read: Reader, at: nat) returns (r: RecordRead)
    requires at <= |msg|
    ensures r == ReadRecord(msg, read, at)
  {
    var owner := read(msg, at);
    if owner.NameShort? { return Bad(Short); }
    if !owner.NameOk? { return Bad(Malformed); }
    if owner.end <= at || owner.end > |msg| { return Bad(Malformed); }
    var p := owner.end;
    if |msg| - p < FIXED { return Bad(Short); }
    var rtype := ReadU16(msg, p);
    var rclass := ReadU16(msg, p + 2);
    var rdlen := ReadU16(msg, p + 8);
    p := p + FIXED;
    if |msg| - p < rdlen { return Bad(Short); }
    return Good(Record(rtype, rclass, p, rdlen));
  }

  /** The records seen and the records still to parse make up the whole. */
  ghost predicate Continues(msg: seq<byte>, read: Reader, whole: Records, done: seq<Record>, p: nat, left: nat)
  {
    && p <= |msg|
    && var rest := ParseRecords(msg, read, p, left);
       whole == Records(done + rest.list, rest.failure)
  }

  lemma ParseStep(msg: seq<byte>, read: Reader, whole: Records, done: seq<Record>, p: nat, left: nat)
    requires left > 0 && Continues(msg, read, whole, done, p, left)
    ensures var r := ReadRecord(msg, read, p);
      match r
      case Bad(status) => whole == Records(done, Some(status))
      case Good(x) =>
        && Continues(msg, read, whole, done + [x], x.rdata + x.rdlen, left - 1)
        && done + [x] <= whole.list
  {
  }

  lemma NoRecords(msg: seq<byte>, read: Reader)
    ensures !Overflows(msg, read, []) && Readable(msg, read, []) == [] && Announced([]) == 0
  {
  }

  lemma OutcomeIfBad(msg: seq<byte>, read: Reader, skipped: bool, whole: Records)
    requires whole.failure.Some? && !Overflows(msg, read, whole.list)
    ensures Outcome(msg, read, skipped, whole) == Result(whole.failure.value, [], false)
  {
  }

  lemma OutcomeIfFull(msg: seq<byte>, read: Reader, skipped: bool, whole: Records, done: seq<Record>, r: Record)
    requires |Readable(msg, read, done)| == MAX_LINKS && Announces(r) && done + [r] <= whole.list
    ensures Outcome(msg, read, skipped, whole) == Result(Ok, Readable(msg, read, done), true)
  {
    var tail := whole.list[|done| + 1..];
    assert whole.list == done + [r] + tail;
    Overflowed(msg, read, done, r, tail);
  }

  lemma OutcomeAtEnd(msg: seq<byte>, read: Reader, skipped: bool, whole: Records, done: seq<Record>, p: nat)
    requires Continues(msg, read, whole, done, p, 0) && |Readable(msg, read, done)| <= MAX_LINKS
    ensures var links := Readable(msg, read, done);
      Outcome(msg, read, skipped, whole) ==
        if links == [] then Result(Nothing, [], false) else Result(Ok, links, skipped || Announced(done) > |links|)
  {
    assert whole.list == done;
  }

  /** Whatever follows the record that overflows a full chain, the result is the full chain, truncated. */
  lemma Overflowed(msg: seq<byte>, read: Reader, done: seq<Record>, r: Record, tail: seq<Record>)
    requires |Readable(msg, read, done)| == MAX_LINKS && Announces(r)
    ensures Overflows(msg, read, done + [r] + tail)
    ensures FirstLinks(Readable(msg, read, done + [r] + tail)) == Readable(msg, read, done)
    ensures Announced(done + [r] + tail) > MAX_LINKS
  {
    hide Overflows;
    OverflowsStep(msg, read, done, r);
    OverflowsStays(msg, read, done + [r], tail);
    ReadableConcat(msg, read, done, [r]);
    ReadableConcat(msg, read, done + [r], tail);
    ReadableBounded(msg, read, done);
    assert [r][..0] == [];
  }
}
