/**
  The cursor walks over a query packet (res_cache.cpp), in the form the resolver runs them: a
  packet object whose cursor is advanced by each step, with loops over labels, questions and
  records. Every walk is tied to its function in `PacketSpec`.
 */
module PacketWalk {
  import opened Bytes
  import opened PacketSpec

  lemma FnvAppend(fed: seq<byte>, b: byte)
    ensures Fnv(fed + [b]) == Mix(Fnv(fed), b)
  {
  }

  lemma FirstOctet(b: byte)
    ensures Fnv([b]) == Mix(FNV_BASIS, b)
  {
    hide Mix;
    assert [b][..0] == [];
  }

  class DnsPacket {
    const data: seq<byte>
    var cursor: nat

    ghost predicate Valid()
      reads this
    {
      cursor <= |data|
    }

    constructor (buff: seq<byte>)
      ensures Valid() && data == buff && cursor == 0
    {
      data := buff;
      cursor := 0;
    }

    method Rewind()
      modifies this
      ensures Valid() && cursor == 0
    {
      cursor := 0;
    }

    method Skip(count: nat)
      requires Valid()
      modifies this
      ensures Valid() && cursor == Min(old(cursor) + count, |data|)
    {
      cursor := if cursor + count > |data| then |data| else cursor + count;
    }

    method ReadInt16() returns (v: int)
      requires Valid()
      modifies this
      ensures Valid()
      ensures v == PacketSpec.ReadInt16(data, old(cursor)) && cursor == AfterInt16(data, old(cursor))
    {
      if cursor + 2 > |data| { return -1; }
      v := Be16At(data, cursor);
      cursor := cursor + 2;
    }

    // -------------------------------------------------------------------------
    // Checking
    // -------------------------------------------------------------------------

    /** Compare two octets with `value` in network order; the cursor moves on success only. */
    method CheckBe16(value: nat) returns (ok: bool)
      requires Valid() && value < 0x1_0000
      modifies this
      ensures Valid()
      ensures ok <==> old(cursor) + 2 <= |data| && Be16At(data, old(cursor)) == value
      ensures cursor == if ok then old(cursor) + 2 else old(cursor)
    {
      if cursor + 2 > |data| { return false; }
      if data[cursor] != value / 256 || data[cursor + 1] != value % 256 { return false; }
      cursor := cursor + 2;
      return true;
    }

    method CheckQName() returns (ok: bool)
      requires Valid()
      modifies this
      ensures Valid()
      ensures ok <==> NameEnd(data, old(cursor)).Some?
      ensures cursor == if ok then NameEnd(data, old(cursor)).value else old(cursor)
    {
      var p := cursor;
      while p < |data|
        invariant NameEnd(data, p) == NameEnd(data, old(cursor))
        invariant cursor == old(cursor)
        decreases |data| - p
      {
        var c := data[p];
        p := p + 1;
        if c == 0 {
          cursor := p;
          return true;
        }
        if c >= 64 { break; }
        p := p + c;
      }
      return false;
    }

    method CheckQr() returns (ok: bool)
      requires Valid()
      modifies this
      ensures Valid()
      ensures ok <==> QuestionOk(data, old(cursor))
      ensures ok ==> cursor == QuestionEnd(data, old(cursor)).value
    {
      ok := CheckQName();
      if !ok { return; }
      ok := CheckBe16(1);
      if !ok { ok := CheckBe16(12); }
      if !ok { ok := CheckBe16(15); }
      if !ok { ok := CheckBe16(28); }
      if !ok { ok := CheckBe16(65); }
      if !ok { ok := CheckBe16(255); }
      if !ok { return; }
      ok := CheckBe16(1);
    }

    method CheckQuery() returns (ok: bool)
      requires Valid()
      modifies this
      ensures Valid()
      ensures ok <==> Checked(data)
    {
      if HEADER_SIZE > |data| { return false; }
      if data[2] >= 4 || data[3] >= 64 || data[3] % 16 != 0 { return false; }
      var qdCount: nat := Be16At(data, 4);
      if Be16At(data, 6) != 0 || Be16At(data, 8) != 0 || Be16At(data, 10) > 1 {
        return false;
      }
      if qdCount == 0 { return false; }
      cursor := HEADER_SIZE;
      while qdCount > 0
        invariant Valid()
        invariant QuestionsOk(data, cursor, qdCount) <==> QuestionsOk(data, HEADER_SIZE, QdCount(data))
        decreases qdCount
      {
        var qr := CheckQr();
        if !qr { return false; }
        qdCount := qdCount - 1;
      }
      return true;
    }

    // -------------------------------------------------------------------------
    // Hashing
    // -------------------------------------------------------------------------

    method HashOctets(numBytes: int, hash: nat, ghost fed: seq<byte>) returns (h: nat)
      requires Valid() && hash == Fnv(fed)
      modifies this
      ensures Valid()
      ensures cursor == HashRun(data, old(cursor), numBytes, fed).cursor
      ensures h == Fnv(HashRun(data, old(cursor), numBytes, fed).fed)
    {
      hide Mix, Fnv;
      h := hash;
      var left := numBytes;
      var p := cursor;
      assert data[cursor..p] == [] && fed + [] == fed;
      while left > 0 && p < |data|
        invariant cursor == old(cursor) <= p <= |data|
        invariant p - cursor + left == numBytes && (p > cursor ==> left >= 0)
        invariant h == Fnv(fed + data[cursor..p])
      {
        FnvAppend(fed + data[cursor..p], data[p]);
        assert fed + data[cursor..p] + [data[p]] == fed + data[cursor..p + 1];
        h := Mix(h, data[p]);
        p := p + 1;
        left := left - 1;
      }
      cursor := p;
    }

    method HashQName(hash: nat, ghost fed: seq<byte>) returns (h: nat)
      requires Valid() && hash == Fnv(fed)
      modifies this
      ensures Valid()
      ensures cursor == HashName(data, old(cursor), fed).cursor
      ensures h == Fnv(HashName(data, old(cursor), fed).fed)
    {
      hide Mix, Fnv;
      h := hash;
      var p := cursor;
      ghost var now := fed;
      while p < |data|
        invariant p <= |data| && cursor == old(cursor)
        invariant h == Fnv(now)
        invariant HashName(data, p, now) == HashName(data, old(cursor), fed)
        decreases |data| - p
      {
        var c := data[p];
        p := p + 1;
        if c == 0 { break; }
        if c >= 64 { break; }
        if p + c >= |data| { break; }
        h := HashLabel(p, c, h, now);
        now := now + LowerAll(data[p..p + c]);
        p := p + c;
      }
      cursor := p;
    }

    /** The inner loop of `HashQName`: fold one label in lower case into the hash. */
    method HashLabel(p: nat, c: nat, hash: nat, ghost fed: seq<byte>) returns (h: nat)
      requires p + c <= |data| && hash == Fnv(fed)
      ensures h == Fnv(fed + LowerAll(data[p..p + c]))
    {
      hide Mix, Fnv;
      h := hash;
      assert fed + LowerAll(data[p..p]) == fed;
      for i := 0 to c
        invariant h == Fnv(fed + LowerAll(data[p..p + i]))
      {
        var ch := ToLower(data[p + i]);
        FnvAppend(fed + LowerAll(data[p..p + i]), ch);
        assert fed + LowerAll(data[p..p + i]) + [ch] == fed + LowerAll(data[p..p + i + 1]);
        h := Mix(h, ch);
      }
    }

    method HashQr(hash: nat, ghost fed: seq<byte>) returns (h: nat)
      requires Valid() && hash == Fnv(fed)
      modifies this
      ensures Valid()
      ensures cursor == HashQuestion(data, old(cursor), fed).cursor
      ensures h == Fnv(HashQuestion(data, old(cursor), fed).fed)
    {
      ghost var name := HashName(data, cursor, fed);
      h := HashQName(hash, fed);
      h := HashOctets(4, h, name.fed);
    }

    method HashRr(hash: nat, ghost fed: seq<byte>) returns (h: nat)
      requires Valid() && hash == Fnv(fed)
      modifies this
      ensures Valid()
      ensures cursor == HashRecord(data, old(cursor), fed).cursor
      ensures h == Fnv(HashRecord(data, old(cursor), fed).fed)
    {
      ghost var q := HashQuestion(data, cursor, fed);
      h := HashQr(hash, fed);
      ghost var t := HashRun(data, q.cursor, 4, q.fed);
      h := HashOctets(4, h, q.fed);
      var rdlength := ReadInt16();
      h := HashOctets(rdlength, h, t.fed);
    }

    /** Hash the RD bit and the second flags octet, and read both counts. */
    method HashHeader() returns (h: nat, ghost fed: seq<byte>, count: int, arcount: int)
      requires |data| >= 3
      modifies this
      ensures Valid() && h == Fnv(fed)
      ensures var flags := HashRun(data, 3, 1, [data[2] % 2]);
        var skipped := Min(AfterInt16(data, flags.cursor) + 4, |data|);
        && fed == flags.fed
        && count == PacketSpec.ReadInt16(data, flags.cursor)
        && arcount == PacketSpec.ReadInt16(data, skipped) && cursor == AfterInt16(data, skipped)
    {
      hide Mix, Fnv;
      Rewind();
      Skip(2);
      var rd := data[2] % 2;
      fed := [rd];
      FirstOctet(rd);
      h := Mix(FNV_BASIS, rd);
      Skip(1);
      ghost var flags := HashRun(data, cursor, 1, fed);
      h := HashOctets(1, h, fed);
      fed := flags.fed;
      count := ReadInt16();
      Skip(4);
      arcount := ReadInt16();
    }

    /**
      The hash is taken before the packet is checked. It is undefined for a packet that ends
      before its flags, which the walk reads without looking; the check refuses it afterwards.
     */
    method HashPacket() returns (hash: Option<nat>)
      modifies this
      ensures Valid()
      ensures hash == if |data| >= 3 then Some(HashQuery(data)) else None
    {
      hide Fnv, HashQuestions, HashRecords;
      if |data| < 3 {
        cursor := 0;
        return None;
      }
      var h, fed, count, arcount := HashHeader();
      h, fed := HashManyQr(count, h, fed);
      h, fed := HashManyRr(arcount, h, fed);
      return Some(h);
    }

    method HashManyQr(n: int, hash: nat, ghost fed: seq<byte>) returns (h: nat, ghost now: seq<byte>)
      requires Valid() && hash == Fnv(fed)
      modifies this
      ensures Valid() && h == Fnv(now)
      ensures Hashing(cursor, now) == HashQuestions(data, old(cursor), if n < 0 then 0 else n, fed)
    {
      hide Mix, Fnv, HashQuestion, HashRecord;
      h, now := hash, fed;
      var count := n;
      while count > 0
        invariant Valid() && h == Fnv(now)
        invariant HashQuestions(data, cursor, if count < 0 then 0 else count, now)
               == HashQuestions(data, old(cursor), if n < 0 then 0 else n, fed)
        decreases count
      {
        ghost var q := HashQuestion(data, cursor, now);
        h := HashQr(h, now);
        now := q.fed;
        count := count - 1;
      }
    }

    method HashManyRr(n: int, hash: nat, ghost fed: seq<byte>) returns (h: nat, ghost now: seq<byte>)
      requires Valid() && hash == Fnv(fed)
      modifies this
      ensures Valid() && h == Fnv(now)
      ensures Hashing(cursor, now) == HashRecords(data, old(cursor), if n < 0 then 0 else n, fed)
    {
      hide Mix, Fnv, HashQuestion, HashRecord;
      h, now := hash, fed;
      var count := n;
      while count > 0
        invariant Valid() && h == Fnv(now)
        invariant HashRecords(data, cursor, if count < 0 then 0 else count, now)
               == HashRecords(data, old(cursor), if n < 0 then 0 else n, fed)
        decreases count
      {
        ghost var q := HashRecord(data, cursor, now);
        h := HashRr(h, now);
        now := q.fed;
        count := count - 1;
      }
    }
  }

  // ---------------------------------------------------------------------------
  // Comparing two packets
  // ---------------------------------------------------------------------------

  /** Case-folding comparison of two runs of equal length. */
  method MemCaseEqual(a: seq<byte>, b: seq<byte>) returns (same: bool)
    requires |a| == |b|
    ensures same <==> LowerAll(a) == LowerAll(b)
    ensures same <==> forall i :: 0 <= i < |a| ==> CaseVariant(a[i], b[i])
  {
    for i := 0 to |a|
      invariant forall k :: 0 <= k < i ==> LowerAll(a)[k] == LowerAll(b)[k] && CaseVariant(a[k], b[k])
    {
      FoldAlike(a[i], b[i]);
      if ToLower(a[i]) != ToLower(b[i]) {
        assert LowerAll(a)[i] != LowerAll(b)[i];
        return false;
      }
    }
    return true;
  }

  /** The result of a comparison; `Undefined` once it has read outside the packets. */
  datatype Answer = Yes | No | Undefined

  function AnswerTo(c: Comparison): (a: Answer)
  {
    if c.Match? then Yes else if c.Differ? then No else Undefined
  }

  /** What a comparison step leaves behind: both cursors moved on success. */
  ghost predicate Moved(a: DnsPacket, b: DnsPacket, same: Answer, to: Comparison)
    reads a, b
  {
    && a.Valid() && b.Valid()
    && same == AnswerTo(to)
    && (to.Match? ==> a.cursor == to.p && b.cursor == to.q)
  }

  method IsEqualDomainName(a: DnsPacket, b: DnsPacket) returns (same: Answer)
    requires a != b && a.Valid() && b.Valid()
    modifies a, b
    ensures Moved(a, b, same, EqName(a.data, old(a.cursor), b.data, old(b.cursor)))
  {
    hide LowerAll;
    var p: nat, q: nat := a.cursor, b.cursor;
    while p < |a.data| && q < |b.data|
      invariant a.cursor == old(a.cursor) && b.cursor == old(b.cursor)
      invariant EqName(a.data, p, b.data, q) == EqName(a.data, old(a.cursor), b.data, old(b.cursor))
      decreases |a.data| - p
    {
      var c := a.data[p];
      if c != b.data[q] { return No; }
      p, q := p + 1, q + 1;
      if c == 0 {
        a.cursor, b.cursor := p, q;
        return Yes;
      }
      if c >= 64 { return No; }
      if p + c > |a.data| || q + c > |b.data| { return No; }
      var alike := MemCaseEqual(a.data[p..p + c], b.data[q..q + c]);
      if !alike { return No; }
      p, q := p + c, q + c;
    }
    return No;
  }

  /** `memcmp` takes its length as an unsigned number, so a negative one makes it leave the packets. */
  method IsEqualBytes(a: DnsPacket, b: DnsPacket, n: int) returns (same: Answer)
    requires a != b && a.Valid() && b.Valid()
    modifies a, b
    ensures Moved(a, b, same, EqRun(a.data, old(a.cursor), b.data, old(b.cursor), n))
  {
    if a.cursor + n > |a.data| || b.cursor + n > |b.data| { return No; }
    if n < 0 { return Undefined; }
    if a.data[a.cursor..a.cursor + n] != b.data[b.cursor..b.cursor + n] { return No; }
    a.cursor, b.cursor := a.cursor + n, b.cursor + n;
    return Yes;
  }

  method IsEqualQr(a: DnsPacket, b: DnsPacket) returns (same: Answer)
    requires a != b && a.Valid() && b.Valid()
    modifies a, b
    ensures Moved(a, b, same, EqQuestion(a.data, old(a.cursor), b.data, old(b.cursor)))
  {
    same := IsEqualDomainName(a, b);
    if same == Yes {
      same := IsEqualBytes(a, b, 4);
    }
  }

  method IsEqualRr(a: DnsPacket, b: DnsPacket) returns (same: Answer)
    requires a != b && a.Valid() && b.Valid()
    modifies a, b
    ensures Moved(a, b, same, EqRecord(a.data, old(a.cursor), b.data, old(b.cursor)))
  {
    same := IsEqualQr(a, b);
    if same != Yes { return; }
    same := IsEqualBytes(a, b, 4);
    if same != Yes { return; }
    var rdlength1 := a.ReadInt16();
    var rdlength2 := b.ReadInt16();
    if rdlength1 != rdlength2 { return No; }
    same := IsEqualBytes(a, b, rdlength1);
  }

  /** Compare two checked packets. */
  method IsEqualQuery(a: DnsPacket, b: DnsPacket) returns (same: Answer)
    requires a != b && |a.data| >= HEADER_SIZE && |b.data| >= HEADER_SIZE
    modifies a, b
    ensures same == AnswerTo(CompareQuery(a.data, b.data))
  {
    hide EqQuestions, EqRecords;
    a.Rewind();
    b.Rewind();
    if a.data[2] % 2 != b.data[2] % 2 { return No; }
    if a.data[3] != b.data[3] { return No; }
    a.Skip(4);
    b.Skip(4);
    var count1 := a.ReadInt16();
    var count2 := b.ReadInt16();
    if count1 != count2 || count1 < 0 { return No; }
    a.Skip(4);
    b.Skip(4);
    var arcount1 := a.ReadInt16();
    var arcount2 := b.ReadInt16();
    if arcount1 != arcount2 || arcount1 < 0 { return No; }
    same := AllEqualQr(a, b, count1);
    if same != Yes { return; }
    same := AllEqualRr(a, b, arcount1);
  }

  method AllEqualQr(a: DnsPacket, b: DnsPacket, n: nat) returns (same: Answer)
    requires a != b && a.Valid() && b.Valid()
    modifies a, b
    ensures Moved(a, b, same, EqQuestions(a.data, old(a.cursor), b.data, old(b.cursor), n))
  {
    hide EqQuestion;
    var count := n;
    while count > 0
      invariant a.Valid() && b.Valid()
      invariant EqQuestions(a.data, a.cursor, b.data, b.cursor, count)
             == EqQuestions(a.data, old(a.cursor), b.data, old(b.cursor), n)
    {
      var qr := IsEqualQr(a, b);
      if qr != Yes { return qr; }
      count := count - 1;
    }
    return Yes;
  }

  method AllEqualRr(a: DnsPacket, b: DnsPacket, n: nat) returns (same: Answer)
    requires a != b && a.Valid() && b.Valid()
    modifies a, b
    ensures Moved(a, b, same, EqRecords(a.data, old(a.cursor), b.data, old(b.cursor), n))
  {
    hide EqRecord;
    var count := n;
    while count > 0
      invariant a.Valid() && b.Valid()
      invariant EqRecords(a.data, a.cursor, b.data, b.cursor, count)
             == EqRecords(a.data, old(a.cursor), b.data, old(b.cursor), n)
    {
      var rr := IsEqualRr(a, b);
      if rr != Yes { return rr; }
      count := count - 1;
    }
    return Yes;
  }

  // ---------------------------------------------------------------------------
  // Entry keys
  // ---------------------------------------------------------------------------

  /** Hash a query and decide whether the cache supports it, as `entry_init_key` does. */
  method InitKey(query: seq<byte>) returns (ok: bool, hash: nat)
    ensures ok <==> Checked(query)
    ensures ok ==> hash == HashQuery(query)
  {
    var pack := new DnsPacket(query);
    var h := pack.HashPacket();
    hash := if h.Some? then h.value else 0;
    ok := pack.CheckQuery();
  }

  /** `entry_equals` on the queries of two entries. */
  method EntryEquals(s: seq<byte>, t: seq<byte>) returns (same: Answer)
    requires |s| >= HEADER_SIZE && |t| >= HEADER_SIZE
    ensures same == if |s| != |t| then No else AnswerTo(CompareQuery(s, t))
    ensures same == Yes <==> Same(s, t)
  {
    if |s| != |t| { return No; }
    var a := new DnsPacket(s);
    var b := new DnsPacket(t);
    same := IsEqualQuery(a, b);
  }
}
