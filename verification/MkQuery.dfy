/** Building a query and its OPT record (res_mkquery.cpp) in a caller's buffer. */
module MkQuery {
  import opened Bytes
  import opened PacketSpec
  import opened PacketLaws

  const QUESTION_FIXED: nat := 4
  const OPT_FIXED: nat := 11      // root name, TYPE, CLASS, extended RCODE, version, flags and RDLENGTH
  const MAX_PACKET: nat := 8192
  const PADDING: nat := 128

  const TYPE_OPT: nat := 41
  const OPTION_PADDING: nat := 12

  /** An uncompressed name, as `dn_comp` writes the first name of a message. */
  predicate WireName(w: seq<byte>)
  {
    NameEnd(w, 0) == Some(|w|) && |w| <= 255
  }

  function Header(id: nat, tls: bool, qdcount: nat, arcount: nat): (r: seq<byte>)
    ensures |r| == HEADER_SIZE
  {
    [Hi(id), Lo(id), 1, if tls then 32 else 0, Hi(qdcount), Lo(qdcount), 0, 0, 0, 0, Hi(arcount), Lo(arcount)]
  }

  /** The packet of a single question without an additional record. */
  function Query(id: nat, name: seq<byte>, qtype: nat, qclass: nat, tls: bool): (r: seq<byte>)
    ensures |r| == HEADER_SIZE + |name| + QUESTION_FIXED
  {
    Header(id, tls, 1, 0) + name + Octets16(qtype) + Octets16(qclass)
  }

  function Zeros(n: nat): (r: seq<byte>)
    ensures |r| == n && forall i :: 0 <= i < n ==> r[i] == 0
  {
    seq(n, _ => 0)
  }

  /** The padding option of section 3 of RFC 7830. */
  function PaddingOption(n: nat): (r: seq<byte>)
    ensures |r| == n + 4
  {
    Octets16(OPTION_PADDING) + Octets16(n) + Zeros(n)
  }

  /** The OPT record up to its RDLENGTH. */
  function OptHead(payload: nat, tls: bool): (r: seq<byte>)
    ensures |r| == OPT_FIXED - 2
  {
    [0] + Octets16(TYPE_OPT) + Octets16(payload) + [0, 0] + Octets16(if tls then 0x8000 else 0)
  }

  /** The OPT record with its padding option. */
  function OptRecord(payload: nat, tls: bool, padding: nat): (r: seq<byte>)
    ensures |r| == OPT_FIXED + 4 + padding
  {
    OptHead(payload, tls) + Octets16(padding + 4) + PaddingOption(padding)
  }

  /** As many octets of padding as the next multiple of 128 takes, or as the buffer has, counted in 16 bits. */
  function PadLength(minimum: nat, size: nat): (n: nat)
    requires minimum <= size
    ensures n < PADDING && minimum + n <= size
  {
    Min((PADDING - minimum % PADDING) % PADDING, (size - minimum) % 0x1_0000)
  }

  // ---------------------------------------------------------------------------
  // Writing
  // ---------------------------------------------------------------------------

  method Put(buf: array<byte>, cp: nat, octets: seq<byte>) returns (next: nat)
    requires cp + |octets| <= buf.Length
    modifies buf
    ensures next == cp + |octets|
    ensures buf[..next] == old(buf[..cp]) + octets
    ensures forall i :: next <= i < buf.Length ==> buf[i] == old(buf[i])
  {
    for i := 0 to |octets|
      invariant buf[..cp + i] == old(buf[..cp]) + octets[..i]
      invariant forall k :: cp + i <= k < buf.Length ==> buf[k] == old(buf[k])
    {
      buf[cp + i] := octets[i];
    }
    next := cp + |octets|;
  }

  /** `res_nmkquery` for a QUERY. `name` is what `dn_comp` makes of the domain name, if it can. */
  method MakeQuery(buf: array<byte>, id: nat, name: Option<seq<byte>>, qclass: nat, qtype: nat, tls: bool)
    returns (n: int)
    requires id < 0x1_0000
    requires name.Some? ==> WireName(name.value)
    modifies buf
    ensures n == -1 || 0 <= n <= buf.Length
    ensures n == -1 <==> name.None? || buf.Length < HEADER_SIZE + |name.value| + QUESTION_FIXED
    ensures n != -1 ==> buf[..n] == Query(id, name.value, qtype, qclass, tls) && buf[n..] == old(buf[n..])
  {
    hide Header, Octets16, Query, WireName;
    if buf.Length < HEADER_SIZE { return -1; }
    var cp := Put(buf, 0, Header(id, tls, 0, 0));
    if buf.Length - cp < QUESTION_FIXED { return -1; }
    if name.None? || |name.value| > buf.Length - cp - QUESTION_FIXED { return -1; }
    cp := Put(buf, cp, name.value);
    cp := Put(buf, cp, Octets16(qtype));
    cp := Put(buf, cp, Octets16(qclass));
    CountQuestion(id, name.value, qtype, qclass, tls);
    PutCount(buf, 4, 1, cp);
    return cp;
  }

  /** Sets a count in the header of a message of length `cp`. */
  method PutCount(buf: array<byte>, at: nat, v: nat, ghost cp: nat)
    requires at + 2 <= cp <= buf.Length
    modifies buf
    ensures buf[..cp] == old(buf[..at]) + Octets16(v) + old(buf[at + 2..cp])
    ensures forall i :: cp <= i < buf.Length ==> buf[i] == old(buf[i])
  {
    buf[at], buf[at + 1] := Hi(v), Lo(v);
  }

  /** Octets replaced in the first part of a message are replaced in the message. */
  lemma Splice<T>(h: seq<T>, rest: seq<T>, at: nat, x: seq<T>)
    requires at + 2 <= |h|
    ensures (h + rest)[..at] + x + (h + rest)[at + 2..] == (h[..at] + x + h[at + 2..]) + rest
  {
  }

  lemma CountQuestion(id: nat, name: seq<byte>, qtype: nat, qclass: nat, tls: bool)
    ensures var m := [] + Header(id, tls, 0, 0) + name + Octets16(qtype) + Octets16(qclass);
      m[..4] + Octets16(1) + m[6..] == Query(id, name, qtype, qclass, tls)
  {
  }

  /** The message with one more additional record announced. */
  function Announcing(m: seq<byte>): (r: seq<byte>)
    requires |m| >= HEADER_SIZE
    ensures |r| == |m|
  {
    m[..10] + Octets16(Be16At(m, 10) + 1) + m[12..]
  }

  /**
    `res_nopt`, in a buffer that holds a message of length `n0`. Lengths are counted in 16 bits; only
    where that hides that the record does not fit is the behaviour undefined.
   */
  method AddOpt(buf: array<byte>, n0: nat, anslen: nat, tls: bool) returns (n: int)
    requires HEADER_SIZE <= n0 <= buf.Length
    requires !WrapsShort(n0, buf.Length)
    modifies buf
    ensures n == -1 <==> buf.Length < n0 + OPT_FIXED + 4
    ensures n != -1 ==>
              var padding := PadLength(n0 + OPT_FIXED + 4, buf.Length);
              && n == n0 + OPT_FIXED + 4 + padding
              && buf[..n] == Announcing(old(buf[..n0])) + OptRecord(Min(anslen, 0xffff), tls, padding)
  {
    hide Octets16, OptHead, PaddingOption, OptRecord, PadLength, Announcing;
    if buf.Length - n0 < OPT_FIXED { return -1; }
    ghost var m := buf[..n0];
    var payload := if anslen > 0xffff then 0xffff else anslen;
    var cp := PutHead(buf, n0, payload, tls);
    var minlen := (cp + 6) % 0x1_0000;
    MinimumFits(n0, buf.Length);
    if minlen > buf.Length { return -1; }
    var padlen := PaddingFor(minlen, buf.Length, n0 + OPT_FIXED + 4);
    cp := Put(buf, cp, Octets16(padlen + 4));
    cp := PutPadding(buf, cp, padlen);
    OptParts(m, payload, tls, padlen);
    Announce(buf, m, OptRecord(payload, tls, padlen), cp);
    return cp;
  }

  /** The fixed part fits, the rest does not, and the length of both needs more than 16 bits. */
  predicate WrapsShort(n0: nat, size: nat)
  {
    n0 + OPT_FIXED <= size < n0 + OPT_FIXED + 4 && n0 + OPT_FIXED + 4 >= 0x1_0000
  }

  /** The test on 16 bits is the test on the whole length. */
  lemma MinimumFits(n0: nat, size: nat)
    requires n0 + OPT_FIXED <= size && !WrapsShort(n0, size)
    ensures (n0 + OPT_FIXED + 4) % 0x1_0000 <= size <==> n0 + OPT_FIXED + 4 <= size
  {
  }

  method PaddingFor(minlen: nat, size: nat, ghost minimum: nat) returns (padlen: nat)
    requires minlen == minimum % 0x1_0000 && minimum <= size
    ensures padlen == PadLength(minimum, size)
  {
    LowBits(minimum, size);
    var extra := minlen % PADDING;
    padlen := (PADDING - extra) % PADDING;
    padlen := Min(padlen, (size - minlen) % 0x1_0000);
  }

  lemma LowBits(minimum: nat, size: nat)
    requires minimum <= size
    ensures minimum % 0x1_0000 % PADDING == minimum % PADDING
    ensures (size - minimum % 0x1_0000) % 0x1_0000 == (size - minimum) % 0x1_0000
  {
    var q, low := minimum / 0x1_0000, minimum % 0x1_0000;
    assert minimum == q * 0x1_0000 + low;
    var r := low / PADDING;
    assert minimum == (q * 512 + r) * PADDING + low % PADDING;
    var d := (size - minimum) / 0x1_0000;
    assert size - low == (d + q) * 0x1_0000 + (size - minimum) % 0x1_0000;
  }

  /** Counts the record behind the message `m` in the header of the message. */
  method Announce(buf: array<byte>, ghost m: seq<byte>, ghost opt: seq<byte>, ghost cp: nat)
    requires HEADER_SIZE <= |m| && cp == |m| + |opt| <= buf.Length && buf[..cp] == m + opt
    modifies buf
    ensures buf[..cp] == Announcing(m) + opt
  {
    hide Octets16;
    assert buf[10] == (m + opt)[10] == m[10] && buf[11] == (m + opt)[11] == m[11];
    PutCount(buf, 10, Be16At(buf[10..12], 0) + 1, cp);
    Splice(m, opt, 10, Octets16(Be16At(m, 10) + 1));
  }

  lemma OptParts(m: seq<byte>, payload: nat, tls: bool, padding: nat)
    ensures m + OptHead(payload, tls) + Octets16(padding + 4) + PaddingOption(padding)
         == m + OptRecord(payload, tls, padding)
  {
  }

  method PutHead(buf: array<byte>, n0: nat, payload: nat, tls: bool) returns (cp: nat)
    requires n0 + OPT_FIXED <= buf.Length
    modifies buf
    ensures cp == n0 + OPT_FIXED - 2 && buf[..cp] == old(buf[..n0]) + OptHead(payload, tls)
  {
    hide Octets16;
    cp := Put(buf, n0, [0]);
    cp := Put(buf, cp, Octets16(TYPE_OPT));
    cp := Put(buf, cp, Octets16(payload));
    cp := Put(buf, cp, [0, 0]);
    var flags := if tls then 0x8000 else 0;
    cp := Put(buf, cp, Octets16(flags));
  }

  method PutPadding(buf: array<byte>, p: nat, padlen: nat) returns (cp: nat)
    requires p + 4 + padlen <= buf.Length
    modifies buf
    ensures cp == p + 4 + padlen && buf[..cp] == old(buf[..p]) + PaddingOption(padlen)
  {
    hide Octets16;
    cp := Put(buf, p, Octets16(OPTION_PADDING));
    cp := Put(buf, cp, Octets16(padlen));
    cp := Put(buf, cp, Zeros(padlen));
  }

  // ---------------------------------------------------------------------------
  // What is built is a cache key
  // ---------------------------------------------------------------------------

  /** The packet of a question, with an OPT record in a buffer of `MAXPACKET` octets. */
  function PaddedQuery(id: nat, name: seq<byte>, qtype: nat, qclass: nat, tls: bool, payload: nat): (r: seq<byte>)
    requires WireName(name)
  {
    var q := Query(id, name, qtype, qclass, tls);
    Announcing(q) + OptRecord(payload, tls, PadLength(|q| + OPT_FIXED + 4, MAX_PACKET))
  }

  /** A name inside a packet ends where it ends on its own. */
  lemma {:induction false} EmbeddedName(s: seq<byte>, w: seq<byte>, base: nat, p: nat)
    requires base + |w| <= |s| && s[base..base + |w|] == w && NameEnd(w, p) == Some(|w|)
    ensures NameEnd(s, base + p) == Some(base + |w|)
    decreases |w| - p
  {
    assert s[base + p] == w[p];
    if w[p] != 0 { EmbeddedName(s, w, base, p + 1 + w[p]); }
  }

  lemma NameInPacket(s: seq<byte>, name: seq<byte>)
    requires HEADER_SIZE + |name| <= |s| && s[HEADER_SIZE..HEADER_SIZE + |name|] == name && WireName(name)
    ensures NameEnd(s, HEADER_SIZE) == Some(HEADER_SIZE + |name|)
  {
    EmbeddedName(s, name, HEADER_SIZE, 0);
  }

  /** The header of one question and at most one record, behind its ID. */
  lemma HeaderOctets(id: nat, tls: bool, arcount: nat)
    requires arcount <= 1
    ensures Header(id, tls, 1, arcount)[2..] == [1, if tls then 32 else 0, 0, 1, 0, 0, 0, 0, 0, arcount]
  {
    hide Hi, Lo;
    HiLo(1);
    HiLo(arcount);
  }

  lemma HeaderIsOk(s: seq<byte>, tls: bool, arcount: nat)
    requires arcount <= 1 && |s| >= HEADER_SIZE
    requires s[2..HEADER_SIZE] == [1, if tls then 32 else 0, 0, 1, 0, 0, 0, 0, 0, arcount]
    ensures HeaderOk(s) && ArCount(s) == arcount && QdCount(s) == 1
  {
    var h := s[2..HEADER_SIZE];
    assert s[2] == h[0] && s[3] == h[1] && s[4] == h[2] && s[5] == h[3] && s[6] == h[4] && s[7] == h[5];
    assert s[8] == h[6] && s[9] == h[7] && s[10] == h[8] && s[11] == h[9];
  }

  lemma QuestionIsOk(s: seq<byte>, name: seq<byte>, qtype: nat, qclass: nat, opt: seq<byte>)
    requires WireName(name) && SupportedType(qtype) && qclass == 1
    requires |s| >= HEADER_SIZE && s[HEADER_SIZE..] == name + Octets16(qtype) + Octets16(qclass) + opt
    ensures QuestionsOk(s, HEADER_SIZE, 1)
    ensures QuestionsEnd(s, HEADER_SIZE, 1) == Some(HEADER_SIZE + |name| + QUESTION_FIXED)
  {
    hide NameEnd, Octets16, Be16At, WireName;
    var e := HEADER_SIZE + |name| + QUESTION_FIXED;
    var body := name + Octets16(qtype) + Octets16(qclass) + opt;
    assert s[HEADER_SIZE..e - 4] == body[..|name|] == name;
    NameInPacket(s, name);
    assert s[e - 4..e - 2] == body[|name|..|name| + 2] == Octets16(qtype);
    assert s[e - 2..e] == body[|name| + 2..|name| + 4] == Octets16(qclass);
    ReadsBack(s, e - 4, qtype);
    ReadsBack(s, e - 2, qclass);
    assert QuestionEnd(s, HEADER_SIZE) == Some(e);
    assert QuestionsOk(s, e, 0);
    assert QuestionsEnd(s, e, 0) == Some(e);
  }

  lemma OptLayout(s: seq<byte>, p: nat, payload: nat, tls: bool, padding: nat)
    requires p <= |s| && s[p..] == OptRecord(payload, tls, padding)
    ensures |s| == p + OPT_FIXED + 4 + padding && s[p] == 0
    ensures s[p + 1..p + 5] == Octets16(TYPE_OPT) + Octets16(payload)
    ensures s[p + 5..p + 9] == [0, 0] + Octets16(if tls then 0x8000 else 0)
    ensures s[p + 9..p + 11] == Octets16(padding + 4)
    ensures s[p + 11..] == PaddingOption(padding)
  {
    hide PaddingOption, Octets16;
    var r := OptRecord(payload, tls, padding);
    assert s[p] == r[0];
    assert s[p + 1..p + 5] == r[1..5];
    assert s[p + 5..p + 9] == r[5..9];
    assert s[p + 9..p + 11] == r[9..11];
    assert s[p + 11..] == r[11..];
  }

  /** The OPT record at the end of a packet is one complete record: the root name, and the padding option as data. */
  lemma OptIsComplete(s: seq<byte>, p: nat, payload: nat, tls: bool, padding: nat)
    requires p <= |s| && s[p..] == OptRecord(payload, tls, padding) && padding < PADDING
    ensures RecordsEnd(s, p, 1) == Some(|s|)
    ensures RecordAt(s, p) == OptMeaning(payload, tls, padding)
  {
    hide OptRecord, PaddingOption, Octets16, Be16At;
    OptLayout(s, p, payload, tls, padding);
    ReadsBack(s, p + 9, padding + 4);
    assert NameEnd(s, p) == Some(p + 1);
    assert RecordEnd(s, p) == Some(|s|);
    assert RecordsEnd(s, |s|, 0) == Some(|s|);
  }

  /** A question of a cacheable type is a cache key as `res_nmkquery` leaves it. */
  lemma PlainQueryIsKey(id: nat, name: seq<byte>, qtype: nat, tls: bool)
    requires WireName(name) && SupportedType(qtype)
    ensures var s := Query(id, name, qtype, 1, tls); IsKey(s) && Same(s, s)
  {
    hide Header, Octets16, WireName, NameEnd;
    var s := Query(id, name, qtype, 1, tls);
    assert s[..HEADER_SIZE] == Header(id, tls, 1, 0);
    assert s[HEADER_SIZE..] == name + Octets16(qtype) + Octets16(1) + [];
    HeaderOctets(id, tls, 0);
    assert s[2..HEADER_SIZE] == Header(id, tls, 1, 0)[2..];
    HeaderIsOk(s, tls, 0);
    QuestionIsOk(s, name, qtype, 1, []);
    hide EqQuery, QuestionsOk, HeaderOk;
    SameIsCongruence(s, s, s);
  }

  lemma PadToMultiple(n: nat)
    requires n + PADDING <= MAX_PACKET
    ensures var pad := PadLength(n, MAX_PACKET); pad < PADDING && (n + pad) % PADDING == 0
  {
  }

  lemma PaddedLayout(id: nat, name: seq<byte>, qtype: nat, tls: bool, payload: nat)
    requires WireName(name)
    ensures var q := Query(id, name, qtype, 1, tls);
      var opt := OptRecord(payload, tls, PadLength(|q| + OPT_FIXED + 4, MAX_PACKET));
      var s := PaddedQuery(id, name, qtype, 1, tls, payload);
      && |s| >= HEADER_SIZE && s[..HEADER_SIZE] == Header(id, tls, 1, 1)
      && s[HEADER_SIZE..] == name + Octets16(qtype) + Octets16(1) + opt
      && s[|q|..] == opt
  {
    hide NameEnd, OptRecord, PadLength;
  }

  /**
    A query of a cacheable type and class IN, extended with an OPT record in a buffer of 8192
    octets: its length is a multiple of 128 (section 4.1 of RFC 8467), its one additional record
    is exactly the OPT record with a padding option (section 3 of RFC 7830), and it is a complete
    cache key that equals itself.
   */
  lemma BuiltQueryIsKey(id: nat, name: seq<byte>, qtype: nat, tls: bool, payload: nat)
    requires WireName(name) && SupportedType(qtype)
    ensures var s := PaddedQuery(id, name, qtype, 1, tls, payload);
      && |s| % PADDING == 0 && |s| <= MAX_PACKET
      && IsKey(s) && Same(s, s)
      && |KeyOf(s).additional| == 1
      && (exists padding :: 0 <= padding < PADDING && KeyOf(s).additional[0] == OptMeaning(payload, tls, padding))
  {
    hide Header, Octets16, NameEnd, OptRecord, Query, PaddedQuery, PadLength;
    var s, q := PaddedQuery(id, name, qtype, 1, tls, payload), Query(id, name, qtype, 1, tls);
    var n := |q| + OPT_FIXED + 4;
    var opt := OptRecord(payload, tls, PadLength(n, MAX_PACKET));
    PadToMultiple(n);
    PaddedLayout(id, name, qtype, tls, payload);
    HeaderOctets(id, tls, 1);
    assert s[2..HEADER_SIZE] == Header(id, tls, 1, 1)[2..];
    HeaderIsOk(s, tls, 1);
    QuestionIsOk(s, name, qtype, 1, opt);
    OptIsComplete(s, |q|, payload, tls, PadLength(n, MAX_PACKET));
    hide EqQuery, QuestionsOk, HeaderOk, RecordEnd;
    SameIsCongruence(s, s, s);
    assert KeyOf(s).additional[0] == RecordAt(s, |q|);
  }

  lemma OctetsAre(v: nat)
    requires v < 0x1_0000
    ensures Octets16(v) == [v / 256, v % 256] && (v < 256 ==> Octets16(v) == [0, v])
  {
  }

  /** The header of a built query, octet by octet. */
  function BuiltHeader(id: nat, tls: bool): (r: seq<byte>)
    requires id < 0x1_0000
  {
    [id / 256, id % 256, 1, if tls then 32 else 0, 0, 1, 0, 0, 0, 0, 0, 1]
  }

  /** Its OPT record: the root, type 41, the payload size, the DO bit over TLS, and option 12 with zeros. */
  function BuiltOpt(payload: nat, tls: bool, padding: nat): (r: seq<byte>)
    requires payload < 0x1_0000 && padding < 128
  {
    [0, 0, 41, payload / 256, payload % 256, 0, 0, if tls then 128 else 0, 0]
    + [0, padding + 4] + ([0, 12, 0, padding] + Zeros(padding))
  }

  lemma HeadOctets(payload: nat, tls: bool)
    requires payload < 0x1_0000
    ensures OptHead(payload, tls) ==
            [0, 0, 41, payload / 256, payload % 256, 0, 0, if tls then 128 else 0, 0]
  {
    hide Octets16;
    OctetsAre(41);
    OctetsAre(payload);
    OctetsAre(if tls then 0x8000 else 0);
  }

  lemma OptOctets(payload: nat, tls: bool, padding: nat)
    requires payload < 0x1_0000 && padding < 128
    ensures OptRecord(payload, tls, padding) == BuiltOpt(payload, tls, padding)
  {
    hide Octets16, OptHead, Zeros;
    HeadOctets(payload, tls);
    OctetsAre(padding + 4);
    OctetsAre(12);
    OctetsAre(padding);
    assert [0, 12] + [0, padding] == [0, 12, 0, padding];
  }

  /** The built query, octet by octet: header, question, and an OPT record padded to a multiple of 128. */
  lemma BuiltQueryOctets(id: nat, name: seq<byte>, qtype: nat, tls: bool, payload: nat) returns (padding: nat)
    requires id < 0x1_0000 && payload < 0x1_0000 && qtype < 256 && WireName(name)
    ensures padding < 128 && (12 + |name| + 4 + 15 + padding) % 128 == 0
    ensures PaddedQuery(id, name, qtype, 1, tls, payload) ==
            BuiltHeader(id, tls) + (name + [0, qtype] + [0, 1] + BuiltOpt(payload, tls, padding))
  {
    hide Octets16, NameEnd, OptRecord, PadLength, Header, BuiltOpt, PaddedQuery, BuiltHeader;
    var n := |Query(id, name, qtype, 1, tls)| + OPT_FIXED + 4;
    var s := PaddedQuery(id, name, qtype, 1, tls, payload);
    PadToMultiple(n);
    padding := PadLength(n, MAX_PACKET);
    PaddedLayout(id, name, qtype, tls, payload);
    HeaderIsBuilt(id, tls);
    OptOctets(payload, tls, padding);
    OctetsAre(qtype);
    OctetsAre(1);
    assert s == s[..HEADER_SIZE] + s[HEADER_SIZE..];
  }

  lemma HeaderIsBuilt(id: nat, tls: bool)
    requires id < 0x1_0000
    ensures Header(id, tls, 1, 1) == BuiltHeader(id, tls)
  {
    HeaderOctets(id, tls, 1);
    HeaderId(id, tls, 1);
    var h := Header(id, tls, 1, 1);
    hide Header;
    assert h == h[..2] + h[2..];
  }

  lemma HeaderId(id: nat, tls: bool, arcount: nat)
    requires id < 0x1_0000
    ensures Header(id, tls, 1, arcount)[..2] == [id / 256, id % 256]
  {
  }

  /** The OPT record with its padding, as the cache compares it. */
  function OptMeaning(payload: nat, tls: bool, padding: nat): (r: Record)
  {
    Record(Question([], Octets16(TYPE_OPT) + Octets16(payload)),
           [0, 0] + Octets16(if tls then 0x8000 else 0), PaddingOption(padding))
  }

  /** A query with an OPT record, as `res_nquery` builds it in its own buffer. */
  method BuildQuery(buf: array<byte>, id: nat, name: seq<byte>, qtype: nat, tls: bool, anslen: nat) returns (n: nat)
    requires buf.Length == MAX_PACKET && id < 0x1_0000 && WireName(name)
    modifies buf
    ensures n <= buf.Length && buf[..n] == PaddedQuery(id, name, qtype, 1, tls, Min(anslen, 0xffff))
  {
    hide Header, Octets16, NameEnd, OptRecord, Query, Announcing;
    var n0 := MakeQuery(buf, id, Some(name), 1, qtype, tls);
    n := AddOpt(buf, n0, anslen, tls);
  }
}
