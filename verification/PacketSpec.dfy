/**
  What a DNS query packet means to the answer cache.

  The resolver never parses a query into a value: three separate cursor walks check it, hash
  it and compare it. This module states each walk as a function of the packet and an offset,
  and states once, as a datatype, the information the walks are supposed to agree on.
 */
module PacketSpec {
  import opened Bytes

  const HEADER_SIZE: nat := 12
  const MAX_LABEL: nat := 63

  // ---------------------------------------------------------------------------
  // Names
  // ---------------------------------------------------------------------------

  function ToLower(c: byte): (r: byte)
  {
    // Setting bit 5 of 'A'..'Z' adds 32: the bit is clear in 0x41..0x5A.
    if 65 <= c <= 90 then c + 32 else c
  }

  /** The same octet, or the same ASCII letter in the other case. */
  predicate CaseVariant(a: byte, b: byte)
  {
    a == b || (65 <= a <= 90 && b == a + 32) || (65 <= b <= 90 && a == b + 32)
  }

  lemma FoldAlike(a: byte, b: byte)
    ensures ToLower(a) == ToLower(b) <==> CaseVariant(a, b)
  {
  }

  function LowerAll(s: seq<byte>): (r: seq<byte>)
    ensures |r| == |s|
    ensures forall i :: 0 <= i < |s| ==> r[i] == ToLower(s[i])
  {
    seq(|s|, i requires 0 <= i < |s| => ToLower(s[i]))
  }

  /** The offset just past the uncompressed name starting at `p`, if there is one. */
  function NameEnd(s: seq<byte>, p: nat): (r: Option<nat>)
    ensures r.Some? ==> p < r.value <= |s|
    decreases |s| - p
  {
    if p >= |s| then None
    else if s[p] == 0 then Some(p + 1)
    else if s[p] > MAX_LABEL then None
    else NameEnd(s, p + 1 + s[p])
  }

  /** The labels of the name at `p`, in lower case. */
  function Labels(s: seq<byte>, p: nat): (r: seq<seq<byte>>)
    requires NameEnd(s, p).Some?
    decreases |s| - p
  {
    if s[p] == 0 then [] else [Label(s, p)] + Labels(s, p + 1 + s[p])
  }

  /** The first label of the name at `p`, in lower case. */
  function Label(s: seq<byte>, p: nat): (r: seq<byte>)
    requires NameEnd(s, p).Some? && s[p] != 0
  {
    LowerAll(s[p + 1..p + 1 + s[p]])
  }

  // ---------------------------------------------------------------------------
  // The meaning of a query
  // ---------------------------------------------------------------------------

  /** `fixed` holds the four octets of TYPE and CLASS. */
  datatype Question = Question(labels: seq<seq<byte>>, fixed: seq<byte>)

  datatype Record = Record(question: Question, ttl: seq<byte>, rdata: seq<byte>)

  /** Everything that distinguishes one cacheable query from another. */
  datatype QueryKey = QueryKey(rd: byte, flags: byte, questions: seq<Question>, additional: seq<Record>)

  function QuestionEnd(s: seq<byte>, p: nat): (r: Option<nat>)
    ensures r.Some? ==> p < r.value <= |s|
  {
    var e := NameEnd(s, p);
    if e.Some? && e.value + 4 <= |s| then Some(e.value + 4) else None
  }

  function QuestionAt(s: seq<byte>, p: nat): (r: Question)
    requires QuestionEnd(s, p).Some?
  {
    var e := QuestionEnd(s, p).value;
    Question(Labels(s, p), s[e - 4..e])
  }

  function QuestionsEnd(s: seq<byte>, p: nat, n: nat): (r: Option<nat>)
    ensures r.Some? && p <= |s| ==> p <= r.value <= |s|
    decreases n
  {
    if n == 0 then Some(p)
    else
      var e := QuestionEnd(s, p);
      if e.None? then None else QuestionsEnd(s, e.value, n - 1)
  }

  function QuestionsAt(s: seq<byte>, p: nat, n: nat): (r: seq<Question>)
    requires QuestionsEnd(s, p, n).Some?
    ensures |r| == n
    decreases n
  {
    if n == 0 then [] else [QuestionAt(s, p)] + QuestionsAt(s, QuestionEnd(s, p).value, n - 1)
  }

  /** RDLENGTH of the record whose question part ends at `q`, if the packet reaches that far. */
  function RdLength(s: seq<byte>, q: nat): (r: Option<nat>)
  {
    if q + 6 <= |s| then Some(Be16At(s, q + 4)) else None
  }

  function RecordEnd(s: seq<byte>, p: nat): (r: Option<nat>)
    ensures r.Some? ==> p < r.value <= |s|
  {
    var q := QuestionEnd(s, p);
    if q.None? || RdLength(s, q.value).None? then None
    else
      var e := q.value + 6 + RdLength(s, q.value).value;
      if e <= |s| then Some(e) else None
  }

  function RecordAt(s: seq<byte>, p: nat): (r: Record)
    requires RecordEnd(s, p).Some?
  {
    var q := QuestionEnd(s, p).value;
    Record(QuestionAt(s, p), s[q..q + 4], s[q + 6..RecordEnd(s, p).value])
  }

  function RecordsEnd(s: seq<byte>, p: nat, n: nat): (r: Option<nat>)
    ensures r.Some? && p <= |s| ==> p <= r.value <= |s|
    decreases n
  {
    if n == 0 then Some(p)
    else
      var e := RecordEnd(s, p);
      if e.None? then None else RecordsEnd(s, e.value, n - 1)
  }

  function RecordsAt(s: seq<byte>, p: nat, n: nat): (r: seq<Record>)
    requires RecordsEnd(s, p, n).Some?
    ensures |r| == n
    decreases n
  {
    if n == 0 then [] else [RecordAt(s, p)] + RecordsAt(s, RecordEnd(s, p).value, n - 1)
  }

  function QdCount(s: seq<byte>): (n: nat) requires |s| >= HEADER_SIZE { Be16At(s, 4) }
  function ArCount(s: seq<byte>): (n: nat) requires |s| >= HEADER_SIZE { Be16At(s, 10) }

  // ---------------------------------------------------------------------------
  // The check walk
  // ---------------------------------------------------------------------------

  /** A, PTR, MX, AAAA, HTTPS and ANY. */
  predicate SupportedType(t: nat)
  {
    t == 1 || t == 12 || t == 15 || t == 28 || t == 65 || t == 255
  }

  predicate QuestionOk(s: seq<byte>, p: nat)
  {
    && QuestionEnd(s, p).Some?
    && var e := QuestionEnd(s, p).value;
    && SupportedType(Be16At(s, e - 4))
    && Be16At(s, e - 2) == 1
  }

  predicate QuestionsOk(s: seq<byte>, p: nat, n: nat)
    decreases n
  {
    n == 0 || (QuestionOk(s, p) && QuestionsOk(s, QuestionEnd(s, p).value, n - 1))
  }

  /** The header is that of a plain query: only RD, TC, AD and CD may be set. */
  predicate HeaderOk(s: seq<byte>)
  {
    && |s| >= HEADER_SIZE
    && s[2] < 4                          // (p[2] & 0xFC) == 0
    && s[3] < 64 && s[3] % 16 == 0       // (p[3] & 0xCF) == 0
    && Be16At(s, 6) == 0
    && Be16At(s, 8) == 0
    && ArCount(s) <= 1
    && QdCount(s) != 0
  }

  predicate Checked(s: seq<byte>)
  {
    HeaderOk(s) && QuestionsOk(s, HEADER_SIZE, QdCount(s))
  }

  /** The additional record, if one is announced, is all there. The check does not look at it. */
  predicate Complete(s: seq<byte>)
    requires Checked(s)
  {
    CheckedQuestionsEnd(s, HEADER_SIZE, QdCount(s));
    RecordsEnd(s, QuestionsEnd(s, HEADER_SIZE, QdCount(s)).value, ArCount(s)).Some?
  }

  /** A packet that can serve as a cache key. */
  predicate IsKey(s: seq<byte>)
  {
    Checked(s) && Complete(s)
  }

  function KeyOf(s: seq<byte>): (k: QueryKey)
    requires IsKey(s)
  {
    CheckedQuestionsEnd(s, HEADER_SIZE, QdCount(s));
    var e := QuestionsEnd(s, HEADER_SIZE, QdCount(s)).value;
    QueryKey(s[2] % 2, s[3], QuestionsAt(s, HEADER_SIZE, QdCount(s)), RecordsAt(s, e, ArCount(s)))
  }

  lemma {:induction false} CheckedQuestionsEnd(s: seq<byte>, p: nat, n: nat)
    requires QuestionsOk(s, p, n)
    ensures QuestionsEnd(s, p, n).Some?
    decreases n
  {
    if n > 0 {
      CheckedQuestionsEnd(s, QuestionEnd(s, p).value, n - 1);
    }
  }

  /** `_dnsPacket_readInt16`: the value, or -1 with the cursor left alone. */
  function ReadInt16(s: seq<byte>, p: nat): (v: int)
  {
    if p + 2 <= |s| then Be16At(s, p) else -1
  }

  function AfterInt16(s: seq<byte>, p: nat): (c: nat)
  {
    if p + 2 <= |s| then p + 2 else p
  }

  // ---------------------------------------------------------------------------
  // The hash walk
  // ---------------------------------------------------------------------------

  const FNV_MULT: nat := 16777619
  const FNV_BASIS: nat := 2166136261
  const WORD: nat := 0x1_0000_0000

  /** Bitwise exclusive or. */
  function Xor(a: nat, b: nat): (r: nat)
    decreases a + b
  {
    if a + b == 0 then 0
    else (if a % 2 == b % 2 then 0 else 1) + 2 * Xor(a / 2, b / 2)
  }

  /** One FNV step in 32-bit arithmetic: `hash * FNV_MULT ^ b`. */
  function Mix(h: nat, b: byte): (r: nat)
  {
    Xor((h * FNV_MULT) % WORD, b)
  }

  /** The FNV hash of a run of octets. */
  function Fnv(octets: seq<byte>): (r: nat)
  {
    if octets == [] then FNV_BASIS
    else Mix(Fnv(octets[..|octets| - 1]), octets[|octets| - 1])
  }

  /** A cursor, and the octets fed to the hash so far. */
  datatype Hashing = Hashing(cursor: nat, fed: seq<byte>)

  /** Hash up to `n` octets from `p`, stopping at the end of the packet; none if `n` is negative. */
  function HashRun(s: seq<byte>, p: nat, n: int, fed: seq<byte>): (r: Hashing)
    requires p <= |s|
    ensures p <= r.cursor <= |s|
  {
    var e := if n <= 0 then p else Min(p + n, |s|);
    Hashing(e, fed + s[p..e])
  }

  /** Hash the name at `p`; label lengths are not hashed. Stops at the first malformation. */
  function HashName(s: seq<byte>, p: nat, fed: seq<byte>): (r: Hashing)
    requires p <= |s|
    ensures p <= r.cursor <= |s|
    decreases |s| - p
  {
    if p >= |s| then Hashing(p, fed)
    else if s[p] == 0 || s[p] > MAX_LABEL || p + 1 + s[p] >= |s| then Hashing(p + 1, fed)
    else HashName(s, p + 1 + s[p], fed + LowerAll(s[p + 1..p + 1 + s[p]]))
  }

  function HashQuestion(s: seq<byte>, p: nat, fed: seq<byte>): (r: Hashing)
    requires p <= |s|
    ensures p <= r.cursor <= |s|
  {
    var n := HashName(s, p, fed);
    HashRun(s, n.cursor, 4, n.fed)
  }

  function HashQuestions(s: seq<byte>, p: nat, n: nat, fed: seq<byte>): (r: Hashing)
    requires p <= |s|
    ensures p <= r.cursor <= |s|
    decreases n
  {
    if n == 0 then Hashing(p, fed)
    else
      var q := HashQuestion(s, p, fed);
      HashQuestions(s, q.cursor, n - 1, q.fed)
  }

  function HashRecord(s: seq<byte>, p: nat, fed: seq<byte>): (r: Hashing)
    requires p <= |s|
    ensures p <= r.cursor <= |s|
  {
    var q := HashQuestion(s, p, fed);
    var t := HashRun(s, q.cursor, 4, q.fed);
    HashRun(s, AfterInt16(s, t.cursor), ReadInt16(s, t.cursor), t.fed)
  }

  function HashRecords(s: seq<byte>, p: nat, n: nat, fed: seq<byte>): (r: Hashing)
    requires p <= |s|
    ensures p <= r.cursor <= |s|
    decreases n
  {
    if n == 0 then Hashing(p, fed)
    else
      var q := HashRecord(s, p, fed);
      HashRecords(s, q.cursor, n - 1, q.fed)
  }

  /**
    The octets fed to the hash for any packet that has its flags, however short it is: a count
    that cannot be read is negative and leads to no walk at all.
   */
  function HashedOctets(s: seq<byte>): (fed: seq<byte>)
    requires |s| >= 3
  {
    var flags := HashRun(s, 3, 1, [s[2] % 2]);
    var count, afterCount := ReadInt16(s, flags.cursor), AfterInt16(s, flags.cursor);
    var skipped := Min(afterCount + 4, |s|);
    var arcount, body := ReadInt16(s, skipped), AfterInt16(s, skipped);
    var q := HashQuestions(s, body, if count < 0 then 0 else count, flags.fed);
    HashRecords(s, q.cursor, if arcount < 0 then 0 else arcount, q.fed).fed
  }

  function HashQuery(s: seq<byte>): (h: nat)
    requires |s| >= 3
  {
    Fnv(HashedOctets(s))
  }

  // ---------------------------------------------------------------------------
  // The comparison walk
  // ---------------------------------------------------------------------------

  /**
    How a comparison step ends: the packets differ, or both cursors are behind equal parts, or
    the step would read outside the packets, where nothing is known of its result.
   */
  datatype Comparison = Differ | OutOfBounds | Match(p: nat, q: nat)

  function EqName(s: seq<byte>, p: nat, t: seq<byte>, q: nat): (r: Comparison)
    ensures !r.OutOfBounds?
    decreases |s| - p
  {
    if p >= |s| || q >= |t| then Differ
    else if s[p] != t[q] then Differ
    else if s[p] == 0 then Match(p + 1, q + 1)
    else if s[p] > MAX_LABEL then Differ
    else
      var c := s[p];
      if p + 1 + c > |s| || q + 1 + c > |t| then Differ
      else if LowerAll(s[p + 1..p + 1 + c]) != LowerAll(t[q + 1..q + 1 + c]) then Differ
      else EqName(s, p + 1 + c, t, q + 1 + c)
  }

  /** A negative count, which passes the bound tests, makes `memcmp` run off the packets. */
  function EqRun(s: seq<byte>, p: nat, t: seq<byte>, q: nat, n: int): (r: Comparison)
  {
    if p + n > |s| || q + n > |t| then Differ
    else if n < 0 then OutOfBounds
    else if s[p..p + n] != t[q..q + n] then Differ
    else Match(p + n, q + n)
  }

  function EqQuestion(s: seq<byte>, p: nat, t: seq<byte>, q: nat): (r: Comparison)
  {
    var n := EqName(s, p, t, q);
    if !n.Match? then n else EqRun(s, n.p, t, n.q, 4)
  }

  function EqQuestions(s: seq<byte>, p: nat, t: seq<byte>, q: nat, n: nat): (r: Comparison)
    decreases n
  {
    if n == 0 then Match(p, q)
    else
      var e := EqQuestion(s, p, t, q);
      if !e.Match? then e else EqQuestions(s, e.p, t, e.q, n - 1)
  }

  function EqRecord(s: seq<byte>, p: nat, t: seq<byte>, q: nat): (r: Comparison)
  {
    var e := EqQuestion(s, p, t, q);
    if !e.Match? then e
    else
      var f := EqRun(s, e.p, t, e.q, 4);
      if !f.Match? then f
      else if ReadInt16(s, f.p) != ReadInt16(t, f.q) then Differ
      else EqRun(s, AfterInt16(s, f.p), t, AfterInt16(t, f.q), ReadInt16(s, f.p))
  }

  function EqRecords(s: seq<byte>, p: nat, t: seq<byte>, q: nat, n: nat): (r: Comparison)
    decreases n
  {
    if n == 0 then Match(p, q)
    else
      var e := EqRecord(s, p, t, q);
      if !e.Match? then e else EqRecords(s, e.p, t, e.q, n - 1)
  }

  function CompareQuery(s: seq<byte>, t: seq<byte>): (r: Comparison)
    requires |s| >= HEADER_SIZE && |t| >= HEADER_SIZE
  {
    if s[2] % 2 != t[2] % 2 || s[3] != t[3] || QdCount(s) != QdCount(t) || ArCount(s) != ArCount(t) then Differ
    else
      var e := EqQuestions(s, HEADER_SIZE, t, HEADER_SIZE, QdCount(s));
      if !e.Match? then e else EqRecords(s, e.p, t, e.q, ArCount(s))
  }

  predicate EqQuery(s: seq<byte>, t: seq<byte>)
    requires |s| >= HEADER_SIZE && |t| >= HEADER_SIZE
  {
    CompareQuery(s, t).Match?
  }

  /** `entry_equals`: packets of different lengths are never the same key. */
  predicate Same(s: seq<byte>, t: seq<byte>)
    requires |s| >= HEADER_SIZE && |t| >= HEADER_SIZE
  {
    |s| == |t| && EqQuery(s, t)
  }
}
