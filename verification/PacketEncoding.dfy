/**
  Query packets from the other side: how a name, a question and a record are written (section 4.1
  of RFC 1035). The packets that pass the check are exactly those written this way.
 */
module PacketEncoding {
  import opened Bytes
  import opened PacketSpec

  // ---------------------------------------------------------------------------
  // Names
  // ---------------------------------------------------------------------------

  predicate Wire(labels: seq<seq<byte>>)
  {
    forall i :: 0 <= i < |labels| ==> 1 <= |labels[i]| <= 63
  }

  function EncodeName(labels: seq<seq<byte>>): (r: seq<byte>)
    requires Wire(labels)
    ensures |r| >= 1
  {
    if labels == [] then [0] else [|labels[0]|] + labels[0] + EncodeName(labels[1..])
  }

  /** `part` is written in `s` from `p` on. */
  predicate Holds(s: seq<byte>, p: nat, part: seq<byte>)
  {
    p + |part| <= |s| && s[p..p + |part|] == part
  }

  lemma HoldsParts(s: seq<byte>, p: nat, a: seq<byte>, b: seq<byte>)
    ensures Holds(s, p, a + b) <==> Holds(s, p, a) && Holds(s, p + |a|, b)
  {
    if Holds(s, p, a + b) {
      assert s[p..p + |a|] == (a + b)[..|a|] && s[p + |a|..p + |a| + |b|] == (a + b)[|a|..];
    }
    if Holds(s, p, a) && Holds(s, p + |a|, b) {
      assert s[p..p + |a| + |b|] == s[p..p + |a|] + s[p + |a|..p + |a| + |b|];
    }
  }

  function LowerEach(labels: seq<seq<byte>>): (r: seq<seq<byte>>)
    ensures |r| == |labels|
  {
    seq(|labels|, i requires 0 <= i < |labels| => LowerAll(labels[i]))
  }

  /** A written name starts with its first label. */
  lemma FirstLabel(s: seq<byte>, p: nat, labels: seq<seq<byte>>)
    requires Wire(labels) && labels != [] && Holds(s, p, EncodeName(labels))
    ensures s[p] == |labels[0]| && p + 1 + s[p] <= |s| && s[p + 1..p + 1 + s[p]] == labels[0]
    ensures Holds(s, p + 1 + s[p], EncodeName(labels[1..]))
  {
    var length: seq<byte> := [|labels[0]|];
    HoldsParts(s, p, length + labels[0], EncodeName(labels[1..]));
    HoldsParts(s, p, length, labels[0]);
    assert s[p] == s[p..p + 1][0];
  }

  lemma LowerFirst(labels: seq<seq<byte>>)
    requires labels != []
    ensures LowerEach(labels) == [LowerAll(labels[0])] + LowerEach(labels[1..])
  {
    hide LowerAll;
  }

  /** What is written for labels reads back as those labels in lower case, up to its last octet. */
  lemma {:induction false} NameReadsBack(s: seq<byte>, p: nat, labels: seq<seq<byte>>)
    requires Wire(labels) && Holds(s, p, EncodeName(labels))
    ensures NameEnd(s, p) == Some(p + |EncodeName(labels)|)
    ensures Labels(s, p) == LowerEach(labels)
    decreases |labels|
  {
    if labels == [] {
      assert s[p] == s[p..p + 1][0] == 0;
    } else {
      hide LowerEach, LowerAll, Holds;
      FirstLabel(s, p, labels);
      NameReadsBack(s, p + 1 + s[p], labels[1..]);
      LowerFirst(labels);
    }
  }

  /** Every well-formed name was written that way. */
  lemma {:induction false} NameWasWritten(s: seq<byte>, p: nat) returns (labels: seq<seq<byte>>)
    requires NameEnd(s, p).Some?
    ensures Wire(labels) && Holds(s, p, EncodeName(labels)) && NameEnd(s, p) == Some(p + |EncodeName(labels)|)
    decreases |s| - p
  {
    if s[p] == 0 {
      labels := [];
      assert s[p..p + 1] == [0];
    } else {
      var first := s[p + 1..p + 1 + s[p]];
      var rest := NameWasWritten(s, p + 1 + s[p]);
      labels := [first] + rest;
      assert labels[1..] == rest;
      assert s[p..p + 1] == [|first|];
      HoldsParts(s, p, [|first|], first);
      HoldsParts(s, p, [|first|] + first, EncodeName(rest));
    }
  }

  // ---------------------------------------------------------------------------
  // Questions
  // ---------------------------------------------------------------------------

  /** A question of class IN. */
  datatype Asked = Asked(labels: seq<seq<byte>>, qtype: nat)

  /** The cache takes A, PTR, MX, AAAA, HTTPS and ANY. */
  predicate Cacheable(q: Asked)
  {
    Wire(q.labels) && q.qtype in {1, 12, 15, 28, 65, 255}
  }

  predicate AllCacheable(qs: seq<Asked>)
  {
    forall i :: 0 <= i < |qs| ==> Cacheable(qs[i])
  }

  function EncodeQuestion(q: Asked): (r: seq<byte>)
    requires Cacheable(q)
  {
    EncodeName(q.labels) + [0, q.qtype, 0, 1]
  }

  function EncodeQuestions(qs: seq<Asked>): (r: seq<byte>)
    requires AllCacheable(qs)
  {
    if qs == [] then [] else EncodeQuestion(qs[0]) + EncodeQuestions(qs[1..])
  }

  lemma QuestionReadsBack(s: seq<byte>, p: nat, q: Asked)
    requires Cacheable(q) && Holds(s, p, EncodeQuestion(q))
    ensures QuestionOk(s, p) && QuestionEnd(s, p) == Some(p + |EncodeQuestion(q)|)
    ensures QuestionAt(s, p) == Question(LowerEach(q.labels), [0, q.qtype, 0, 1])
  {
    hide EncodeName, Labels, LowerEach;
    HoldsParts(s, p, EncodeName(q.labels), [0, q.qtype, 0, 1]);
    NameReadsBack(s, p, q.labels);
    var e := NameEnd(s, p).value;
    assert s[e..e + 4] == [0, q.qtype, 0, 1];
    assert s[e] == s[e..e + 4][0] && s[e + 1] == s[e..e + 4][1];
    assert s[e + 2] == s[e..e + 4][2] && s[e + 3] == s[e..e + 4][3];
  }

  lemma QuestionWasWritten(s: seq<byte>, p: nat) returns (q: Asked)
    requires QuestionOk(s, p)
    ensures Cacheable(q) && Holds(s, p, EncodeQuestion(q)) && QuestionEnd(s, p) == Some(p + |EncodeQuestion(q)|)
  {
    hide EncodeName;
    var labels := NameWasWritten(s, p);
    var e := NameEnd(s, p).value;
    q := Asked(labels, Be16At(s, e));
    assert s[e] == 0 && s[e + 2] == 0;
    assert s[e..e + 4] == [0, q.qtype, 0, 1];
    HoldsParts(s, p, EncodeName(labels), [0, q.qtype, 0, 1]);
  }

  lemma {:induction false} QuestionsReadBack(s: seq<byte>, p: nat, qs: seq<Asked>)
    requires AllCacheable(qs) && Holds(s, p, EncodeQuestions(qs))
    ensures QuestionsOk(s, p, |qs|) && QuestionsEnd(s, p, |qs|) == Some(p + |EncodeQuestions(qs)|)
    decreases |qs|
  {
    hide EncodeQuestion, QuestionOk, QuestionEnd;
    if qs != [] {
      HoldsParts(s, p, EncodeQuestion(qs[0]), EncodeQuestions(qs[1..]));
      QuestionReadsBack(s, p, qs[0]);
      QuestionsReadBack(s, p + |EncodeQuestion(qs[0])|, qs[1..]);
    }
  }

  lemma {:induction false} QuestionsWereWritten(s: seq<byte>, p: nat, n: nat) returns (qs: seq<Asked>)
    requires p <= |s| && QuestionsOk(s, p, n)
    ensures |qs| == n && AllCacheable(qs) && Holds(s, p, EncodeQuestions(qs))
    decreases n
  {
    hide EncodeQuestion;
    if n == 0 {
      qs := [];
      assert s[p..p] == [];
    } else {
      var q := QuestionWasWritten(s, p);
      var rest := QuestionsWereWritten(s, QuestionEnd(s, p).value, n - 1);
      qs := [q] + rest;
      assert qs[1..] == rest;
      HoldsParts(s, p, EncodeQuestion(q), EncodeQuestions(rest));
    }
  }

  // ---------------------------------------------------------------------------
  // Packets
  // ---------------------------------------------------------------------------

  /** The octets of a plain query's header, but for its ID and the number of its questions. */
  predicate PlainHeader(s: seq<byte>)
  {
    && |s| >= 12
    && s[2] <= 3 && s[3] in {0, 16, 32, 48}
    && s[6] == 0 && s[7] == 0 && s[8] == 0 && s[9] == 0 && s[10] == 0 && s[11] <= 1
  }

  /** The header is followed by the questions it announces, at least one, all of them cacheable. */
  ghost predicate Written(s: seq<byte>, qs: seq<Asked>)
    requires |s| >= 12
  {
    AllCacheable(qs) && |qs| == 256 * s[4] as nat + s[5] > 0 && Holds(s, 12, EncodeQuestions(qs))
  }

  /** The check accepts exactly the packets that are written as cacheable questions behind a plain header. */
  lemma CheckedIff(s: seq<byte>)
    ensures Checked(s) <==> PlainHeader(s) && exists qs :: Written(s, qs)
  {
    HeaderIff(s);
    hide HeaderOk, PlainHeader, EncodeQuestions, AllCacheable;
    if Checked(s) {
      var qs := QuestionsWereWritten(s, HEADER_SIZE, QdCount(s));
      assert Written(s, qs);
    }
    if PlainHeader(s) {
      if qs :| Written(s, qs) {
        QuestionsReadBack(s, HEADER_SIZE, qs);
      }
    }
  }

  lemma HeaderIff(s: seq<byte>)
    ensures HeaderOk(s) <==> PlainHeader(s) && 256 * s[4] as nat + s[5] > 0
    ensures HeaderOk(s) || PlainHeader(s) ==> |s| >= 12
  {
  }

  /** The questions of a key, as they were asked. */
  lemma QuestionsAreAsked(s: seq<byte>, qs: seq<Asked>)
    requires Checked(s) && Written(s, qs)
    ensures QuestionsEnd(s, HEADER_SIZE, QdCount(s)) == Some(HEADER_SIZE + |EncodeQuestions(qs)|)
  {
    hide EncodeQuestions, AllCacheable, QuestionsOk, QuestionsEnd;
    QuestionsReadBack(s, HEADER_SIZE, qs);
  }

  // ---------------------------------------------------------------------------
  // The additional record
  // ---------------------------------------------------------------------------

  function EncodeRecord(labels: seq<seq<byte>>, fixed: seq<byte>, data: seq<byte>): (r: seq<byte>)
    requires Wire(labels) && |fixed| == 8 && |data| < 0x1_0000
  {
    EncodeName(labels) + fixed + [|data| / 256, |data| % 256] + data
  }

  /** `s` holds a whole record at `p`. */
  ghost predicate WrittenRecord(s: seq<byte>, p: nat, labels: seq<seq<byte>>, fixed: seq<byte>, data: seq<byte>)
  {
    Wire(labels) && |fixed| == 8 && |data| < 0x1_0000 && Holds(s, p, EncodeRecord(labels, fixed, data))
  }

  /** A whole record follows at `p`. */
  ghost predicate RecordFollows(s: seq<byte>, p: nat)
  {
    exists labels, fixed, data :: WrittenRecord(s, p, labels, fixed, data)
  }

  /** Where the parts of a written record are, if its name ends at `e`. */
  lemma RecordParts(s: seq<byte>, p: nat, labels: seq<seq<byte>>, fixed: seq<byte>, data: seq<byte>, e: nat)
    requires WrittenRecord(s, p, labels, fixed, data) && e == p + |EncodeName(labels)|
    ensures Holds(s, p, EncodeName(labels)) && e + 10 + |data| == p + |EncodeRecord(labels, fixed, data)| <= |s|
    ensures s[e..e + 4] == fixed[..4] && s[e + 4..e + 8] == fixed[4..]
    ensures s[e + 8] == |data| / 256 && s[e + 9] == |data| % 256
    ensures s[e + 10..e + 10 + |data|] == data
  {
    hide EncodeName;
    var len := [|data| / 256, |data| % 256];
    HoldsParts(s, p, EncodeName(labels) + fixed + len, data);
    HoldsParts(s, p, EncodeName(labels) + fixed, len);
    HoldsParts(s, p, EncodeName(labels), fixed);
    assert s[e + 8] == s[e + 8..e + 10][0] && s[e + 9] == s[e + 8..e + 10][1];
    assert s[e..e + 4] == s[e..e + 8][..4] && s[e + 4..e + 8] == s[e..e + 8][4..];
  }

  lemma RecordReadsBack(s: seq<byte>, p: nat, labels: seq<seq<byte>>, fixed: seq<byte>, data: seq<byte>)
    requires WrittenRecord(s, p, labels, fixed, data)
    ensures RecordEnd(s, p) == Some(p + |EncodeRecord(labels, fixed, data)|)
    ensures RecordAt(s, p) == Record(Question(LowerEach(labels), fixed[..4]), fixed[4..], data)
  {
    hide EncodeName, EncodeRecord, Labels, LowerEach, Holds;
    var e := p + |EncodeName(labels)|;
    RecordParts(s, p, labels, fixed, data, e);
    NameReadsBack(s, p, labels);
    assert Be16At(s, e + 8) == |data|;
  }

  lemma LengthOctets(s: seq<byte>, p: nat, n: nat)
    requires p + 2 <= |s| && n == Be16At(s, p)
    ensures n < 0x1_0000 && Holds(s, p, [n / 256, n % 256])
  {
    assert n == 256 * s[p] as nat + s[p + 1];
  }

  lemma RecordOfParts(s: seq<byte>, p: nat, name: seq<byte>, fixed: seq<byte>, len: seq<byte>, data: seq<byte>)
    requires Holds(s, p, name) && Holds(s, p + |name|, fixed) && Holds(s, p + |name| + |fixed|, len)
    requires Holds(s, p + |name| + |fixed| + |len|, data)
    ensures Holds(s, p, name + fixed + len + data)
  {
    hide Holds;
    HoldsParts(s, p, name, fixed);
    HoldsParts(s, p, name + fixed, len);
    HoldsParts(s, p, name + fixed + len, data);
  }

  lemma RecordWasWritten(s: seq<byte>, p: nat)
    returns (labels: seq<seq<byte>>, fixed: seq<byte>, data: seq<byte>)
    requires RecordEnd(s, p).Some?
    ensures WrittenRecord(s, p, labels, fixed, data)
  {
    hide EncodeName, NameEnd;
    labels := NameWasWritten(s, p);
    var e, r := NameEnd(s, p).value, RecordEnd(s, p).value;
    fixed, data := s[e..e + 8], s[e + 10..r];
    LengthOctets(s, e + 8, |data|);
    RecordOfParts(s, p, EncodeName(labels), fixed, [|data| / 256, |data| % 256], data);
  }

  lemma FollowsIff(s: seq<byte>, p: nat)
    ensures RecordFollows(s, p) <==> RecordEnd(s, p).Some?
  {
    hide WrittenRecord, RecordEnd;
    if RecordEnd(s, p).Some? {
      var labels, fixed, data := RecordWasWritten(s, p);
      assert RecordFollows(s, p);
    }
    if labels, fixed, data :| WrittenRecord(s, p, labels, fixed, data) {
      RecordReadsBack(s, p, labels, fixed, data);
    }
  }

  /** A checked packet is a key exactly when a whole record follows its questions, if it announces one. */
  lemma KeyIff(s: seq<byte>, qs: seq<Asked>)
    requires Checked(s) && Written(s, qs)
    ensures Complete(s) <==> s[11] == 0 || RecordFollows(s, 12 + |EncodeQuestions(qs)|)
  {
    var p := 12 + |EncodeQuestions(qs)|;
    QuestionsAreAsked(s, qs);
    HeaderIff(s);
    assert ArCount(s) == s[11] as nat;
    hide EncodeQuestions, RecordFollows, RecordEnd, Checked, Written, HeaderOk, PlainHeader, QuestionsEnd;
    FollowsIff(s, p);
  }
}
