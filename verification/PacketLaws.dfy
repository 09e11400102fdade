/**
  The three walks over a query agree: on packets that pass the check and whose additional
  record is complete, comparison decides equality of meaning and the hash is a function of
  that meaning.
 */
module PacketLaws {
  import opened Bytes
  import opened PacketSpec

  lemma LabelsSplit(s: seq<byte>, p: nat)
    requires NameEnd(s, p).Some? && s[p] != 0
    ensures |Labels(s, p)| > 0
    ensures Labels(s, p)[0] == Label(s, p)
    ensures Labels(s, p)[1..] == Labels(s, p + 1 + s[p])
  {
  }

  lemma QuestionsSplit(s: seq<byte>, p: nat, n: nat)
    requires n > 0 && QuestionsEnd(s, p, n).Some?
    ensures QuestionsAt(s, p, n)[0] == QuestionAt(s, p)
    ensures QuestionsAt(s, p, n)[1..] == QuestionsAt(s, QuestionEnd(s, p).value, n - 1)
  {
  }

  lemma RecordsSplit(s: seq<byte>, p: nat, n: nat)
    requires n > 0 && RecordsEnd(s, p, n).Some?
    ensures RecordsAt(s, p, n)[0] == RecordAt(s, p)
    ensures RecordsAt(s, p, n)[1..] == RecordsAt(s, RecordEnd(s, p).value, n - 1)
  {
  }

  // ---------------------------------------------------------------------------
  // The hash depends on the meaning only
  // ---------------------------------------------------------------------------

  function FedLabels(fed: seq<byte>, labels: seq<seq<byte>>): (r: seq<byte>)
    decreases |labels|
  {
    if labels == [] then fed else FedLabels(fed + labels[0], labels[1..])
  }

  function FedQuestion(fed: seq<byte>, q: Question): (r: seq<byte>)
  {
    FedLabels(fed, q.labels) + q.fixed
  }

  function FedQuestions(fed: seq<byte>, qs: seq<Question>): (r: seq<byte>)
    decreases |qs|
  {
    if qs == [] then fed else FedQuestions(FedQuestion(fed, qs[0]), qs[1..])
  }

  function FedRecord(fed: seq<byte>, r: Record): (v: seq<byte>)
  {
    FedQuestion(fed, r.question) + r.ttl + r.rdata
  }

  function FedRecords(fed: seq<byte>, rs: seq<Record>): (r: seq<byte>)
    decreases |rs|
  {
    if rs == [] then fed else FedRecords(FedRecord(fed, rs[0]), rs[1..])
  }

  /** The octets to hash, as a function of the meaning: no offsets, no packet. */
  function FedByKey(k: QueryKey): (r: seq<byte>)
  {
    FedRecords(FedQuestions([k.rd, k.flags], k.questions), k.additional)
  }

  lemma {:induction false} HashNameAgrees(s: seq<byte>, p: nat, fed: seq<byte>)
    requires NameEnd(s, p).Some?
    ensures HashName(s, p, fed) == Hashing(NameEnd(s, p).value, FedLabels(fed, Labels(s, p)))
    decreases |s| - p
  {
    if s[p] != 0 {
      HashNameAgrees(s, p + 1 + s[p], fed + Label(s, p));
      assert Labels(s, p)[1..] == Labels(s, p + 1 + s[p]);
    }
  }

  lemma HashQuestionAgrees(s: seq<byte>, p: nat, fed: seq<byte>)
    requires QuestionEnd(s, p).Some?
    ensures HashQuestion(s, p, fed) == Hashing(QuestionEnd(s, p).value, FedQuestion(fed, QuestionAt(s, p)))
  {
    HashNameAgrees(s, p, fed);
  }

  lemma {:induction false} HashQuestionsAgree(s: seq<byte>, p: nat, n: nat, fed: seq<byte>)
    requires p <= |s| && QuestionsEnd(s, p, n).Some?
    ensures HashQuestions(s, p, n, fed)
         == Hashing(QuestionsEnd(s, p, n).value, FedQuestions(fed, QuestionsAt(s, p, n)))
    decreases n
  {
    hide HashQuestion, FedQuestion, QuestionAt, QuestionEnd;
    if n > 0 {
      HashQuestionAgrees(s, p, fed);
      QuestionsSplit(s, p, n);
      HashQuestionsAgree(s, QuestionEnd(s, p).value, n - 1, FedQuestion(fed, QuestionAt(s, p)));
    }
  }

  lemma HashRecordAgrees(s: seq<byte>, p: nat, fed: seq<byte>)
    requires p <= |s| && RecordEnd(s, p).Some?
    ensures HashRecord(s, p, fed) == Hashing(RecordEnd(s, p).value, FedRecord(fed, RecordAt(s, p)))
  {
    HashQuestionAgrees(s, p, fed);
  }

  lemma {:induction false} HashRecordsAgree(s: seq<byte>, p: nat, n: nat, fed: seq<byte>)
    requires p <= |s| && RecordsEnd(s, p, n).Some?
    ensures HashRecords(s, p, n, fed)
         == Hashing(RecordsEnd(s, p, n).value, FedRecords(fed, RecordsAt(s, p, n)))
    decreases n
  {
    hide HashRecord, FedRecord, RecordAt, RecordEnd;
    if n > 0 {
      HashRecordAgrees(s, p, fed);
      RecordsSplit(s, p, n);
      HashRecordsAgree(s, RecordEnd(s, p).value, n - 1, FedRecord(fed, RecordAt(s, p)));
    }
  }

  /** With a whole header, the walk starts at the first question and believes the counts. */
  lemma HashedWithHeader(s: seq<byte>)
    requires |s| >= HEADER_SIZE
    ensures var q := HashQuestions(s, HEADER_SIZE, QdCount(s), [s[2] % 2, s[3]]);
      HashedOctets(s) == HashRecords(s, q.cursor, ArCount(s), q.fed).fed
  {
    hide HashQuestions, HashRecords;
    assert [s[2] % 2] + s[3..4] == [s[2] % 2, s[3]];
  }

  lemma HashIsOfKey(s: seq<byte>)
    requires IsKey(s)
    ensures HashQuery(s) == Fnv(FedByKey(KeyOf(s)))
  {
    HashedWithHeader(s);
    CheckedQuestionsEnd(s, HEADER_SIZE, QdCount(s));
    HashQuestionsAgree(s, HEADER_SIZE, QdCount(s), [s[2] % 2, s[3]]);
    var q := HashQuestions(s, HEADER_SIZE, QdCount(s), [s[2] % 2, s[3]]);
    HashRecordsAgree(s, q.cursor, ArCount(s), q.fed);
  }

  // ---------------------------------------------------------------------------
  // Comparison decides the meaning
  // ---------------------------------------------------------------------------

  lemma SplitEqual<T>(a: seq<T>, b: seq<T>)
    requires |a| > 0 && |b| > 0
    ensures a == b <==> a[0] == b[0] && a[1..] == b[1..]
  {
  }

  lemma {:induction false} EqNameIff(s: seq<byte>, p: nat, t: seq<byte>, q: nat)
    requires NameEnd(s, p).Some? && NameEnd(t, q).Some?
    ensures EqName(s, p, t, q)
         == if Labels(s, p) == Labels(t, q) then Match(NameEnd(s, p).value, NameEnd(t, q).value) else Differ
    decreases |s| - p
  {
    if s[p] != 0 && t[q] != 0 {
      LabelsSplit(s, p);
      LabelsSplit(t, q);
      SplitEqual(Labels(s, p), Labels(t, q));
      assert |Label(s, p)| == s[p] && |Label(t, q)| == t[q];
      if s[p] == t[q] {
        EqNameIff(s, p + 1 + s[p], t, q + 1 + t[q]);
      }
    }
  }

  lemma EqQuestionIff(s: seq<byte>, p: nat, t: seq<byte>, q: nat)
    requires QuestionEnd(s, p).Some? && QuestionEnd(t, q).Some?
    ensures EqQuestion(s, p, t, q)
         == if QuestionAt(s, p) == QuestionAt(t, q)
            then Match(QuestionEnd(s, p).value, QuestionEnd(t, q).value) else Differ
  {
    EqNameIff(s, p, t, q);
  }

  lemma {:induction false} EqQuestionsIff(s: seq<byte>, p: nat, t: seq<byte>, q: nat, n: nat)
    requires QuestionsEnd(s, p, n).Some? && QuestionsEnd(t, q, n).Some?
    ensures EqQuestions(s, p, t, q, n)
         == if QuestionsAt(s, p, n) == QuestionsAt(t, q, n)
            then Match(QuestionsEnd(s, p, n).value, QuestionsEnd(t, q, n).value) else Differ
    decreases n
  {
    if n > 0 {
      var e, f := QuestionEnd(s, p).value, QuestionEnd(t, q).value;
      EqQuestionIff(s, p, t, q);
      EqQuestionsIff(s, e, t, f, n - 1);
      QuestionsSplit(s, p, n);
      QuestionsSplit(t, q, n);
      SplitEqual(QuestionsAt(s, p, n), QuestionsAt(t, q, n));
    }
  }

  lemma EqRecordIff(s: seq<byte>, p: nat, t: seq<byte>, q: nat)
    requires RecordEnd(s, p).Some? && RecordEnd(t, q).Some?
    ensures EqRecord(s, p, t, q)
         == if RecordAt(s, p) == RecordAt(t, q)
            then Match(RecordEnd(s, p).value, RecordEnd(t, q).value) else Differ
  {
    hide EqQuestion, QuestionAt, QuestionEnd;
    EqQuestionIff(s, p, t, q);
    var e, f := QuestionEnd(s, p).value, QuestionEnd(t, q).value;
    var x, y := RecordAt(s, p), RecordAt(t, q);
    if x.question == y.question && x.ttl == y.ttl {
      assert EqRun(s, e, t, f, 4) == Match(e + 4, f + 4);
      assert |x.rdata| == Be16At(s, e + 4) && |y.rdata| == Be16At(t, f + 4);
    }
  }

  lemma {:induction false} EqRecordsIff(s: seq<byte>, p: nat, t: seq<byte>, q: nat, n: nat)
    requires RecordsEnd(s, p, n).Some? && RecordsEnd(t, q, n).Some?
    ensures EqRecords(s, p, t, q, n)
         == if RecordsAt(s, p, n) == RecordsAt(t, q, n)
            then Match(RecordsEnd(s, p, n).value, RecordsEnd(t, q, n).value) else Differ
    decreases n
  {
    if n > 0 {
      var e, f := RecordEnd(s, p).value, RecordEnd(t, q).value;
      EqRecordIff(s, p, t, q);
      EqRecordsIff(s, e, t, f, n - 1);
      RecordsSplit(s, p, n);
      RecordsSplit(t, q, n);
      SplitEqual(RecordsAt(s, p, n), RecordsAt(t, q, n));
    }
  }

  /** The comparison walk answers exactly "same meaning", and stays inside the packets. */
  lemma EqQueryIff(s: seq<byte>, t: seq<byte>)
    requires IsKey(s) && IsKey(t)
    ensures EqQuery(s, t) <==> KeyOf(s) == KeyOf(t)
    ensures CompareQuery(s, t) != OutOfBounds
  {
    CheckedQuestionsEnd(s, HEADER_SIZE, QdCount(s));
    CheckedQuestionsEnd(t, HEADER_SIZE, QdCount(t));
    if QdCount(s) == QdCount(t) && ArCount(s) == ArCount(t) {
      EqQuestionsIff(s, HEADER_SIZE, t, HEADER_SIZE, QdCount(s));
      EqRecordsIff(s, QuestionsEnd(s, HEADER_SIZE, QdCount(s)).value,
                   t, QuestionsEnd(t, HEADER_SIZE, QdCount(t)).value, ArCount(s));
    } else {
      assert |KeyOf(s).questions| == QdCount(s) && |KeyOf(t).questions| == QdCount(t);
      assert |KeyOf(s).additional| == ArCount(s) && |KeyOf(t).additional| == ArCount(t);
    }
  }

  /** Key equality is an equivalence, and equal keys always hash alike. */
  lemma SameIsCongruence(s: seq<byte>, t: seq<byte>, u: seq<byte>)
    requires IsKey(s) && IsKey(t) && IsKey(u)
    ensures Same(s, s)
    ensures Same(s, t) <==> Same(t, s)
    ensures Same(s, t) && Same(t, u) ==> Same(s, u)
    ensures Same(s, t) ==> HashQuery(s) == HashQuery(t)
  {
    EqQueryIff(s, s);
    EqQueryIff(s, t);
    EqQueryIff(t, s);
    EqQueryIff(t, u);
    EqQueryIff(s, u);
    HashIsOfKey(s);
    HashIsOfKey(t);
  }


  // ---------------------------------------------------------------------------
  // Why completeness is needed
  // ---------------------------------------------------------------------------

  lemma {:induction false} SelfEqName(s: seq<byte>, p: nat)
    ensures EqName(s, p, s, p)
         == if NameEnd(s, p).Some? then Match(NameEnd(s, p).value, NameEnd(s, p).value) else Differ
    decreases |s| - p
  {
    if p < |s| && 0 < s[p] <= MAX_LABEL {
      SelfEqName(s, p + 1 + s[p]);
    }
  }

  /** What comparing a record with itself comes to, however much of it there is. */
  lemma SelfEqRecord(s: seq<byte>, p: nat)
    ensures EqRecord(s, p, s, p).Match? <==> RecordEnd(s, p).Some?
    ensures EqRecord(s, p, s, p) == OutOfBounds <==> EndsInRdLength(s, p)
  {
    SelfEqName(s, p);
  }

  /** The packet ends inside the RDLENGTH field of the record at `p`. */
  predicate EndsInRdLength(s: seq<byte>, p: nat)
  {
    var q := QuestionEnd(s, p);
    q.Some? && q.value + 4 <= |s| < q.value + 6
  }

  /** The packet announces an additional record and ends inside that record's RDLENGTH field. */
  predicate CutInRdLength(s: seq<byte>)
    requires Checked(s)
  {
    CheckedQuestionsEnd(s, HEADER_SIZE, QdCount(s));
    ArCount(s) == 1 && EndsInRdLength(s, QuestionsEnd(s, HEADER_SIZE, QdCount(s)).value)
  }

  /**
    A checked query compared with itself: equal exactly when its additional record, if announced,
    is complete; outside the packet exactly when the packet ends inside that record's RDLENGTH;
    different in every other case.
   */
  lemma SelfComparison(s: seq<byte>)
    requires Checked(s)
    ensures EqQuery(s, s) <==> Complete(s)
    ensures CompareQuery(s, s) == OutOfBounds <==> CutInRdLength(s)
  {
    CheckedQuestionsEnd(s, HEADER_SIZE, QdCount(s));
    EqQuestionsIff(s, HEADER_SIZE, s, HEADER_SIZE, QdCount(s));
    var e := QuestionsEnd(s, HEADER_SIZE, QdCount(s)).value;
    if ArCount(s) == 1 {
      SelfEqRecord(s, e);
      hide EqRecord, RecordEnd, EndsInRdLength;
      assert EqRecords(s, e, s, e, 1) == EqRecord(s, e, s, e);
      assert RecordsEnd(s, e, 1).Some? == RecordEnd(s, e).Some?;
    }
  }

  lemma {:induction false} MatchedName(s: seq<byte>, p: nat, t: seq<byte>, q: nat)
    ensures var r := EqName(s, p, t, q); r.Match? ==> NameEnd(s, p) == Some(r.p) && NameEnd(t, q) == Some(r.q)
    decreases |s| - p
  {
    if p < |s| && q < |t| && s[p] == t[q] && 0 < s[p] <= MAX_LABEL {
      MatchedName(s, p + 1 + s[p], t, q + 1 + s[p]);
    }
  }

  lemma MatchedQuestion(s: seq<byte>, p: nat, t: seq<byte>, q: nat)
    ensures var r := EqQuestion(s, p, t, q);
      r.Match? ==> QuestionEnd(s, p) == Some(r.p) && QuestionEnd(t, q) == Some(r.q)
  {
    MatchedName(s, p, t, q);
  }

  lemma MatchedRecord(s: seq<byte>, p: nat, t: seq<byte>, q: nat)
    ensures EqRecord(s, p, t, q).Match? ==> RecordEnd(s, p).Some? && RecordEnd(t, q).Some?
  {
    hide QuestionEnd, EqQuestion;
    MatchedQuestion(s, p, t, q);
  }

  /** Only complete packets are ever found equal: a checked query with an incomplete record matches no packet at all. */
  lemma EqualImpliesComplete(s: seq<byte>, t: seq<byte>)
    requires Checked(s) && Checked(t)
    ensures EqQuery(s, t) ==> Complete(s) && Complete(t)
  {
    CheckedQuestionsEnd(s, HEADER_SIZE, QdCount(s));
    CheckedQuestionsEnd(t, HEADER_SIZE, QdCount(t));
    if EqQuery(s, t) && ArCount(s) == 1 {
      EqQuestionsIff(s, HEADER_SIZE, t, HEADER_SIZE, QdCount(s));
      var e, f := QuestionsEnd(s, HEADER_SIZE, QdCount(s)).value, QuestionsEnd(t, HEADER_SIZE, QdCount(t)).value;
      MatchedRecord(s, e, t, f);
      hide EqRecord, RecordEnd;
      assert EqRecords(s, e, t, f, 1) == EqRecord(s, e, t, f);
      assert RecordsEnd(s, e, 1).Some? == RecordEnd(s, e).Some? && RecordsEnd(t, f, 1).Some? == RecordEnd(t, f).Some?;
    }
  }

  lemma OutOfRecord(s: seq<byte>, p: nat, t: seq<byte>, q: nat)
    ensures EqRecord(s, p, t, q) == OutOfBounds ==> EndsInRdLength(s, p) && EndsInRdLength(t, q)
  {
    hide QuestionEnd, EqQuestion;
    MatchedQuestion(s, p, t, q);
    QuestionInBounds(s, p, t, q);
  }

  lemma QuestionInBounds(s: seq<byte>, p: nat, t: seq<byte>, q: nat)
    ensures EqQuestion(s, p, t, q) != OutOfBounds
  {
  }

  /** The comparison leaves the packets only if both end inside the RDLENGTH field of their record. */
  lemma OutOfBoundsOnlyIfCut(s: seq<byte>, t: seq<byte>)
    requires Checked(s) && Checked(t)
    ensures CompareQuery(s, t) == OutOfBounds ==> CutInRdLength(s) && CutInRdLength(t)
  {
    hide EndsInRdLength;
    CheckedQuestionsEnd(s, HEADER_SIZE, QdCount(s));
    CheckedQuestionsEnd(t, HEADER_SIZE, QdCount(t));
    if CompareQuery(s, t) == OutOfBounds {
      EqQuestionsIff(s, HEADER_SIZE, t, HEADER_SIZE, QdCount(s));
      var e, f := QuestionsEnd(s, HEADER_SIZE, QdCount(s)).value, QuestionsEnd(t, HEADER_SIZE, QdCount(t)).value;
      OutOfRecord(s, e, t, f);
      hide EqRecord;
      assert ArCount(s) == 1 ==> EqRecords(s, e, t, f, 1).OutOfBounds? == EqRecord(s, e, t, f).OutOfBounds?;
    }
  }

  /** A query for the addresses of the root that announces an additional record it does not have. */
  const CUT_QUERY: seq<byte> := [0, 0, 1, 0, 0, 1, 0, 0, 0, 0, 0, 1, 0, 0, 1, 0, 1]

  /** A checked packet that differs from itself. */
  lemma IncompleteExample()
    ensures Checked(CUT_QUERY) && CompareQuery(CUT_QUERY, CUT_QUERY) == Differ
  {
    hide CompareQuery, Checked, Complete, CutInRdLength, HeaderOk;
    CutQueryHeader(CUT_QUERY);
    OneRootQuestion(CUT_QUERY);
    SelfComparison(CUT_QUERY);
  }

  /** The same query with a record up to its TTL. */
  const LONGER_QUERY: seq<byte> := CUT_QUERY + [0, 0, 41, 0, 0, 0, 0, 0, 0]

  /** A checked packet whose comparison with itself leaves the packet. */
  lemma OutOfBoundsExample()
    ensures Checked(LONGER_QUERY) && CompareQuery(LONGER_QUERY, LONGER_QUERY) == OutOfBounds
  {
    hide CompareQuery, Checked, Complete, CutInRdLength, HeaderOk;
    LongerQueryHeader(LONGER_QUERY);
    OneRootQuestion(LONGER_QUERY);
    SelfComparison(LONGER_QUERY);
  }

  lemma CutQueryHeader(s: seq<byte>)
    requires s == CUT_QUERY
    ensures |s| == 17 && HeaderOk(s) && QdCount(s) == ArCount(s) == 1
    ensures s[12] == 0 && Be16At(s, 13) == 1 && Be16At(s, 15) == 1
  {
  }

  lemma LongerQueryHeader(s: seq<byte>)
    requires s == LONGER_QUERY
    ensures |s| == 26 && HeaderOk(s) && QdCount(s) == ArCount(s) == 1
    ensures s[12] == 0 && Be16At(s, 13) == 1 && Be16At(s, 15) == 1 && s[17] == 0
  {
    CutQueryHeader(CUT_QUERY);
    assert s[..17] == CUT_QUERY;
    assert forall i :: 0 <= i < 17 ==> s[i] == CUT_QUERY[i];
  }

  /** One question for the root, and no more than the front part of the announced record. */
  lemma OneRootQuestion(s: seq<byte>)
    requires (|s| == 17 || (|s| == 26 && s[17] == 0)) && HeaderOk(s) && QdCount(s) == ArCount(s) == 1
    requires s[12] == 0 && Be16At(s, 13) == 1 && Be16At(s, 15) == 1
    ensures Checked(s) && !Complete(s) && (CutInRdLength(s) <==> |s| == 26)
  {
    assert QuestionEnd(s, 12) == Some(17);
    assert QuestionsOk(s, 17, 0) && QuestionsEnd(s, 17, 0) == Some(17);
    assert QuestionsOk(s, 12, 1) && QuestionsEnd(s, 12, 1) == Some(17);
    if |s| == 26 {
      assert NameEnd(s, 17) == Some(18) && QuestionEnd(s, 17) == Some(22);
    }
    assert RecordsEnd(s, 17, 1).None?;
  }

  // ---------------------------------------------------------------------------
  // What equality ignores
  // ---------------------------------------------------------------------------

  /** Offset `i` holds a label octet of the name at `p`: not a length, not the terminator. */
  predicate InName(s: seq<byte>, p: nat, i: nat)
    requires NameEnd(s, p).Some?
    decreases |s| - p
  {
    s[p] != 0 && (p < i <= p + s[p] || InName(s, p + 1 + s[p], i))
  }

  predicate InQuestions(s: seq<byte>, p: nat, n: nat, i: nat)
    requires QuestionsEnd(s, p, n).Some?
    decreases n
  {
    n > 0 && (InName(s, p, i) || InQuestions(s, QuestionEnd(s, p).value, n - 1, i))
  }

  predicate InRecords(s: seq<byte>, p: nat, n: nat, i: nat)
    requires RecordsEnd(s, p, n).Some?
    decreases n
  {
    n > 0 && (InName(s, p, i) || InRecords(s, RecordEnd(s, p).value, n - 1, i))
  }

  /** Offset `i` holds a label octet of some name of the packet. */
  predicate InLabel(s: seq<byte>, i: nat)
    requires IsKey(s)
  {
    CheckedQuestionsEnd(s, HEADER_SIZE, QdCount(s));
    var e := QuestionsEnd(s, HEADER_SIZE, QdCount(s)).value;
    InQuestions(s, HEADER_SIZE, QdCount(s), i) || InRecords(s, e, ArCount(s), i)
  }

  /** The end of the questions and the additional record. */
  function KeyEnd(s: seq<byte>): (e: nat)
    requires IsKey(s)
    ensures HEADER_SIZE <= e <= |s|
  {
    CheckedQuestionsEnd(s, HEADER_SIZE, QdCount(s));
    RecordsEnd(s, QuestionsEnd(s, HEADER_SIZE, QdCount(s)).value, ArCount(s)).value
  }

  /**
    `t` is `s` with another ID, another TC bit, other letter case inside labels, and anything at
    all behind the last record.
   */
  ghost predicate Disguise(s: seq<byte>, t: seq<byte>)
    requires IsKey(s)
  {
    && |t| == |s|
    && t[2] < 4 && t[2] % 2 == s[2] % 2
    && forall i :: 3 <= i < KeyEnd(s) ==> t[i] == s[i] || (InLabel(s, i) && CaseVariant(t[i], s[i]))
  }

  /** Label octets lie strictly inside their name. */
  lemma {:induction false} InNameInside(s: seq<byte>, p: nat, i: nat)
    requires NameEnd(s, p).Some? && InName(s, p, i)
    ensures p < i < NameEnd(s, p).value - 1
    decreases |s| - p
  {
    if !(p < i <= p + s[p]) {
      InNameInside(s, p + 1 + s[p], i);
    }
    if p < i <= p + s[p] {
      assert NameEnd(s, p + 1 + s[p]).value > p + 1 + s[p];
    }
  }

  lemma InNameInQuestion(s: seq<byte>, p: nat, i: nat)
    requires QuestionEnd(s, p).Some? && InName(s, p, i)
    ensures p < i < QuestionEnd(s, p).value
  {
    InNameInside(s, p, i);
  }

  lemma InNameInRecord(s: seq<byte>, p: nat, i: nat)
    requires RecordEnd(s, p).Some? && InName(s, p, i)
    ensures p < i < RecordEnd(s, p).value
  {
    InNameInside(s, p, i);
  }

  lemma {:induction false} InQuestionsInside(s: seq<byte>, p: nat, n: nat, i: nat)
    requires p <= |s| && QuestionsEnd(s, p, n).Some? && InQuestions(s, p, n, i)
    ensures p < i < QuestionsEnd(s, p, n).value
    decreases n
  {
    if InName(s, p, i) {
      InNameInQuestion(s, p, i);
    } else {
      InQuestionsInside(s, QuestionEnd(s, p).value, n - 1, i);
    }
  }

  lemma {:induction false} InRecordsInside(s: seq<byte>, p: nat, n: nat, i: nat)
    requires p <= |s| && RecordsEnd(s, p, n).Some? && InRecords(s, p, n, i)
    ensures p < i < RecordsEnd(s, p, n).value
    decreases n
  {
    if InName(s, p, i) {
      InNameInRecord(s, p, i);
    } else {
      InRecordsInside(s, RecordEnd(s, p).value, n - 1, i);
    }
  }

  lemma {:induction false} NameFolds(s: seq<byte>, t: seq<byte>, p: nat)
    requires NameEnd(s, p).Some? && |t| == |s|
    requires forall i :: p <= i < NameEnd(s, p).value ==>
               t[i] == s[i] || (InName(s, p, i) && CaseVariant(t[i], s[i]))
    ensures NameEnd(t, p) == NameEnd(s, p)
    ensures Labels(t, p) == Labels(s, p)
    decreases |s| - p
  {
    if InName(s, p, p) { InNameInside(s, p, p); }
    assert t[p] == s[p];
    if s[p] != 0 {
      NameFolds(s, t, p + 1 + s[p]);
      assert Label(t, p) == Label(s, p);
    }
  }

  lemma QuestionFolds(s: seq<byte>, t: seq<byte>, p: nat)
    requires QuestionEnd(s, p).Some? && |t| == |s|
    requires forall i :: p <= i < QuestionEnd(s, p).value ==>
               t[i] == s[i] || (InName(s, p, i) && CaseVariant(t[i], s[i]))
    ensures QuestionEnd(t, p) == QuestionEnd(s, p)
    ensures QuestionAt(t, p) == QuestionAt(s, p)
    ensures QuestionOk(s, p) ==> QuestionOk(t, p)
  {
    NameFolds(s, t, p);
    var e := NameEnd(s, p).value;
    forall i | e <= i < e + 4
      ensures t[i] == s[i]
    {
      if InName(s, p, i) { InNameInside(s, p, i); }
    }
  }

  lemma {:induction false} QuestionsFold(s: seq<byte>, t: seq<byte>, p: nat, n: nat)
    requires p <= |s| && QuestionsEnd(s, p, n).Some? && |t| == |s|
    requires forall i :: p <= i < QuestionsEnd(s, p, n).value ==>
               t[i] == s[i] || (InQuestions(s, p, n, i) && CaseVariant(t[i], s[i]))
    ensures QuestionsEnd(t, p, n) == QuestionsEnd(s, p, n)
    ensures QuestionsAt(t, p, n) == QuestionsAt(s, p, n)
    ensures QuestionsOk(s, p, n) ==> QuestionsOk(t, p, n)
    decreases n
  {
    if n > 0 {
      assert NameEnd(s, p).Some?;
      hide QuestionOk, QuestionAt, QuestionEnd, InName, CaseVariant;
      var e := QuestionEnd(s, p).value;
      forall i | p <= i < e && t[i] != s[i]
        ensures InName(s, p, i)
      {
        if InQuestions(s, e, n - 1, i) { InQuestionsInside(s, e, n - 1, i); }
      }
      QuestionFolds(s, t, p);
      forall i | e <= i < QuestionsEnd(s, p, n).value && t[i] != s[i]
        ensures InQuestions(s, e, n - 1, i)
      {
        if InName(s, p, i) { InNameInQuestion(s, p, i); }
      }
      QuestionsFold(s, t, e, n - 1);
    }
  }

  /** A record is its question part and the octets that follow it. */
  lemma RecordTail(s: seq<byte>, t: seq<byte>, p: nat)
    requires RecordEnd(s, p).Some? && |t| == |s|
    requires QuestionEnd(t, p) == QuestionEnd(s, p) && QuestionAt(t, p) == QuestionAt(s, p)
    requires forall i :: QuestionEnd(s, p).value <= i < RecordEnd(s, p).value ==> t[i] == s[i]
    ensures RecordEnd(t, p) == RecordEnd(s, p)
    ensures RecordAt(t, p) == RecordAt(s, p)
  {
    hide QuestionEnd, QuestionAt;
    var e, r := QuestionEnd(s, p).value, RecordEnd(s, p).value;
    assert Be16At(t, e + 4) == Be16At(s, e + 4);
    assert s[e..e + 4] == t[e..e + 4];
    assert s[e + 6..r] == t[e + 6..r];
  }

  lemma RecordFolds(s: seq<byte>, t: seq<byte>, p: nat)
    requires RecordEnd(s, p).Some? && |t| == |s|
    requires forall i :: p <= i < RecordEnd(s, p).value ==>
               t[i] == s[i] || (InName(s, p, i) && CaseVariant(t[i], s[i]))
    ensures RecordEnd(t, p) == RecordEnd(s, p)
    ensures RecordAt(t, p) == RecordAt(s, p)
  {
    QuestionFolds(s, t, p);
    var e, r := QuestionEnd(s, p).value, RecordEnd(s, p).value;
    hide QuestionEnd, QuestionAt, QuestionOk, InName, CaseVariant;
    forall i | e <= i < r
      ensures t[i] == s[i]
    {
      if InName(s, p, i) { InNameInQuestion(s, p, i); }
    }
    RecordTail(s, t, p);
  }

  lemma RecordHasName(s: seq<byte>, p: nat)
    requires RecordEnd(s, p).Some?
    ensures NameEnd(s, p).Some?
  {
  }

  lemma {:induction false} RecordsFold(s: seq<byte>, t: seq<byte>, p: nat, n: nat)
    requires p <= |s| && RecordsEnd(s, p, n).Some? && |t| == |s|
    requires forall i :: p <= i < RecordsEnd(s, p, n).value ==>
               t[i] == s[i] || (InRecords(s, p, n, i) && CaseVariant(t[i], s[i]))
    ensures RecordsEnd(t, p, n) == RecordsEnd(s, p, n)
    ensures RecordsAt(t, p, n) == RecordsAt(s, p, n)
    decreases n
  {
    hide RecordAt, RecordEnd, InName, CaseVariant, NameEnd;
    if n > 0 {
      RecordHasName(s, p);
      var e := RecordEnd(s, p).value;
      forall i | p <= i < e && t[i] != s[i]
        ensures InName(s, p, i)
      {
        if InRecords(s, e, n - 1, i) { InRecordsInside(s, e, n - 1, i); }
      }
      RecordFolds(s, t, p);
      forall i | e <= i < RecordsEnd(s, p, n).value && t[i] != s[i]
        ensures InRecords(s, e, n - 1, i)
      {
        if InName(s, p, i) { InNameInRecord(s, p, i); }
      }
      RecordsFold(s, t, e, n - 1);
    }
  }

  /** A disguise touches the questions only in their names, and likewise the additional record. */
  lemma DisguiseSplits(s: seq<byte>, t: seq<byte>)
    requires IsKey(s) && Disguise(s, t)
    ensures var n := QdCount(s); QuestionsEnd(s, HEADER_SIZE, n).Some?
    ensures var n := QdCount(s); var e := QuestionsEnd(s, HEADER_SIZE, n).value;
         && RecordsEnd(s, e, ArCount(s)).Some?
         && (forall i :: 3 <= i < HEADER_SIZE ==> t[i] == s[i])
         && (forall i :: HEADER_SIZE <= i < e ==>
               t[i] == s[i] || (InQuestions(s, HEADER_SIZE, n, i) && CaseVariant(t[i], s[i])))
         && (forall i :: e <= i < RecordsEnd(s, e, ArCount(s)).value ==>
               t[i] == s[i] || (InRecords(s, e, ArCount(s), i) && CaseVariant(t[i], s[i])))
  {
    CheckedQuestionsEnd(s, HEADER_SIZE, QdCount(s));
    var n := QdCount(s);
    var e := QuestionsEnd(s, HEADER_SIZE, n).value;
    hide QuestionsOk, QuestionsEnd, RecordsEnd, InQuestions, InRecords, CaseVariant;
    forall i | InQuestions(s, HEADER_SIZE, n, i)
      ensures HEADER_SIZE < i < e
    {
      InQuestionsInside(s, HEADER_SIZE, n, i);
    }
    forall i | InRecords(s, e, ArCount(s), i)
      ensures e < i
    {
      InRecordsInside(s, e, ArCount(s), i);
    }
  }

  lemma DisguiseHeader(s: seq<byte>, t: seq<byte>)
    requires HeaderOk(s) && |t| == |s| && t[2] < 4 && forall i :: 3 <= i < HEADER_SIZE ==> t[i] == s[i]
    ensures HeaderOk(t) && QdCount(t) == QdCount(s) && ArCount(t) == ArCount(s)
  {
  }

  lemma DisguiseKeepsKey(s: seq<byte>, t: seq<byte>)
    requires IsKey(s) && Disguise(s, t)
    ensures IsKey(t)
    ensures KeyOf(t) == KeyOf(s)
  {
    assert |s| >= HEADER_SIZE;
    hide HeaderOk, InQuestions, InRecords, InLabel, CaseVariant;
    hide QuestionsOk, QuestionsEnd, RecordsEnd, QuestionsAt, RecordsAt;
    DisguiseSplits(s, t);
    DisguiseHeader(s, t);
    var n, a := QdCount(s), ArCount(s);
    var e := QuestionsEnd(s, HEADER_SIZE, n).value;
    QuestionsFold(s, t, HEADER_SIZE, n);
    RecordsFold(s, t, e, a);
  }

  // ---------------------------------------------------------------------------
  // Equality ignores nothing else
  // ---------------------------------------------------------------------------

  lemma LabelVariants(s: seq<byte>, t: seq<byte>, p: nat)
    requires NameEnd(s, p).Some? && NameEnd(t, p).Some? && s[p] != 0 && t[p] != 0 && Label(s, p) == Label(t, p)
    ensures t[p] == s[p] && forall i :: p < i <= p + s[p] ==> CaseVariant(t[i], s[i])
  {
    assert |Label(s, p)| == s[p] && |Label(t, p)| == t[p];
    forall i | p < i <= p + s[p]
      ensures CaseVariant(t[i], s[i])
    {
      assert Label(s, p)[i - p - 1] == ToLower(s[i]) && Label(t, p)[i - p - 1] == ToLower(t[i]);
      FoldAlike(t[i], s[i]);
    }
  }

  lemma {:induction false} NameVariants(s: seq<byte>, t: seq<byte>, p: nat)
    requires NameEnd(s, p).Some? && NameEnd(t, p).Some? && Labels(s, p) == Labels(t, p)
    ensures NameEnd(t, p) == NameEnd(s, p)
    ensures forall i :: p <= i < NameEnd(s, p).value ==> t[i] == s[i] || (InName(s, p, i) && CaseVariant(t[i], s[i]))
    decreases |s| - p
  {
    hide Label, CaseVariant;
    if s[p] != 0 && t[p] != 0 {
      LabelsSplit(s, p);
      LabelsSplit(t, p);
      LabelVariants(s, t, p);
      NameVariants(s, t, p + 1 + s[p]);
    }
  }

  lemma QuestionVariants(s: seq<byte>, t: seq<byte>, p: nat)
    requires QuestionEnd(s, p).Some? && QuestionEnd(t, p).Some? && QuestionAt(s, p) == QuestionAt(t, p)
    ensures QuestionEnd(t, p) == QuestionEnd(s, p)
    ensures forall i :: p <= i < QuestionEnd(s, p).value ==>
              t[i] == s[i] || (InName(s, p, i) && CaseVariant(t[i], s[i]))
  {
    hide CaseVariant;
    NameVariants(s, t, p);
    var e := NameEnd(s, p).value;
    forall i | e <= i < e + 4
      ensures t[i] == s[i]
    {
      assert s[e..e + 4][i - e] == s[i] && t[e..e + 4][i - e] == t[i];
    }
  }

  lemma {:induction false} QuestionsVariants(s: seq<byte>, t: seq<byte>, p: nat, n: nat)
    requires QuestionsEnd(s, p, n).Some? && QuestionsEnd(t, p, n).Some? && QuestionsAt(s, p, n) == QuestionsAt(t, p, n)
    ensures QuestionsEnd(t, p, n) == QuestionsEnd(s, p, n)
    ensures forall i :: p <= i < QuestionsEnd(s, p, n).value ==>
              t[i] == s[i] || (InQuestions(s, p, n, i) && CaseVariant(t[i], s[i]))
    decreases n
  {
    if n > 0 {
      assert NameEnd(s, p).Some?;
      hide QuestionAt, QuestionEnd, InName, CaseVariant;
      QuestionsSplit(s, p, n);
      QuestionsSplit(t, p, n);
      QuestionVariants(s, t, p);
      QuestionsVariants(s, t, QuestionEnd(s, p).value, n - 1);
    }
  }

  lemma RecordVariants(s: seq<byte>, t: seq<byte>, p: nat)
    requires RecordEnd(s, p).Some? && RecordEnd(t, p).Some? && RecordAt(s, p) == RecordAt(t, p)
    ensures RecordEnd(t, p) == RecordEnd(s, p)
    ensures forall i :: p <= i < RecordEnd(s, p).value ==>
              t[i] == s[i] || (InName(s, p, i) && CaseVariant(t[i], s[i]))
  {
    assert NameEnd(s, p).Some?;
    hide QuestionEnd, QuestionAt, InName, CaseVariant;
    QuestionVariants(s, t, p);
    var q, r := QuestionEnd(s, p).value, RecordEnd(s, p).value;
    assert |RecordAt(s, p).rdata| == Be16At(s, q + 4) && |RecordAt(t, p).rdata| == Be16At(t, q + 4);
    forall i | q <= i < r
      ensures t[i] == s[i]
    {
      if i < q + 4 {
        assert s[q..q + 4][i - q] == s[i] && t[q..q + 4][i - q] == t[i];
      } else if i >= q + 6 {
        assert s[q + 6..r][i - q - 6] == s[i] && t[q + 6..r][i - q - 6] == t[i];
      }
    }
  }

  lemma {:induction false} RecordsVariants(s: seq<byte>, t: seq<byte>, p: nat, n: nat)
    requires RecordsEnd(s, p, n).Some? && RecordsEnd(t, p, n).Some? && RecordsAt(s, p, n) == RecordsAt(t, p, n)
    ensures RecordsEnd(t, p, n) == RecordsEnd(s, p, n)
    ensures forall i :: p <= i < RecordsEnd(s, p, n).value ==>
              t[i] == s[i] || (InRecords(s, p, n, i) && CaseVariant(t[i], s[i]))
    decreases n
  {
    if n > 0 {
      RecordHasName(s, p);
      hide RecordAt, RecordEnd, InName, CaseVariant;
      RecordsSplit(s, p, n);
      RecordsSplit(t, p, n);
      RecordVariants(s, t, p);
      RecordsVariants(s, t, RecordEnd(s, p).value, n - 1);
    }
  }

  lemma SameHeader(s: seq<byte>, t: seq<byte>)
    requires HeaderOk(s) && HeaderOk(t) && s[3] == t[3] && QdCount(s) == QdCount(t) && ArCount(s) == ArCount(t)
    ensures forall i :: 3 <= i < HEADER_SIZE ==> t[i] == s[i]
  {
  }

  lemma SameMeansDisguise(s: seq<byte>, t: seq<byte>)
    requires IsKey(s) && IsKey(t) && |s| == |t| && KeyOf(s) == KeyOf(t)
    ensures Disguise(s, t)
  {
    assert |s| >= HEADER_SIZE && t[2] < 4;
    var n, a := QdCount(s), ArCount(s);
    assert |KeyOf(s).questions| == n && |KeyOf(t).questions| == QdCount(t);
    assert |KeyOf(s).additional| == a && |KeyOf(t).additional| == ArCount(t);
    CheckedQuestionsEnd(s, HEADER_SIZE, n);
    CheckedQuestionsEnd(t, HEADER_SIZE, n);
    SameHeader(s, t);
    var e := QuestionsEnd(s, HEADER_SIZE, n).value;
    QuestionsVariants(s, t, HEADER_SIZE, n);
    RecordsVariants(s, t, e, a);
  }

  /**
    Two keys are the same exactly when one is the other in disguise: of the octets from the second
    flags octet to the end of the last record, only letters inside labels may differ, and only in
    case.
   */
  lemma SameIff(s: seq<byte>, t: seq<byte>)
    requires IsKey(s) && |t| >= HEADER_SIZE
    ensures IsKey(t) && Same(s, t) <==> Disguise(s, t)
  {
    assert |s| >= HEADER_SIZE;
    hide IsKey, KeyOf, EqQuery, Disguise;
    if IsKey(t) && Same(s, t) {
      EqQueryIff(s, t);
      SameMeansDisguise(s, t);
    }
    if Disguise(s, t) {
      DisguisesAreSame(s, t);
    }
  }

  /** The ID, the TC bit and the letter case of labels never distinguish two queries. */
  lemma DisguisesAreSame(s: seq<byte>, t: seq<byte>)
    requires IsKey(s) && Disguise(s, t)
    ensures IsKey(t)
    ensures Same(s, t) && HashQuery(s) == HashQuery(t)
  {
    DisguiseKeepsKey(s, t);
    hide IsKey, KeyOf, HashQuery, EqQuery, FedByKey;
    EqQueryIff(s, t);
    HashIsOfKey(s);
    HashIsOfKey(t);
  }
}
