/**
  Replies from the other side: how a reply with CNAME records is written (section 4.1 of RFC 1035),
  and what is collected from it.
 */
module NrCnameLaws {
  import opened Bytes
  import opened NrCnameSpec
  import E = PacketEncoding

  /** A record as it is written; `target` is the name that its data stands for, if that is a name. */
  datatype Written = Written(owner: seq<byte>, rtype: nat, rclass: nat, ttl: seq<byte>, data: seq<byte>, target: Name)

  predicate Fits(w: Written)
  {
    w.rtype < 0x1_0000 && w.rclass < 0x1_0000 && |w.ttl| == 4 && |w.data| < 0x1_0000 && |w.owner| >= 1
  }

  predicate AllFit(ws: seq<Written>)
  {
    forall i :: 0 <= i < |ws| ==> Fits(ws[i])
  }

  function Encode(w: Written): (r: seq<byte>)
  {
    w.owner + (Octets16(w.rtype) + Octets16(w.rclass) + w.ttl + Octets16(|w.data|)) + w.data
  }

  function EncodeAll(ws: seq<Written>): (r: seq<byte>)
  {
    if ws == [] then [] else Encode(ws[0]) + EncodeAll(ws[1..])
  }

  /** A record of type 5 and class 1 with data is a link of the chain. */
  predicate IsLink(w: Written)
  {
    w.rtype == 5 && w.rclass == 1 && w.data != []
  }

  /** The targets of the links, in order. */
  function Chain(ws: seq<Written>): (names: seq<Name>)
  {
    if ws == [] then [] else (if IsLink(ws[0]) then [ws[0].target] else []) + Chain(ws[1..])
  }

  /** Where the data of a record at `p` starts. */
  function DataAt(p: nat, w: Written): (d: nat)
  {
    p + |w.owner| + 10
  }

  predicate EndsAt(r: NameRead, end: nat) { r.NameOk? && r.end == end }
  predicate Reads(r: NameRead, name: Name) { r.NameOk? && r.name == name }

  /** The name reader reads the owner of every record, and the target of every link. */
  ghost predicate Legible(msg: seq<byte>, read: Reader, p: nat, ws: seq<Written>)
    decreases |ws|
  {
    ws != [] ==>
      && EndsAt(read(msg, p), p + |ws[0].owner|)
      && (IsLink(ws[0]) ==>
            ws[0].target != [] && Reads(read(msg, DataAt(p, ws[0])), ws[0].target))
      && Legible(msg, read, DataAt(p, ws[0]) + |ws[0].data|, ws[1..])
  }

  /** The record that the walk makes of what is written at `p`. */
  function At(p: nat, w: Written): (r: Record)
  {
    Record(w.rtype, w.rclass, DataAt(p, w), |w.data|)
  }

  function AllAt(p: nat, ws: seq<Written>): (rs: seq<Record>)
    ensures |rs| == |ws|
    decreases |ws|
  {
    if ws == [] then [] else [At(p, ws[0])] + AllAt(DataAt(p, ws[0]) + |ws[0].data|, ws[1..])
  }

  /** The fixed fields of a record, in their places. */
  lemma FixedFields(msg: seq<byte>, e: nat, w: Written)
    requires Fits(w)
    requires E.Holds(msg, e, Octets16(w.rtype) + Octets16(w.rclass) + w.ttl + Octets16(|w.data|))
    ensures Be16At(msg, e) == w.rtype && Be16At(msg, e + 2) == w.rclass && Be16At(msg, e + 8) == |w.data|
  {
    hide Octets16, Be16At;
    var a, b, c, d := Octets16(w.rtype), Octets16(w.rclass), w.ttl, Octets16(|w.data|);
    E.HoldsParts(msg, e, a + b + c, d);
    E.HoldsParts(msg, e, a + b, c);
    E.HoldsParts(msg, e, a, b);
    ReadsBack(msg, e, w.rtype);
    ReadsBack(msg, e + 2, w.rclass);
    ReadsBack(msg, e + 8, |w.data|);
  }

  lemma RecordReadsBack(msg: seq<byte>, read: Reader, p: nat, w: Written)
    requires Fits(w) && E.Holds(msg, p, Encode(w))
    requires EndsAt(read(msg, p), p + |w.owner|)
    ensures p <= |msg| && ReadRecord(msg, read, p) == Good(At(p, w))
  {
    hide Octets16, Be16At;
    var fixed := Octets16(w.rtype) + Octets16(w.rclass) + w.ttl + Octets16(|w.data|);
    E.HoldsParts(msg, p, w.owner + fixed, w.data);
    E.HoldsParts(msg, p, w.owner, fixed);
    FixedFields(msg, p + |w.owner|, w);
  }

  /** Written records parse to just those records. */
  lemma {:induction false} RecordsReadBack(msg: seq<byte>, read: Reader, p: nat, ws: seq<Written>)
    requires p <= |msg| && AllFit(ws) && E.Holds(msg, p, EncodeAll(ws)) && Legible(msg, read, p, ws)
    ensures ParseRecords(msg, read, p, |ws|) == Records(AllAt(p, ws), None)
    decreases |ws|
  {
    hide ReadRecord, Encode;
    if ws != [] {
      E.HoldsParts(msg, p, Encode(ws[0]), EncodeAll(ws[1..]));
      RecordReadsBack(msg, read, p, ws[0]);
      EncodedLength(ws[0]);
      RecordsReadBack(msg, read, DataAt(p, ws[0]) + |ws[0].data|, ws[1..]);
    }
  }

  lemma EncodedLength(w: Written)
    requires Fits(w)
    ensures |Encode(w)| == |w.owner| + 10 + |w.data|
  {
  }

  lemma OneReadable(msg: seq<byte>, read: Reader, r: Record)
    ensures Readable(msg, read, [r]) == (if Target(msg, read, r).Some? then [Target(msg, read, r).value] else [])
    ensures Announced([r]) == if Announces(r) then 1 else 0
  {
    assert [r][..0] == [];
  }

  lemma {:induction false} ChainIsReadable(msg: seq<byte>, read: Reader, p: nat, ws: seq<Written>)
    requires Legible(msg, read, p, ws)
    ensures Readable(msg, read, AllAt(p, ws)) == Chain(ws) && Announced(AllAt(p, ws)) == |Chain(ws)|
    decreases |ws|
  {
    hide Readable, Announced;
    if ws == [] {
      NoneReadable(msg, read);
    } else {
      var rest := AllAt(DataAt(p, ws[0]) + |ws[0].data|, ws[1..]);
      ChainIsReadable(msg, read, DataAt(p, ws[0]) + |ws[0].data|, ws[1..]);
      ReadableConcat(msg, read, [At(p, ws[0])], rest);
      OneReadable(msg, read, At(p, ws[0]));
    }
  }

  lemma NoneReadable(msg: seq<byte>, read: Reader)
    ensures Readable(msg, read, []) == [] && Announced([]) == 0
  {
  }

  /** The header of a reply without error: QR set, opcode 0, rcode 0, at most one question. */
  predicate ReplyHeader(msg: seq<byte>)
  {
    12 <= |msg| <= 65535 && 128 <= msg[2] < 136 && msg[3] % 16 == 0 && msg[4] == 0 && msg[5] <= 1
  }

  /** The answer section starts at `p`: behind the header, or behind the one question. */
  ghost predicate AnswersAt(msg: seq<byte>, read: Reader, p: nat)
    requires ReplyHeader(msg)
  {
    if msg[5] == 0 then p == 12
    else 12 < p - 4 <= |msg| - 4 && EndsAt(read(msg, 12), p - 4)
  }

  lemma StartsThere(msg: seq<byte>, read: Reader, p: nat)
    requires ReplyHeader(msg) && AnswersAt(msg, read, p) && Be16At(msg, 6) >= 1
    ensures StartOf(msg, read) == Walk(p, Be16At(msg, 6))
  {
  }

  /**
    From a reply that announces and holds at most 64 legible records, exactly the targets of its
    links are collected, in order; if there are more than 8, the first 8, marked as truncated.
   */
  lemma WrittenChainIsCollected(msg: seq<byte>, read: Reader, p: nat, ws: seq<Written>)
    requires ReplyHeader(msg) && AnswersAt(msg, read, p) && 1 <= Be16At(msg, 6) == |ws| <= 64
    requires AllFit(ws) && E.Holds(msg, p, EncodeAll(ws)) && Legible(msg, read, p, ws)
    ensures var c := Chain(ws);
      Collected(msg, read) ==
        if c == [] then Result(Nothing, [], false)
        else if |c| <= 8 then Result(Ok, c, false) else Result(Ok, c[..8], true)
  {
    hide StartOf, ParseRecords, Readable, Announced, Overflows, Be16At, EncodeAll, Legible, Chain;
    StartsThere(msg, read, p);
    RecordsReadBack(msg, read, p, ws);
    ChainIsReadable(msg, read, p, ws);
  }

  /** What the header alone decides. */
  lemma HeaderDecides(msg: seq<byte>, read: Reader)
    ensures |msg| < 12 ==> Collected(msg, read).status == Short
    ensures |msg| > 65535 ==> Collected(msg, read).status == Malformed
    ensures 12 <= |msg| <= 65535 ==>
      && (msg[2] < 128 || msg[2] >= 136 ==> Collected(msg, read).status == NotAReply)
      && (128 <= msg[2] < 136 ==>
            && (msg[3] % 16 != 0 ==> Collected(msg, read).status == Nothing)
            && (msg[3] % 16 == 0 && (msg[4] != 0 || msg[5] > 1) ==> Collected(msg, read).status == Malformed)
            && (msg[3] % 16 == 0 && msg[4] == 0 && msg[5] <= 1 && msg[6] == 0 && msg[7] == 0 ==>
                  Collected(msg, read).status == Nothing))
  {
    hide Outcome, ParseRecords;
    if 12 <= |msg| <= 65535 { FlagBits(msg[2], msg[3]); }
  }

  lemma FlagBits(hi: byte, lo: byte)
    ensures var flags := hi * 256 + lo;
      && (flags / 0x8000 == 0 || flags / 0x800 % 16 != 0 <==> hi < 128 || hi >= 136)
      && flags % 16 == lo % 16
  {
    var flags := hi as int * 256 + lo;
    assert flags / 0x800 == hi as int / 8;
    assert flags / 0x8000 == hi as int / 128;
  }
}
