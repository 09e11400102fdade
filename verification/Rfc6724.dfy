/** Destination address selection (getaddrinfo.cpp, addrlabel.cpp): section 6 of RFC 6724. */
module Rfc6724 {

  type Octets = seq<bv8>

  datatype Sockaddr = Inet(v4: Octets) | Inet6(v6: Octets) | OtherFamily {
    predicate Valid() { (Inet? ==> |v4| == 4) && (Inet6? ==> |v6| == 16) }
  }

  type Address = a: Sockaddr | a.Valid() witness OtherFamily

  const NODE_LOCAL := 1
  const LINK_LOCAL := 2
  const SITE_LOCAL := 5
  const GLOBAL := 14

  predicate Zeros(o: Octets, n: nat)
    requires n <= |o|
  {
    forall i :: 0 <= i < n ==> o[i] == 0
  }

  predicate Loopback(o: Octets) requires |o| == 16 { Zeros(o, 15) && o[15] == 1 }
  predicate V4Mapped(o: Octets) requires |o| == 16 { Zeros(o, 10) && o[10] == 0xff && o[11] == 0xff }
  predicate V4Compat(o: Octets) requires |o| == 16 { Zeros(o, 12) && !Zeros(o, 16) && !Loopback(o) }
  predicate Multicast(o: Octets) requires |o| == 16 { o[0] == 0xff }
  predicate LinkLocal(o: Octets) requires |o| == 16 { o[0] == 0xfe && o[1] & 0xc0 == 0x80 }
  predicate SiteLocal(o: Octets) requires |o| == 16 { o[0] == 0xfe && o[1] & 0xc0 == 0xc0 }
  predicate SixToFour(o: Octets) requires |o| == 16 { o[0] == 0x20 && o[1] == 0x02 }
  predicate Teredo(o: Octets) requires |o| == 16 { o[0] == 0x20 && o[1] == 0x01 && o[2] == 0 && o[3] == 0 }
  predicate Ula(o: Octets) requires |o| == 16 { o[0] & 0xfe == 0xfc }
  predicate SixBone(o: Octets) requires |o| == 16 { o[0] == 0x3f && o[1] == 0xfe }

  /** `_get_scope` */
  function Scope(a: Address): (s: int)
  {
    match a
    case Inet6(o) =>
      if Multicast(o) then (o[1] & 0x0f) as int
      else if Loopback(o) || LinkLocal(o) then LINK_LOCAL
      else if SiteLocal(o) then SITE_LOCAL
      else GLOBAL
    case Inet(o) => if o[0] == 127 || (o[0] == 169 && o[1] == 254) then LINK_LOCAL else GLOBAL
    case OtherFamily => NODE_LOCAL
  }

  /** `_get_precedence` */
  function Precedence(a: Address): (p: int)
  {
    match a
    case Inet(o) => 35
    case Inet6(o) =>
      if Loopback(o) then 50
      else if V4Mapped(o) then 35
      else if SixToFour(o) then 30
      else if Teredo(o) then 5
      else if Ula(o) then 3
      else if V4Compat(o) || SiteLocal(o) || SixBone(o) then 1
      else 40
    case OtherFamily => 1
  }

  /** `resolv_getaddrlabel_simple` */
  function AddrLabel(a: Address): (l: int)
  {
    match a
    case Inet(o) => 4
    case Inet6(o) =>
      if Loopback(o) then 0
      else if V4Mapped(o) then 4
      else if SixToFour(o) then 2
      else if Teredo(o) then 5
      else if Ula(o) then 13
      else if V4Compat(o) then 3
      else if SiteLocal(o) then 11
      else if SixBone(o) then 12
      else 1
    case OtherFamily => 1
  }

  // ---------------------------------------------------------------------------
  // The policy table
  // ---------------------------------------------------------------------------

  datatype Policy = Policy(prefix: Octets, length: nat, precedence: int, addrLabel: int)

  /** An octet whose first `n` bits are set. */
  function Ones(n: int): (m: bv8)
  {
    if n <= 0 then 0x00 else if n == 1 then 0x80 else if n == 2 then 0xc0 else if n == 3 then 0xe0
    else if n == 4 then 0xf0 else if n == 5 then 0xf8 else if n == 6 then 0xfc else if n == 7 then 0xfe else 0xff
  }

  /** The first `n` bits of an octet. */
  function Masked(x: bv8, n: int): (r: bv8) { x & Ones(n) }

  /** The first `length` bits of the address are those of the prefix. */
  predicate InPrefix(o: Octets, prefix: Octets, length: nat)
    requires |o| == |prefix| == 16
  {
    forall i {:trigger o[i]} :: 0 <= i < 16 ==> Masked(o[i], length - 8 * i) == Masked(prefix[i], length - 8 * i)
  }

  function Leading(a: bv8, b: bv8, c: bv8, d: bv8): (o: Octets)
    ensures |o| == 16 && o[0] == a && o[1] == b && o[2] == c && o[3] == d
    ensures forall i :: 4 <= i < 16 ==> o[i] == 0
  {
    [a, b, c, d, 0, 0, 0, 0, 0, 0, 0, 0, 0, 0, 0, 0]
  }

  /** The default policy table of section 2.1 of RFC 6724, row by row. */
  function PolicyRow(i: nat): (p: Policy)
    requires i < 9
    ensures |p.prefix| == 16
  {
    if i == 0 then Policy(Leading(0, 0, 0, 0)[15 := 1], 128, 50, 0)
    else if i == 1 then Policy(Leading(0, 0, 0, 0), 0, 40, 1)
    else if i == 2 then Policy(Leading(0, 0, 0, 0)[10 := 0xff][11 := 0xff], 96, 35, 4)
    else if i == 3 then Policy(Leading(0x20, 0x02, 0, 0), 16, 30, 2)
    else if i == 4 then Policy(Leading(0x20, 0x01, 0, 0), 32, 5, 5)
    else if i == 5 then Policy(Leading(0xfc, 0, 0, 0), 7, 3, 13)
    else if i == 6 then Policy(Leading(0, 0, 0, 0), 96, 1, 3)
    else if i == 7 then Policy(Leading(0xfe, 0xc0, 0, 0), 10, 1, 11)
    else Policy(Leading(0x3f, 0xfe, 0, 0), 16, 1, 12)
  }

  predicate Applies(o: Octets, i: nat)
    requires |o| == 16 && i < 9
  {
    InPrefix(o, PolicyRow(i).prefix, PolicyRow(i).length)
  }

  /** Row `i` has the longest prefix that the address is in. */
  predicate BestRow(o: Octets, i: nat)
    requires |o| == 16 && i < 9
  {
    Applies(o, i) && forall j :: 0 <= j < 9 && j != i && Applies(o, j) ==> PolicyRow(j).length < PolicyRow(i).length
  }

  lemma MaskedAll(x: bv8, n: int)
    ensures n >= 8 ==> Masked(x, n) == x
    ensures n <= 0 ==> Masked(x, n) == 0
  {
  }

  /** A prefix of `n` whole octets and some bits of the next. */
  lemma PrefixOctets(o: Octets, p: Octets, n: nat, bits: nat)
    requires |o| == |p| == 16 && n <= 16 && bits < 8 && (n == 16 ==> bits == 0)
    ensures InPrefix(o, p, 8 * n + bits) <==>
            (forall i :: 0 <= i < n ==> o[i] == p[i]) && (bits > 0 ==> Masked(o[n], bits) == Masked(p[n], bits))
  {
    hide Masked;
    forall i | 0 <= i < 16
      ensures i < n ==> Masked(o[i], 8 * n + bits - 8 * i) == o[i] && Masked(p[i], 8 * n + bits - 8 * i) == p[i]
      ensures i > n || (bits == 0 && i == n) ==>
                Masked(o[i], 8 * n + bits - 8 * i) == Masked(p[i], 8 * n + bits - 8 * i)
    {
      MaskedAll(o[i], 8 * n + bits - 8 * i);
      MaskedAll(p[i], 8 * n + bits - 8 * i);
    }
  }

  /** What each row of the table asks of the octets. */
  lemma RowsOfTable(o: Octets)
    requires |o| == 16
    ensures Applies(o, 0) <==> Loopback(o)
    ensures Applies(o, 1)
    ensures Applies(o, 2) <==> V4Mapped(o)
    ensures Applies(o, 3) <==> SixToFour(o)
    ensures Applies(o, 4) <==> Teredo(o)
    ensures Applies(o, 5) <==> Ula(o)
    ensures Applies(o, 6) <==> Zeros(o, 12)
    ensures Applies(o, 7) <==> SiteLocal(o)
    ensures Applies(o, 8) <==> SixBone(o)
  {
    hide InPrefix, Masked, Loopback, V4Mapped, Zeros, Ula, SiteLocal, Teredo, SixToFour, SixBone;
    LongRows(o);
    ShortRows(o);
  }

  lemma LongRows(o: Octets)
    requires |o| == 16
    ensures Applies(o, 0) <==> Loopback(o)
    ensures Applies(o, 2) <==> V4Mapped(o)
    ensures Applies(o, 6) <==> Zeros(o, 12)
  {
    hide InPrefix, Leading, Masked;
    PrefixOctets(o, PolicyRow(0).prefix, 16, 0);
    PrefixOctets(o, PolicyRow(2).prefix, 12, 0);
    PrefixOctets(o, PolicyRow(6).prefix, 12, 0);
  }

  lemma ShortRows(o: Octets)
    requires |o| == 16
    ensures Applies(o, 1)
    ensures Applies(o, 3) <==> SixToFour(o)
    ensures Applies(o, 4) <==> Teredo(o)
    ensures Applies(o, 5) <==> Ula(o)
    ensures Applies(o, 7) <==> SiteLocal(o)
    ensures Applies(o, 8) <==> SixBone(o)
  {
    hide InPrefix, Leading, Masked;
    PrefixOctets(o, PolicyRow(1).prefix, 0, 0);
    PrefixOctets(o, PolicyRow(3).prefix, 2, 0);
    PrefixOctets(o, PolicyRow(4).prefix, 4, 0);
    PrefixOctets(o, PolicyRow(5).prefix, 0, 7);
    PrefixOctets(o, PolicyRow(7).prefix, 1, 2);
    PrefixOctets(o, PolicyRow(8).prefix, 2, 0);
    PartOctets(o[0], o[1]);
  }

  lemma PartOctets(x: bv8, y: bv8)
    ensures Masked(x, 7) == Masked(0xfc, 7) <==> x & 0xfe == 0xfc
    ensures Masked(y, 2) == Masked(0xc0, 2) <==> y & 0xc0 == 0xc0
  {
  }

  /** Every address has a best row. */
  lemma SomeRowIsBest(o: Octets)
    requires |o| == 16
    ensures exists i :: 0 <= i < 9 && BestRow(o, i)
  {
    hide Applies, Loopback, V4Mapped, SixToFour, Teredo, Ula, Zeros, SiteLocal, SixBone;
    RowsOfTable(o);
    RowsAreApart(o);
    var i := if Applies(o, 0) then 0 else if Applies(o, 2) then 2 else if Applies(o, 6) then 6
             else if Applies(o, 4) then 4 else if Applies(o, 3) then 3 else if Applies(o, 8) then 8
             else if Applies(o, 7) then 7 else if Applies(o, 5) then 5 else 1;
    assert BestRow(o, i);
  }

  /** Prefixes of the same length exclude each other, and so do those of the same kind of address. */
  lemma RowsAreApart(o: Octets)
    requires |o| == 16
    ensures !(V4Mapped(o) && Zeros(o, 12)) && !(SixToFour(o) && SixBone(o))
    ensures Loopback(o) ==> Zeros(o, 12) && !V4Mapped(o)
    ensures Zeros(o, 12) || V4Mapped(o) ==> !SixToFour(o) && !Teredo(o) && !Ula(o) && !SiteLocal(o) && !SixBone(o)
    ensures SixToFour(o) || SixBone(o) ==> !Teredo(o) && !Ula(o) && !SiteLocal(o)
    ensures Teredo(o) ==> !Ula(o) && !SiteLocal(o)
    ensures Ula(o) ==> !SiteLocal(o)
  {
  }

  /**
    Precedence and label of an IPv6 address are those of the longest matching row of the policy
    table, for every address but the unspecified one.
   */
  lemma PolicyIff(o: Octets, i: nat)
    requires |o| == 16 && i < 9 && BestRow(o, i)
    ensures Precedence(Inet6(o)) == PolicyRow(i).precedence && AddrLabel(Inet6(o)) == PolicyRow(i).addrLabel
       <==> !Zeros(o, 16)
  {
    hide Applies, Loopback, V4Mapped, SixToFour, Teredo, Ula, Zeros, SiteLocal, SixBone;
    RowsOfTable(o);
    RowsAreApart(o);
    ZerosAndCompat(o);
  }

  /** The unspecified address: precedence 40 in the code, 1 in the table. */
  lemma UnspecifiedExample(o: Octets)
    requires |o| == 16 && Zeros(o, 16)
    ensures BestRow(o, 6) && PolicyRow(6).precedence == 1 && Precedence(Inet6(o)) == 40
  {
    hide InPrefix, Leading;
    RowsOfTable(o);
    RowsAreApart(o);
    ZerosAndCompat(o);
  }

  lemma ZerosAndCompat(o: Octets)
    requires |o| == 16
    ensures V4Compat(o) <==> Zeros(o, 12) && !Zeros(o, 16) && !Loopback(o)
    ensures Zeros(o, 16) ==> Zeros(o, 12) && !Loopback(o)
  {
  }

  /** Scopes by address block: section 3.1 of RFC 6724, with the loopback address as link-local. */
  lemma ScopeByPrefix(o: Octets)
    requires |o| == 16
    ensures var s := Scope(Inet6(o));
      if InPrefix(o, Leading(0xff, 0, 0, 0), 8) then 0 <= s < 16 && o[1] & 0x0f == s as bv8
      else
        && (s == LINK_LOCAL <==> InPrefix(o, Leading(0xfe, 0x80, 0, 0), 10) || Applies(o, 0))
        && (s == SITE_LOCAL <==> InPrefix(o, Leading(0xfe, 0xc0, 0, 0), 10))
        && s in {LINK_LOCAL, SITE_LOCAL, GLOBAL}
  {
    hide InPrefix, Leading, Masked, PolicyRow;
    RowsOfTable(o);
    RowsAreApart(o);
    PrefixOctets(o, Leading(0xff, 0, 0, 0), 1, 0);
    PrefixOctets(o, Leading(0xfe, 0x80, 0, 0), 1, 2);
    PrefixOctets(o, Leading(0xfe, 0xc0, 0, 0), 1, 2);
    PartOctets(o[0], o[1]);
    LinkLocalBits(o[1]);
  }

  lemma LinkLocalBits(y: bv8)
    ensures Masked(y, 2) == Masked(0x80, 2) <==> y & 0xc0 == 0x80
    ensures y & 0x0f < 16
  {
  }

  /** An IPv4 address is treated like its IPv4-mapped form. */
  lemma V4LikeMapped(v4: Octets)
    requires |v4| == 4
    ensures var mapped := Inet6(MappedV4(v4[0], v4[1], v4[2], v4[3]));
      Precedence(Inet(v4)) == Precedence(mapped) && AddrLabel(Inet(v4)) == AddrLabel(mapped)
  {
  }

  /** Loopback and autoconfigured IPv4 addresses are link-local, all others global: section 3.2 of RFC 6724. */
  lemma ScopeOfV4(v4: Octets)
    requires |v4| == 4
    ensures var mapped := MappedV4(v4[0], v4[1], v4[2], v4[3]);
      var local := InPrefix(mapped, MappedV4(127, 0, 0, 0), 104) || InPrefix(mapped, MappedV4(169, 254, 0, 0), 112);
      Scope(Inet(v4)) == if local then 2 else 14
  {
    hide InPrefix, Masked;
    var mapped := MappedV4(v4[0], v4[1], v4[2], v4[3]);
    PrefixOctets(mapped, MappedV4(127, 0, 0, 0), 13, 0);
    PrefixOctets(mapped, MappedV4(169, 254, 0, 0), 14, 0);
    assert mapped[12] == v4[0] && mapped[13] == v4[1];
  }

  // ---------------------------------------------------------------------------
  // Longest common prefix
  // ---------------------------------------------------------------------------

  function ShiftLeft(b: bv8, j: nat): (r: bv8)
  {
    if j == 0 then b else ShiftLeft(b, j - 1) << 1
  }

  /** Bit `j` of an octet, counted from the most significant one. */
  predicate Bit8(b: bv8, j: nat)
  {
    ShiftLeft(b, j) & 0x80 != 0
  }

  predicate Bit(o: Octets, i: nat)
    requires i < 8 * |o|
  {
    Bit8(o[i / 8], i % 8)
  }

  /** The first position from `i` on at which the addresses differ. */
  function PrefixFrom(a: Octets, b: Octets, i: nat): (n: nat)
    requires |a| == |b| && i <= 8 * |a|
    ensures i <= n <= 8 * |a|
    ensures forall k :: i <= k < n ==> Bit(a, k) == Bit(b, k)
    ensures n < 8 * |a| ==> Bit(a, n) != Bit(b, n)
    decreases 8 * |a| - i
  {
    if i == 8 * |a| then i else if Bit(a, i) != Bit(b, i) then i else PrefixFrom(a, b, i + 1)
  }

  /** The length of the longest common bit prefix. */
  function PrefixLen(a: Octets, b: Octets): (n: nat)
    requires |a| == |b|
  {
    PrefixFrom(a, b, 0)
  }

  /** Nothing else is a longest common prefix. */
  lemma PrefixLenIs(a: Octets, b: Octets, n: nat)
    requires |a| == |b| && n <= 8 * |a|
    requires forall k :: 0 <= k < n ==> Bit(a, k) == Bit(b, k)
    requires n < 8 * |a| ==> Bit(a, n) != Bit(b, n)
    ensures PrefixLen(a, b) == n
  {
  }

  lemma {:induction false} ShiftXor(u: bv8, v: bv8, j: nat)
    ensures ShiftLeft(u ^ v, j) == ShiftLeft(u, j) ^ ShiftLeft(v, j)
  {
    if j > 0 {
      ShiftXor(u, v, j - 1);
      XorShifts(ShiftLeft(u, j - 1), ShiftLeft(v, j - 1));
    }
  }

  lemma XorShifts(s: bv8, t: bv8)
    ensures (s ^ t) << 1 == (s << 1) ^ (t << 1)
    ensures (s ^ t) & 0x80 != 0 <==> (s & 0x80 != 0) != (t & 0x80 != 0)
  {
  }

  lemma TopBitTells(u: bv8, v: bv8, j: nat)
    ensures ShiftLeft(u ^ v, j) & 0x80 != 0 <==> Bit8(u, j) != Bit8(v, j)
  {
    ShiftXor(u, v, j);
    XorShifts(ShiftLeft(u, j), ShiftLeft(v, j));
  }

  /** The bits of octet `i` follow those of the octets before it. */
  lemma BitsOfOctet(a: Octets, b: Octets, i: nat, j: nat)
    requires |a| == |b| && i < |a| && j <= 8
    requires forall k :: 0 <= k < 8 * i ==> Bit(a, k) == Bit(b, k)
    requires forall k :: 0 <= k < j ==> Bit8(a[i], k) == Bit8(b[i], k)
    ensures forall k :: 0 <= k < 8 * i + j ==> Bit(a, k) == Bit(b, k)
    ensures j < 8 ==> (Bit(a, 8 * i + j) <==> Bit8(a[i], j)) && (Bit(b, 8 * i + j) <==> Bit8(b[i], j))
  {
  }

  /** `_common_prefix_len` */
  method CommonPrefixLen(a1: Octets, a2: Octets) returns (n: nat)
    requires |a1| == |a2|
    ensures n == PrefixLen(a1, a2)
  {
    hide PrefixLen, Bit8, Bit;
    for i := 0 to |a1|
      invariant forall k :: 0 <= k < 8 * i ==> Bit(a1, k) == Bit(a2, k)
    {
      if a1[i] == a2[i] {
        BitsOfOctet(a1, a2, i, 8);
      } else {
        var x := a1[i] ^ a2[i];
        for j := 0 to 8
          invariant x == ShiftLeft(a1[i] ^ a2[i], j)
          invariant forall k :: 0 <= k < j ==> Bit8(a1[i], k) == Bit8(a2[i], k)
        {
          TopBitTells(a1[i], a2[i], j);
          if x & 0x80 != 0 {
            BitsOfOctet(a1, a2, i, j);
            PrefixLenIs(a1, a2, 8 * i + j);
            return i * 8 + j;
          }
          x := x << 1;
        }
        BitsOfOctet(a1, a2, i, 8);
      }
    }
    PrefixLenIs(a1, a2, 8 * |a1|);
    return 8 * |a1|;
  }

  // ---------------------------------------------------------------------------
  // The comparator
  // ---------------------------------------------------------------------------

  /** A destination with the source address the kernel would use, if it has one. */
  datatype Elem = Elem(dst: Address, src: Address, hasSrc: bool, order: nat) {
    /** Both addresses of a usable IPv6 destination are IPv6 addresses. */
    predicate Valid() { hasSrc && dst.Inet6? ==> src.Inet6? }
  }

  type Candidate = e: Elem | e.Valid() witness Elem(OtherFamily, OtherFamily, false, 0)

  predicate ScopesMatch(e: Candidate) { Scope(e.src) == Scope(e.dst) }
  predicate LabelsMatch(e: Candidate) { AddrLabel(e.src) == AddrLabel(e.dst) }
  predicate UsesV6(e: Candidate) { e.hasSrc && e.dst.Inet6? }

  function Prefix(e: Candidate): (n: int)
  {
    if UsesV6(e) then PrefixLen(e.src.v6, e.dst.v6) else 0
  }

  function Sign(b: bool): (n: int) { if b then 1 else 0 }

  /** `_rfc6724_compare` */
  function Compare(a: Candidate, b: Candidate): (c: int)
  {
    if a.hasSrc != b.hasSrc then Sign(b.hasSrc) - Sign(a.hasSrc)
    else if ScopesMatch(a) != ScopesMatch(b) then Sign(ScopesMatch(b)) - Sign(ScopesMatch(a))
    else if LabelsMatch(a) != LabelsMatch(b) then Sign(LabelsMatch(b)) - Sign(LabelsMatch(a))
    else if Precedence(a.dst) != Precedence(b.dst) then Precedence(b.dst) - Precedence(a.dst)
    else if Scope(a.dst) != Scope(b.dst) then Scope(a.dst) - Scope(b.dst)
    else if UsesV6(a) && UsesV6(b) && Prefix(a) != Prefix(b) then Prefix(b) - Prefix(a)
    else a.order - b.order
  }

  predicate Less(a: Candidate, b: Candidate) { Compare(a, b) < 0 }

  /** The rules of section 6 of RFC 6724 that the code implements, most important first: 1, 2, 5, 6, 8, 9, 10. */
  function Key(e: Candidate): (k: seq<int>)
    ensures |k| == 7
  {
    [-Sign(e.hasSrc), -Sign(ScopesMatch(e)), -Sign(LabelsMatch(e)), -Precedence(e.dst), Scope(e.dst), -Prefix(e),
     e.order]
  }

  ghost predicate LexLess(a: seq<int>, b: seq<int>)
    requires |a| == |b|
  {
    exists k :: 0 <= k < |a| && a[k] < b[k] && forall j :: 0 <= j < k ==> a[j] == b[j]
  }

  predicate Mapped(e: Candidate) { e.dst.Inet6? && V4Mapped(e.dst.v6) }

  /** The rules before rule 9 do not tell the two apart. */
  predicate Tied(a: Candidate, b: Candidate)
  {
    && a.hasSrc == b.hasSrc && ScopesMatch(a) == ScopesMatch(b) && LabelsMatch(a) == LabelsMatch(b)
    && Precedence(a.dst) == Precedence(b.dst) && Scope(a.dst) == Scope(b.dst)
  }

  /** Only an IPv4-mapped destination shares its precedence with an IPv4 destination. */
  lemma TiesKeepFamily(a: Candidate, b: Candidate)
    requires Tied(a, b) && !Mapped(a) && !Mapped(b) && a.hasSrc
    requires !a.dst.OtherFamily? && !b.dst.OtherFamily?
    ensures UsesV6(a) == UsesV6(b)
  {
  }

  /** Without IPv4-mapped destinations the comparator is the lexicographic order of the rules. */
  lemma CompareIsLexicographic(a: Candidate, b: Candidate)
    requires !Mapped(a) && !Mapped(b) && Usable(a) && Usable(b)
    ensures Less(a, b) <==> LexLess(Key(a), Key(b))
  {
    hide Scope, AddrLabel, Precedence, Prefix, Mapped;
    var k, m := Key(a), Key(b);
    if Tied(a, b) && a.hasSrc { TiesKeepFamily(a, b); }
    PrefixOfV4(a);
    PrefixOfV4(b);
    var i := FirstDifference(k, m);
    assert (i > 0 ==> k[0] == m[0]) && (i > 1 ==> k[1] == m[1]) && (i > 2 ==> k[2] == m[2]) && (i > 3 ==> k[3] == m[3]);
    assert (i > 4 ==> k[4] == m[4]) && (i > 5 ==> k[5] == m[5]) && (i > 6 ==> k[6] == m[6]);
    if i < 7 { LexAtFirstDifference(k, m, i); }
  }

  /** Rules 1, 2, 5, 6, 8, 9 and 10 of section 6 of RFC 6724, each for pairs that those before it do not decide. */
  lemma RuleByRule(a: Candidate, b: Candidate)
    ensures a.hasSrc && !b.hasSrc ==> Less(a, b)
    ensures a.hasSrc == b.hasSrc ==>
      && (Scope(a.src) == Scope(a.dst) && Scope(b.src) != Scope(b.dst) ==> Less(a, b))
      && ((Scope(a.src) == Scope(a.dst)) == (Scope(b.src) == Scope(b.dst)) ==>
            && (AddrLabel(a.src) == AddrLabel(a.dst) && AddrLabel(b.src) != AddrLabel(b.dst) ==> Less(a, b))
            && ((AddrLabel(a.src) == AddrLabel(a.dst)) == (AddrLabel(b.src) == AddrLabel(b.dst)) ==>
                  && (Precedence(a.dst) > Precedence(b.dst) ==> Less(a, b))
                  && (Precedence(a.dst) == Precedence(b.dst) && Scope(a.dst) < Scope(b.dst) ==> Less(a, b))))
    ensures Tied(a, b) && a.hasSrc && a.dst.Inet6? && b.dst.Inet6? ==>
      var x, y := PrefixLen(a.src.v6, a.dst.v6), PrefixLen(b.src.v6, b.dst.v6);
      (x > y ==> Less(a, b)) && (x == y && a.order < b.order ==> Less(a, b))
    ensures Tied(a, b) && !(a.hasSrc && a.dst.Inet6? && b.dst.Inet6?) && a.order < b.order ==> Less(a, b)
  {
    hide Scope, AddrLabel, Precedence, PrefixLen;
  }

  /** Sources are found for internet addresses only. */
  predicate Usable(e: Candidate) { e.hasSrc ==> !e.dst.OtherFamily? }

  lemma PrefixOfV4(e: Candidate)
    ensures !UsesV6(e) ==> Prefix(e) == 0
  {
  }

  function FirstDifference(a: seq<int>, b: seq<int>): (i: nat)
    requires |a| == |b|
    ensures i <= |a| && (i < |a| ==> a[i] != b[i]) && forall j :: 0 <= j < i ==> a[j] == b[j]
  {
    if |a| == 0 || a[0] != b[0] then 0
    else
      var i := FirstDifference(a[1..], b[1..]);
      assert forall j :: 0 < j < |a| ==> a[j] == a[1..][j - 1] && b[j] == b[1..][j - 1];
      i + 1
  }

  lemma LexAtFirstDifference(a: seq<int>, b: seq<int>, i: nat)
    requires |a| == |b| && i < |a| && a[i] != b[i] && forall j :: 0 <= j < i ==> a[j] == b[j]
    ensures LexLess(a, b) <==> a[i] < b[i]
  {
  }

  // ---------------------------------------------------------------------------
  // When the comparator is an order
  // ---------------------------------------------------------------------------

  /** At most one of two elements comes first, and one does if they are different list entries. */
  lemma CompareIsAntisymmetric(a: Candidate, b: Candidate)
    ensures !(Less(a, b) && Less(b, a))
    ensures a.order != b.order ==> Less(a, b) || Less(b, a)
  {
  }

  /** Every element has its own place in the list. */
  ghost predicate Numbered(s: seq<Candidate>)
  {
    forall a, b :: a in s && b in s && a.order == b.order ==> a == b
  }

  ghost predicate Transitive(s: seq<Candidate>)
  {
    forall a, b, c :: a in s && b in s && c in s && Less(a, b) && Less(b, c) ==> Less(a, c)
  }

  /**
    Rule 9 decides between two IPv6 destinations against their order in the list, and an IPv4
    destination that the earlier rules cannot tell from them stands between the two in the list.
   */
  predicate Crossed(a: Candidate, b: Candidate, c: Candidate)
  {
    && Tied(a, b) && Tied(b, c) && UsesV6(a) && UsesV6(c) && !UsesV6(b)
    && Prefix(a) > Prefix(c) && c.order < b.order < a.order
  }

  /** Three elements that contradict transitivity are, from the right one on, crossed. */
  lemma CyclesAreCrossed(a: Candidate, b: Candidate, c: Candidate)
    requires Less(a, b) && Less(b, c) && !Less(a, c) && (a.order == c.order ==> a == c)
    ensures Crossed(a, c, b) || Crossed(b, a, c) || Crossed(c, b, a)
  {
  }

  lemma CrossedIsCycle(a: Candidate, b: Candidate, c: Candidate)
    requires Crossed(a, b, c)
    ensures Less(a, c) && Less(c, b) && !Less(a, b)
  {
  }

  ghost predicate Uncrossed(s: seq<Candidate>)
  {
    forall a, b, c :: a in s && b in s && c in s ==> !Crossed(a, b, c)
  }

  /** The comparator is transitive on a list exactly when the list holds no crossed triple. */
  lemma TransitiveIff(s: seq<Candidate>)
    requires Numbered(s)
    ensures Transitive(s) <==> Uncrossed(s)
  {
    hide Less, Crossed;
    if Transitive(s) {
      forall a, b, c | a in s && b in s && c in s ensures !Crossed(a, b, c) {
        if Crossed(a, b, c) { CrossedIsCycle(a, b, c); }
      }
    }
    if Uncrossed(s) {
      forall a, b, c | a in s && b in s && c in s && Less(a, b) && Less(b, c) ensures Less(a, c) {
        if !Less(a, c) { CyclesAreCrossed(a, b, c); }
      }
    }
  }

  /** Without IPv4-mapped destinations no triple is crossed. */
  lemma UnmappedIsTransitive(s: seq<Candidate>)
    requires Numbered(s) && forall e :: e in s ==> !Mapped(e) && Usable(e)
    ensures Uncrossed(s) && Transitive(s)
  {
    hide Mapped, Less;
    forall a, b, c | a in s && b in s && c in s ensures !Crossed(a, b, c) {
      if Crossed(a, b, c) { TiesKeepFamily(a, b); }
    }
    TransitiveIff(s);
  }

  function MappedV4(a: bv8, b: bv8, c: bv8, d: bv8): (o: Octets)
    ensures |o| == 16 && V4Mapped(o)
  {
    [0, 0, 0, 0, 0, 0, 0, 0, 0, 0, 0xff, 0xff, a, b, c, d]
  }

  /** The comparator is no order in general: two IPv4-mapped destinations and an IPv4 one go round in a circle. */
  lemma MappedDestinationsCanCycle()
    ensures exists a: Candidate, b: Candidate, c: Candidate :: Less(a, c) && Less(c, b) && Less(b, a)
  {
    hide Less, Crossed;
    var near, far := MappedV4(1, 2, 3, 4), MappedV4(192, 0, 2, 1);
    var a := Elem(Inet6(near), Inet6(near), true, 2);
    var b := Elem(Inet([1, 2, 3, 4]), Inet([1, 2, 3, 4]), true, 1);
    var c := Elem(Inet6(far), Inet6(near), true, 0);
    assert Crossed(a, b, c) by { CrossedExample(a, b, c); }
    CrossedIsCycle(a, b, c);
    CompareIsAntisymmetric(a, b);
  }

  lemma CrossedExample(a: Candidate, b: Candidate, c: Candidate)
    requires a == Elem(Inet6(MappedV4(1, 2, 3, 4)), Inet6(MappedV4(1, 2, 3, 4)), true, 2)
    requires b == Elem(Inet([1, 2, 3, 4]), Inet([1, 2, 3, 4]), true, 1)
    requires c == Elem(Inet6(MappedV4(192, 0, 2, 1)), Inet6(MappedV4(1, 2, 3, 4)), true, 0)
    ensures Crossed(a, b, c)
  {
    hide PrefixLen;
    var near, far := MappedV4(1, 2, 3, 4), MappedV4(192, 0, 2, 1);
    PrefixLenIs(near, near, 128);
    assert Bit8(192, 0) && !Bit8(1, 0);
    assert Bit(far, 96) && !Bit(near, 96);
    assert PrefixLen(near, far) <= 96 by { PrefixStopsAt(near, far, 96); }
  }

  lemma PrefixStopsAt(a: Octets, b: Octets, i: nat)
    requires |a| == |b| && i < 8 * |a| && Bit(a, i) != Bit(b, i)
    ensures PrefixLen(a, b) <= i
  {
  }

  // ---------------------------------------------------------------------------
  // Sorting
  // ---------------------------------------------------------------------------

  predicate Sorted(s: seq<Candidate>)
  {
    forall i, j :: 0 <= i < j < |s| ==> Less(s[i], s[j])
  }

  function Insert(e: Candidate, s: seq<Candidate>): (r: seq<Candidate>)
    ensures multiset(r) == multiset(s) + multiset{e}
    ensures |r| == |s| + 1
  {
    if s == [] then [e]
    else if Less(e, s[0]) then [e] + s
    else
      assert s == [s[0]] + s[1..];
      [s[0]] + Insert(e, s[1..])
  }

  /** One way to sort. Any other gives the same result where there is one, see `AnySortAgrees`. */
  function SortArray(s: seq<Candidate>): (r: seq<Candidate>)
    ensures multiset(r) == multiset(s) && |r| == |s|
  {
    if s == [] then []
    else
      assert s == [s[0]] + s[1..];
      Insert(s[0], SortArray(s[1..]))
  }

  lemma SameMembers(s: seq<Candidate>, r: seq<Candidate>)
    requires multiset(s) == multiset(r)
    ensures forall e :: e in s <==> e in r
  {
    forall e ensures e in s <==> e in r {
      assert e in s <==> e in multiset(s);
      assert e in r <==> e in multiset(r);
    }
  }

  lemma {:induction false} InsertSorted(e: Candidate, s: seq<Candidate>, all: seq<Candidate>)
    requires Sorted(s) && Transitive(all) && e in all && forall x :: x in s ==> x in all && x.order != e.order
    ensures Sorted(Insert(e, s))
  {
    hide Less, Transitive;
    if s != [] {
      CompareIsAntisymmetric(e, s[0]);
      if Less(e, s[0]) {
        forall i | 0 < i < |s| ensures Less(e, s[i]) { Chain(all, e, s[0], s[i]); }
      } else {
        InsertSorted(e, s[1..], all);
        var r := Insert(e, s[1..]);
        forall i | 0 <= i < |r| ensures Less(s[0], r[i]) {
          assert r[i] in multiset(r);
          assert r[i] == e || r[i] in s[1..];
        }
      }
    }
  }

  lemma Chain(all: seq<Candidate>, a: Candidate, b: Candidate, c: Candidate)
    requires Transitive(all) && a in all && b in all && c in all && Less(a, b) && Less(b, c)
    ensures Less(a, c)
  {
  }

  /** Every element of the array has its own place in the list. */
  predicate DistinctOrders(s: seq<Candidate>)
  {
    forall i, j :: 0 <= i < j < |s| ==> s[i].order != s[j].order
  }

  lemma {:induction false} SortArrayIsSorted(s: seq<Candidate>, all: seq<Candidate>)
    requires DistinctOrders(s) && Transitive(all) && forall e :: e in s ==> e in all
    ensures Sorted(SortArray(s))
  {
    hide Less, Transitive, Insert;
    if s != [] {
      SortArrayIsSorted(s[1..], all);
      SameMembers(SortArray(s[1..]), s[1..]);
      InsertSorted(s[0], SortArray(s[1..]), all);
    }
  }

  lemma WithoutFirst<T>(s: seq<T>)
    requires s != []
    ensures multiset(s[1..]) == multiset(s) - multiset{s[0]}
  {
    assert s == [s[0]] + s[1..];
  }

  /** Two sorted arrangements of the same elements are the same. */
  lemma {:induction false} SortedPermutationIsUnique(r: seq<Candidate>, t: seq<Candidate>)
    requires Sorted(r) && Sorted(t) && multiset(r) == multiset(t)
    ensures r == t
  {
    hide Less;
    if r == [] {
      assert |multiset(t)| == 0;
    } else {
      SameMembers(r, t);
      assert r[0] in t && t[0] in r;
      assert r[0] == t[0] by { CompareIsAntisymmetric(r[0], t[0]); }
      WithoutFirst(r);
      WithoutFirst(t);
      SortedPermutationIsUnique(r[1..], t[1..]);
    }
  }

  /** Where everything is in order, the comparator is one. */
  lemma SortedIsTransitive(r: seq<Candidate>)
    requires Sorted(r)
    ensures Transitive(r)
  {
    hide Less;
    forall a, b, c | a in r && b in r && c in r && Less(a, b) && Less(b, c)
      ensures Less(a, c)
    {
      var i :| 0 <= i < |r| && r[i] == a;
      var j :| 0 <= j < |r| && r[j] == b;
      var k :| 0 <= k < |r| && r[k] == c;
      CompareIsAntisymmetric(a, b);
      CompareIsAntisymmetric(b, c);
    }
  }

  /** A list can be sorted exactly when it holds no crossed triple. */
  lemma SortableIff(s: seq<Candidate>)
    requires DistinctOrders(s)
    ensures (exists r :: multiset(r) == multiset(s) && Sorted(r)) <==> Uncrossed(s)
    ensures Uncrossed(s) ==> Sorted(SortArray(s))
  {
    hide Less, Crossed, SortArray, Sorted, Transitive;
    assert Numbered(s);
    TransitiveIff(s);
    if r :| multiset(r) == multiset(s) && Sorted(r) {
      SortedIsTransitive(r);
      SameMembers(s, r);
      SameTransitive(s, r);
    }
    if Uncrossed(s) {
      SortArrayIsSorted(s, s);
    }
  }

  lemma SameTransitive(s: seq<Candidate>, r: seq<Candidate>)
    requires Transitive(r) && forall e :: e in s <==> e in r
    ensures Transitive(s)
  {
    hide Less;
  }

  /** A sort that works on ordered elements sorts exactly the lists without a crossed triple, in one way. */
  lemma SortOutcome(s: seq<Candidate>, sorted: seq<Candidate>)
    requires DistinctOrders(s) && multiset(sorted) == multiset(s)
    requires Transitive(s) ==> Sorted(sorted)
    ensures Sorted(sorted) <==> Uncrossed(s)
    ensures Sorted(sorted) ==> forall r :: multiset(r) == multiset(s) && Sorted(r) ==> r == sorted
  {
    hide Sorted, Transitive, Uncrossed;
    SortableIff(s);
    TransitiveIff(s);
    forall r | multiset(r) == multiset(s) && Sorted(r) && Sorted(sorted)
      ensures r == sorted
    {
      SortedPermutationIsUnique(r, sorted);
    }
  }

  /** Whatever sort is used, a list without a crossed triple has one sorted arrangement. */
  lemma AnySortAgrees(s: seq<Candidate>, r: seq<Candidate>)
    requires DistinctOrders(s) && Uncrossed(s)
    requires multiset(r) == multiset(s) && Sorted(r)
    ensures r == SortArray(s)
  {
    hide Less, Uncrossed, SortArray, Sorted;
    SortableIff(s);
    SortedPermutationIsUnique(r, SortArray(s));
  }
}

/** The list of results is sorted by relinking its nodes (`resolv_rfc6724_sort`). */
module AddrInfoSort {
  import opened Bytes
  import opened Rfc6724

  class AddrInfo {
    const addr: Address
    var next: AddrInfo?

    constructor (addr: Address)
      ensures this.addr == addr && next == null
    {
      this.addr := addr;
      next := null;
    }
  }

  /** What asking the kernel for a source address gives (`_find_src_addr`). */
  datatype Lookup = Fatal | Unreachable(left: Address) | From(src: Address)

  /** Sources exist for internet addresses only, and have the family of their destination. */
  predicate Fits(dst: Address, l: Lookup)
  {
    l.From? ==> (dst.Inet6? && l.src.Inet6?) || (dst.Inet? && l.src.Inet?)
  }

  ghost predicate AllFit(list: seq<AddrInfo>, lookups: seq<Lookup>)
  {
    |list| == |lookups| && forall i :: 0 <= i < |list| ==> Fits(list[i].addr, lookups[i])
  }

  function ElemFor(dst: Address, l: Lookup, order: nat): (e: Candidate)
    requires Fits(dst, l) && !l.Fatal?
    ensures Usable(e)
  {
    if l.From? then Elem(dst, l.src, true, order) else Elem(dst, l.left, false, order)
  }

  ghost function Elems(list: seq<AddrInfo>, lookups: seq<Lookup>): (s: seq<Candidate>)
    requires AllFit(list, lookups) && forall i :: 0 <= i < |lookups| ==> !lookups[i].Fatal?
    ensures |s| == |list| && forall i :: 0 <= i < |s| ==> s[i] == ElemFor(list[i].addr, lookups[i], i)
  {
    seq(|list|, i requires 0 <= i < |list| => ElemFor(list[i].addr, lookups[i], i))
  }

  function At(list: seq<AddrInfo>, i: nat): (n: AddrInfo?)
  {
    if i < |list| then list[i] else null
  }

  ghost predicate Linked(sentinel: AddrInfo, list: seq<AddrInfo>)
    reads sentinel, list
  {
    && sentinel !in list && Distinct(list)
    && sentinel.next == At(list, 0)
    && (forall i {:trigger list[i].next} :: 0 <= i < |list| ==> list[i].next == At(list, i + 1))
  }

  /** The nodes in the order of the sorted elements. */
  function Rearranged(list: seq<AddrInfo>, s: seq<Candidate>): (r: seq<AddrInfo>)
    requires forall i :: 0 <= i < |s| ==> s[i].order < |list|
    ensures |r| == |s| && forall i :: 0 <= i < |s| ==> r[i] == list[s[i].order]
  {
    seq(|s|, i requires 0 <= i < |s| => list[s[i].order])
  }

  /** A permutation of numbered elements still names every place once. */
  lemma OrdersStayDistinct(s: seq<Candidate>, r: seq<Candidate>)
    requires multiset(r) == multiset(s) && forall i :: 0 <= i < |s| ==> s[i].order == i
    ensures |r| == |s| && DistinctOrders(r) && forall i :: 0 <= i < |r| ==> r[i].order < |s|
  {
    assert |multiset(r)| == |multiset(s)|;
    SameMembers(s, r);
    forall i, j | 0 <= i < j < |r| ensures r[i].order != r[j].order {
      assert r[i] in s && r[j] in s;
      if r[i] == r[j] { TwiceIn(r, i, j); OnceIn(s, r[i].order); }
    }
    forall i | 0 <= i < |r| ensures r[i].order < |s| {
      assert r[i] in s;
    }
  }

  /** Relinking neither loses nor adds a node. */
  lemma RearrangedMembers(list: seq<AddrInfo>, s: seq<Candidate>, r: seq<Candidate>)
    requires |s| == |list| && multiset(r) == multiset(s) && forall i :: 0 <= i < |s| ==> s[i].order == i
    requires forall i :: 0 <= i < |r| ==> r[i].order < |list|
    ensures forall x :: x in Rearranged(list, r) <==> x in list
  {
    SameMembers(s, r);
    forall x | x in list ensures x in Rearranged(list, r) {
      var k :| 0 <= k < |list| && list[k] == x;
      assert s[k] in r;
      var i :| 0 <= i < |r| && r[i] == s[k];
      assert Rearranged(list, r)[i] == x;
    }
  }

  lemma TwiceIn(r: seq<Candidate>, i: nat, j: nat)
    requires i < j < |r| && r[i] == r[j]
    ensures multiset(r)[r[i]] >= 2
  {
    assert r == r[..i] + [r[i]] + r[i + 1..j] + [r[j]] + r[j + 1..];
  }

  lemma OnceIn(s: seq<Candidate>, k: nat)
    requires k < |s| && forall i :: 0 <= i < |s| ==> s[i].order == i
    ensures multiset(s)[s[k]] == 1
  {
    assert s == s[..k] + [s[k]] + s[k + 1..];
    assert s[k] !in s[..k] && s[k] !in s[k + 1..];
  }

  /** `qsort`: some arrangement, and a sorted one if the comparator is an order on the elements. */
  method QSort(elems: seq<Candidate>) returns (sorted: seq<Candidate>)
    requires DistinctOrders(elems)
    ensures multiset(sorted) == multiset(elems)
    ensures Transitive(elems) ==> Sorted(sorted)
  {
    hide Transitive, SortArray, Sorted;
    sorted := SortArray(elems);
    if Transitive(elems) { SortArrayIsSorted(elems, elems); }
  }

  /** `resolv_rfc6724_sort`; `sorted` is the array after `qsort`. */
  method Sort(sentinel: AddrInfo, ghost list: seq<AddrInfo>, lookups: seq<Lookup>) returns (sorted: seq<Candidate>)
    requires Linked(sentinel, list) && list != [] && AllFit(list, lookups)
    modifies sentinel, list
    ensures (exists i :: 0 <= i < |lookups| && lookups[i].Fatal?) ==> Linked(sentinel, list)
    ensures (forall i :: 0 <= i < |lookups| ==> !lookups[i].Fatal?) ==>
              var elems := Elems(list, lookups);
              && multiset(sorted) == multiset(elems)
              && (forall i :: 0 <= i < |sorted| ==> sorted[i].order < |list|)
              && Linked(sentinel, Rearranged(list, sorted))
              && (forall x :: x in Rearranged(list, sorted) <==> x in list)
              && (Sorted(sorted) <==> Uncrossed(elems))
              && (NoneMapped(list) ==> Sorted(sorted))
              && (Sorted(sorted) ==> forall r :: multiset(r) == multiset(elems) && Sorted(r) ==> r == sorted)
  {
    hide Rearranged, Mapped, Sorted, Transitive, Uncrossed;
    sorted := [];
    var nelem := Count(sentinel, list);
    var ok, elems, ais := Collect(sentinel, list, nelem, lookups);
    if !ok { return; }
    sorted := QSort(elems);
    OrdersStayDistinct(elems, sorted);
    RearrangedMembers(list, elems, sorted);
    SortFacts(list, lookups, sorted);
    Relink(sentinel, ais, sorted);
  }

  /** What is known of any result of `qsort`. */
  lemma SortFacts(list: seq<AddrInfo>, lookups: seq<Lookup>, sorted: seq<Candidate>)
    requires AllFit(list, lookups) && (forall i :: 0 <= i < |lookups| ==> !lookups[i].Fatal?)
    requires multiset(sorted) == multiset(Elems(list, lookups))
    requires Transitive(Elems(list, lookups)) ==> Sorted(sorted)
    ensures Sorted(sorted) <==> Uncrossed(Elems(list, lookups))
    ensures NoneMapped(list) ==> Sorted(sorted)
    ensures Sorted(sorted) ==>
              forall r :: multiset(r) == multiset(Elems(list, lookups)) && Sorted(r) ==> r == sorted
  {
    hide Sorted, Transitive, Uncrossed, Mapped;
    var elems := Elems(list, lookups);
    SortOutcome(elems, sorted);
    if NoneMapped(list) { NoneMappedElems(list, lookups); }
  }

  /** No destination of the list is an IPv4-mapped address. */
  ghost predicate NoneMapped(list: seq<AddrInfo>)
  {
    forall i :: 0 <= i < |list| && list[i].addr.Inet6? ==> !V4Mapped(list[i].addr.v6)
  }

  lemma NoneMappedElems(list: seq<AddrInfo>, lookups: seq<Lookup>)
    requires AllFit(list, lookups) && (forall i :: 0 <= i < |lookups| ==> !lookups[i].Fatal?) && NoneMapped(list)
    ensures Uncrossed(Elems(list, lookups))
  {
    var elems := Elems(list, lookups);
    assert Numbered(elems);
    assert forall e :: e in elems ==> !Mapped(e) && Usable(e);
    hide Mapped, Transitive, Uncrossed;
    UnmappedIsTransitive(elems);
  }

  method Count(sentinel: AddrInfo, ghost list: seq<AddrInfo>) returns (nelem: nat)
    requires Linked(sentinel, list)
    ensures nelem == |list|
  {
    nelem := 0;
    var cur := sentinel.next;
    while cur != null
      invariant nelem <= |list| && cur == At(list, nelem)
      decreases |list| - nelem
    {
      nelem := nelem + 1;
      cur := cur.next;
    }
  }

  /** The list as an array with the candidate source of every destination; fails on a fatal error. */
  method Collect(sentinel: AddrInfo, ghost list: seq<AddrInfo>, nelem: nat, lookups: seq<Lookup>)
    returns (ok: bool, elems: seq<Candidate>, ais: seq<AddrInfo>)
    requires Linked(sentinel, list) && nelem == |list| && AllFit(list, lookups)
    ensures ok <==> forall i :: 0 <= i < |lookups| ==> !lookups[i].Fatal?
    ensures ok ==> ais == list && elems == Elems(list, lookups)
    ensures ok ==> forall i :: 0 <= i < |elems| ==>
              && elems[i].order == i && elems[i].dst == list[i].addr && elems[i].hasSrc == lookups[i].From?
              && (lookups[i].From? ==> elems[i].src == lookups[i].src)
  {
    elems, ais := [], [];
    var cur := sentinel.next;
    for i := 0 to nelem
      invariant cur == At(list, i) && ais == list[..i] && |elems| == i
      invariant forall k :: 0 <= k < i ==> !lookups[k].Fatal?
      invariant forall k :: 0 <= k < i ==> elems[k] == ElemFor(list[k].addr, lookups[k], k)
    {
      if lookups[i].Fatal? { return false, elems, ais; }
      ais := ais + [cur];
      elems := elems + [ElemFor(cur.addr, lookups[i], i)];
      cur := cur.next;
    }
    ok := true;
  }

  /** Chain the nodes in sorted order. */
  method Relink(sentinel: AddrInfo, ais: seq<AddrInfo>, sorted: seq<Candidate>)
    requires sentinel !in ais && ais != [] && |sorted| == |ais|
    requires Distinct(ais)
    requires DistinctOrders(sorted) && forall i :: 0 <= i < |sorted| ==> sorted[i].order < |ais|
    modifies sentinel, ais
    ensures Linked(sentinel, Rearranged(ais, sorted))
  {
    ghost var chain := Rearranged(ais, sorted);
    assert Distinct(chain);
    sentinel.next := ais[sorted[0].order];
    for i := 0 to |sorted| - 1
      invariant sentinel.next == chain[0]
      invariant forall k {:trigger chain[k].next} :: 0 <= k < i ==> chain[k].next == chain[k + 1]
    {
      ais[sorted[i].order].next := ais[sorted[i + 1].order];
    }
    ais[sorted[|sorted| - 1].order].next := null;
  }
}
