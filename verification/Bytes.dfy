/** Byte-level vocabulary shared by every module of the model. */
module Bytes {

  /** An octet. Kept as an integer so that lengths, offsets and octets mix freely. */
  type byte = b: int | 0 <= b < 256

  datatype Option<+T> = None | Some(value: T)

  /** No element occurs twice. */
  ghost predicate Distinct<T>(s: seq<T>)
  {
    forall i, j :: 0 <= i < j < |s| ==> s[i] != s[j]
  }

  /** The big-endian 16-bit value at offset `p`. */
  function Be16At(s: seq<byte>, p: nat): (v: nat)
    requires p + 2 <= |s|
    ensures v < 0x1_0000
  {
    s[p] as nat * 256 + s[p + 1]
  }

  function Hi(v: nat): (b: byte) { v / 256 % 256 }
  function Lo(v: nat): (b: byte) { v % 256 }

  /** `htons`: the low 16 bits, most significant octet first. */
  function Octets16(v: nat): (r: seq<byte>)
    ensures |r| == 2
  {
    [Hi(v), Lo(v)]
  }

  lemma HiLo(v: nat)
    ensures v < 256 ==> Hi(v) == 0 && Lo(v) == v
    ensures Be16At(Octets16(v), 0) == v % 0x1_0000
  {
    var h, q := v / 256, v / 0x1_0000;
    assert v == h * 256 + v % 256;
    assert h / 256 == q;
    assert h == q * 256 + h % 256;
  }

  /** Reading back what was written. */
  lemma ReadsBack(s: seq<byte>, p: nat, v: nat)
    requires p + 2 <= |s| && s[p..p + 2] == Octets16(v) && v < 0x1_0000
    ensures Be16At(s, p) == v
  {
    hide Hi, Lo;
    HiLo(v);
    assert s[p] == s[p..p + 2][0] && s[p + 1] == s[p..p + 2][1];
  }

  function Min(a: int, b: int): (m: int)
  {
    if a <= b then a else b
  }
}
