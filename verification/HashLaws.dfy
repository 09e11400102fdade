/**
  The hash of the octets that a walk feeds (res_cache.cpp): each octet is one FNV step, and a step
  loses nothing, so octets that differ in one place only never collide.
 */
module HashLaws {
  import opened Bytes
  import opened PacketSpec

  /** Exclusive or, bit by bit. */
  lemma XorBits(a: nat, b: nat)
    ensures Xor(a, b) % 2 == (a + b) % 2
    ensures Xor(a, b) / 2 == Xor(a / 2, b / 2)
  {
    ParityOfSum(a, b);
    var bit := if a % 2 == b % 2 then 0 else 1;
    LastBit(Xor(a, b), bit, Xor(a / 2, b / 2));
  }

  lemma LastBit(x: nat, bit: nat, r: nat)
    requires bit < 2 && x == bit + 2 * r
    ensures x % 2 == bit && x / 2 == r
  {
  }

  lemma ParityOfSum(a: nat, b: nat)
    ensures (a + b) % 2 == if a % 2 == b % 2 then 0 else 1
  {
    var x, y := a / 2, b / 2;
    assert a + b == 2 * (x + y) + a % 2 + b % 2;
  }

  lemma {:induction false} XorCancels(a: nat, b: nat, c: nat)
    requires Xor(a, c) == Xor(b, c)
    ensures a == b
    decreases a + b + c
  {
    hide Xor;
    XorBits(a, c);
    XorBits(b, c);
    if a + b + c > 0 {
      XorCancels(a / 2, b / 2, c / 2);
    }
  }

  lemma {:induction false} XorCommutes(a: nat, b: nat)
    ensures Xor(a, b) == Xor(b, a)
    decreases a + b
  {
    hide Xor;
    XorBits(a, b);
    XorBits(b, a);
    if a + b > 0 {
      XorCommutes(a / 2, b / 2);
    }
  }

  function Power2(k: nat): (r: nat)
    ensures r > 0
  {
    if k == 0 then 1 else 2 * Power2(k - 1)
  }

  lemma {:induction false} XorBelow(a: nat, b: nat, k: nat)
    requires a < Power2(k) && b < Power2(k)
    ensures Xor(a, b) < Power2(k)
    decreases k
  {
    if k > 0 {
      XorBelow(a / 2, b / 2, k - 1);
      XorBits(a, b);
    }
  }

  lemma WordIsPower()
    ensures Power2(32) == WORD
  {
    assert Power2(8) == 256;
    assert Power2(16) == 256 * Power2(8);
    assert Power2(24) == 256 * Power2(16);
    assert Power2(32) == 256 * Power2(24);
  }

  /** A step of the hash stays within 32 bits. */
  lemma MixBelow(h: nat, b: byte)
    ensures Mix(h, b) < WORD
  {
    hide Xor, Power2;
    WordIsPower();
    XorBelow((h * FNV_MULT) % WORD, b, 32);
  }

  /** Multiplying by the FNV prime can be undone modulo 2^32. */
  lemma MultiplyCancels(h: nat, g: nat)
    requires h < WORD && g < WORD && (h * FNV_MULT) % WORD == (g * FNV_MULT) % WORD
    ensures h == g
  {
    var x, y := h * FNV_MULT, g * FNV_MULT;
    var q := x / WORD - y / WORD;
    assert x - y == q * WORD;
    var d := h - g;
    assert d * FNV_MULT == q * WORD;
    assert FNV_MULT * 899433627 == 3513497 * WORD + 1;
    var m := q * 899433627 - d * 3513497;
    assert d == WORD * m;
    assert -1 < m < 1;
  }

  /** A step keeps different hashes apart, and different octets. */
  lemma MixCancels(h: nat, g: nat, b: byte, c: byte)
    requires h < WORD && g < WORD && Mix(h, b) == Mix(g, c) && (h == g || b == c)
    ensures h == g && b == c
  {
    hide Xor;
    var x, y := (h * FNV_MULT) % WORD, (g * FNV_MULT) % WORD;
    if h == g {
      XorCommutes(x, b);
      XorCommutes(x, c);
      XorCancels(b, c, x);
    } else {
      XorCancels(x, y, b);
      MultiplyCancels(h, g);
    }
  }

  lemma {:induction false} FnvBelow(a: seq<byte>)
    ensures Fnv(a) < WORD
  {
    hide Mix;
    if a != [] {
      MixBelow(Fnv(a[..|a| - 1]), a[|a| - 1]);
    }
  }

  /** Octets that differ in exactly one place have different hashes. */
  lemma {:induction false} OneOctetMatters(a: seq<byte>, b: seq<byte>, i: nat)
    requires |a| == |b| && i < |a| && a[i] != b[i]
    requires forall j :: 0 <= j < |a| && j != i ==> a[j] == b[j]
    ensures Fnv(a) != Fnv(b)
    decreases |a|
  {
    hide Mix;
    var n := |a| - 1;
    FnvBelow(a[..n]);
    FnvBelow(b[..n]);
    if i == n {
      assert a[..n] == b[..n];
    } else {
      OneOctetMatters(a[..n], b[..n], i);
    }
    if Fnv(a) == Fnv(b) {
      MixCancels(Fnv(a[..n]), Fnv(b[..n]), a[n], b[n]);
    }
  }
}
