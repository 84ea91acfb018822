// Bit and mask arithmetic on IPv4 addresses (kernel/src/utils.c), and the bit strings that index both
// tries.  Addresses are 32-bit words in host byte order.
module Bits {
  const IPV4_BITS: nat := 32

  // A route through a binary trie: false is child[0], true is child[1].
  type Path = seq<bool>

  type Word = x: int | 0 <= x < 0x1_0000_0000
  type Byte = x: int | 0 <= x < 0x100

  // ---------------------------------------------------------------------------
  // The machine operations of utils.c on unsigned 32-bit words

  // x >> n
  function ShiftRight(x: nat, n: nat): nat
    decreases n
  {
    if n == 0 then x else ShiftRight(x / 2, n - 1)
  }

  // x << n, dropping what leaves the word
  function ShiftLeft(x: Word, n: nat): Word {
    if n == 0 then x else (2 * ShiftLeft(x, n - 1)) % 0x1_0000_0000
  }

  // x & y
  function And(x: nat, y: nat): nat {
    if x == 0 then 0 else 2 * And(x / 2, y / 2) + (x % 2) * (y % 2)
  }

  // (ip >> i) & 1, as hcf.c writes it
  function ShiftedBit(ip: nat, i: nat): bool {
    ShiftRight(ip, i) % 2 == 1
  }

  // in4_get_bit: bit 0 is the most significant one.
  function GetBit(ip: Word, bitIndex: nat): bool
    requires bitIndex < IPV4_BITS
  {
    ShiftedBit(ip, IPV4_BITS - 1 - bitIndex)
  }

  // in4_get_masked: the network part of an address.
  function GetMasked(ip: Word, prefixLen: nat): nat
    requires prefixLen <= IPV4_BITS
  {
    if prefixLen == 0 then 0
    else And(ip, ShiftLeft(0xFFFF_FFFF, IPV4_BITS - prefixLen))
  }

  // The first n bits of an address, most significant first.
  function PathOf(ip: Word, n: nat): (p: Path)
    requires n <= IPV4_BITS
    ensures |p| == n
  {
    seq(n, j requires 0 <= j < n => GetBit(ip, j))
  }

  // ---------------------------------------------------------------------------
  // Words are determined by their bits

  ghost function Pow2(n: nat): (p: nat)
    ensures p > 0
  {
    if n == 0 then 1 else 2 * Pow2(n - 1)
  }

  lemma WordSize()
    ensures Pow2(IPV4_BITS) == 0x1_0000_0000
  {
    assert Pow2(8) == 0x100;
    assert Pow2(12) == 0x1000;
    assert Pow2(16) == 0x1_0000;
    assert Pow2(20) == 0x10_0000;
    assert Pow2(24) == 0x100_0000;
    assert Pow2(28) == 0x1000_0000;
  }

  lemma {:induction false} BitsOfAnd(x: nat, y: nat, i: nat)
    ensures ShiftedBit(And(x, y), i) == (ShiftedBit(x, i) && ShiftedBit(y, i))
  {
    if x == 0 {
      BitsOfZero(i);
    } else if i > 0 {
      assert And(x, y) / 2 == And(x / 2, y / 2);
      BitsOfAnd(x / 2, y / 2, i - 1);
    }
  }

  lemma {:induction false} BitsOfZero(i: nat)
    ensures !ShiftedBit(0, i)
  {
    if i > 0 {
      BitsOfZero(i - 1);
    }
  }

  lemma {:induction false} BitsOfOnes(width: nat, ones: nat, i: nat)
    requires ones == Pow2(width) - 1
    ensures ShiftedBit(ones, i) == (i < width)
  {
    if width == 0 {
      BitsOfZero(i);
    } else if i > 0 {
      BitsOfOnes(width - 1, ones / 2, i - 1);
    }
  }

  lemma {:induction false} TopBitDropped(x: nat, width: nat, i: nat)
    requires Pow2(width) <= x && i < width
    ensures ShiftedBit(x - Pow2(width), i) == ShiftedBit(x, i)
  {
    assert (x - Pow2(width)) / 2 == x / 2 - Pow2(width - 1);
    if i > 0 {
      TopBitDropped(x / 2, width - 1, i - 1);
    }
  }

  lemma BitsOfDouble(y: Word, i: nat)
    requires i < IPV4_BITS
    ensures ShiftedBit((2 * y) % 0x1_0000_0000, i) == (i > 0 && ShiftedBit(y, i - 1))
  {
    WordSize();
    var d: nat := 2 * y;
    assert d % 0x1_0000_0000 == if d >= 0x1_0000_0000 then d - 0x1_0000_0000 else d;
    if d >= Pow2(IPV4_BITS) {
      TopBitDropped(d, IPV4_BITS, i);
    }
  }

  lemma {:induction false} BitsOfShiftLeft(x: Word, n: nat, i: nat)
    requires i < IPV4_BITS
    ensures ShiftedBit(ShiftLeft(x, n), i) == (i >= n && ShiftedBit(x, i - n))
  {
    if n > 0 {
      BitsOfDouble(ShiftLeft(x, n - 1), i);
      if i > 0 {
        BitsOfShiftLeft(x, n - 1, i - 1);
      }
    }
  }

  lemma {:induction false} SameBits(x: nat, y: nat, width: nat)
    requires x < Pow2(width) && y < Pow2(width)
    requires forall i: nat | i < width :: ShiftedBit(x, i) == ShiftedBit(y, i)
    ensures x == y
  {
    if width > 0 {
      assert ShiftedBit(x, 0) == ShiftedBit(y, 0);
      forall i: nat | i < width - 1 ensures ShiftedBit(x / 2, i) == ShiftedBit(y / 2, i) {
        assert ShiftedBit(x, i + 1) == ShiftedBit(y, i + 1);
      }
      SameBits(x / 2, y / 2, width - 1);
    }
  }

  // ---------------------------------------------------------------------------
  // Masks, shifts and routes compare the same bits

  lemma MaskedBit(ip: Word, len: nat, i: nat)
    requires len <= IPV4_BITS && i < IPV4_BITS
    ensures ShiftedBit(GetMasked(ip, len), i) == (i >= IPV4_BITS - len && ShiftedBit(ip, i))
  {
    if len == 0 {
      BitsOfZero(i);
    } else {
      var n := IPV4_BITS - len;
      BitsOfAnd(ip, ShiftLeft(0xFFFF_FFFF, n), i);
      BitsOfShiftLeft(0xFFFF_FFFF, n, i);
      if i >= n {
        WordSize();
        BitsOfOnes(IPV4_BITS, 0xFFFF_FFFF, i - n);
      }
    }
  }

  lemma {:induction false} AndBound(x: nat, y: nat)
    ensures And(x, y) <= x
  {
    if x > 0 {
      AndBound(x / 2, y / 2);
    }
  }

  lemma SameMaskGivesSamePath(a: Word, b: Word, n: nat)
    requires n <= IPV4_BITS && GetMasked(a, n) == GetMasked(b, n)
    ensures PathOf(a, n) == PathOf(b, n)
  {
    forall j: nat | j < n ensures GetBit(a, j) == GetBit(b, j) {
      MaskedBit(a, n, IPV4_BITS - 1 - j);
      MaskedBit(b, n, IPV4_BITS - 1 - j);
    }
  }

  lemma SamePathGivesSameMask(a: Word, b: Word, n: nat)
    requires n <= IPV4_BITS && PathOf(a, n) == PathOf(b, n)
    ensures GetMasked(a, n) == GetMasked(b, n)
  {
    forall i: nat | i < IPV4_BITS ensures ShiftedBit(GetMasked(a, n), i) == ShiftedBit(GetMasked(b, n), i) {
      MaskedBit(a, n, i);
      MaskedBit(b, n, i);
      if i >= IPV4_BITS - n {
        assert PathOf(a, n)[IPV4_BITS - 1 - i] == PathOf(b, n)[IPV4_BITS - 1 - i];
      }
    }
    MaskedBound(a, n);
    MaskedBound(b, n);
    SameBits(GetMasked(a, n), GetMasked(b, n), IPV4_BITS);
  }

  lemma MaskedBound(ip: Word, n: nat)
    requires n <= IPV4_BITS
    ensures GetMasked(ip, n) < Pow2(IPV4_BITS)
  {
    WordSize();
    if n > 0 {
      AndBound(ip, ShiftLeft(0xFFFF_FFFF, IPV4_BITS - n));
    }
  }

  // Two addresses agree under a mask exactly when they follow the same route, which is what RFC 4632,
  // section 3.1 means by sharing an n-bit prefix.
  lemma SamePrefixSamePath(a: Word, b: Word, n: nat)
    requires n <= IPV4_BITS
    ensures GetMasked(a, n) == GetMasked(b, n) <==> PathOf(a, n) == PathOf(b, n)
  {
    if GetMasked(a, n) == GetMasked(b, n) {
      SameMaskGivesSamePath(a, b, n);
    }
    if PathOf(a, n) == PathOf(b, n) {
      SamePathGivesSameMask(a, b, n);
    }
  }

  lemma {:induction false} BitsOfShiftRight(x: nat, n: nat, i: nat)
    ensures ShiftedBit(ShiftRight(x, n), i) == ShiftedBit(x, n + i)
  {
    if n > 0 {
      BitsOfShiftRight(x / 2, n - 1, i);
    }
  }

  lemma {:induction false} ShiftRightBound(x: nat, n: nat, width: nat)
    requires n <= width && x < Pow2(width)
    ensures ShiftRight(x, n) < Pow2(width - n)
  {
    if n > 0 {
      ShiftRightBound(x / 2, n - 1, width - 1);
    }
  }

  lemma SameKeyGivesSamePath(a: Word, b: Word)
    requires ShiftRight(a, 8) == ShiftRight(b, 8)
    ensures PathOf(a, 24) == PathOf(b, 24)
  {
    forall j: nat | j < 24 ensures GetBit(a, j) == GetBit(b, j) {
      BitsOfShiftRight(a, 8, 23 - j);
      BitsOfShiftRight(b, 8, 23 - j);
    }
  }

  lemma SamePathGivesSameKey(a: Word, b: Word)
    requires PathOf(a, 24) == PathOf(b, 24)
    ensures ShiftRight(a, 8) == ShiftRight(b, 8)
  {
    forall i: nat | i < 24 ensures ShiftedBit(ShiftRight(a, 8), i) == ShiftedBit(ShiftRight(b, 8), i) {
      BitsOfShiftRight(a, 8, i);
      BitsOfShiftRight(b, 8, i);
      assert PathOf(a, 24)[23 - i] == PathOf(b, 24)[23 - i];
    }
    WordSize();
    ShiftRightBound(a, 8, IPV4_BITS);
    ShiftRightBound(b, 8, IPV4_BITS);
    SameBits(ShiftRight(a, 8), ShiftRight(b, 8), 24);
  }

  // The 24-bit key of the hop-count trie is ip >> 8.
  lemma SameKeySamePath(a: Word, b: Word)
    ensures ShiftRight(a, 8) == ShiftRight(b, 8) <==> PathOf(a, 24) == PathOf(b, 24)
  {
    if ShiftRight(a, 8) == ShiftRight(b, 8) {
      SameKeyGivesSamePath(a, b);
    }
    if PathOf(a, 24) == PathOf(b, 24) {
      SamePathGivesSameKey(a, b);
    }
  }

  // The route of n bits continues the shorter ones.
  lemma PathPrefix(ip: Word, m: nat, n: nat)
    requires m <= n <= IPV4_BITS
    ensures PathOf(ip, n)[..m] == PathOf(ip, m)
  {}

  // ---------------------------------------------------------------------------
  // The same in arithmetic

  // x >> n
  lemma {:induction false} ShiftRightDivides(x: nat, n: nat)
    ensures ShiftRight(x, n) == x / Pow2(n)
  {
    if n > 0 {
      ShiftRightDivides(x / 2, n - 1);
      DivideTwice(x, Pow2(n - 1));
    }
  }

  lemma DivideTwice(x: nat, p: nat)
    requires p > 0
    ensures x / 2 / p == x / (2 * p)
  {
    var q := x / (2 * p);
    assert 2 * p * q <= x < 2 * p * (q + 1);
    assert p * q <= x / 2 < p * (q + 1);
    QuotientIs(x / 2, p, q);
  }

  lemma QuotientIs(x: nat, p: nat, q: nat)
    requires p > 0 && p * q <= x < p * (q + 1)
    ensures x / p == q
  {
    var r := x / p;
    assert p * r <= x < p * (r + 1);
    assert r < q ==> p * (r + 1) <= p * q;
    assert r > q ==> p * (q + 1) <= p * r;
  }

  // Step j of a route is the bit of weight 2^(31 - j).
  lemma RouteBits(ip: Word, n: nat, j: nat)
    requires j < n <= IPV4_BITS
    ensures PathOf(ip, n)[j] <==> (ip / Pow2(IPV4_BITS - 1 - j)) % 2 == 1
  {
    ShiftRightDivides(ip, IPV4_BITS - 1 - j);
  }

  lemma {:induction false} BitsOfMultiple(z: nat, n: nat, i: nat)
    ensures ShiftedBit(z * Pow2(n), i) == (i >= n && ShiftedBit(z, i - n))
  {
    if n > 0 {
      var half := z * Pow2(n - 1);
      assert z * Pow2(n) == 2 * half;
      if i > 0 {
        BitsOfMultiple(z, n - 1, i - 1);
      }
    }
  }

  // The network part of an address is its largest part that is a multiple of 2^(32 - len).
  lemma MaskedArithmetic(ip: Word, len: nat)
    requires len <= IPV4_BITS
    ensures GetMasked(ip, len) == (ip / Pow2(IPV4_BITS - len)) * Pow2(IPV4_BITS - len)
  {
    hide Pow2, GetMasked, ShiftRight, ShiftedBit;
    var n := IPV4_BITS - len;
    var high := ShiftRight(ip, n);
    ShiftRightDivides(ip, n);
    var network := high * Pow2(n);
    forall i: nat | i < IPV4_BITS ensures ShiftedBit(GetMasked(ip, len), i) == ShiftedBit(network, i) {
      MaskedBit(ip, len, i);
      BitsOfMultiple(high, n, i);
      if i >= n {
        BitsOfShiftRight(ip, n, i - n);
      }
    }
    MaskedBound(ip, len);
    WordSize();
    QuotientBound(ip, Pow2(n));
    SameBits(GetMasked(ip, len), network, IPV4_BITS);
  }

  lemma QuotientBound(x: nat, p: nat)
    requires p > 0
    ensures (x / p) * p <= x
  {}
}
