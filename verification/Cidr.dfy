/** IP networks as `cidr.py` uses them: a prefix (section 3.1 of RFC 4632) stands for all addresses that
    agree with it on its leading bits, and normalisation clears the other bits. */
module Cidr {
  import opened Powers

  datatype Family = V4 | V6

  datatype Address = Address(family: Family, bits: nat)

  datatype Network = Network(family: Family, base: nat, prefix: nat)

  function Width(f: Family): nat {
    match f
    case V4 => 32
    case V6 => 128
  }

  predicate IsAddress(a: Address) {
    a.bits < Pow2(Width(a.family))
  }

  /** A written prefix, possibly with host bits set. */
  predicate IsWritten(n: Network) {
    n.prefix <= Width(n.family) && n.base < Pow2(Width(n.family))
  }

  function Size(n: Network): (size: nat)
    requires n.prefix <= Width(n.family)
    ensures size >= 1
  {
    Pow2(Width(n.family) - n.prefix)
  }

  predicate IsNetwork(n: Network) {
    IsWritten(n) && Floor(n.base, Size(n)) == n.base
  }

  /** The largest multiple of `d` up to `x`; for a power of two, `x` with its low bits cleared. */
  function Floor(x: nat, d: nat): nat
    requires d >= 1
  {
    MultipleIsNat(d, x / d);
    d * (x / d)
  }

  lemma MultipleIsNat(d: nat, q: nat)
    ensures d * q >= 0
  {
  }

  /** `ip_network(..., strict=False)`: the host bits are cleared. */
  function Masked(n: Network): Network
    requires n.prefix <= Width(n.family)
  {
    n.(base := Floor(n.base, Size(n)))
  }

  /** `address in network`: clear the host bits of the address and compare. */
  predicate Contains(n: Network, a: Address)
    requires n.prefix <= Width(n.family)
  {
    a.family == n.family && Floor(a.bits, Size(n)) == n.base
  }

  function Bit(x: nat, k: nat): nat {
    x / Pow2(k) % 2
  }

  predicate BitsAgree(x: nat, y: nat, from: nat, upTo: nat) {
    forall k :: from <= k < upTo ==> Bit(x, k) == Bit(y, k)
  }

  /** The meaning of a written prefix: the address has its leading bits. */
  predicate LeadingBits(n: Network, a: Address)
    requires n.prefix <= Width(n.family)
  {
    a.family == n.family && BitsAgree(a.bits, n.base, Width(n.family) - n.prefix, Width(n.family))
  }

  // ---------------------------------------------------------------------------- division

  lemma {:induction false} MultipleIsLarge(d: nat, k: int)
    requires d >= 1 && k >= 1
    ensures d * k >= d
  {
    if k > 1 {
      MultipleIsLarge(d, k - 1);
      assert d * k == d * (k - 1) + d;
    }
  }

  lemma Distributes(d: int, p: int, q: int)
    ensures d * (p - q) == d * p - d * q
  {
  }

  lemma RemaindersDiffer(d: nat, p: int, q: int, r: int, s: int)
    requires 0 <= r < d && 0 <= s < d && d * p + s == d * q + r
    ensures p <= q
  {
    if p > q {
      MultipleIsLarge(d, p - q);
      Distributes(d, p, q);
    }
  }

  lemma QuotientIs(x: nat, d: nat, q: nat, r: nat)
    requires d >= 1 && x == d * q + r && r < d
    ensures x / d == q && x % d == r
  {
    RemaindersDiffer(d, x / d, q, r, x % d);
    RemaindersDiffer(d, q, x / d, x % d, r);
  }

  lemma Halving(x: nat, d: nat)
    requires d >= 1
    ensures x / (2 * d) == x / d / 2
  {
    var q, r := x / d, x % d;
    var h, b := q / 2, q % 2;
    assert x == d * q + r;
    assert d * q == d * (2 * h + b) == 2 * d * h + d * b;
    QuotientIs(x, 2 * d, h, d * b + r);
  }

  lemma FloorIs(x: nat, d: nat)
    requires d >= 1
    ensures Floor(x, d) <= x < Floor(x, d) + d
    ensures Floor(x, d) / d == x / d && Floor(Floor(x, d), d) == Floor(x, d)
  {
    QuotientIs(Floor(x, d), d, x / d, 0);
  }

  lemma SameBlock(x: nat, base: nat, d: nat)
    requires d >= 1 && Floor(base, d) == base <= x < base + d
    ensures Floor(x, d) == base
  {
    QuotientIs(x, d, base / d, x - base);
  }

  lemma SameQuotient(x: nat, y: nat, d: nat)
    requires d >= 1
    ensures x / d == y / d <==> Floor(x, d) == Floor(y, d)
  {
    FloorIs(x, d);
    FloorIs(y, d);
  }

  /** Equal bits from `m` up and equal quotients by 2^m are the same thing. */
  lemma {:induction false} HighBits(x: nat, y: nat, m: nat, w: nat)
    requires m <= w && x < Pow2(w) && y < Pow2(w)
    ensures BitsAgree(x, y, m, w) <==> x / Pow2(m) == y / Pow2(m)
    decreases w - m
  {
    if m == w {
      QuotientIs(x, Pow2(w), 0, x);
      QuotientIs(y, Pow2(w), 0, y);
    } else {
      HighBits(x, y, m + 1, w);
      Halving(x, Pow2(m));
      Halving(y, Pow2(m));
      assert Pow2(m + 1) == 2 * Pow2(m);
      assert BitsAgree(x, y, m, w) <==> Bit(x, m) == Bit(y, m) && BitsAgree(x, y, m + 1, w);
    }
  }

  // ------------------------------------------------------------------------- main results

  /** Normalisation keeps the address set: the network holds exactly the addresses with the leading bits
      of what was written, and normalising again changes nothing. */
  lemma MaskingKeepsAddresses(n: Network, a: Address)
    requires IsWritten(n) && IsAddress(a)
    ensures IsNetwork(Masked(n)) && Masked(Masked(n)) == Masked(n)
    ensures Contains(Masked(n), a) <==> LeadingBits(n, a)
    ensures LeadingBits(Masked(n), a) <==> LeadingBits(n, a)
  {
    FloorIs(n.base, Size(n));
    if a.family == n.family {
      HighBits(a.bits, n.base, Width(n.family) - n.prefix, Width(n.family));
      HighBits(a.bits, Masked(n).base, Width(n.family) - n.prefix, Width(n.family));
      SameQuotient(a.bits, n.base, Size(n));
    }
  }

  /** A network is the block of `Size` addresses from its base. */
  lemma ContainsIsRange(n: Network, a: Address)
    requires IsNetwork(n) && a.family == n.family
    ensures Contains(n, a) <==> n.base <= a.bits < n.base + Size(n)
  {
    FloorIs(a.bits, Size(n));
    if n.base <= a.bits < n.base + Size(n) {
      SameBlock(a.bits, n.base, Size(n));
    }
  }

  lemma LastAddress(n: Network)
    requires IsNetwork(n)
    ensures n.base + Size(n) <= Pow2(Width(n.family))
  {
    var d, q, all := Size(n), n.base / Size(n), Pow2(n.prefix);
    PowerSplits(n.prefix, Width(n.family) - n.prefix);
    FewerBlocks(d, q, all);
  }

  lemma FewerBlocks(d: nat, q: nat, all: nat)
    requires d >= 1 && d * q < all * d
    ensures d * q + d <= all * d
  {
    if q >= all {
      MultipleIsLarge(d, q - all + 1);
      Distributes(d, q + 1, all);
    } else {
      MultipleIsLarge(d, all - q);
      Distributes(d, all, q);
    }
  }

  lemma {:induction false} PowerSplits(a: nat, b: nat)
    ensures Pow2(a) * Pow2(b) == Pow2(a + b)
  {
    if a > 0 {
      PowerSplits(a - 1, b);
      assert Pow2(a) * Pow2(b) == 2 * (Pow2(a - 1) * Pow2(b));
    }
  }

  ghost predicate Covers(n: Network, m: Network)
    requires IsNetwork(n) && IsNetwork(m)
  {
    forall a :: IsAddress(a) && Contains(m, a) ==> Contains(n, a)
  }

  lemma CoveringIsWider(n: Network, m: Network)
    requires IsNetwork(n) && IsNetwork(m) && Covers(n, m)
    ensures n.family == m.family && n.base <= m.base && m.base + Size(m) <= n.base + Size(n)
  {
    LastAddress(m);
    var first, last := Address(m.family, m.base), Address(m.family, m.base + Size(m) - 1);
    ContainsIsRange(m, first);
    ContainsIsRange(m, last);
    assert Contains(n, first) && Contains(n, last);
    ContainsIsRange(n, first);
    ContainsIsRange(n, last);
  }

  /** Two normalised networks are written alike exactly when they hold the same addresses, so removing
      duplicates by text removes every duplicate by meaning. */
  lemma NetworkIsItsAddresses(n: Network, m: Network)
    requires IsNetwork(n) && IsNetwork(m)
    ensures n == m <==> Covers(n, m) && Covers(m, n)
  {
    if Covers(n, m) && Covers(m, n) {
      CoveringIsWider(n, m);
      CoveringIsWider(m, n);
      var w := Width(n.family);
      if n.prefix < m.prefix {
        Pow2Monotone(w - m.prefix, w - n.prefix);
      } else if m.prefix < n.prefix {
        Pow2Monotone(w - n.prefix, w - m.prefix);
      }
    }
  }
}
