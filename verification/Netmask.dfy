/** Netmask arithmetic: the mask of a prefix length, and the networks it gives the slots. */
module Netmask {
  import opened NetConfig

  function Pow2(k: nat): nat {
    if k == 0 then 1 else 2 * Pow2(k - 1)
  }

  /** `to_be_bytes` of a u32. */
  function BigEndian(word: nat): seq<nat> {
    [word / 256 / 256 / 256, word / 256 / 256 % 256, word / 256 % 256, word % 256]
  }

  /** `netmask_octets`: all ones shifted left within 32 bits. */
  function NetmaskOctets(prefix: nat): seq<nat> {
    var bits := if prefix < 32 then prefix else 32;
    BigEndian(if bits == 0 then 0 else (0xFFFF_FFFF * Pow2(32 - bits)) % 0x1_0000_0000)
  }

  /** An octet of `n` leading ones. */
  function LeadingOnes(n: nat): nat
    requires n <= 8
  {
    [0, 0x80, 0xC0, 0xE0, 0xF0, 0xF8, 0xFC, 0xFE, 0xFF][n]
  }

  /** How many of the ones of a mask fall in its `k`-th octet. */
  function OnesAt(prefix: nat, k: nat): (n: nat)
    ensures n <= 8
  {
    if prefix >= 8 * (k + 1) then 8 else if prefix <= 8 * k then 0 else prefix - 8 * k
  }

  lemma {:induction false} Pow2Sum(a: nat, b: nat)
    ensures Pow2(a + b) == Pow2(a) * Pow2(b)
  {
    if a > 0 {
      Pow2Sum(a - 1, b);
      assert Pow2(a + b) == 2 * (Pow2(a - 1) * Pow2(b));
    }
  }

  lemma SmallPowers()
    ensures Pow2(0) == 1 && Pow2(1) == 2 && Pow2(2) == 4 && Pow2(3) == 8 && Pow2(4) == 16
    ensures Pow2(5) == 32 && Pow2(6) == 64 && Pow2(7) == 128 && Pow2(8) == 256
    ensures Pow2(16) == 0x1_0000 && Pow2(24) == 0x100_0000
  {
    Pow2Sum(8, 8);
    Pow2Sum(16, 8);
  }

  /** `n` leading ones leave the weight of the first zero, as if it carried over. */
  lemma OnesAndWeight(n: nat)
    requires 0 < n <= 8
    ensures LeadingOnes(n) + Pow2(8 - n) == 256 && 1 <= Pow2(8 - n) <= 128
  {
    SmallPowers();
  }

  lemma BigEndianOf(a: nat, b: nat, c: nat, d: nat)
    requires a < 256 && b < 256 && c < 256 && d < 256
    ensures BigEndian(0x100_0000 * a + 0x1_0000 * b + 0x100 * c + d) == [a, b, c, d]
  {
    LowByte(256 * (256 * a + b) + c, d);
    LowByte(256 * a + b, c);
    LowByte(a, b);
  }

  lemma LowByte(m: nat, d: nat)
    requires d < 256
    ensures (256 * m + d) / 256 == m && (256 * m + d) % 256 == d
  {
  }

  /** Shifting all ones clears the low bits. */
  lemma ShiftedOnes(p: nat)
    requires 1 <= p < 0x1_0000_0000
    ensures (0xFFFF_FFFF * p) % 0x1_0000_0000 == 0x1_0000_0000 - p
  {
    RemainderOf(p - 1, 0x1_0000_0000 - p);
  }

  lemma RemainderOf(n: nat, r: nat)
    requires r < 0x1_0000_0000
    ensures (0x1_0000_0000 * n + r) % 0x1_0000_0000 == r
  {
  }

  /** The mask, octet by octet, by the octet its last one is in. `t` is the weight of that one. */
  lemma MaskOf(q: nat, t: nat, k: nat)
    requires k < 4 && 1 <= t <= 128
    requires q == t * (if k == 0 then 0x100_0000 else if k == 1 then 0x1_0000 else if k == 2 then 0x100 else 1)
    ensures BigEndian((0xFFFF_FFFF * q) % 0x1_0000_0000)
         == if k == 0 then [256 - t, 0, 0, 0] else if k == 1 then [255, 256 - t, 0, 0]
            else if k == 2 then [255, 255, 256 - t, 0] else [255, 255, 255, 256 - t]
  {
    ShiftedOnes(q);
    if k == 0 {
      BigEndianOf(256 - t, 0, 0, 0);
    } else if k == 1 {
      BigEndianOf(255, 256 - t, 0, 0);
    } else if k == 2 {
      BigEndianOf(255, 255, 256 - t, 0);
    } else {
      BigEndianOf(255, 255, 255, 256 - t);
    }
  }

  /** For every prefix length the mask is that many ones and then zeros. */
  lemma NetmaskIsLeadingOnes(prefix: nat)
    requires prefix <= 32
    ensures NetmaskOctets(prefix)
         == [LeadingOnes(OnesAt(prefix, 0)), LeadingOnes(OnesAt(prefix, 1)), LeadingOnes(OnesAt(prefix, 2)), LeadingOnes(OnesAt(prefix, 3))]
  {
    if prefix > 0 {
      var k := (prefix - 1) / 8;
      var n := prefix - 8 * k;
      OnesAndWeight(n);
      PowerSplit(8 - n, k);
      MaskOf(Pow2(32 - prefix), Pow2(8 - n), k);
    }
  }

  lemma PowerSplit(r: nat, k: nat)
    requires r < 8 && k < 4
    ensures Pow2(24 - 8 * k + r) == Pow2(r) * (if k == 0 then 0x100_0000 else if k == 1 then 0x1_0000 else if k == 2 then 0x100 else 1)
  {
    SmallPowers();
    Pow2Sum(24 - 8 * k, r);
  }

  /** Bitwise conjunction of the low `n` bits. */
  function AndBits(a: nat, m: nat, n: nat): nat {
    if n == 0 then 0 else 2 * AndBits(a / 2, m / 2, n - 1) + (if a % 2 == 1 && m % 2 == 1 then 1 else 0)
  }

  function AndOctet(a: nat, m: nat): nat {
    AndBits(a, m, 8)
  }

  /** The network an address is in under a mask. */
  function Network(a: seq<nat>, mask: seq<nat>): seq<nat>
    requires IsIp(a) && IsIp(mask)
  {
    [AndOctet(a[0], mask[0]), AndOctet(a[1], mask[1]), AndOctet(a[2], mask[2]), AndOctet(a[3], mask[3])]
  }

  lemma {:induction false} AndOnes(a: nat, n: nat)
    requires a < Pow2(n)
    ensures AndBits(a, Pow2(n) - 1, n) == a
  {
    if n > 0 {
      AndOnes(a / 2, n - 1);
    }
  }

  lemma AndAll(a: nat)
    requires a < 256
    ensures AndOctet(a, 255) == a
  {
    SmallPowers();
    AndOnes(a, 8);
  }

  lemma SlotNetwork(i: nat)
    requires i < 256
    ensures NetmaskOctets(30) == [255, 255, 255, 252]
    ensures Network(HostIp(i), NetmaskOctets(30)) == [10, 107, i, 0]
    ensures Network(GuestIp(i), NetmaskOctets(30)) == [10, 107, i, 0]
  {
    NetmaskIsLeadingOnes(30);
    AndAll(10);
    AndAll(107);
    AndAll(i);
    assert AndOctet(1, 252) == 0 && AndOctet(2, 252) == 0;
  }

  /** The mask computed for a slot's prefix puts the two ends of its link in one network, and the
      links of two slots in different ones. */
  lemma {:induction false} OneNetworkPerSlot(i: nat, j: nat)
    requires i < 256 && j < 256
    ensures IsIp(NetmaskOctets(30))
    ensures Network(HostIp(i), NetmaskOctets(30)) == Network(GuestIp(j), NetmaskOctets(30)) <==> i == j
  {
    SlotNetwork(i);
    SlotNetwork(j);
    assert [10, 107, i, 0][2] == i && [10, 107, j, 0][2] == j;
  }
}
