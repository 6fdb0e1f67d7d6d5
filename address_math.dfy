/**
 * Address arithmetic of updater/updater.go: the EUI-64 host identifier
 * (SlaacBits), low-bit masking (MaskIP, through Go's net.CIDRMask and
 * net.IP.Mask) and big-endian byte addition with carry (AddIP).
 *
 * Addresses are the raw byte sequences Go hands around; an address is read
 * as an unsigned big-endian number through Value, and bit j of an address is
 * its j-th least significant bit. Go's bitwise operators on bytes are
 * written out arithmetically (And, FlipUniversalLocal) and characterised
 * bit by bit.
 */
module AddressMath {
  import opened Net

  // ---------------------------------------------------------------------
  // Bits of a number
  // ---------------------------------------------------------------------

  /** Bit b of x, bit 0 being the least significant. */
  predicate NatBit(x: nat, b: nat)
  {
    if b == 0 then x % 2 == 1 else NatBit(x / 2, b - 1)
  }

  function Pow2(n: nat): (r: nat)
    ensures r >= 1
  {
    if n == 0 then 1 else 2 * Pow2(n - 1)
  }

  lemma {:induction false} ZeroHasNoBits(b: nat)
    ensures !NatBit(0, b)
  {
    if b > 0 {
      ZeroHasNoBits(b - 1);
    }
  }

  /** Two numbers below 2^n with the same n low bits are equal. */
  lemma {:induction false} BitsDetermine(x: nat, y: nat, n: nat)
    requires x < Pow2(n) && y < Pow2(n)
    requires forall b: nat :: b < n ==> (NatBit(x, b) <==> NatBit(y, b))
    ensures x == y
  {
    if n > 0 {
      forall b: nat | b < n - 1
        ensures NatBit(x / 2, b) <==> NatBit(y / 2, b)
      {
        assert NatBit(x, b + 1) <==> NatBit(y, b + 1);
      }
      BitsDetermine(x / 2, y / 2, n - 1);
      assert NatBit(x, 0) <==> NatBit(y, 0);
    }
  }

  /** Go's `&`: bitwise AND of two naturals. */
  function And(x: nat, y: nat): (r: nat)
    ensures r <= x && r <= y
    decreases x
  {
    if x == 0 || y == 0 then 0
    else 2 * And(x / 2, y / 2) + (if x % 2 == 1 && y % 2 == 1 then 1 else 0)
  }

  /** A bit of x & y is set exactly when it is set in both. */
  lemma {:induction false} AndBit(x: nat, y: nat, b: nat)
    ensures NatBit(And(x, y), b) <==> NatBit(x, b) && NatBit(y, b)
    decreases x
  {
    if x == 0 || y == 0 {
      ZeroHasNoBits(b);
    } else if b > 0 {
      AndBit(x / 2, y / 2, b - 1);
      assert And(x, y) / 2 == And(x / 2, y / 2);
    }
  }

  // ---------------------------------------------------------------------
  // EUI-64 (section 2.5.1 and Appendix A of RFC 4291)
  // ---------------------------------------------------------------------

  /** Go's `x ^ 2` on a byte: inverts bit 1, the universal/local bit of a MAC's first octet. */
  function FlipUniversalLocal(x: byte): byte
  {
    if (x / 2) % 2 == 1 then x - 2 else x + 2
  }

  /** XOR with 2 inverts bit 1 and keeps every other bit; doing it twice restores the byte. */
  lemma FlipUniversalLocalBits(x: byte, b: nat)
    ensures NatBit(FlipUniversalLocal(x), b) <==> (if b == 1 then !NatBit(x, 1) else NatBit(x, b))
    ensures FlipUniversalLocal(FlipUniversalLocal(x)) == x
  {
    var y := FlipUniversalLocal(x);
    if b >= 2 {
      assert (y / 2) / 2 == (x / 2) / 2;
      assert NatBit(y, b) == NatBit((y / 2) / 2, b - 2);
      assert NatBit(x, b) == NatBit((x / 2) / 2, b - 2);
    }
  }

  /**
   * The 16-byte value whose low 64 bits are the modified EUI-64 interface
   * identifier of `mac`: ff:fe inserted after the third octet and the
   * universal/local bit of the first octet inverted. Go indexes mac[0] to
   * mac[5], so a shorter address would panic.
   */
  function SlaacBits(mac: seq<byte>): (r: IP)
    requires |mac| >= 6
    ensures |r| == 16
    ensures forall i :: 0 <= i < 8 ==> r[i] == 0
    ensures r[11] == 0xff && r[12] == 0xfe
    ensures r[9..11] == mac[1..3] && r[13..] == mac[3..6]
  {
    [0, 0, 0, 0,
     0, 0, 0, 0,
     FlipUniversalLocal(mac[0]), mac[1], mac[2], 0xff,
     0xfe, mac[3], mac[4], mac[5]]
  }

  /** Recovers the 48-bit hardware address from a modified EUI-64 identifier in the low 8 bytes. */
  function MacOfInterfaceId(iid: IP): (mac: seq<byte>)
    requires |iid| == 16
    ensures |mac| == 6
  {
    [FlipUniversalLocal(iid[8]), iid[9], iid[10], iid[13], iid[14], iid[15]]
  }

  /** The derivation loses nothing of the first six octets of the hardware address. */
  lemma SlaacBitsRoundTrip(mac: seq<byte>)
    requires |mac| >= 6
    ensures MacOfInterfaceId(SlaacBits(mac)) == mac[..6]
  {
    FlipUniversalLocalBits(mac[0], 0);
  }

  lemma SlaacBitsExample()
    ensures SlaacBits([0x11, 0x22, 0x33, 0x44, 0x55, 0x66])
         == [0, 0, 0, 0, 0, 0, 0, 0, 0x13, 0x22, 0x33, 0xff, 0xfe, 0x44, 0x55, 0x66]
  {
  }

  // ---------------------------------------------------------------------
  // Masking
  // ---------------------------------------------------------------------

  /**
   * One byte of a CIDR mask whose k leading bits (k clipped to 0..8) are
   * ones: each further one is the top bit, the others shift right.
   */
  function LeadingOnes(k: int): byte
    decreases k
  {
    if k <= 0 then 0 else if k > 8 then 0xff else 0x80 + LeadingOnes(k - 1) / 2
  }

  /** Adding 2^n to a number below 2^n sets bit n and keeps every other bit. */
  lemma {:induction false} TopBitPlus(n: nat, z: nat, b: nat)
    requires z < Pow2(n)
    ensures NatBit(Pow2(n) + z, b) <==> b == n || NatBit(z, b)
  {
    if n == 0 {
      if b > 0 {
        ZeroHasNoBits(b - 1);
      }
    } else if b > 0 {
      assert (Pow2(n) + z) / 2 == Pow2(n - 1) + z / 2;
      TopBitPlus(n - 1, z / 2, b - 1);
    }
  }

  /** The byte with k leading ones has exactly bits 8 - k to 7 set. */
  lemma {:induction false} LeadingOnesBits(k: int, b: nat)
    requires b < 8
    ensures NatBit(LeadingOnes(k), b) <==> b >= 8 - k
    decreases k
  {
    if k <= 0 {
      ZeroHasNoBits(b);
    } else if k > 8 {
      assert LeadingOnes(8) == 0xff;
      LeadingOnesBits(8, b);
    } else {
      var y := LeadingOnes(k - 1);
      assert Pow2(7) == 0x80;
      TopBitPlus(7, y / 2, b);
      if b < 7 {
        LeadingOnesBits(k - 1, b + 1);
      }
    }
  }

  /**
   * net.CIDRMask(ones, bits): nil unless bits is 32 or 128 and 0 <= ones <= bits;
   * otherwise bits/8 bytes whose first `ones` bits are set.
   */
  function CIDRMask(ones: int, bits: int): (m: seq<byte>)
    ensures m != [] <==> (bits == 32 || bits == 128) && 0 <= ones <= bits
    ensures m != [] ==> |m| == bits / 8
  {
    if (bits != 32 && bits != 128) || ones < 0 || ones > bits then []
    else seq(bits / 8, i requires 0 <= i < bits / 8 => LeadingOnes(ones - 8 * i))
  }

  /**
   * net.IP.Mask: a 16-byte mask whose first 12 bytes are all ones is
   * shortened for a 4-byte address, a 16-byte IPv4-mapped address is
   * shortened for a 4-byte mask, and lengths that still differ give nil.
   */
  function ApplyMask(ip: IP, mask: seq<byte>): (r: IP)
    ensures |ip| == |mask| ==> |r| == |ip|
    ensures |ip| == 16 && |mask| == 4 && ip[..12] == V4InV6Prefix ==> |r| == 4
    ensures |ip| == 4 && |mask| == 16 && mask[..12] == seq(12, _ => 0xff) ==> |r| == 4
    ensures (|ip| != |mask| && !(|ip| == 16 && |mask| == 4 && ip[..12] == V4InV6Prefix) &&
             !(|ip| == 4 && |mask| == 16 && mask[..12] == seq(12, _ => 0xff))) ==> r == []
  {
    var mask' := if |mask| == 16 && |ip| == 4 && mask[..12] == seq(12, _ => 0xff) then mask[12..] else mask;
    var ip' := if |mask'| == 4 && |ip| == 16 && ip[..12] == V4InV6Prefix then ip[12..] else ip;
    if |ip'| != |mask'| then []
    else seq(|ip'|, i requires 0 <= i < |ip'| => And(ip'[i], mask'[i]))
  }

  /** The mask width MaskIP accepts for `ip`: a 4- or 16-byte address and 0 <= n <= its bit count. */
  predicate MaskInRange(ip: IP, n: int)
  {
    (|ip| == 4 || |ip| == 16) && 0 <= n <= 8 * |ip|
  }

  /** MaskIP zeroes the `mask` low bits of `ip`; outside MaskInRange, CIDRMask gives nil and so does MaskIP. */
  function MaskIP(ip: IP, mask: int): (r: IP)
    ensures MaskInRange(ip, mask) ==> |r| == |ip|
    ensures !MaskInRange(ip, mask) ==> r == []
  {
    ApplyMask(ip, CIDRMask(|ip| * 8 - mask, |ip| * 8))
  }

  /** Bit j of an address, counted from the least significant bit of its last byte. */
  predicate Bit(ip: IP, j: nat)
    requires j < 8 * |ip|
  {
    NatBit(ip[|ip| - 1 - j / 8], j % 8)
  }

  /** When mask and address have the same 4- or 16-byte length, IP.Mask is a bytewise AND. */
  lemma ApplyMaskSameLength(ip: IP, mask: seq<byte>)
    requires |ip| == |mask| && (|ip| == 4 || |ip| == 16)
    ensures ApplyMask(ip, mask) == seq(|ip|, i requires 0 <= i < |ip| => And(ip[i], mask[i]))
  {
  }

  /** Byte i of a masked address is the address byte ANDed with the i-th mask byte. */
  lemma MaskIPByte(ip: IP, n: int, i: nat)
    requires MaskInRange(ip, n) && i < |ip|
    ensures MaskIP(ip, n)[i] == And(ip[i], LeadingOnes(8 * |ip| - n - 8 * i))
  {
    var mask := CIDRMask(|ip| * 8 - n, |ip| * 8);
    assert |mask| == |ip|;
    assert mask[i] == LeadingOnes(|ip| * 8 - n - 8 * i);
    ApplyMaskSameLength(ip, mask);
  }

  /** For 0 <= n <= 8*len, MaskIP keeps the length, clears bits 0..n-1 and keeps every other bit. */
  lemma MaskIPBits(ip: IP, n: int)
    requires MaskInRange(ip, n)
    ensures |MaskIP(ip, n)| == |ip|
    ensures forall j :: 0 <= j < 8 * |ip| ==> (Bit(MaskIP(ip, n), j) <==> j >= n && Bit(ip, j))
  {
    var r := MaskIP(ip, n);
    forall j | 0 <= j < 8 * |ip|
      ensures Bit(r, j) <==> j >= n && Bit(ip, j)
    {
      var i := |ip| - 1 - j / 8;
      var k := 8 * |ip| - n - 8 * i;
      MaskIPByte(ip, n, i);
      AndBit(ip[i], LeadingOnes(k), j % 8);
      LeadingOnesBits(k, j % 8);
      assert j % 8 >= 8 - k <==> j >= n;
    }
  }

  /** ANDing with 0xff keeps a byte. */
  lemma AndAllOnes(x: byte)
    ensures And(x, 0xff) == x
  {
    forall b: nat | b < 8
      ensures NatBit(And(x, 0xff), b) <==> NatBit(x, b)
    {
      AndBit(x, 0xff, b);
      LeadingOnesBits(9, b);
    }
    assert Pow2(8) == 256;
    assert LeadingOnes(8) == 0xff;
    BitsDetermine(And(x, 0xff), x, 8);
  }

  /** Mask width 0 leaves an IPv4 or IPv6 address unchanged. */
  lemma MaskIPZero(ip: IP)
    requires |ip| == 4 || |ip| == 16
    ensures MaskIP(ip, 0) == ip
  {
    var r := MaskIP(ip, 0);
    forall i | 0 <= i < |ip|
      ensures r[i] == ip[i]
    {
      MaskIPByte(ip, 0, i);
      AndAllOnes(ip[i]);
    }
  }

  /** With the whole width masked the address becomes all zeros. */
  lemma MaskIPFull(ip: IP)
    requires |ip| == 4 || |ip| == 16
    ensures MaskIP(ip, 8 * |ip|) == seq(|ip|, _ => 0)
  {
    var r := MaskIP(ip, 8 * |ip|);
    forall i | 0 <= i < |ip|
      ensures r[i] == 0
    {
      MaskIPByte(ip, 8 * |ip|, i);
    }
  }

  /** MaskIP of a 4-byte address, byte by byte. */
  lemma MaskIPFour(ip: IP, n: int)
    requires |ip| == 4 && 0 <= n <= 32
    ensures MaskIP(ip, n) == [And(ip[0], LeadingOnes(32 - n)), And(ip[1], LeadingOnes(24 - n)),
                              And(ip[2], LeadingOnes(16 - n)), And(ip[3], LeadingOnes(8 - n))]
  {
    var r := MaskIP(ip, n);
    MaskIPByte(ip, n, 0);
    MaskIPByte(ip, n, 1);
    MaskIPByte(ip, n, 2);
    MaskIPByte(ip, n, 3);
    assert |r| == 4;
  }

  /** An IPv4 mask narrower than a byte keeps the first three bytes and ANDs the last with m. */
  lemma MaskIPLastByte(a: byte, b: byte, c: byte, d: byte, n: int)
    requires 0 <= n <= 8
    ensures MaskIP([a, b, c, d], n) == [a, b, c, And(d, LeadingOnes(8 - n))]
  {
    MaskIPFour([a, b, c, d], n);
    assert LeadingOnes(32 - n) == LeadingOnes(24 - n) == LeadingOnes(16 - n) == 0xff;
    AndAllOnes(a);
    AndAllOnes(b);
    AndAllOnes(c);
  }

  /** An IPv4 mask of 8 to 16 bits keeps the first two bytes, ANDs the third with m and clears the last. */
  lemma MaskIPThirdByte(a: byte, b: byte, c: byte, d: byte, n: int)
    requires 8 <= n <= 16
    ensures MaskIP([a, b, c, d], n) == [a, b, And(c, LeadingOnes(16 - n)), 0]
  {
    MaskIPFour([a, b, c, d], n);
    assert LeadingOnes(32 - n) == LeadingOnes(24 - n) == 0xff;
    assert LeadingOnes(8 - n) == 0;
    AndAllOnes(a);
    AndAllOnes(b);
  }

  /** Masking the low 8 bits of 192.168.12.34 gives 192.168.12.0. */
  lemma MaskIPExampleByte()
    ensures MaskIP([192, 168, 12, 34], 8) == [192, 168, 12, 0]
  {
    MaskIPLastByte(192, 168, 12, 34, 8);
    assert LeadingOnes(0) == 0;
  }

  lemma LeadingOnesFour()
    ensures LeadingOnes(4) == 0xf0
  {
    assert LeadingOnes(1) == 0x80;
    assert LeadingOnes(2) == 0xc0;
    assert LeadingOnes(3) == 0xe0;
  }

  lemma NibbleAnd()
    ensures And(86, LeadingOnes(4)) == 80
  {
    LeadingOnesFour();
    assert And(1, 3) == 1;
    assert And(2, 7) == 2;
    assert And(5, 15) == 5;
    assert And(10, 30) == 10;
    assert And(21, 60) == 20;
    assert And(43, 120) == 40;
  }

  /** Masking the low 12 bits of 192.168.86.34 gives 192.168.80.0. */
  lemma MaskIPExampleNibble()
    ensures MaskIP([192, 168, 86, 34], 12) == [192, 168, 80, 0]
  {
    MaskIPThirdByte(192, 168, 86, 34, 12);
    NibbleAnd();
  }
  lemma MaskIPExampleZero()
    ensures MaskIP([192, 168, 12, 34], 0) == [192, 168, 12, 34]
  {
    MaskIPZero([192, 168, 12, 34]);
  }

  // ---------------------------------------------------------------------
  // Addition
  // ---------------------------------------------------------------------

  /** fromRight: the byte `place` positions from the right, 0 beyond the left end. */
  function FromRight(ip: IP, place: nat): byte
  {
    if place >= |ip| then 0 else ip[|ip| - place - 1]
  }

  function Pow256(n: nat): (r: nat)
    ensures r >= 1
  {
    if n == 0 then 1 else 256 * Pow256(n - 1)
  }

  /** Reading from the right, an address and its zero-extension to the left agree at every place. */
  lemma FromRightZeroExtends(ip: IP, k: nat, place: nat)
    ensures FromRight(seq(k, _ => 0) + ip, place) == FromRight(ip, place)
  {
    var z: IP := seq(k, _ => 0) + ip;
    if place < |ip| {
      assert z[|z| - place - 1] == ip[|ip| - place - 1];
    }
  }

  /** The number formed by the `p` rightmost bytes (zero-extended on the left). */
  function LowValue(ip: IP, p: nat): nat
  {
    if p == 0 then 0 else LowValue(ip, p - 1) + FromRight(ip, p - 1) * Pow256(p - 1)
  }

  /** An address read as an unsigned big-endian number. */
  function Value(ip: IP): nat
  {
    LowValue(ip, |ip|)
  }

  /** The larger of the two lengths: the width of a sum. */
  function Width(a: IP, b: IP): nat
  {
    if |a| > |b| then |a| else |b|
  }

  /** The carry into byte place p when a and b are added from the right. */
  function Carry(a: IP, b: IP, p: nat): (c: nat)
    ensures c <= 1
  {
    if p == 0 then 0
    else (FromRight(a, p - 1) + FromRight(b, p - 1) + Carry(a, b, p - 1)) / 256
  }

  /** The low byte of x + y + c. */
  function AddBytes(x: byte, y: byte, c: nat): byte
  {
    (x + y + c) % 256
  }

  /** The byte at place p of the sum of a and b. */
  function Digit(a: IP, b: IP, p: nat): byte
  {
    AddBytes(FromRight(a, p), FromRight(b, p), Carry(a, b, p))
  }

  /** The sum AddIP produces: Width(a, b) bytes of digits, the final carry dropped. */
  function Sum(a: IP, b: IP): (r: IP)
    ensures |r| == Width(a, b)
  {
    seq(Width(a, b), i requires 0 <= i < Width(a, b) => Digit(a, b, Width(a, b) - 1 - i))
  }

  lemma {:induction false} LowValueBound(ip: IP, p: nat)
    ensures LowValue(ip, p) < Pow256(p)
  {
    if p > 0 {
      LowValueBound(ip, p - 1);
      var f, q := FromRight(ip, p - 1), Pow256(p - 1);
      assert (255 - f) * q >= 0;
      assert f * q <= 255 * q;
    }
  }

  /** Bytes beyond the left end count as zero. */
  lemma {:induction false} LowValueBeyond(ip: IP, p: nat)
    requires p >= |ip|
    ensures LowValue(ip, p) == Value(ip)
  {
    if p > |ip| {
      LowValueBeyond(ip, p - 1);
    }
  }

  /** One step of schoolbook addition at a place of weight q, as integer arithmetic. */
  lemma AdditionStep(ls: int, la: int, lb: int, c: int, fa: int, fb: int, q: int)
    requires fa >= 0 && fb >= 0 && c >= 0
    requires ls + c * q == la + lb
    ensures ls + ((fa + fb + c) % 256) * q + ((fa + fb + c) / 256) * (256 * q) == la + fa * q + lb + fb * q
  {
    var t := fa + fb + c;
    assert t == t % 256 + 256 * (t / 256);
    assert (t / 256) * (256 * q) == (256 * (t / 256)) * q;
    assert (t % 256) * q + (256 * (t / 256)) * q == t * q;
    assert t * q == c * q + fa * q + fb * q;
  }

  lemma SumFromRight(a: IP, b: IP, p: nat)
    requires p < Width(a, b)
    ensures FromRight(Sum(a, b), p) == Digit(a, b, p)
  {
  }

  /** The digits of the sum below place p, plus the carry into p, make the sum of the low parts. */
  lemma {:induction false} SumDigits(a: IP, b: IP, p: nat)
    requires p <= Width(a, b)
    ensures LowValue(Sum(a, b), p) + Carry(a, b, p) * Pow256(p) == LowValue(a, p) + LowValue(b, p)
  {
    if p > 0 {
      SumDigits(a, b, p - 1);
      var s := Sum(a, b);
      var fa, fb, c := FromRight(a, p - 1), FromRight(b, p - 1), Carry(a, b, p - 1);
      SumFromRight(a, b, p - 1);
      AdditionStep(LowValue(s, p - 1), LowValue(a, p - 1), LowValue(b, p - 1), c, fa, fb, Pow256(p - 1));
    }
  }

  lemma ModOfShifted(x: nat, c: nat, m: nat)
    requires x < m && c <= 1
    ensures (x + c * m) % m == x
  {
    if c == 1 {
      assert (x + m) % m == x;
    }
  }

  /** AddIP is addition of big-endian numbers modulo 256^width. */
  lemma SumValue(a: IP, b: IP)
    ensures Value(Sum(a, b)) == (Value(a) + Value(b)) % Pow256(Width(a, b))
  {
    var w := Width(a, b);
    SumDigits(a, b, w);
    LowValueBound(Sum(a, b), w);
    LowValueBeyond(a, w);
    LowValueBeyond(b, w);
    ModOfShifted(Value(Sum(a, b)), Carry(a, b, w), Pow256(w));
  }

  /** Operands that agree byte for byte from the right have the same carries. */
  lemma {:induction false} CarryCongruent(a: IP, b: IP, a': IP, b': IP, p: nat)
    requires forall q :: FromRight(a, q) == FromRight(a', q)
    requires forall q :: FromRight(b, q) == FromRight(b', q)
    ensures Carry(a, b, p) == Carry(a', b', p)
  {
    if p > 0 {
      CarryCongruent(a, b, a', b', p - 1);
    }
  }

  lemma {:induction false} CarrySymmetric(a: IP, b: IP, p: nat)
    ensures Carry(a, b, p) == Carry(b, a, p)
  {
    if p > 0 {
      CarrySymmetric(a, b, p - 1);
    }
  }

  lemma SumCommutes(a: IP, b: IP)
    ensures Sum(a, b) == Sum(b, a)
  {
    forall p | 0 <= p < Width(a, b)
      ensures Digit(a, b, p) == Digit(b, a, p)
    {
      CarrySymmetric(a, b, p);
    }
  }

  /** Zeros prepended to the shorter operand (within the width of the sum) change nothing. */
  lemma SumZeroExtends(a: IP, b: IP, k: nat)
    requires |a| + k <= Width(a, b)
    ensures Sum(seq(k, _ => 0) + a, b) == Sum(a, b)
  {
    var a' := seq(k, _ => 0) + a;
    forall q: nat
      ensures FromRight(a, q) == FromRight(a', q)
    {
      if q < |a| {
        assert a'[|a'| - q - 1] == a[|a| - q - 1];
      } else if q < |a'| {
        assert a'[|a'| - q - 1] == 0;
      }
    }
    forall p | 0 <= p < Width(a, b)
      ensures Digit(a', b, p) == Digit(a, b, p)
    {
      CarryCongruent(a, b, a', b, p);
    }
  }

  lemma {:induction false} CarryWithEmpty(x: IP, p: nat)
    ensures Carry(x, [], p) == 0
  {
    if p > 0 {
      CarryWithEmpty(x, p - 1);
    }
  }

  /** Adding an empty (nil) offset is the identity: no offset means passthrough. */
  lemma SumEmpty(x: IP)
    ensures Sum(x, []) == x
    ensures Sum([], x) == x
  {
    forall i | 0 <= i < |x|
      ensures Sum(x, [])[i] == x[i]
    {
      var p := |x| - 1 - i;
      CarryWithEmpty(x, p);
      assert FromRight(x, p) == x[i] && FromRight([], p) == 0;
      assert Sum(x, [])[i] == Digit(x, [], p);
    }
    SumCommutes(x, []);
  }

  /** Sum of two 4-byte addresses, byte by byte. */
  lemma SumFour(a: IP, b: IP)
    requires |a| == 4 && |b| == 4
    ensures Sum(a, b) == [Digit(a, b, 3), Digit(a, b, 2), Digit(a, b, 1), Digit(a, b, 0)]
  {
    var r := Sum(a, b);
    assert Width(a, b) == 4;
    assert r[0] == Digit(a, b, 3) && r[1] == Digit(a, b, 2) && r[2] == Digit(a, b, 1) && r[3] == Digit(a, b, 0);
  }

  /** Carries ripple leftwards: 0.255.156.1 + 0.1.100.2 = 1.1.0.3. */
  lemma SumExampleCarry()
    ensures Sum([0, 255, 156, 1], [0, 1, 100, 2]) == [1, 1, 0, 3]
  {
    var a: IP, b: IP := [0, 255, 156, 1], [0, 1, 100, 2];
    SumFour(a, b);
    assert Carry(a, b, 1) == 0;
    assert Carry(a, b, 2) == 1;
    assert Carry(a, b, 3) == 1;
  }
  /** An offset in the last byte: 203.0.113.0 + 0.0.0.5 = 203.0.113.5. */
  lemma SumExampleOffset()
    ensures Sum([203, 0, 113, 0], [0, 0, 0, 5]) == [203, 0, 113, 5]
  {
    var a: IP, b: IP := [203, 0, 113, 0], [0, 0, 0, 5];
    SumFour(a, b);
    assert Carry(a, b, 1) == 0 && Carry(a, b, 2) == 0 && Carry(a, b, 3) == 0;
  }
  /** Without carries the bytes add one by one. */
  lemma SumExamplePlain()
    ensures Sum([1, 2, 3, 4], [5, 6, 7, 8]) == [6, 8, 10, 12]
  {
    var a: IP, b: IP := [1, 2, 3, 4], [5, 6, 7, 8];
    SumFour(a, b);
    assert Carry(a, b, 1) == 0 && Carry(a, b, 2) == 0 && Carry(a, b, 3) == 0;
  }

  /**
   * In their 16-byte ::ffff: forms, 203.0.113.0 plus 0.0.0.5 is not
   * 203.0.113.5: the two 0xffff prefixes add up and carry.
   */
  lemma SumExampleMapped()
    ensures Sum(V4InV6Prefix + [203, 0, 113, 0], V4InV6Prefix + [0, 0, 0, 5])
         == [0, 0, 0, 0, 0, 0, 0, 0, 0, 1, 0xff, 0xfe, 203, 0, 113, 5]
  {
    var a, b := V4InV6Prefix + [203, 0, 113, 0], V4InV6Prefix + [0, 0, 0, 5];
    var e: IP := [0, 0, 0, 0, 0, 0, 0, 0, 0, 1, 0xff, 0xfe, 203, 0, 113, 5];
    MappedCarries(a, b);
    forall i | 0 <= i < 16
      ensures Sum(a, b)[i] == e[i]
    {
      assert Sum(a, b)[i] == Digit(a, b, 15 - i);
    }
  }

  lemma MappedCarries(a: IP, b: IP)
    requires a == V4InV6Prefix + [203, 0, 113, 0] && b == V4InV6Prefix + [0, 0, 0, 5]
    ensures Carry(a, b, 4) == 0 && Carry(a, b, 5) == 1 && Carry(a, b, 6) == 1
    ensures forall p :: 0 <= p <= 15 && p != 5 && p != 6 ==> Carry(a, b, p) == 0
  {
    assert Carry(a, b, 1) == 0 && Carry(a, b, 2) == 0 && Carry(a, b, 3) == 0 && Carry(a, b, 4) == 0;
    assert Carry(a, b, 5) == 1 && Carry(a, b, 6) == 1 && Carry(a, b, 7) == 0 && Carry(a, b, 8) == 0;
    assert Carry(a, b, 9) == 0 && Carry(a, b, 10) == 0 && Carry(a, b, 11) == 0 && Carry(a, b, 12) == 0;
    assert Carry(a, b, 13) == 0 && Carry(a, b, 14) == 0 && Carry(a, b, 15) == 0;
  }

  /** One iteration of AddIP's loop computes the digit and the next carry. */
  lemma AddIPStep(a: IP, b: IP, p: nat, s: int)
    requires s == FromRight(a, p) + FromRight(b, p) + Carry(a, b, p)
    ensures 0 <= s - s / 256 * 256 < 256
    ensures s - s / 256 * 256 == Digit(a, b, p)
    ensures s / 256 == Carry(a, b, p + 1)
  {
    assert s - s / 256 * 256 == s % 256;
  }

  /**
   * AddIP: big-endian byte addition. The result is as wide as the wider
   * operand, the shorter one is zero-extended on the left, and the final
   * carry is dropped: the result is Sum(a, b), whose value SumValue
   * shows to be the sum of the operands' values modulo 256^width.
   */
  method AddIP(a: IP, b: IP) returns (r: IP)
    ensures |r| == Width(a, b)
    ensures r == Sum(a, b)
  {
    var sz: nat;
    if |a| > |b| {
      sz := |a|;
    } else {
      sz := |b|;
    }
    var sum := new byte[sz];
    var rem := 0;
    var i, p := sz - 1, 0;
    while i >= 0
      invariant -1 <= i < sz && p == sz - 1 - i
      invariant rem == Carry(a, b, p)
      invariant forall k :: i < k < sz ==> sum[k] == Digit(a, b, sz - 1 - k)
    {
      var s := FromRight(a, p) + FromRight(b, p) + rem;
      AddIPStep(a, b, p, s);
      rem := s / 256;
      sum[i] := s - s / 256 * 256;
      i, p := i - 1, p + 1;
    }
    r := sum[..];
    assert r == Sum(a, b);
  }

  // ---------------------------------------------------------------------
  // Composition used by the reconciler
  // ---------------------------------------------------------------------

  lemma {:induction false} CarrySlaac(m: IP, s: IP, p: nat)
    requires |m| == 16 && |s| == 16
    requires forall i :: 8 <= i < 16 ==> m[i] == 0
    requires forall i :: 0 <= i < 8 ==> s[i] == 0
    ensures Carry(m, s, p) == 0
  {
    if p > 0 {
      CarrySlaac(m, s, p - 1);
      assert FromRight(m, p - 1) == 0 || FromRight(s, p - 1) == 0;
    }
  }

  /** Masking 64 bits of a 16-byte address keeps its first eight bytes and zeroes the rest. */
  lemma MaskIPSixtyFour(raw: IP)
    requires |raw| == 16
    ensures |MaskIP(raw, 64)| == 16
    ensures forall i :: 0 <= i < 16 ==> MaskIP(raw, 64)[i] == if i < 8 then raw[i] else 0
  {
    forall i | 0 <= i < 16
      ensures MaskIP(raw, 64)[i] == if i < 8 then raw[i] else 0
    {
      MaskIPByte(raw, 64, i);
      AndAllOnes(raw[i]);
    }
  }

  /** Adding two 16-byte values whose nonzero bytes lie in opposite halves just joins the halves. */
  lemma SumDisjointHalves(m: IP, s: IP)
    requires |m| == 16 && |s| == 16
    requires forall i :: 8 <= i < 16 ==> m[i] == 0
    requires forall i :: 0 <= i < 8 ==> s[i] == 0
    ensures Sum(m, s) == m[..8] + s[8..]
  {
    var t := m[..8] + s[8..];
    forall i | 0 <= i < 16
      ensures Sum(m, s)[i] == t[i]
    {
      var p := 15 - i;
      CarrySlaac(m, s, p);
      assert FromRight(m, p) == m[i] && FromRight(s, p) == s[i];
      assert Sum(m, s)[i] == Digit(m, s, p);
    }
  }

  /**
   * With a SLAAC offset and 64 mask bits, the record value of a 16-byte
   * address is its upper 64 bits followed by the EUI-64 identifier: no
   * carry crosses the halves.
   */
  lemma SlaacTarget(raw: IP, mac: seq<byte>)
    requires |raw| == 16 && |mac| >= 6
    ensures Sum(MaskIP(raw, 64), SlaacBits(mac)) == raw[..8] + SlaacBits(mac)[8..]
  {
    var m := MaskIP(raw, 64);
    MaskIPSixtyFour(raw);
    SumDisjointHalves(m, SlaacBits(mac));
    assert m[..8] == raw[..8];
  }

  /** Masking at most 8 bits of a 16-byte address touches only its last byte. */
  lemma MaskIPSixteenLastByte(ip: IP, n: int)
    requires |ip| == 16 && 0 <= n <= 8
    ensures MaskIP(ip, n) == ip[..15] + [And(ip[15], LeadingOnes(8 - n))]
  {
    var t := ip[..15] + [And(ip[15], LeadingOnes(8 - n))];
    forall i | 0 <= i < 16
      ensures MaskIP(ip, n)[i] == t[i]
    {
      MaskIPByte(ip, n, i);
      if i < 15 {
        assert LeadingOnes(128 - n - 8 * i) == 0xff;
        AndAllOnes(ip[i]);
      }
    }
  }

  // ---------------------------------------------------------------------
  // Addition is associative at one width
  // ---------------------------------------------------------------------

  /** A number below m*(k+1) splits uniquely into a remainder below m and a multiple of m. */
  lemma SplitUnique(a: nat, b: nat, c: nat, d: nat, m: nat)
    requires a < m && c < m && a + b * m == c + d * m
    ensures a == c && b == d
  {
    var g := b - d;
    assert g * m == c - a;
    MultipleBound(g, m);
  }

  /** A nonzero multiple of m is at least m away from zero. */
  lemma MultipleBound(g: int, m: int)
    requires m >= 0
    ensures g >= 1 ==> g * m >= m
    ensures g <= -1 ==> g * m <= -m
  {
    if g >= 1 {
      assert g * m == m + (g - 1) * m;
    } else if g <= -1 {
      assert g * m == -m - (-g - 1) * m;
    }
  }

  lemma {:induction false} LowValueInjective(x: IP, y: IP, p: nat)
    requires |x| == |y| && p <= |x| && LowValue(x, p) == LowValue(y, p)
    ensures x[|x| - p..] == y[|y| - p..]
  {
    if p > 0 {
      LowValueBound(x, p - 1);
      LowValueBound(y, p - 1);
      SplitUnique(LowValue(x, p - 1), FromRight(x, p - 1), LowValue(y, p - 1), FromRight(y, p - 1), Pow256(p - 1));
      LowValueInjective(x, y, p - 1);
      assert x[|x| - p..] == [x[|x| - p]] + x[|x| - p + 1..];
      assert y[|y| - p..] == [y[|y| - p]] + y[|y| - p + 1..];
    }
  }

  /** Two addresses of one width with the same value are the same address. */
  lemma ValueInjective(x: IP, y: IP)
    requires |x| == |y| && Value(x) == Value(y)
    ensures x == y
  {
    LowValueInjective(x, y, |x|);
  }

  lemma ModPlusMultiple(z: nat, k: nat, m: nat)
    requires m > 0
    ensures (z + k * m) % m == z % m
  {
    var w := z + k * m;
    assert w == (z / m + k) * m + z % m;
    SplitUnique(w % m, w / m, z % m, z / m + k, m);
  }

  lemma ModAddLeft(x: nat, y: nat, m: nat)
    requires m > 0
    ensures (x % m + y) % m == (x + y) % m
  {
    ModPlusMultiple(x % m + y, x / m, m);
    assert x + y == x % m + y + (x / m) * m;
  }

  /**
   * Adding three addresses of one width gives the same bytes whichever
   * pair is added first: each grouping is the three values' sum modulo
   * 256^width.
   */
  lemma SumAssociates(a: IP, b: IP, c: IP)
    requires |a| == |b| == |c|
    ensures Sum(Sum(a, b), c) == Sum(a, Sum(b, c))
  {
    var m := Pow256(|a|);
    var va, vb, vc := Value(a), Value(b), Value(c);
    SumValue(a, b);
    SumValue(Sum(a, b), c);
    SumValue(b, c);
    SumValue(a, Sum(b, c));
    ModAddLeft(va + vb, vc, m);
    ModAddLeft(vb + vc, va, m);
    assert va + (vb + vc) % m == (vb + vc) % m + va;
    ValueInjective(Sum(Sum(a, b), c), Sum(a, Sum(b, c)));
  }
}
