// The IPv4 masks of prefix.c, as numbers in host byte order.
module Ipv4Masks {
  import opened Arithmetic
  import opened BitArithmetic
  import opened Bytes

  // The first n bits of w are ones.
  predicate Leading(w: word, n: nat)
    requires n <= 32
  {
    PowIsPowerOfTwo(32 - n);
    w / Pow(32 - n) == Pow(n) - 1
  }

  // The number of bits without leading zeros; __builtin_clz is what it lacks of 32.
  function BitLength(x: nat): nat {
    if x == 0 then 0 else 1 + BitLength(x / 2)
  }

  lemma {:induction false} LengthBounds(x: nat)
    ensures x < Pow(BitLength(x)) && (x > 0 ==> Pow(BitLength(x) - 1) <= x)
  {
    if x > 0 {
      LengthBounds(x / 2);
    }
  }

  lemma {:induction false} LengthIs(x: nat, k: nat)
    requires x < Pow(k) && (k > 0 ==> Pow(k - 1) <= x)
    ensures BitLength(x) == k
  {
    if k > 0 {
      PowIsPowerOfTwo(k - 1);
      LengthIs(x / 2, k - 1);
    }
  }

  lemma Pow32()
    ensures Pow(32) == 0x1_0000_0000
  {
    PowSays();
  }

  lemma PowSplit(n: nat)
    requires n <= 32
    ensures Pow(n) * Pow(32 - n) == 0x1_0000_0000 && Pow(n) >= 1 && 1 <= Pow(32 - n) <= 0x1_0000_0000
  {
    hide Pow;
    Pow32();
    PowSum(n, 32 - n);
    PowIsPowerOfTwo(n);
    PowIsPowerOfTwo(32 - n);
    PowGrows(32 - n, 32);
  }

  lemma {:induction false} PowGrows(a: nat, b: nat)
    requires a <= b
    ensures Pow(a) <= Pow(b)
  {
    if a < b {
      PowGrows(a, b - 1);
      PowIsPowerOfTwo(b - 1);
    }
  }

  // The mask of n bits
  function Netmask(n: nat): word
    requires n <= 32
  {
    PowSplit(n);
    0x1_0000_0000 - Pow(32 - n)
  }

  // n ones, and then zeros
  lemma NetmaskSays(n: nat)
    requires n <= 32
    ensures Pow(32 - n) >= 1 && Pow(n) * Pow(32 - n) == 0x1_0000_0000
    ensures Netmask(n) / Pow(32 - n) == Pow(n) - 1 && Netmask(n) % Pow(32 - n) == 0
    ensures Netmask(0) == 0 && Netmask(8) == 0xff00_0000 && Netmask(24) == 0xffff_ff00 && Netmask(32) == 0xffff_ffff
  {
    hide Pow;
    PowSplit(n);
    PowSays();
    PowZero();
    PowSum(16, 8);
    var p, q := Pow(32 - n), Pow(n);
    assert p * (q - 1) == q * p - p;
    DivModUnique(Netmask(n), p, q - 1, 0);
  }

  // masklen2ip
  method Masklen2Ip(masklen: nat) returns (netmask: word)
    requires masklen <= 32
    ensures netmask == Netmask(masklen)
  {
    PowSplit(masklen);
    var shift := Pow(32 - masklen);
    DivModUnique(0xffff_ffff * shift, 0x1_0000_0000, shift - 1, 0x1_0000_0000 - shift);
    netmask := (0xffff_ffff * shift) % 0x1_0000_0000;
  }

  // ip_masklen
  method IpMasklen(netmask: word) returns (len: nat)
    ensures len <= 32 && Leading(netmask, len) && (len < 32 ==> !Leading(netmask, len + 1))
    ensures forall n :: 0 <= n <= 32 && netmask == Netmask(n) ==> len == n
  {
    hide Pow, BitLength;
    var tmp := 0xffff_ffff - netmask;
    var k := BitLength(tmp);
    LengthBounds(tmp);
    LengthFits(tmp);
    len := if tmp != 0 then 32 - k else 32;
    NoLength();
    LeadingIs(netmask, 32 - k);
    if k > 0 {
      LeadingIs(netmask, 33 - k);
    }
    forall n | 0 <= n <= 32 && netmask == Netmask(n) ensures k == 32 - n {
      NetmaskLength(n);
    }
  }

  lemma NoLength()
    ensures BitLength(0) == 0
  {
  }

  lemma NetmaskLength(n: nat)
    requires n <= 32
    ensures BitLength(0xffff_ffff - Netmask(n)) == 32 - n
  {
    PowIsPowerOfTwo(32 - n);
    if n < 32 {
      PowIsPowerOfTwo(31 - n);
    }
    LengthIs(Pow(32 - n) - 1, 32 - n);
  }

  lemma LengthFits(x: word)
    ensures BitLength(x) <= 32
  {
    LengthBounds(x);
    if BitLength(x) > 32 {
      Pow32();
      PowGrows(32, BitLength(x) - 1);
    }
  }

  // Leading ones, by what the complement is less than
  lemma LeadingIs(w: word, n: nat)
    requires n <= 32
    ensures Leading(w, n) <==> 0xffff_ffff - w < Pow(32 - n)
  {
    hide Pow;
    PowSplit(n);
    TopOnes(w, Pow(32 - n), Pow(n));
  }

  lemma TopOnes(w: word, p: int, q: int)
    requires p >= 1 && q >= 1 && p * q == 0x1_0000_0000
    ensures w / p == q - 1 <==> 0xffff_ffff - w < p
  {
    var x := 0xffff_ffff - w;
    assert p * (q - 1) == p * q - p;
    if w / p == q - 1 {
      assert w == p * (q - 1) + w % p;
    }
    if x < p {
      DivModUnique(w, p, q - 1, p - 1 - x);
    }
  }

  lemma RemainderBound(s: nat, p: nat)
    requires p >= 1
    ensures s % p <= s && (s < p ==> s % p == s)
  {
    if s < p {
      DivModUnique(s, p, 0, s);
    }
  }

  // The first n bits of an address
  function Network(s: word, n: nat): word
    requires n <= 32
  {
    PowSplit(n);
    RemainderBound(s, Pow(32 - n));
    s - s % Pow(32 - n)
  }

  lemma AndEven(a: nat, b: nat)
    requires b % 2 == 0
    ensures And(a, b) == 2 * And(a / 2, b / 2)
  {
  }

  lemma PowEven(k: nat)
    requires k > 0
    ensures Pow(k) == 2 * Pow(k - 1)
  {
  }

  lemma {:induction false} AndHigh(a: nat, m: nat, k: nat)
    requires k <= m && a < Pow(m)
    ensures Pow(k) >= 1 && Pow(m) >= Pow(k) && And(a, Pow(m) - Pow(k)) == a - a % Pow(k)
  {
    hide And, Pow;
    PowIsPowerOfTwo(k);
    PowGrows(k, m);
    if k == 0 {
      PowIsPowerOfTwo(m);
      PowZero();
      MaskIsRemainder(a, Pow(m));
      RemainderBound(a, Pow(m));
    } else {
      PowEven(m);
      PowEven(k);
      PowIsPowerOfTwo(k - 1);
      AndHigh(a / 2, m - 1, k - 1);
      HalvedRemainder(a, Pow(k - 1));
      var b := Pow(m - 1) - Pow(k - 1);
      assert Pow(m) - Pow(k) == 2 * b;
      AndEven(a, 2 * b);
    }
  }

  lemma PowZero()
    ensures Pow(0) == 1
  {
  }

  // apply_mask_ipv4
  method ApplyMask4(s: word, prefixlen: nat) returns (r: word)
    requires prefixlen <= 32
    ensures r == Network(s, prefixlen) && r == And(s, Netmask(prefixlen))
  {
    var mask := Masklen2Ip(prefixlen);
    Pow32();
    AndHigh(s, 32, 32 - prefixlen);
    r := And(s, mask);
  }

  // Masking keeps the first n bits and clears the others.
  lemma NetworkIs(s: word, n: nat, r: word)
    requires n <= 32
    ensures Pow(32 - n) >= 1
    ensures r == Network(s, n) <==> r / Pow(32 - n) == s / Pow(32 - n) && r % Pow(32 - n) == 0
  {
    hide Pow;
    PowSplit(n);
    RoundedDown(s, r, Pow(32 - n));
  }

  lemma RoundedDown(s: int, r: int, p: int)
    requires p >= 1
    ensures r == s - s % p <==> r / p == s / p && r % p == 0
  {
    assert s == p * (s / p) + s % p && r == p * (r / p) + r % p;
    if r == s - s % p {
      DivModUnique(r, p, s / p, 0);
    }
  }

  lemma NetworkTwice(s: word, n: nat)
    requires n <= 32
    ensures Network(Network(s, n), n) == Network(s, n)
  {
    NetworkIs(s, n, Network(s, n));
  }

  // IPv4 masks and their lengths
  method RoundTrip4(masklen: nat) returns (len: nat)
    requires masklen <= 32
    ensures len == masklen
  {
    var netmask := Masklen2Ip(masklen);
    len := IpMasklen(netmask);
  }
}
