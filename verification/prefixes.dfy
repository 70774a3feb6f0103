// prefix.c: comparing and masking address prefixes.
module Prefixes {
  // Bit k of a byte, the most significant first
  function Pick(k: nat): bv8 {
    match k
    case 0 => 0x80
    case 1 => 0x40
    case 2 => 0x20
    case 3 => 0x10
    case 4 => 0x08
    case 5 => 0x04
    case 6 => 0x02
    case 7 => 0x01
    case _ => 0
  }

  predicate Bit(b: bv8, k: nat) {
    b & Pick(k) != 0
  }

  const MASKBIT: seq<bv8> := [0x00, 0x80, 0xc0, 0xe0, 0xf0, 0xf8, 0xfc, 0xfe, 0xff]

  type Address = seq<bv8>

  // Bit i of an address
  predicate AddressBit(u: Address, i: nat)
    requires i < 8 * |u|
  {
    Bit(u[i / 8], i % 8)
  }

  // prefix_bit
  method PrefixBit(prefix: Address, prefixlen: nat) returns (r: bv8)
    requires prefixlen < 8 * |prefix|
    ensures r == if AddressBit(prefix, prefixlen) then 1 else 0
  {
    var offset, shift := prefixlen / 8, 7 - prefixlen % 8;
    ShiftedBit(prefix[offset], shift);
    r := (prefix[offset] >> shift) & 1;
  }

  lemma ShiftedBit(b: bv8, shift: nat)
    requires shift < 8
    ensures (b >> shift) & 1 == if Bit(b, 7 - shift) then 1 else 0
  {
    if shift == 0 {} else if shift == 1 {} else if shift == 2 {} else if shift == 3 {}
    else if shift == 4 {} else if shift == 5 {} else if shift == 6 {} else {}
  }

  // Bit i of an address, counted from the highest bit of its first byte
  lemma AddressBitSays(u: Address, i: nat)
    requires i < 8 * |u|
    ensures AddressBit(u, i) <==> (u[i / 8] >> (7 - i % 8)) & 1 == 1
  {
    ShiftedBit(u[i / 8], 7 - i % 8);
  }

  // The first n bits of two addresses are the same.
  ghost predicate Agree(a: Address, b: Address, n: nat)
    requires n <= 8 * |a| && n <= 8 * |b|
  {
    forall i :: 0 <= i < n ==> AddressBit(a, i) == AddressBit(b, i)
  }

  lemma BitDiffers(a: bv8, b: bv8, k: nat)
    requires k < 8
    ensures Bit(a, k) == Bit(b, k) <==> Pick(k) & (a ^ b) == 0
  {
    if k == 0 {} else if k == 1 {} else if k == 2 {} else if k == 3 {}
    else if k == 4 {} else if k == 5 {} else if k == 6 {} else {}
  }

  lemma Joined(m: bv8, p: bv8, x: bv8)
    ensures (m | p) & x == 0 <==> m & x == 0 && p & x == 0
  {
  }

  // Masked bytes are the same exactly when their leading bits are.
  lemma {:induction false} MaskedByte(a: bv8, b: bv8, shift: nat)
    requires shift <= 8
    ensures MASKBIT[shift] & (a ^ b) == 0 <==> forall k :: 0 <= k < shift ==> Bit(a, k) == Bit(b, k)
  {
    if shift > 0 {
      MaskedByte(a, b, shift - 1);
      BitDiffers(a, b, shift - 1);
      MaskGrows(shift);
      Joined(MASKBIT[shift - 1], Pick(shift - 1), a ^ b);
    } else {
      assert 0 & (a ^ b) == 0;
    }
  }

  lemma MaskGrows(shift: nat)
    requires 0 < shift <= 8
    ensures MASKBIT[shift] == MASKBIT[shift - 1] | Pick(shift - 1)
  {
    if shift == 1 {} else if shift == 2 {} else if shift == 3 {} else if shift == 4 {}
    else if shift == 5 {} else if shift == 6 {} else if shift == 7 {} else {}
  }

  lemma SameByte(a: bv8, b: bv8)
    ensures a == b <==> forall k :: 0 <= k < 8 ==> Bit(a, k) == Bit(b, k)
  {
    MaskedByte(a, b, 8);
    assert 0xff & (a ^ b) == 0 <==> a == b;
  }

  // Agreement on whole bytes, and on the first bits of the next
  lemma AgreeByBytes(a: Address, b: Address, n: nat)
    requires n <= 8 * |a| && |a| == |b|
    ensures Agree(a, b, n) <==>
      && (forall j :: 0 <= j < n / 8 ==> a[j] == b[j])
      && (n % 8 > 0 ==> MASKBIT[n % 8] & (a[n / 8] ^ b[n / 8]) == 0)
  {
    hide Bit;
    if n % 8 > 0 {
      MaskedByte(a[n / 8], b[n / 8], n % 8);
    }
    if Agree(a, b, n) {
      AgreeBytes(a, b, n);
    }
  }

  lemma AgreeBytes(a: Address, b: Address, n: nat)
    requires n <= 8 * |a| && |a| == |b| && Agree(a, b, n)
    ensures forall j :: 0 <= j < n / 8 ==> a[j] == b[j]
    ensures n % 8 > 0 ==> forall k :: 0 <= k < n % 8 ==> Bit(a[n / 8], k) == Bit(b[n / 8], k)
  {
    hide Bit;
    forall j | 0 <= j < n / 8 ensures a[j] == b[j] {
      forall k | 0 <= k < 8 ensures Bit(a[j], k) == Bit(b[j], k) {
        assert AddressBit(a, 8 * j + k) == AddressBit(b, 8 * j + k);
      }
      SameByte(a[j], b[j]);
    }
    forall k | 0 <= k < n % 8 ensures Bit(a[n / 8], k) == Bit(b[n / 8], k) {
      assert AddressBit(a, 8 * (n / 8) + k) == AddressBit(b, 8 * (n / 8) + k);
    }
  }

  datatype Family = AF_UNSPEC | AF_INET | AF_INET6

  // struct prefix: 16 bytes hold an address of any family
  datatype Prefix = Prefix(family: Family, prefixlen: nat, u: Address)

  // The comparison that prefix_match and prefix_cmp end with
  method SameBits(np: Address, pp: Address, prefixlen: nat) returns (same: bool)
    requires |np| == |pp| == 16 && prefixlen <= 128
    ensures same <==> Agree(np, pp, prefixlen)
  {
    AgreeByBytes(np, pp, prefixlen);
    var offset, shift := prefixlen / 8, prefixlen % 8;
    if shift > 0 && MASKBIT[shift] & (np[offset] ^ pp[offset]) != 0 {
      return false;
    }
    while offset > 0
      invariant 0 <= offset <= prefixlen / 8
      invariant forall j :: offset <= j < prefixlen / 8 ==> np[j] == pp[j]
    {
      offset := offset - 1;
      if np[offset] != pp[offset] {
        return false;
      }
    }
    return true;
  }

  // prefix_match; the families are not looked at
  method Match(n: Prefix, p: Prefix) returns (r: int)
    requires |n.u| == |p.u| == 16 && n.prefixlen <= 128 && p.prefixlen <= 128
    ensures r == if n.prefixlen <= p.prefixlen && Agree(n.u, p.u, n.prefixlen) then 1 else 0
  {
    if n.prefixlen > p.prefixlen {
      return 0;
    }
    var same := SameBits(n.u, p.u, n.prefixlen);
    r := if same then 1 else 0;
  }

  // The address with all bits from n on cleared
  function Masked(u: Address, n: nat): (r: Address)
    ensures |r| == |u|
  {
    seq(|u|, j requires 0 <= j < |u| => Cut(u[j], n, j))
  }

  // What masking to n bits leaves of byte j of an address
  function Cut(b: bv8, n: nat, j: nat): bv8 {
    b & MaskByte(n, j)
  }

  // Byte j of the mask of n bits: the rows of maskbytes6
  function MaskByte(n: nat, j: nat): bv8 {
    if 8 * j + 8 <= n then 0xff else if 8 * j >= n then 0 else MASKBIT[n - 8 * j]
  }

  lemma MaskByteBit(n: nat, j: nat, k: nat)
    requires k < 8
    ensures Bit(MaskByte(n, j), k) <==> 8 * j + k < n
  {
    var shift := if 8 * j + 8 <= n then 8 else if 8 * j >= n then 0 else n - 8 * j;
    assert MaskByte(n, j) == MASKBIT[shift];
    MaskBitOf(shift, k);
  }

  lemma MaskBitOf(shift: nat, k: nat)
    requires shift <= 8 && k < 8
    ensures Bit(MASKBIT[shift], k) <==> k < shift
  {
    if k == 0 {} else if k == 1 {} else if k == 2 {} else if k == 3 {}
    else if k == 4 {} else if k == 5 {} else if k == 6 {} else {}
  }

  lemma BothBits(a: bv8, b: bv8, k: nat)
    requires k < 8
    ensures Bit(a & b, k) <==> Bit(a, k) && Bit(b, k)
  {
    hide Pick;
    PickIsSingle(k);
    SingleBit(a, b, Pick(k));
  }

  lemma PickIsSingle(k: nat)
    requires k < 8
    ensures Pick(k) & (Pick(k) - 1) == 0
  {
  }

  lemma SingleBit(a: bv8, b: bv8, p: bv8)
    requires p & (p - 1) == 0
    ensures (a & b) & p != 0 <==> a & p != 0 && b & p != 0
  {
  }

  // Masking keeps the first n bits and clears the others.
  lemma MaskedBits(u: Address, n: nat, i: nat)
    requires i < 8 * |u|
    ensures AddressBit(Masked(u, n), i) <==> i < n && AddressBit(u, i)
  {
    hide Bit;
    BothBits(u[i / 8], MaskByte(n, i / 8), i % 8);
    MaskByteBit(n, i / 8, i % 8);
  }

  // Two addresses agree on n bits exactly when they are the same once masked.
  lemma AgreeMasked(a: Address, b: Address, n: nat)
    requires |a| == |b| && n <= 8 * |a|
    ensures Agree(a, b, n) <==> Masked(a, n) == Masked(b, n)
  {
    hide AddressBit, Masked;
    var x, y := Masked(a, n), Masked(b, n);
    forall i | 0 <= i < 8 * |a|
      ensures AddressBit(x, i) == AddressBit(y, i) <==> (i < n ==> AddressBit(a, i) == AddressBit(b, i))
    {
      MaskedBits(a, n, i);
      MaskedBits(b, n, i);
    }
    SameAddress(x, y);
    if Agree(x, y, 8 * |a|) {
      forall i | 0 <= i < n ensures AddressBit(a, i) == AddressBit(b, i) {
        assert AddressBit(x, i) == AddressBit(y, i);
      }
    }
  }

  lemma SameAddress(a: Address, b: Address)
    requires |a| == |b|
    ensures a == b <==> Agree(a, b, 8 * |a|)
  {
    AgreeByBytes(a, b, 8 * |a|);
  }

  lemma MaskedTwice(u: Address, n: nat)
    ensures Masked(Masked(u, n), n) == Masked(u, n)
  {
    hide AddressBit, Masked;
    forall i | 0 <= i < 8 * |u| ensures AddressBit(Masked(Masked(u, n), n), i) == AddressBit(Masked(u, n), i) {
      MaskedBits(u, n, i);
      MaskedBits(Masked(u, n), n, i);
    }
    SameAddress(Masked(Masked(u, n), n), Masked(u, n));
  }

  // prefix_cmp
  method Compare(p1: Prefix, p2: Prefix) returns (r: int)
    requires |p1.u| == |p2.u| == 16 && p1.prefixlen <= 128 && p2.prefixlen <= 128
    ensures r == 0 || r == 1
    ensures r == 0 <==>
      p1.family == p2.family && p1.prefixlen == p2.prefixlen && Masked(p1.u, p1.prefixlen) == Masked(p2.u, p2.prefixlen)
  {
    if p1.family != p2.family || p1.prefixlen != p2.prefixlen {
      return 1;
    }
    AgreeMasked(p1.u, p2.u, p1.prefixlen);
    var same := SameBits(p1.u, p2.u, p1.prefixlen);
    r := if same then 0 else 1;
  }

  // prefix_common_bits
  method CommonBits(p1: Prefix, p2: Prefix) returns (r: int)
    requires |p1.u| == |p2.u| == 16
    ensures r == -1 <==> p1.family != p2.family || p1.family == AF_UNSPEC
    ensures r != -1 ==> (
      var all := if p1.family == AF_INET then 32 else 128;
      0 <= r <= all && Agree(p1.u, p2.u, r) && (r < all ==> AddressBit(p1.u, r) != AddressBit(p2.u, r)))
  {
    hide Bit, Pick;
    var length := if p1.family == AF_INET then 4 else if p1.family == AF_INET6 then 16 else 0;
    if p1.family != p2.family || length == 0 {
      return -1;
    }
    var pos := 0;
    while pos < length && p1.u[pos] == p2.u[pos]
      invariant 0 <= pos <= length && forall j :: 0 <= j < pos ==> p1.u[j] == p2.u[j]
    {
      pos := pos + 1;
    }
    AgreeByBytes(p1.u, p2.u, 8 * pos);
    if pos == length {
      return pos * 8;
    }
    var a, b := p1.u[pos], p2.u[pos];
    SameByte(a, b);
    var bit := 0;
    while bit < 8 && Pick(bit) & (a ^ b) == 0
      invariant 0 <= bit <= 8 && forall k :: 0 <= k < bit ==> Bit(a, k) == Bit(b, k)
    {
      BitDiffers(a, b, bit);
      bit := bit + 1;
    }
    BitDiffers(a, b, bit);
    forall i | 0 <= i < pos * 8 + bit ensures AddressBit(p1.u, i) == AddressBit(p2.u, i) {
      if i >= 8 * pos {
        assert i / 8 == pos;
      }
    }
    return pos * 8 + bit;
  }

  // ---- masks ----

  // apply_mask_ipv6
  method ApplyMask6(pnt: array<bv8>, prefixlen: nat)
    requires pnt.Length == 16 && prefixlen <= 0xff
    modifies pnt
    ensures pnt[..] == Masked(old(pnt[..]), prefixlen)
  {
    hide Masked;
    ghost var u, k := pnt[..], prefixlen / 8;
    var index := prefixlen / 8;
    if index < 16 {
      pnt[index] := pnt[index] & MASKBIT[prefixlen % 8];
      ghost var x := pnt[index];
      index := index + 1;
      while index < 16
        invariant k < index <= 16 && pnt[k] == x
        invariant forall j :: 0 <= j < k || index <= j < 16 ==> pnt[j] == u[j]
        invariant forall j :: k < j < index ==> pnt[j] == 0
      {
        pnt[index] := 0;
        index := index + 1;
      }
    }
    MaskedIs(u, prefixlen, pnt[..]);
  }

  lemma MaskedIs(u: Address, n: nat, r: Address)
    requires |u| == |r| == 16
    requires forall j :: 0 <= j < 16 && j < n / 8 ==> r[j] == u[j]
    requires n / 8 < 16 ==> r[n / 8] == u[n / 8] & MASKBIT[n % 8]
    requires forall j :: n / 8 < j < 16 ==> r[j] == 0
    ensures r == Masked(u, n)
  {
    hide Cut;
    forall j | 0 <= j < 16 ensures r[j] == Cut(u[j], n, j) {
      MaskByteIs(n, j, u[j]);
    }
  }

  lemma MaskByteIs(n: nat, j: nat, b: bv8)
    ensures Cut(b, n, j) == if j < n / 8 then b else if j == n / 8 then b & MASKBIT[n % 8] else 0
  {
    assert b & 0xff == b && b & 0 == 0;
  }

  // masklen2ip6 copies a row of maskbytes6
  method Masklen2Ip6(masklen: nat, netmask: array<bv8>)
    requires masklen <= 128 && netmask.Length == 16
    modifies netmask
    ensures netmask[..] == Netmask(masklen)
  {
    forall j | 0 <= j < 16 {
      netmask[j] := MaskByte(masklen, j);
    }
  }

  function Netmask(n: nat): (r: Address)
    ensures |r| == 16
  {
    seq(16, j => if j >= 0 then MaskByte(n, j) else 0)
  }

  // The bits of a netmask
  lemma NetmaskBits(n: nat, i: nat)
    requires i < 128
    ensures AddressBit(Netmask(n), i) <==> i < n
  {
    hide Bit;
    MaskByteBit(n, i / 8, i % 8);
  }

  // The number of bits up to the last one that is set
  function Extent(val: bv8): nat {
    if val == 0 then 0 else if val & 0x7f == 0 then 1 else if val & 0x3f == 0 then 2 else if val & 0x1f == 0 then 3
    else if val & 0x0f == 0 then 4 else if val & 0x07 == 0 then 5 else if val & 0x03 == 0 then 6
      else if val & 0x01 == 0 then 7 else 8
  }

  // No bit is set from there on, and the one before it is.
  lemma ExtentSays(val: bv8, k: nat)
    requires k < 8
    ensures Extent(val) <= 8 && (Extent(val) <= k ==> !Bit(val, k)) && (Extent(val) == k + 1 ==> Bit(val, k))
  {
    if k == 0 {} else if k == 1 {} else if k == 2 {} else if k == 3 {}
    else if k == 4 {} else if k == 5 {} else if k == 6 {} else {}
  }

  lemma ShiftedExtent(val: bv8)
    requires val != 0
    ensures Extent(val << 1) == Extent(val) - 1
  {
  }

  lemma MaskExtent(shift: nat)
    requires shift <= 8
    ensures Extent(MASKBIT[shift]) == shift && (MASKBIT[shift] == 0xff <==> shift == 8)
  {
    if shift == 0 {} else if shift == 1 {} else if shift == 2 {} else if shift == 3 {} else if shift == 4 {}
    else if shift == 5 {} else if shift == 6 {} else if shift == 7 {} else {}
  }

  // ip6_masklen, testing the length before the byte
  method Ip6Masklen(netmask: Address) returns (len: nat)
    requires |netmask| == 16
    ensures exists j :: (
      0 <= j <= 16 && (forall i :: 0 <= i < j ==> netmask[i] == 0xff)
      && len == 8 * j + if j < 16 then Extent(netmask[j]) else 0)
    ensures forall n :: 0 <= n <= 128 && netmask == Netmask(n) ==> len == n
  {
    hide Extent, Netmask;
    len := 0;
    var j := 0;
    while len < 128 && netmask[j] == 0xff
      invariant 0 <= j <= 16 && len == 8 * j && forall i :: 0 <= i < j ==> netmask[i] == 0xff
    {
      len, j := len + 8, j + 1;
    }
    forall n | 0 <= n <= 128 && netmask == Netmask(n) ensures n == 8 * j + if j < 16 then Extent(netmask[j]) else 0 {
      FirstNotFull(n, j);
    }
    if len < 128 {
      var val := netmask[j];
      while val != 0
        invariant len + Extent(val) == 8 * j + Extent(netmask[j])
        decreases Extent(val)
      {
        ShiftedExtent(val);
        val := val << 1;
        len := len + 1;
      }
      NoExtent();
    }
  }

  lemma NoExtent()
    ensures Extent(0) == 0
  {
  }

  // Where the loop over whole bytes stops on the mask of n bits.
  lemma FirstNotFull(n: nat, j: nat)
    requires n <= 128 && j <= 16 && (forall i :: 0 <= i < j ==> Netmask(n)[i] == 0xff)
      && (j < 16 ==> Netmask(n)[j] != 0xff)
    ensures n == 8 * j + if j < 16 then Extent(Netmask(n)[j]) else 0
  {
    hide Extent;
    if j > 0 {
      MaskExtent(if 8 * j >= n + 8 then 0 else if 8 * j <= n then 8 else n + 8 - 8 * j);
      assert Netmask(n)[j - 1] == MaskByte(n, j - 1) == 0xff;
    }
    if j < 16 {
      MaskExtent(if 8 * j >= n then 0 else if 8 * j + 8 <= n then 8 else n - 8 * j);
      assert Netmask(n)[j] == MaskByte(n, j) != 0xff;
    }
  }

  // IPv6 masks and their lengths
  method RoundTrip6(masklen: nat, netmask: array<bv8>) returns (len: nat)
    requires masklen <= 128 && netmask.Length == 16
    modifies netmask
    ensures len == masklen
  {
    Masklen2Ip6(masklen, netmask);
    len := Ip6Masklen(netmask[..]);
  }
}
