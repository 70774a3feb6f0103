// fletcher_checksum of checksum.c.
module Fletcher {
  import opened Arithmetic
  import opened Bytes

  const MODX := 4102
  const VALIDATE := 0xffff
  const INT_MAX := 0x7fff_ffff

  // The two sums of a message, without any reduction.
  function C0(s: seq<byte>): nat {
    if s == [] then 0 else C0(s[..|s| - 1]) + s[|s| - 1]
  }

  function C1(s: seq<byte>): nat {
    if s == [] then 0 else C1(s[..|s| - 1]) + C0(s)
  }

  // The two sums reduced after every byte, as ISO 8473, Annex C.1, and RFC 905, Annex B, define them.
  function Reduced0(s: seq<byte>): nat {
    if s == [] then 0 else (Reduced0(s[..|s| - 1]) + s[|s| - 1]) % 255
  }

  function Reduced1(s: seq<byte>): nat {
    if s == [] then 0 else (Reduced1(s[..|s| - 1]) + Reduced0(s)) % 255
  }

  // Both sums are reduced modulo 255, and the second adds up the first.
  lemma Example()
    ensures Reduced0([200, 100]) == 45 && Reduced1([200, 100]) == 245
  {
    hide Reduced0, Reduced1;
    ReducedNext([], 200);
    ReducedNext([200], 100);
    assert [] + [200] == [200] && [200] + [100] == [200, 100];
  }

  lemma ReducedNext(s: seq<byte>, c: byte)
    ensures Reduced0([]) == 0 && Reduced1([]) == 0
    ensures Reduced0(s + [c]) == (Reduced0(s) + c) % 255
    ensures Reduced1(s + [c]) == (Reduced1(s) + Reduced0(s + [c])) % 255
  {
    assert (s + [c])[..|s|] == s;
  }

  // Reducing at every byte or at the end makes no difference.
  lemma {:induction false} ReductionCanWait(s: seq<byte>)
    ensures Reduced0(s) == C0(s) % 255 && Reduced1(s) == C1(s) % 255
  {
    if s != [] {
      ReductionCanWait(s[..|s| - 1]);
      ModAdd(C0(s[..|s| - 1]), s[|s| - 1]);
      ModAdd(C0(s), C1(s[..|s| - 1]));
      ModAdd(C1(s[..|s| - 1]), C0(s) % 255);
    }
  }

  lemma ModAdd(a: int, b: int)
    ensures (a % 255 + b) % 255 == (a + b) % 255
  {
  }

  // The sums over a block b that starts from c0 and c1.
  function Block0(c0: nat, b: seq<byte>): nat {
    c0 + C0(b)
  }

  function Block1(c0: nat, c1: nat, b: seq<byte>): nat {
    c1 + |b| * c0 + C1(b)
  }

  lemma {:induction false} SumsSplit(a: seq<byte>, b: seq<byte>)
    ensures C0(a + b) == Block0(C0(a), b) && C1(a + b) == Block1(C0(a), C1(a), b)
  {
    if b == [] {
      assert a + b == a;
    } else {
      var n := |b| - 1;
      SumsSplit(a, b[..n]);
      assert (a + b)[..|a| + n] == a + b[..n];
      OneMoreTime(n, C0(a));
    }
  }

  lemma OneMoreTime(n: nat, c: nat)
    ensures (n + 1) * c == n * c + c
  {
  }

  lemma {:induction false} SumsBound(b: seq<byte>)
    ensures C0(b) <= 255 * |b| && 2 * C1(b) <= 255 * |b| * (|b| + 1)
  {
    if b != [] {
      var n := |b| - 1;
      SumsBound(b[..n]);
      assert 255 * (n + 1) * (n + 2) == 255 * n * (n + 1) + 2 * 255 * (n + 1);
    }
  }

  // A block of MODX bytes cannot overflow an int.
  lemma BlockFits(c0: nat, c1: nat, b: seq<byte>)
    requires c0 < 255 && c1 < 255 && |b| <= MODX
    ensures Block0(c0, b) <= INT_MAX && Block1(c0, c1, b) <= INT_MAX
  {
    SumsBound(b);
    Products(|b|, c0);
  }

  lemma Products(n: nat, c: nat)
    requires n <= MODX && c <= 254
    ensures n * c <= MODX * 254 && 255 * n * (n + 1) <= 255 * MODX * (MODX + 1)
  {
    MulMonotone(n, MODX, c, 254);
    MulMonotone(n, MODX, n + 1, MODX + 1);
    assert 255 * n * (n + 1) == 255 * (n * (n + 1));
  }

  lemma MulMonotone(a: nat, b: nat, c: nat, d: nat)
    requires a <= b && c <= d
    ensures a * c <= b * d
  {
  }

  // A block of one byte more can.
  lemma LongerBlockOverflows(b: seq<byte>)
    requires |b| == MODX + 1 && forall i :: 0 <= i < |b| ==> b[i] == 255
    ensures Block1(254, 254, b) > INT_MAX
  {
    SumsOfOnes(b);
  }

  lemma {:induction false} SumsOfOnes(b: seq<byte>)
    requires forall i :: 0 <= i < |b| ==> b[i] == 255
    ensures C0(b) == 255 * |b| && 2 * C1(b) == 255 * |b| * (|b| + 1)
  {
    if b != [] {
      var n := |b| - 1;
      SumsOfOnes(b[..n]);
      assert 255 * (n + 1) * (n + 2) == 255 * n * (n + 1) + 2 * 255 * (n + 1);
    }
  }

  // ---- the check bytes ----

  // A size_t put into an int.
  function ToInt(v: int): int {
    var low := v % 0x1_0000_0000;
    if low > INT_MAX then low - 0x1_0000_0000 else low
  }

  // How often v is too large for an int.
  function Wraps(v: int): int {
    (v + 0x8000_0000) / 0x1_0000_0000
  }

  lemma WrapsSays(v: int)
    ensures Wraps(v) == 0 <==> -2147483648 <= v <= 2147483647
    ensures -2147483648 <= v <= 2147483647 ==> ToInt(v) == v
  {
  }

  lemma LowWord(v: int)
    ensures v % 0x1_0000_0000_0000_0000 % 0x1_0000_0000 == v % 0x1_0000_0000
  {
    var q, u := v / 0x1_0000_0000_0000_0000, v % 0x1_0000_0000_0000_0000;
    DivModUnique(v, 0x1_0000_0000, 0x1_0000_0000 * q + u / 0x1_0000_0000, u % 0x1_0000_0000);
  }

  lemma ToIntWraps(v: int)
    ensures ToInt(v % 0x1_0000_0000_0000_0000) == v - 0x1_0000_0000 * Wraps(v)
  {
    LowWord(v);
    var q, low := v / 0x1_0000_0000, v % 0x1_0000_0000;
    if low > INT_MAX {
      DivModUnique(v + 0x8000_0000, 0x1_0000_0000, q + 1, low - 0x8000_0000);
    } else {
      DivModUnique(v + 0x8000_0000, 0x1_0000_0000, q, low + 0x8000_0000);
    }
  }

  predicate Valid(s: seq<byte>) {
    C0(s) % 255 == 0 && C1(s) % 255 == 0
  }

  lemma OneMoreWeight(n: int, d: int)
    ensures (n + 1) * d == n * d + d
  {
  }

  lemma {:induction false} SumsChange(s: seq<byte>, i: nat, v: byte)
    requires i < |s|
    ensures C0(s[i := v]) == C0(s) - s[i] + v
    ensures C1(s[i := v]) == C1(s) + (|s| - i) * (v - s[i])
  {
    var n := |s| - 1;
    if i < n {
      SumsChange(s[..n], i, v);
      assert s[i := v][..n] == s[..n][i := v];
      OneMoreWeight(n - i, v - s[i]);
    } else {
      assert s[i := v][..n] == s[..n];
    }
  }

  // What check bytes x and y at offset do to the sums of a message with zeros there.
  lemma CheckBytes(s: seq<byte>, offset: nat, x: byte, y: byte)
    requires offset + 1 < |s| && s[offset] == 0 && s[offset + 1] == 0
    ensures var r := s[offset := x][offset + 1 := y]; var k := |s| - offset - 1;
      C0(r) == C0(s) + x + y && C1(r) == C1(s) + x + k * (x + y)
  {
    var k := |s| - offset - 1;
    SumsChange(s, offset, x);
    SumsChange(s[offset := x], offset + 1, y);
    assert (k + 1) * x + k * y == x + k * (x + y);
  }

  // With y chosen to cancel the first sum, the message is valid exactly when x is the remainder it
  // should be.
  lemma ValidIf(s: seq<byte>, offset: nat, x: byte, y: byte)
    requires offset + 1 < |s| && s[offset] == 0 && s[offset + 1] == 0 && (C0(s) + x + y) % 255 == 0
    ensures var k := |s| - offset - 1;
      Valid(s[offset := x][offset + 1 := y]) <==> (x - (k * (C0(s) % 255) - C1(s) % 255)) % 255 == 0
  {
    hide C0, C1;
    CheckBytes(s, offset, x, y);
    Congruent(C0(s), C1(s), |s| - offset - 1, x, x + y);
  }

  lemma Congruent(s0: nat, s1: nat, k: nat, x: int, t: int)
    requires (s0 + t) % 255 == 0
    ensures (s1 + x + k * t) % 255 == (x - (k * (s0 % 255) - s1 % 255)) % 255
  {
    var a, r := (s0 + t) / 255 - s0 / 255, s0 % 255;
    assert t == 255 * a - r;
    Distribute(k, a, r);
    ModShift(x - (k * r - s1 % 255), s1 / 255 + k * a);
  }

  lemma Distribute(k: int, a: int, b: int)
    ensures k * (255 * a - b) == 255 * (k * a) - k * b
  {
  }

  lemma ModShift(d: int, q: int)
    ensures (d + 255 * q) % 255 == d % 255
  {
  }

  // Which x the code writes, as a remainder.
  lemma RemainderOfInt(v: int)
    ensures var x := CMod(ToInt(v % 0x1_0000_0000_0000_0000), 255);
      -255 < x < 255 && (x - v) % 255 == (-Wraps(v)) % 255
  {
    ToIntWraps(v);
    var n := ToInt(v % 0x1_0000_0000_0000_0000);
    var x := CMod(n, 255);
    assert x - v == -Wraps(v) - 255 * (CDiv(n, 255) + 16843009 * Wraps(v));
    ModShift(-Wraps(v), -(CDiv(n, 255) + 16843009 * Wraps(v)));
  }

  // The message with its two check bytes zeroed
  function Zeroed(s: seq<byte>, offset: nat): (r: seq<byte>)
    requires offset + 1 < |s|
    ensures |r| == |s|
  {
    s[offset := 0][offset + 1 := 0]
  }

  // The value that x is computed from
  function Target(s: seq<byte>, offset: nat): int
    requires offset + 1 < |s|
  {
    var z := Zeroed(s, offset);
    (|s| - offset - 1) * (C0(z) % 255) - C1(z) % 255
  }

  // One block of the loop.
  method SumBlock(p: seq<byte>, from: nat, partialLen: nat, d0: nat, d1: nat) returns (c0: nat, c1: nat)
    requires from + partialLen <= |p| && partialLen <= MODX && d0 < 255 && d1 < 255
    ensures var b := p[from..from + partialLen]; c0 == Block0(d0, b) % 255 && c1 == Block1(d0, d1, b) % 255
  {
    hide Block0, Block1;
    c0, c1 := d0, d1;
    BlockEmpty(d0, d1);
    assert p[from..from] == [];
    var i := 0;
    while i < partialLen
      invariant 0 <= i <= partialLen
      invariant c0 == Block0(d0, p[from..from + i]) && c1 == Block1(d0, d1, p[from..from + i])
    {
      BlockNext(d0, d1, p[from..from + i], p[from + i]);
      assert p[from..from + i + 1] == p[from..from + i] + [p[from + i]];
      BlockFits(d0, d1, p[from..from + i + 1]);
      c0 := c0 + p[from + i];
      c1 := c1 + c0;
      assert c0 <= INT_MAX && c1 <= INT_MAX;
      i := i + 1;
    }
    c0, c1 := c0 % 255, c1 % 255;
  }

  // The two sums, reduced at the end of every block of MODX bytes.
  method Sums(p: seq<byte>) returns (c0: nat, c1: nat)
    ensures c0 == C0(p) % 255 && c1 == C1(p) % 255
  {
    hide C0, C1, Block0, Block1;
    c0, c1 := 0, 0;
    var left := |p|;
    BlockEmpty(0, 0);
    assert p[..0] == [];
    while left != 0
      invariant 0 <= left <= |p| && c0 == C0(p[..|p| - left]) % 255 && c1 == C1(p[..|p| - left]) % 255
    {
      var from := |p| - left;
      var partialLen := if left < MODX then left else MODX;
      BlockReduces(p[..from], p[from..from + partialLen]);
      assert p[..from + partialLen] == p[..from] + p[from..from + partialLen];
      c0, c1 := SumBlock(p, from, partialLen, c0, c1);
      left := left - partialLen;
    }
    assert p[..|p|] == p;
  }

  lemma BlockEmpty(c0: nat, c1: nat)
    ensures Block0(c0, []) == c0 && Block1(c0, c1, []) == c1 && C0([]) == 0 && C1([]) == 0
  {
  }

  lemma BlockNext(c0: nat, c1: nat, b: seq<byte>, v: byte)
    ensures Block0(c0, b + [v]) == Block0(c0, b) + v
    ensures Block1(c0, c1, b + [v]) == Block1(c0, c1, b) + Block0(c0, b + [v])
  {
    assert (b + [v])[..|b|] == b;
    assert (|b| + 1) * c0 == |b| * c0 + c0;
  }

  // A block may start from residues.
  lemma BlockReduces(a: seq<byte>, b: seq<byte>)
    ensures Block0(C0(a) % 255, b) % 255 == C0(a + b) % 255
    ensures Block1(C0(a) % 255, C1(a) % 255, b) % 255 == C1(a + b) % 255
  {
    hide C0, C1;
    SumsSplit(a, b);
    var q0, q1 := C0(a) / 255, C1(a) / 255;
    ModShift(Block0(C0(a) % 255, b), q0);
    Spread(|b|, q0, C0(a) % 255);
    ModShift(Block1(C0(a) % 255, C1(a) % 255, b), q1 + |b| * q0);
  }

  lemma Spread(k: int, a: int, b: int)
    ensures k * (255 * a + b) == 255 * (k * a) + k * b
  {
  }

  lemma Cancels(c: nat, x: int, y: int)
    requires y == 510 - c % 255 - x || y == 255 - c % 255 - x
    ensures (c + x + y) % 255 == 0
  {
  }

  // The remainder is right exactly when the wrapping did not matter.
  lemma WrapsOut(v: int, x: int)
    requires (x - v) % 255 == (-Wraps(v)) % 255 || (x - 255 - v) % 255 == (-Wraps(v)) % 255
    ensures (x - v) % 255 == 0 <==> Wraps(v) % 255 == 0
  {
    ModShift(x - v, -1);
  }

  // The two check bytes for a message with first sum c0
  method CheckValues(c0: nat, v: int) returns (x: byte, y: byte)
    requires c0 < 255
    ensures 0 < x && 0 < y && (c0 + x + y) % 255 == 0
    ensures (x - v) % 255 == 0 <==> Wraps(v) % 255 == 0
  {
    hide ToInt, CMod, Wraps;
    RemainderOfInt(v);
    var r := CMod(ToInt(v % 0x1_0000_0000_0000_0000), 255);
    if r <= 0 {
      r := r + 255;
    }
    WrapsOut(v, r);
    var t := 510 - c0 - r;
    if t > 255 {
      t := t - 255;
    }
    Cancels(c0, r, t);
    x, y := r, t;
  }

  // What the assertion on the offset lets through: room for two bytes behind it, or no bytes at all, because
  // the length minus one wraps around.
  lemma OffsetAssertion(offset: nat, len: nat)
    requires offset <= 0xffff && len < 0x1_0000_0000_0000_0000
    ensures offset < (len - 1) % 0x1_0000_0000_0000_0000 <==> offset + 1 < len || len == 0
  {
    if len == 0 {
      assert (0 - 1) % 0x1_0000_0000_0000_0000 == 0xffff_ffff_ffff_ffff;
    }
  }

  // So with a length of 0 it holds for every offset.
  lemma NoLengthPasses(offset: nat)
    requires offset <= 0xffff
    ensures offset < (0 - 1) % 0x1_0000_0000_0000_0000
  {
    OffsetAssertion(offset, 0);
  }

  // fletcher_checksum, on a little-endian machine
  method Checksum(buffer: array<byte>, offset: nat) returns (checksum: nat)
    requires offset <= 0xffff && buffer.Length < 0x1_0000_0000_0000_0000
    requires offset != 0xffff ==> offset + 1 < buffer.Length
    modifies buffer
    ensures offset == 0xffff ==>
      && buffer[..] == old(buffer[..]) && (checksum == 0 <==> Valid(buffer[..]))
      && checksum == 0x100 * (C1(buffer[..]) % 255) + C0(buffer[..]) % 255
    ensures offset != 0xffff ==>
      && checksum == (buffer[offset] as int) + 0x100 * (buffer[offset + 1] as int)
      && buffer[offset] > 0 && buffer[offset + 1] > 0
      && Zeroed(buffer[..], offset) == Zeroed(old(buffer[..]), offset)
      && (Valid(buffer[..]) <==> Wraps(Target(old(buffer[..]), offset)) % 255 == 0)
  {
    hide C0, C1, Wraps;
    if offset != VALIDATE {
      buffer[offset], buffer[offset + 1] := 0, 0;
    }
    var c0, c1 := Sums(buffer[..]);
    var x, y := CheckValues(c0, (buffer.Length - offset - 1) * c0 - c1);
    if offset == VALIDATE {
      checksum := 0x100 * c1 + c0;
    } else {
      ghost var s: seq<byte> := buffer[..];
      assert s == Zeroed(old(buffer[..]), offset);
      ModAdd(C0(s), (x as int) + y);
      ValidIf(s, offset, x, y);
      buffer[offset], buffer[offset + 1] := x, y;
      assert buffer[..] == s[offset := x][offset + 1 := y];
      checksum := (x as int) + 0x100 * (y as int);
    }
  }

  // Messages short enough always verify.
  lemma ShortMessagesVerify(s: seq<byte>, offset: nat)
    requires offset + 1 < |s| && (|s| - offset - 1) * 254 <= INT_MAX
    ensures Wraps(Target(s, offset)) == 0
  {
    var k, c0 := |s| - offset - 1, C0(Zeroed(s, offset)) % 255;
    MulMonotone(k, k, c0, 254);
  }

  // Generate the check bytes of a message, and validate it.
  method Sign(buffer: array<byte>, offset: nat) returns (check: nat)
    requires offset < VALIDATE && offset + 1 < buffer.Length < 0x1_0000_0000_0000_0000
    modifies buffer
    ensures check == 0 <==> Wraps(Target(old(buffer[..]), offset)) % 255 == 0
    ensures (buffer.Length - offset - 1) * 254 <= INT_MAX ==> check == 0
  {
    ghost var s: seq<byte> := buffer[..];
    if (buffer.Length - offset - 1) * 254 <= INT_MAX {
      ShortMessagesVerify(s, offset);
    }
    var checksum := Checksum(buffer, offset);
    check := Checksum(buffer, VALIDATE);
  }

  lemma {:induction false} ZeroSums(s: seq<byte>)
    requires forall i :: 0 <= i < |s| ==> s[i] == 0
    ensures C0(s) == 0 && C1(s) == 0
  {
    if s != [] {
      ZeroSums(s[..|s| - 1]);
    }
  }

  // A long message can fail: one byte of 254 at the end of 8454662 zeros.
  lemma LongMessageFails(s: seq<byte>)
    requires |s| == 8454663 && s[8454662] == 254 && forall i :: 0 <= i < 8454662 ==> s[i] == 0
    ensures Wraps(Target(s, 0)) % 255 != 0
  {
    assert Zeroed(s, 0) == s;
    ZeroSums(s[..8454662]);
    assert C0(s) == 254 && C1(s) == 254;
  }
}
