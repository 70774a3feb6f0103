// md5.c: the MD5 message digest, with its compression function left open, and HMAC-MD5.
module Md5 {
  import opened Arithmetic
  import BitArithmetic
  import opened Bytes

  const BUFLEN := 64
  const COUNT_MAX := 0x1_0000_0000_0000_0000

  datatype State = State(a: word, b: word, c: word, d: word)
  type Compression = (State, seq<byte>) -> State

  const INIT := State(0x67452301, 0xefcdab89, 0x98badcfe, 0x10325476)

  // The state after the first k blocks of s
  function Fold(compress: Compression, s: seq<byte>, k: nat): State
    requires BUFLEN * k <= |s|
  {
    if k == 0 then INIT else compress(Fold(compress, s, k - 1), s[BUFLEN * (k - 1)..BUFLEN * k])
  }

  lemma {:induction false} FoldPrefix(compress: Compression, s: seq<byte>, t: seq<byte>, k: nat)
    requires BUFLEN * k <= |s| && s <= t
    ensures Fold(compress, s, k) == Fold(compress, t, k)
  {
    if k > 0 {
      FoldPrefix(compress, s, t, k - 1);
      assert s[BUFLEN * (k - 1)..BUFLEN * k] == t[BUFLEN * (k - 1)..BUFLEN * k];
    }
  }

  function WordBytes(w: word): (r: seq<byte>)
    ensures |r| == 4
  {
    [Digit(w, 0), Digit(w, 1), Digit(w, 2), Digit(w, 3)]
  }

  // The count of bits, low-order byte first (RFC 1321, section 3.2)
  function CountBytes(n: nat): (r: seq<byte>)
    requires n < COUNT_MAX
    ensures |r| == 8
  {
    WordBytes(n % 0x1_0000_0000) + WordBytes(n / 0x1_0000_0000)
  }

  // The zeros that make the length 56 more than a multiple of 64 (RFC 1321, section 3.1)
  function Gap(len: nat): nat {
    (55 - len) % BUFLEN
  }

  function Padded(s: seq<byte>): (r: seq<byte>)
    ensures |r| % BUFLEN == 0
  {
    assert (|s| + 1 + Gap(|s|) + 8) % BUFLEN == 0;
    s + [0x80] + Zeros(Gap(|s|)) + CountBytes(8 * |s| % COUNT_MAX)
  }

  function Encode(st: State): (r: seq<byte>)
    ensures |r| == 16
  {
    WordBytes(st.a) + WordBytes(st.b) + WordBytes(st.c) + WordBytes(st.d)
  }

  // The digest of a message
  function Digest(compress: Compression, s: seq<byte>): (r: seq<byte>)
    ensures |r| == 16
  {
    Encode(Fold(compress, Padded(s), |Padded(s)| / BUFLEN))
  }

  const PADDAT: seq<byte> := [0x80] + Zeros(63)

  // K zero-padded to a block and xored with a repeated byte
  function XorPad(key: seq<byte>, pad: byte): (r: seq<byte>)
    requires |key| <= BUFLEN
    ensures |r| == BUFLEN
  {
    seq(BUFLEN, i requires 0 <= i < BUFLEN => Xor(KeyByte(key, i), pad))
  }

  function KeyByte(key: seq<byte>, i: nat): byte {
    if i < |key| then key[i] else 0
  }

  function Xor(a: byte, b: byte): byte {
    BitArithmetic.PowSays();
    BitArithmetic.XorBound(a, b, 8);
    BitArithmetic.Xor(a, b)
  }

  // RFC 2104, section 2
  function Hmac(compress: Compression, text: seq<byte>, key: seq<byte>): (r: seq<byte>)
    ensures |r| == 16
  {
    var k := if |key| > BUFLEN then Digest(compress, key) else key;
    Digest(compress, XorPad(k, 0x5c) + Digest(compress, XorPad(k, 0x36) + text))
  }

  // ---- what is digested, byte by byte ----

  // The message, a byte 0x80, as few zeros as make room for eight bytes at the end of a block, and in these the
  // number of bits, low-order byte first.
  lemma PaddedSays(s: seq<byte>)
    ensures var p := Padded(s); var n := |p|;
      && n % 64 == 0 && |s| + 9 <= n < |s| + 9 + 64 && s + [0x80] <= p
      && (forall i :: |s| < i < n - 8 ==> p[i] == 0)
      && (p[n - 8] as int) + 0x100 * (p[n - 7] as int) + 0x1_0000 * (p[n - 6] as int) + 0x100_0000 * (p[n - 5] as int)
        + 0x1_0000_0000 * (p[n - 4] as int) + 0x100_0000_0000 * (p[n - 3] as int)
        + 0x1_0000_0000_0000 * (p[n - 2] as int) + 0x100_0000_0000_0000 * (p[n - 1] as int)
        == 8 * |s| % 0x1_0000_0000_0000_0000
  {
    hide CountBytes;
    var p, count := Padded(s), CountBytes(8 * |s| % COUNT_MAX);
    assert p[|p| - 8..] == count;
    CountSays(8 * |s| % COUNT_MAX);
  }

  lemma WordSays(w: word)
    ensures var b := WordBytes(w);
      (b[0] as int) + 0x100 * (b[1] as int) + 0x1_0000 * (b[2] as int) + 0x100_0000 * (b[3] as int) == w
  {
    Digits(w);
  }

  lemma CountSays(n: nat)
    requires n < 0x1_0000_0000_0000_0000
    ensures var b := CountBytes(n);
      (b[0] as int) + 0x100 * (b[1] as int) + 0x1_0000 * (b[2] as int) + 0x100_0000 * (b[3] as int)
        + 0x1_0000_0000 * (b[4] as int) + 0x100_0000_0000 * (b[5] as int)
        + 0x1_0000_0000_0000 * (b[6] as int) + 0x100_0000_0000_0000 * (b[7] as int) == n
  {
    hide WordBytes;
    var low, high := n % 0x1_0000_0000, n / 0x1_0000_0000;
    WordSays(low);
    WordSays(high);
    var a, b := WordBytes(low), WordBytes(high);
    assert CountBytes(n)[..4] == a && CountBytes(n)[4..] == b;
    assert n == low + 0x1_0000_0000 * high;
  }

  // The digest is the four words of the state, each low-order byte first.
  lemma EncodeSays(st: State)
    ensures var b := Encode(st);
      && (b[0] as int) + 0x100 * (b[1] as int) + 0x1_0000 * (b[2] as int) + 0x100_0000 * (b[3] as int) == st.a
      && (b[4] as int) + 0x100 * (b[5] as int) + 0x1_0000 * (b[6] as int) + 0x100_0000 * (b[7] as int) == st.b
      && (b[8] as int) + 0x100 * (b[9] as int) + 0x1_0000 * (b[10] as int) + 0x100_0000 * (b[11] as int) == st.c
      && (b[12] as int) + 0x100 * (b[13] as int) + 0x1_0000 * (b[14] as int) + 0x100_0000 * (b[15] as int) == st.d
  {
    WordSays(st.a);
    WordSays(st.b);
    WordSays(st.c);
    WordSays(st.d);
  }

  // RFC 1321, section 3.3: the initial words are these bytes, low-order byte first.
  lemma InitSays()
    ensures Encode(INIT)
      == [0x01, 0x23, 0x45, 0x67, 0x89, 0xab, 0xcd, 0xef, 0xfe, 0xdc, 0xba, 0x98, 0x76, 0x54, 0x32, 0x10]
  {
  }

  // The blocks are folded from the first on.
  lemma FoldSays(compress: Compression, s: seq<byte>, block: seq<byte>, k: nat)
    requires |s| == 64 * k && |block| == 64
    ensures Fold(compress, [], 0) == INIT
    ensures Fold(compress, s + block, k + 1) == compress(Fold(compress, s, k), block)
  {
    FoldPrefix(compress, s, s + block, k);
    assert (s + block)[64 * k..64 * (k + 1)] == block;
  }

  // A message of one block
  lemma ShortDigest(compress: Compression, s: seq<byte>)
    requires |s| <= 55
    ensures |Padded(s)| == 64 && Digest(compress, s) == Encode(compress(INIT, Padded(s)))
  {
    hide Encode;
    PaddedSays(s);
    FoldSays(compress, [], Padded(s), 0);
    assert [] + Padded(s) == Padded(s);
  }

  lemma XorSays(a: byte, p: byte, i: nat)
    ensures Xor(Xor(a, p), p) == a
    ensures BitArithmetic.Bit(Xor(a, p), i) == if BitArithmetic.Bit(a, i) == BitArithmetic.Bit(p, i) then 0 else 1
  {
    hide BitArithmetic.Xor, BitArithmetic.Bit;
    BitArithmetic.XorTwice(a, p);
    BitArithmetic.BitOfBoth(a, p, i);
  }

  // RFC 2104, with the pads given by what they are xored back to
  lemma HmacSays(compress: Compression, text: seq<byte>, key: seq<byte>, inner: seq<byte>, outer: seq<byte>)
    requires |key| <= 64 && |inner| == |outer| == 64
    requires forall i :: 0 <= i < 64 ==> Xor(inner[i], 0x36) == if i < |key| then key[i] else 0
    requires forall i :: 0 <= i < 64 ==> Xor(outer[i], 0x5c) == if i < |key| then key[i] else 0
    ensures Hmac(compress, text, key) == Digest(compress, outer + Digest(compress, inner + text))
  {
    hide Xor, Digest;
    forall i | 0 <= i < 64 ensures XorPad(key, 0x36)[i] == inner[i] && XorPad(key, 0x5c)[i] == outer[i] {
      XorSays(inner[i], 0x36, 0);
      XorSays(outer[i], 0x5c, 0);
    }
    assert XorPad(key, 0x36) == inner && XorPad(key, 0x5c) == outer;
  }

  // A longer key is digested first.
  lemma LongKey(compress: Compression, text: seq<byte>, key: seq<byte>)
    requires |key| > 64
    ensures Hmac(compress, text, key) == Hmac(compress, text, Digest(compress, key))
  {
  }

  // ---- how the padding is laid out ----

  lemma PaddatIs(m: nat)
    requires 0 < m <= BUFLEN
    ensures PADDAT[..m] == [0x80] + Zeros(m - 1)
  {
  }

  // The padding as the code lays it out, when it fits behind the rest of the message, and when it does not.
  lemma PaddedOnce(s: seq<byte>)
    requires |s| % BUFLEN < 56
    ensures var i := |s| % BUFLEN;
      Padded(s) == s[..|s| - i] + (s[|s| - i..] + PADDAT[..56 - i] + CountBytes(8 * |s| % COUNT_MAX))
  {
    hide CountBytes;
    var i := |s| % BUFLEN;
    PaddatIs(56 - i);
    assert s == s[..|s| - i] + s[|s| - i..];
  }

  lemma PaddedTwice(s: seq<byte>)
    requires |s| % BUFLEN >= 56
    ensures var i := |s| % BUFLEN;
      Padded(s) == s[..|s| - i] + (s[|s| - i..] + PADDAT[..64 - i])
        + (PADDAT[64 - i..120 - i] + CountBytes(8 * |s| % COUNT_MAX))
  {
    hide CountBytes;
    var i := |s| % BUFLEN;
    PaddatIs(120 - i);
    assert PADDAT[..120 - i] == PADDAT[..64 - i] + PADDAT[64 - i..120 - i];
    assert s == s[..|s| - i] + s[|s| - i..];
    Regrouped(s[..|s| - i], s[|s| - i..], [0x80], Zeros(Gap(|s|)), PADDAT[..64 - i], PADDAT[64 - i..120 - i],
      CountBytes(8 * |s| % COUNT_MAX));
  }

  lemma Regrouped(a: seq<byte>, t: seq<byte>, h: seq<byte>, z: seq<byte>, x: seq<byte>, y: seq<byte>, c: seq<byte>)
    requires h + z == x + y
    ensures a + t + h + z + c == a + (t + x) + (y + c)
  {
    assert a + t + h + z == a + t + (h + z);
    assert a + t + (x + y) == a + (t + x) + y;
  }

  lemma Middle(a: seq<byte>, b: seq<byte>, c: seq<byte>)
    ensures (a + b + c)[|a|..|a| + |b|] == b
  {
  }

  // The rest of what was fed and the start of the input make a block.
  lemma FirstBlock(fed: seq<byte>, input: seq<byte>, k: nat, i: nat)
    requires |fed| == BUFLEN * k + i && i < BUFLEN && |input| >= BUFLEN - i
    ensures fed[|fed| - i..] + input[..BUFLEN - i] == (fed + input)[BUFLEN * k..BUFLEN * (k + 1)]
  {
  }

  lemma LaterBlock(fed: seq<byte>, input: seq<byte>, k: nat, j: nat)
    requires |fed| + j == BUFLEN * k && j + BUFLEN <= |input|
    ensures input[j..j + BUFLEN] == (fed + input)[BUFLEN * k..BUFLEN * (k + 1)]
  {
  }

  lemma CountOn(a: nat, b: nat)
    ensures (a % COUNT_MAX + b) % COUNT_MAX == (a + b) % COUNT_MAX
  {
    DivModUnique(a + b, COUNT_MAX, a / COUNT_MAX + (a % COUNT_MAX + b) / COUNT_MAX, (a % COUNT_MAX + b) % COUNT_MAX);
  }

  lemma FoldNone(compress: Compression)
    ensures Fold(compress, [], 0) == INIT
  {
  }

  lemma FoldNext(compress: Compression, s: seq<byte>, k: nat)
    requires BUFLEN * (k + 1) <= |s|
    ensures Fold(compress, s, k + 1) == compress(Fold(compress, s, k), s[BUFLEN * k..BUFLEN * (k + 1)])
  {
  }

  class Context {
    const compress: Compression
    var n: nat
    var i: nat
    var st: State
    const buf: array<byte>
    ghost var fed: seq<byte>

    // Whole blocks of what was fed are in the state, and the rest is in buf.
    ghost predicate Valid()
      reads this, buf
    {
      Solid() && n == 8 * |fed| % COUNT_MAX
    }

    ghost predicate Solid()
      reads this, buf
    {
      && buf.Length == BUFLEN && i == |fed| % BUFLEN
      && buf[..i] == fed[|fed| - i..]
      && st == Fold(compress, fed, |fed| / BUFLEN)
    }

    // md5_init
    constructor (compress: Compression)
      ensures Valid() && fed == [] && this.compress == compress && fresh(buf)
    {
      hide Fold, Context.Solid;
      this.compress, n, i, st, fed := compress, 0, 0, INIT, [];
      buf := new byte[BUFLEN](_ => 0);
      new;
      SolidAtFirst();
    }

    lemma SolidAtFirst()
      requires fed == [] && buf.Length == 64 && i == 0 && st == INIT
      ensures Solid()
    {
      hide Padded, Encode, CountBytes;
      FoldNone(compress);
      assert buf[..0] == [] == fed[0..];
    }

    // memcpy into buf
    method Copy(at: nat, s: seq<byte>)
      requires at + |s| <= buf.Length
      modifies buf
      ensures buf[..] == old(buf[..at]) + s + old(buf[at + |s|..])
    {
      var k := 0;
      while k < |s|
        invariant 0 <= k <= |s|
        invariant buf[..] == old(buf[..at]) + s[..k] + old(buf[at + k..])
      {
        buf[at + k] := s[k];
        k := k + 1;
      }
      assert s[..k] == s;
    }

    // md5_calc on what is in buf
    method Calc(b: seq<byte>)
      modifies this`st
      ensures st == compress(old(st), b)
    {
      st := compress(st, b);
    }

    // The blocks that input completes.
    method Absorb(input: seq<byte>)
      requires Solid() && |input| >= BUFLEN - i
      modifies this`st, this`i, buf
      ensures var all := fed + input;
        i == |all| % BUFLEN && buf[..i] == all[|all| - i..] && st == Fold(compress, all, |all| / BUFLEN)
    {
      hide Fold;
      ghost var all, k := fed + input, |fed| / BUFLEN;
      FoldPrefix(compress, fed, all, k);
      var j := BUFLEN - i;
      FirstBlock(fed, input, k, i);
      Copy(i, input[..j]);
      assert buf[..] == fed[|fed| - i..] + input[..j];
      FoldNext(compress, all, k);
      Calc(buf[..]);
      k := k + 1;
      while j + BUFLEN <= |input|
        invariant BUFLEN - old(i) <= j <= |input| && BUFLEN * k == |fed| + j
        invariant st == Fold(compress, all, k)
      {
        LaterBlock(fed, input, k, j);
        FoldNext(compress, all, k);
        Calc(input[j..j + BUFLEN]);
        j, k := j + BUFLEN, k + 1;
      }
      i := |input| - j;
      Copy(0, input[j..]);
      DivModUnique(|all|, BUFLEN, k, i);
      assert input[j..] == all[|all| - i..];
    }

    // md5_loop, which multiplies the length by 8 in 32 bits
    method Loop(input: seq<byte>)
      requires Valid() && |input| < 0x2000_0000
      modifies this, buf
      ensures Valid() && fed == old(fed) + input
    {
      hide Fold;
      ghost var all := fed + input;
      n := (n + |input| * 8) % COUNT_MAX;
      CountOn(8 * |fed|, 8 * |input|);
      if |input| >= BUFLEN - i {
        this.Absorb(input);
      } else {
        FoldPrefix(compress, fed, all, |fed| / BUFLEN);
        DivModUnique(|all|, BUFLEN, |fed| / BUFLEN, i + |input|);
        Copy(i, input);
        i := i + |input|;
      }
      fed := all;
    }

    // The last block gets the count behind it and is absorbed.
    method PadCount(ghost p: seq<byte>, ghost k: nat, ghost a: seq<byte>)
      requires buf.Length == BUFLEN && n < COUNT_MAX && |a| == BUFLEN * k && p == a + (buf[..56] + CountBytes(n))
      requires st == Fold(compress, p, k)
      modifies this`st, buf
      ensures st == Fold(compress, p, |p| / BUFLEN)
    {
      hide Fold, CountBytes;
      Copy(56, CountBytes(n));
      Middle(a, buf[..], []);
      assert p == a + buf[..] + [];
      FoldNext(compress, p, k);
      Calc(buf[..]);
    }

    // No room for the count: the padding fills this block, and goes on in the next.
    method PadBlock(ghost p: seq<byte>) returns (ghost a: seq<byte>)
      requires Valid() && i >= 56 && p == Padded(fed)
      modifies this`st, buf
      ensures |a| == BUFLEN * (|fed| / BUFLEN + 1) && p == a + (buf[..56] + CountBytes(n))
      ensures st == Fold(compress, p, |fed| / BUFLEN + 1)
    {
      hide Fold, Padded, CountBytes;
      ghost var k, count := |fed| / BUFLEN, CountBytes(n);
      a := fed[..|fed| - i];
      var gap := BUFLEN - i;
      PaddedTwice(fed);
      assert fed == a + fed[|fed| - i..];
      FoldPrefix(compress, a, fed, k);
      Copy(i, PADDAT[..gap]);
      assert buf[..] == fed[|fed| - i..] + PADDAT[..gap];
      Middle(a, buf[..], PADDAT[gap..gap + 56] + count);
      assert p == a + buf[..] + (PADDAT[gap..gap + 56] + count);
      FoldPrefix(compress, a, p, k);
      FoldNext(compress, p, k);
      Calc(buf[..]);
      a := a + buf[..];
      Copy(0, PADDAT[gap..gap + 56]);
    }

    // md5_pad
    method Pad()
      requires Valid()
      modifies this`st, buf
      ensures st == Fold(compress, Padded(fed), |Padded(fed)| / BUFLEN)
    {
      hide Fold, Padded, CountBytes;
      ghost var p := Padded(fed);
      var gap := BUFLEN - i;
      if gap > 8 {
        ghost var a := fed[..|fed| - i];
        PaddedOnce(fed);
        assert fed == a + fed[|fed| - i..];
        FoldPrefix(compress, a, p, |fed| / BUFLEN);
        FoldPrefix(compress, a, fed, |fed| / BUFLEN);
        Copy(i, PADDAT[..gap - 8]);
        PadCount(p, |fed| / BUFLEN, a);
      } else {
        ghost var a := PadBlock(p);
        PadCount(p, |fed| / BUFLEN + 1, a);
      }
    }

    // md5_pad, and then md5_result
    method Final() returns (digest: seq<byte>)
      requires Valid()
      modifies this`st, buf
      ensures digest == Digest(compress, fed)
    {
      Pad();
      digest := Encode(st);
    }
  }

  // Initialise, update twice, and finish.
  method DigestOf(compress: Compression, a: seq<byte>, b: seq<byte>) returns (digest: seq<byte>)
    requires |a| < 0x2000_0000 && |b| < 0x2000_0000
    ensures digest == Digest(compress, a + b)
  {
    hide Fold, Encode, Padded, Digest;
    var context := new Context(compress);
    context.Loop(a);
    assert context.fed == a;
    context.Loop(b);
    digest := context.Final();
  }

  // hmac_md5
  method HmacMd5(compress: Compression, text: seq<byte>, key: seq<byte>) returns (digest: seq<byte>)
    requires |text| < 0x2000_0000 && |key| < 0x2000_0000
    ensures digest == Hmac(compress, text, key)
  {
    hide Fold, Encode, Padded, Digest, XorPad;
    var k := key;
    if |key| > BUFLEN {
      var tctx := new Context(compress);
      tctx.Loop(key);
      assert tctx.fed == key;
      k := tctx.Final();
    }
    var ipad := XorKey(k, 0x36);
    var opad := XorKey(k, 0x5c);
    digest := DigestOf(compress, ipad, text);
    digest := DigestOf(compress, opad, digest);
  }

  // The first 64 bytes of the 65-byte pad array
  method XorKey(key: seq<byte>, pad: byte) returns (block: seq<byte>)
    requires |key| <= BUFLEN
    ensures block == XorPad(key, pad)
  {
    hide Xor;
    var k := new byte[65](_ => 0);
    forall i | 0 <= i < |key| {
      k[i] := key[i];
    }
    var i := 0;
    while i < BUFLEN
      invariant 0 <= i <= BUFLEN
      invariant forall j :: 0 <= j < BUFLEN ==>
        k[j] == if j < i then Xor(KeyByte(key, j), pad) else KeyByte(key, j)
    {
      k[i] := Xor(k[i], pad);
      i := i + 1;
    }
    block := k[..BUFLEN];
  }
}
