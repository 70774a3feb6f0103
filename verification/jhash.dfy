// jhash.c: Bob Jenkins' hash of bytes, and the faster form for an array of words.
module Jhash {
  import opened Arithmetic
  import opened BitArithmetic
  import opened Bytes

  const GOLDEN_RATIO: word := 0x9e3779b9

  // Unsigned arithmetic on 32 bits
  function Add(a: int, b: int): word {
    (a + b) % 0x1_0000_0000
  }

  function Sub(a: int, b: int): word {
    (a - b) % 0x1_0000_0000
  }

  function Xor(a: word, b: word): word {
    PowSays();
    XorBound(a, b, 32);
    BitArithmetic.Xor(a, b)
  }

  function Shl(a: word, k: nat): word {
    a * Pow(k) % 0x1_0000_0000
  }

  function Shr(a: word, k: nat): word {
    PowIsPowerOfTwo(k);
    ShrBound(a, Pow(k));
    a / Pow(k)
  }

  lemma ShrBound(a: nat, p: nat)
    requires p >= 1
    ensures 0 <= a / p <= a
  {
    var q := a / p;
    assert a == p * q + a % p;
    assert p * q == (p - 1) * q + q;
    if p > 1 && q > 0 {
      FarApart(p - 1, q);
    }
  }

  // ---- __jhash_mix ----

  datatype Regs = Regs(a: word, b: word, c: word)

  // x -= y; x -= z; x ^= s
  function Stir(x: word, y: word, z: word, s: word): word {
    Xor(Sub(Sub(x, y), z), s)
  }

  function Mix(r: Regs): Regs {
    var a := Stir(r.a, r.b, r.c, Shr(r.c, 13));
    var b := Stir(r.b, r.c, a, Shl(a, 8));
    var c := Stir(r.c, a, b, Shr(b, 13));
    var a' := Stir(a, b, c, Shr(c, 12));
    var b' := Stir(b, c, a', Shl(a', 16));
    var c' := Stir(c, a', b', Shr(b', 5));
    var a'' := Stir(a', b', c', Shr(c', 3));
    var b'' := Stir(b', c', a'', Shl(a'', 10));
    var c'' := Stir(c', a'', b'', Shr(b'', 15));
    Regs(a'', b'', c'')
  }

  // Stir, backwards
  function Unstir(x: word, y: word, z: word, s: word): word {
    Add(Add(Xor(x, s), z), y)
  }

  lemma Unstirred(x: word, y: word, z: word, s: word)
    ensures Unstir(Stir(x, y, z, s), y, z, s) == x
  {
    hide BitArithmetic.Xor, Add, Sub;
    XorTwice(Sub(Sub(x, y), z), s);
    SubAdd(x, y);
    SubAdd(Sub(x, y), z);
  }

  lemma SubAdd(x: word, y: word)
    ensures Add(Sub(x, y), y) == x
  {
  }

  // The registers before mixing can be had back, so that no two of them mix to the same.
  function Unmix(r: Regs): Regs {
    var c2 := Unstir(r.c, r.a, r.b, Shr(r.b, 15));
    var b2 := Unstir(r.b, c2, r.a, Shl(r.a, 10));
    var a2 := Unstir(r.a, b2, c2, Shr(c2, 3));
    var c1 := Unstir(c2, a2, b2, Shr(b2, 5));
    var b1 := Unstir(b2, c1, a2, Shl(a2, 16));
    var a1 := Unstir(a2, b1, c1, Shr(c1, 12));
    var c := Unstir(c1, a1, b1, Shr(b1, 13));
    var b := Unstir(b1, c, a1, Shl(a1, 8));
    var a := Unstir(a1, b, c, Shr(c, 13));
    Regs(a, b, c)
  }

  lemma Unmixed(r: Regs)
    ensures Unmix(Mix(r)) == r
  {
    hide Stir, Unstir, Shl, Shr;
    var a1 := Stir(r.a, r.b, r.c, Shr(r.c, 13));
    var b1 := Stir(r.b, r.c, a1, Shl(a1, 8));
    var c1 := Stir(r.c, a1, b1, Shr(b1, 13));
    var a2 := Stir(a1, b1, c1, Shr(c1, 12));
    var b2 := Stir(b1, c1, a2, Shl(a2, 16));
    var c2 := Stir(c1, a2, b2, Shr(b2, 5));
    var a3 := Stir(a2, b2, c2, Shr(c2, 3));
    var b3 := Stir(b2, c2, a3, Shl(a3, 10));
    Unstirred(c2, a3, b3, Shr(b3, 15));
    Unstirred(b2, c2, a3, Shl(a3, 10));
    Unstirred(a2, b2, c2, Shr(c2, 3));
    Unstirred(c1, a2, b2, Shr(b2, 5));
    Unstirred(b1, c1, a2, Shl(a2, 16));
    Unstirred(a1, b1, c1, Shr(c1, 12));
    Unstirred(r.c, a1, b1, Shr(b1, 13));
    Unstirred(r.b, r.c, a1, Shl(a1, 8));
    Unstirred(r.a, r.b, r.c, Shr(r.c, 13));
  }

  // The word operations, on bits and at their limits
  lemma WordsSay(a: word, b: word, k: nat, i: nat)
    ensures Bit(Xor(a, b), i) == if Bit(a, i) == Bit(b, i) then 0 else 1
    ensures Bit(Shr(a, k), i) == Bit(a, k + i)
    ensures Sub(Add(a, b), b) == a && Add(0xffff_ffff, 1) == 0
    ensures Shl(3, 8) == 0x300 && Shl(0xffff_ffff, 16) == 0xffff_0000
  {
    hide BitArithmetic.Xor, And, Bit, Shr, Shl, Pow;
    BitOfBoth(a, b, i);
    ShiftedBit(a, k, i);
    Shifted();
  }

  lemma Shifted()
    ensures Shl(3, 8) == 0x300 && Shl(0xffff_ffff, 16) == 0xffff_0000
  {
    hide Pow;
    PowSays();
  }

  lemma ShiftedBit(a: word, k: nat, i: nat)
    ensures Bit(Shr(a, k), i) == Bit(a, k + i)
  {
    hide Pow;
    PowIsPowerOfTwo(k);
    PowIsPowerOfTwo(i);
    PowSum(k, i);
    QuotientTwice(a, Pow(k), Pow(i));
  }

  lemma Below(p: nat, q: nat, r: nat, s: nat)
    requires r < q && s < p
    ensures 0 < p * q && 0 <= p * r + s < p * q
  {
    assert p * (q - r) == p * q - p * r;
    FarApart(p, q - r);
  }

  lemma QuotientTwice(a: nat, p: nat, q: nat)
    requires p > 0 && q > 0
    ensures a / p / q == a / (p * q)
  {
    var x := a / p;
    var y, r := x / q, x % q;
    assert a == p * x + a % p && x == q * y + r;
    assert p * x == (p * q) * y + p * r;
    Below(p, q, r, a % p);
    DivModUnique(a, p * q, y, p * r + a % p);
  }

  // ---- what is hashed ----

  // Byte i of s, followed by as many zeros as it takes
  function At(s: seq<byte>, i: nat): byte {
    if i < |s| then s[i] else 0
  }

  // The little-endian word at byte i of s
  function Le(s: seq<byte>, i: nat): word {
    (At(s, i) as int) + 0x100 * (At(s, i + 1) as int) + 0x1_0000 * (At(s, i + 2) as int)
      + 0x100_0000 * (At(s, i + 3) as int)
  }

  // The three bytes at i, as the upper bytes of a word
  function Three(k: seq<byte>, i: nat): int {
    0x100 * (At(k, i) as int) + 0x1_0000 * (At(k, i + 1) as int) + 0x100_0000 * (At(k, i + 2) as int)
  }

  function AddBlock(r: Regs, s: seq<byte>, i: nat): Regs {
    Regs(Add(r.a, Le(s, i)), Add(r.b, Le(s, i + 4)), Add(r.c, Le(s, i + 8)))
  }

  // The registers after n blocks of 12 bytes
  function Blocks(s: seq<byte>, initval: word, n: nat): Regs {
    if n == 0 then Regs(GOLDEN_RATIO, GOLDEN_RATIO, initval)
    else Mix(AddBlock(Blocks(s, initval, n - 1), s, 12 * (n - 1)))
  }

  // The rest is a block with the length in place of the low byte of c.
  function Hash(s: seq<byte>, initval: word): word {
    var n := |s| / 12;
    var r := Blocks(s, initval, n);
    var i := 12 * n;
    Mix(Regs(Add(r.a, Le(s, i)), Add(r.b, Le(s, i + 4)), Add(Add(r.c, |s|), Three(s, i + 8)))).c
  }

  lemma BlocksNext(s: seq<byte>, initval: word, n: nat)
    ensures Blocks(s, initval, n + 1) == Mix(AddBlock(Blocks(s, initval, n), s, 12 * n))
  {
  }

  lemma LeBehind(s: seq<byte>, m: nat, i: nat)
    requires m <= |s|
    ensures Le(s[m..], i) == Le(s, m + i) && At(s[m..], i) == At(s, m + i)
  {
  }

  method JHash(key: seq<byte>, initval: word) returns (hash: word)
    requires |key| < 0x1_0000_0000
    ensures hash == Hash(key, initval)
  {
    hide Mix, Blocks, Le, At, Add, AddBlock;
    assert Blocks(key, initval, 0) == Regs(GOLDEN_RATIO, GOLDEN_RATIO, initval) by { NoBlocks(key, initval); }
    var r, len, k := Regs(GOLDEN_RATIO, GOLDEN_RATIO, initval), |key|, 0;
    while len >= 12
      invariant 0 <= len == |key| - 12 * k && 0 <= k && r == Blocks(key, initval, k)
    {
      BlocksNext(key, initval, k);
      r := Mix(AddBlock(r, key, 12 * k));
      len, k := len - 12, k + 1;
    }
    var i := 12 * k;
    LeBehind(key, i, 0);
    LeBehind(key, i, 4);
    LeBehind(key, i, 8);
    LeBehind(key, i, 9);
    LeBehind(key, i, 10);
    var a, b, c := AddTail(r, key[i..], |key|);
    hash := Mix(Regs(a, b, c)).c;
  }

  lemma NoBlocks(s: seq<byte>, initval: word)
    ensures Blocks(s, initval, 0) == Regs(GOLDEN_RATIO, GOLDEN_RATIO, initval)
  {
  }

  // What is mixed of a short key: its bytes as little-endian words on top of the golden ratio, but that the
  // last word has the length in its low byte.
  lemma ShortHash(k: seq<byte>, initval: word)
    requires |k| == 11
    ensures Hash(k, initval) == Mix(Regs(
      (0x9e3779b9 + k[0] + 0x100 * (k[1] as int) + 0x1_0000 * (k[2] as int) + 0x100_0000 * (k[3] as int))
        % 0x1_0000_0000,
      (0x9e3779b9 + k[4] + 0x100 * (k[5] as int) + 0x1_0000 * (k[6] as int) + 0x100_0000 * (k[7] as int))
        % 0x1_0000_0000,
      (initval + 11 + 0x100 * (k[8] as int) + 0x1_0000 * (k[9] as int) + 0x100_0000 * (k[10] as int))
        % 0x1_0000_0000)).c
  {
    hide Mix;
    AddTwice(initval, 11, Three(k, 8));
  }

  // A key is hashed in blocks of 12 bytes, and bytes that are missing at the end count as zeros.
  lemma LongHash(k: seq<byte>, n: nat, initval: word)
    requires |k| >= 12 * (n + 1)
    ensures var r, b := Blocks(k, initval, n), k[12 * n..12 * (n + 1)];
      Blocks(k, initval, n + 1) == Mix(Regs(
        (r.a + b[0] + 0x100 * (b[1] as int) + 0x1_0000 * (b[2] as int) + 0x100_0000 * (b[3] as int)) % 0x1_0000_0000,
        (r.b + b[4] + 0x100 * (b[5] as int) + 0x1_0000 * (b[6] as int) + 0x100_0000 * (b[7] as int)) % 0x1_0000_0000,
        (r.c + b[8] + 0x100 * (b[9] as int) + 0x1_0000 * (b[10] as int) + 0x100_0000 * (b[11] as int))
          % 0x1_0000_0000))
  {
    hide Mix;
    BlocksNext(k, initval, n);
  }

  lemma AddZero(x: word)
    ensures Add(x, 0) == x
  {
  }

  lemma AddTwice(x: int, y: int, z: int)
    ensures Add(Add(x, y), z) == Add(x, y + z)
  {
  }

  // The three cases of the switch, in their order, that end with byte i + 2, i + 1 and i.
  method AddThree(x: word, k: seq<byte>, i: nat) returns (y: word)
    ensures y == Add(x, Three(k, i))
  {
    hide Add;
    y := x;
    AddZero(x);
    if |k| >= i + 3 { y := Add(y, 0x100_0000 * (k[i + 2] as int)); }
    AddZero(y);
    AddTwice(x, 0x100_0000 * (At(k, i + 2) as int), 0x1_0000 * (At(k, i + 1) as int));
    if |k| >= i + 2 { y := Add(y, 0x1_0000 * (k[i + 1] as int)); }
    AddZero(y);
    AddTwice(x, 0x1_0000 * (At(k, i + 1) as int) + 0x100_0000 * (At(k, i + 2) as int), 0x100 * (At(k, i) as int));
    if |k| >= i + 1 { y := Add(y, 0x100 * (k[i] as int)); }
  }

  // The switch, whose cases fall through
  method AddTail(r: Regs, k: seq<byte>, length: nat) returns (a: word, b: word, c: word)
    requires |k| < 12
    ensures a == Add(r.a, Le(k, 0)) && b == Add(r.b, Le(k, 4)) && c == Add(Add(r.c, length), Three(k, 8))
  {
    hide Add;
    c := AddThree(Add(r.c, length), k, 8);
    b := AddThree(r.b, k, 5);
    AddTwice(r.b, Three(k, 5), At(k, 4));
    AddZero(b);
    if |k| >= 5 { b := Add(b, k[4]); }
    a := AddThree(r.a, k, 1);
    AddTwice(r.a, Three(k, 1), At(k, 0));
    AddZero(a);
    if |k| >= 1 { a := Add(a, k[0]); }
  }

  // ---- words ----

  function Expand(k: seq<word>): (s: seq<byte>)
    ensures |s| == 4 * |k|
  {
    seq(4 * |k|, i requires 0 <= i < 4 * |k| => Digit(k[i / 4], i % 4))
  }

  lemma ExpandedByte(k: seq<word>, i: nat, j: nat)
    requires i < |k| && j < 4
    ensures At(Expand(k), 4 * i + j) == Digit(k[i], j)
  {
    assert (4 * i + j) / 4 == i && (4 * i + j) % 4 == j;
  }

  lemma ExpandedWord(k: seq<word>, i: nat)
    ensures Le(Expand(k), 4 * i) == if i < |k| then k[i] else 0
  {
    hide Expand, Digit;
    if i < |k| {
      ExpandedByte(k, i, 0);
      ExpandedByte(k, i, 1);
      ExpandedByte(k, i, 2);
      ExpandedByte(k, i, 3);
      Digits(k[i]);
    }
  }

  // Words with nothing behind them have no upper bytes either.
  lemma NothingBehind(s: seq<byte>, i: nat)
    requires |s| <= i
    ensures Three(s, i) == 0 && Le(s, i) == 0
  {
  }

  method JHash2(k: seq<word>, initval: word) returns (hash: word)
    requires 4 * |k| < 0x1_0000_0000
    ensures hash == Hash(Expand(k), initval)
  {
    hide Mix, Expand, Blocks, Le, At, Add, Three;
    ghost var s := Expand(k);
    NoBlocks(s, initval);
    var r, len, i := Regs(GOLDEN_RATIO, GOLDEN_RATIO, initval), |k|, 0;
    while len >= 3
      invariant 0 <= len == |k| - 3 * i && 0 <= i && r == Blocks(s, initval, i)
    {
      BlocksNext(s, initval, i);
      ExpandedWord(k, 3 * i);
      ExpandedWord(k, 3 * i + 1);
      ExpandedWord(k, 3 * i + 2);
      r := Mix(Regs(Add(r.a, k[3 * i]), Add(r.b, k[3 * i + 1]), Add(r.c, k[3 * i + 2])));
      len, i := len - 3, i + 1;
    }
    var a, b, c := r.a, r.b, Add(r.c, 4 * |k|);
    AddZero(a);
    AddZero(b);
    AddZero(c);
    if len >= 2 {
      b := Add(b, k[3 * i + 1]);
    }
    if len >= 1 {
      a := Add(a, k[3 * i]);
    }
    ExpandedWord(k, 3 * i);
    ExpandedWord(k, 3 * i + 1);
    NothingBehind(s, 12 * i + 8);
    hash := Mix(Regs(a, b, c)).c;
  }
}
