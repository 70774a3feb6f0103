// C's bitwise "and" on unsigned values, and powers of two.
module BitArithmetic {
  import opened Arithmetic

  // C's & on unsigned values
  function And(a: nat, b: nat): nat {
    if a == 0 || b == 0 then 0 else 2 * And(a / 2, b / 2) + if a % 2 == 1 && b % 2 == 1 then 1 else 0
  }

  predicate PowerOfTwo(n: nat) {
    n == 1 || (n > 1 && n % 2 == 0 && PowerOfTwo(n / 2))
  }

  lemma {:induction false} AndSelf(a: nat)
    ensures And(a, a) == a
  {
    if a > 0 {
      AndSelf(a / 2);
    }
  }

  // What the assertion in hash_create_size accepts.
  lemma {:induction false} AndWithPredecessor(n: nat)
    requires n > 0
    ensures And(n, n - 1) == 0 <==> PowerOfTwo(n)
  {
    if n % 2 == 1 {
      AndSelf(n / 2);
      assert (n - 1) / 2 == n / 2;
    } else {
      AndWithPredecessor(n / 2);
      assert (n - 1) / 2 == n / 2 - 1;
    }
  }

  // Masking with size - 1 takes the remainder.
  lemma {:induction false} MaskIsRemainder(key: nat, size: nat)
    requires PowerOfTwo(size)
    ensures And(key, size - 1) == key % size
  {
    if size == 1 {
      assert key % 1 == 0;
    } else {
      MaskIsRemainder(key / 2, size / 2);
      HalvedRemainder(key, size / 2);
      AndHalved(key, size);
    }
  }

  lemma AndHalved(key: nat, size: nat)
    requires size > 1 && size % 2 == 0
    ensures And(key, size - 1) == 2 * And(key / 2, size / 2 - 1) + key % 2
  {
    assert (size - 1) / 2 == size / 2 - 1 && (size - 1) % 2 == 1;
  }

  lemma HalvedRemainder(key: nat, half: nat)
    requires half > 0
    ensures key % (2 * half) == 2 * (key / 2 % half) + key % 2
  {
    var q, r := key / 2 / half, key / 2 % half;
    assert key / 2 == half * q + r;
    assert key == 2 * (half * q) + 2 * r + key % 2;
    assert (2 * half) * q == 2 * (half * q);
    DivModUnique(key, 2 * half, q, 2 * r + key % 2);
  }

  function Pow(k: nat): nat {
    if k == 0 then 1 else 2 * Pow(k - 1)
  }

  lemma {:induction false} PowIsPowerOfTwo(k: nat)
    ensures PowerOfTwo(Pow(k)) && Pow(k) >= 1
  {
    if k > 0 {
      PowIsPowerOfTwo(k - 1);
    }
  }

  lemma {:induction false} PowSum(a: nat, b: nat)
    ensures Pow(a + b) == Pow(a) * Pow(b)
  {
    if a > 0 {
      PowSum(a - 1, b);
      assert Pow(a) * Pow(b) == 2 * (Pow(a - 1) * Pow(b));
    }
  }

  // C's ^ on unsigned values
  function Xor(a: nat, b: nat): nat {
    if a == 0 then b else if b == 0 then a else 2 * Xor(a / 2, b / 2) + (a + b) % 2
  }

  lemma XorHalves(a: nat, b: nat)
    ensures Xor(a, b) / 2 == Xor(a / 2, b / 2) && Xor(a, b) % 2 == (a + b) % 2
  {
  }

  // Bit i of a number
  function Bit(a: nat, i: nat): nat {
    PowIsPowerOfTwo(i);
    a / Pow(i) % 2
  }

  lemma BitNext(a: nat, i: nat)
    ensures Bit(a, i + 1) == Bit(a / 2, i) && Bit(a, 0) == a % 2
  {
    PowIsPowerOfTwo(i);
    HalvedQuotient(a, Pow(i));
  }

  lemma HalvedQuotient(a: nat, p: nat)
    requires p > 0
    ensures a / (2 * p) == a / 2 / p
  {
    var q, r := a / 2 / p, a / 2 % p;
    assert a / 2 == p * q + r;
    assert a == 2 * (p * q) + 2 * r + a % 2;
    assert (2 * p) * q == 2 * (p * q);
    DivModUnique(a, 2 * p, q, 2 * r + a % 2);
  }

  // The two operations work bit by bit.
  lemma {:induction false} BitOfBoth(a: nat, b: nat, i: nat)
    ensures Bit(And(a, b), i) == (if Bit(a, i) == Bit(b, i) then Bit(a, i) else 0)
    ensures Bit(Xor(a, b), i) == if Bit(a, i) == Bit(b, i) then 0 else 1
  {
    hide Bit;
    XorHalves(a, b);
    AndHalves(a, b);
    if i == 0 {
      BitNext(a, 0);
      BitNext(b, 0);
      BitNext(And(a, b), 0);
      BitNext(Xor(a, b), 0);
    } else {
      BitOfBoth(a / 2, b / 2, i - 1);
      BitNext(a, i - 1);
      BitNext(b, i - 1);
      BitNext(And(a, b), i - 1);
      BitNext(Xor(a, b), i - 1);
    }
  }

  lemma AndHalves(a: nat, b: nat)
    ensures And(a, b) / 2 == And(a / 2, b / 2) && And(a, b) % 2 == (if a % 2 == b % 2 then a % 2 else 0)
  {
    AndZero(a / 2);
    AndZero(b / 2);
  }

  lemma AndZero(a: nat)
    ensures And(a, 0) == And(0, a) == 0
  {
  }

  lemma {:induction false} XorTwice(a: nat, b: nat)
    ensures Xor(Xor(a, b), b) == a
    decreases a + b
  {
    if a > 0 && b > 0 {
      XorTwice(a / 2, b / 2);
      XorHalves(a, b);
      XorHalves(Xor(a, b), b);
    } else if a == 0 {
      XorSelf(b);
    }
  }

  lemma {:induction false} XorSelf(a: nat)
    ensures Xor(a, a) == 0
  {
    if a > 0 {
      XorSelf(a / 2);
    }
  }

  lemma {:induction false} XorBound(a: nat, b: nat, k: nat)
    requires a < Pow(k) && b < Pow(k)
    ensures Xor(a, b) < Pow(k)
  {
    if k > 0 {
      XorBound(a / 2, b / 2, k - 1);
      XorHalves(a, b);
    }
  }

  lemma {:induction false} PowersOfTwo(n: nat)
    ensures PowerOfTwo(n) <==> exists k: nat :: n == Pow(k)
  {
    if PowerOfTwo(n) {
      if n == 1 {
        assert n == Pow(0);
      } else {
        PowersOfTwo(n / 2);
        var k: nat :| n / 2 == Pow(k);
        assert n == Pow(k + 1);
      }
    }
    if k: nat :| n == Pow(k) {
      PowIsPowerOfTwo(k);
    }
  }

  lemma PowSays()
    ensures Pow(8) == 0x100
    ensures Pow(16) == 0x1_0000
    ensures Pow(32) == 0x1_0000_0000
  {
    assert Pow(4) == 16;
    PowSum(4, 4);
    PowSum(8, 8);
    PowSum(16, 16);
  }
}
