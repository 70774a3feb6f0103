// in_cksum of checksum.c: the Internet checksum.
module InetChecksum {
  import opened Arithmetic
  import opened Bytes

  // The 16-bit words of a little-endian machine; an odd byte stands alone.
  function Word(s: seq<byte>, i: nat): nat
    requires 2 * i < |s|
  {
    (s[2 * i] as int) + if 2 * i + 1 < |s| then 0x100 * (s[2 * i + 1] as int) else 0
  }

  function Count(s: seq<byte>): nat {
    (|s| + 1) / 2
  }

  // The sum of the first n words.
  function Sum(s: seq<byte>, n: nat): nat
    requires n <= Count(s)
  {
    if n == 0 then 0 else Sum(s, n - 1) + Word(s, n - 1)
  }

  // Addition of 16-bit words with the carry brought around.
  function Plus(a: nat, b: nat): nat {
    if a + b > 0xffff then a + b - 0xffff else a + b
  }

  // The one's complement sum (RFC 1071, section 1).
  function OnesSum(s: seq<byte>, n: nat): (r: nat)
    requires n <= Count(s)
    ensures r <= 0xffff
  {
    if n == 0 then 0 else Plus(OnesSum(s, n - 1), Word(s, n - 1))
  }

  // What two folds make of a sum, in 16 bits.
  function Folded(sum: nat): nat {
    var once := sum / 0x1_0000 + sum % 0x1_0000;
    (once + once / 0x1_0000) % 0x1_0000
  }

  // Two folds are enough.
  predicate FoldsTwice(sum: nat) {
    var once := sum / 0x1_0000 + sum % 0x1_0000;
    once / 0x1_0000 + once % 0x1_0000 <= 0xffff
  }

  // The canonical remainder modulo 0xffff, where only 0 has remainder 0.
  function Canonical(n: nat): nat {
    if n == 0 then 0 else (n - 1) % 0xffff + 1
  }

  lemma CanonicalIs(n: nat, q: nat, r: int)
    requires n == 0xffff * q + r && 1 <= r <= 0xffff
    ensures Canonical(n) == r
  {
    DivModUnique(n - 1, 0xffff, q, r - 1);
  }

  lemma CanonicalPlus(n: nat, w: nat)
    requires w <= 0xffff
    ensures Plus(Canonical(n), w) == Canonical(n + w)
  {
    if n > 0 {
      var q, r := (n - 1) / 0xffff, Canonical(n);
      assert n == 0xffff * q + r;
      if r + w > 0xffff {
        CanonicalIs(n + w, q + 1, r + w - 0xffff);
      } else {
        CanonicalIs(n + w, q, r + w);
      }
    } else if w > 0 {
      CanonicalIs(w, 0, w);
    }
  }

  lemma {:induction false} OnesSumIs(s: seq<byte>, n: nat)
    requires n <= Count(s)
    ensures OnesSum(s, n) == Canonical(Sum(s, n))
  {
    if n > 0 {
      OnesSumIs(s, n - 1);
      CanonicalPlus(Sum(s, n - 1), Word(s, n - 1));
    }
  }

  lemma FoldOnce(n: nat)
    ensures Canonical(n / 0x1_0000 + n % 0x1_0000) == Canonical(n)
  {
    var hi, lo := n / 0x1_0000, n % 0x1_0000;
    if hi + lo > 0 {
      var q := (hi + lo - 1) / 0xffff;
      CanonicalIs(n, hi + q, hi + lo - 0xffff * q);
    }
  }

  lemma CanonicalZero()
    ensures Canonical(0) == 0 && forall n :: n > 0 ==> 1 <= Canonical(n) <= 0xffff
  {
  }

  lemma FoldedIs(sum: nat)
    requires sum <= 0xffff * 0x4000_0000
    ensures Folded(sum) == Canonical(sum) <==> FoldsTwice(sum)
  {
    hide Canonical;
    var once := sum / 0x1_0000 + sum % 0x1_0000;
    FoldOnce(sum);
    FoldOnce(once);
    CanonicalZero();
    var n := once / 0x1_0000 + once % 0x1_0000;
    assert n < 2 * 0x1_0000 - 1;
    if n > 0xffff {
      CanonicalIs(n, 1, n - 0xffff);
    } else if n > 0 {
      CanonicalIs(n, 0, n);
    }
  }

  lemma {:induction false} SumBound(s: seq<byte>, n: nat)
    requires n <= Count(s)
    ensures Sum(s, n) <= 0xffff * n
    ensures n > 0 && 2 * n > |s| ==> Sum(s, n) <= 0xffff * (n - 1) + 0xff
  {
    if n > 0 {
      SumBound(s, n - 1);
    }
  }

  lemma SmallFoldsTwice(sum: nat)
    requires sum <= 0xffff * 65538
    ensures FoldsTwice(sum)
  {
  }

  // So far the sum stays within a long of 32 bits, whatever the bytes.
  lemma FitsLong(p: seq<byte>, n: nat)
    requires n <= Count(p) && |p| <= 65537
    ensures Sum(p, n) <= 0x7fff_ffff
  {
    SumBound(p, n);
  }

  // One full word more can be too much for it.
  lemma LongOverflows(p: seq<byte>)
    requires |p| == 65538 && forall i :: 0 <= i < |p| ==> p[i] == 0xff
    ensures Sum(p, Count(p)) > 0x7fff_ffff
  {
    FullWords(p, 32769);
  }

  lemma FoldedUp(sum: nat)
    ensures var once := sum / 0x1_0000 + sum % 0x1_0000; Folded(sum) == (once + once / 0x1_0000) % 0x1_0000
  {
  }

  lemma NoSum(p: seq<byte>)
    ensures Sum(p, 0) == 0
  {
  }

  lemma SumNext(p: seq<byte>, i: nat)
    requires 2 * i < |p|
    ensures Sum(p, i + 1) == Sum(p, i) + p[2 * i] + if 2 * i + 1 < |p| then 0x100 * (p[2 * i + 1] as int) else 0
  {
  }

  method InCksum(p: seq<byte>) returns (answer: nat)
    requires |p| < 0x8000_0000
    ensures answer == 0xffff - Folded(Sum(p, Count(p)))
    ensures answer == 0xffff - OnesSum(p, Count(p)) <==> FoldsTwice(Sum(p, Count(p)))
    ensures |p| <= 131076 ==> answer == 0xffff - OnesSum(p, Count(p))
  {
    hide FoldsTwice, Canonical, OnesSum, Sum, Word, Folded;
    var sum: nat, nbytes, i := 0, |p|, 0;
    NoSum(p);
    while nbytes > 1
      invariant 0 <= nbytes == |p| - 2 * i && sum == Sum(p, i)
    {
      SumNext(p, i);
      sum := sum + (p[2 * i] as int) + 0x100 * (p[2 * i + 1] as int);
      nbytes, i := nbytes - 2, i + 1;
    }
    if nbytes == 1 {
      SumNext(p, i);
      sum := sum + (p[2 * i] as int);
    }
    assert sum == Sum(p, Count(p));
    OnesSumIs(p, Count(p));
    SumBound(p, Count(p));
    FoldedIs(sum);
    if |p| <= 131076 {
      SmallFoldsTwice(sum);
    }
    FoldedUp(sum);
    sum := sum / 0x1_0000 + sum % 0x1_0000;
    sum := sum + sum / 0x1_0000;
    answer := 0xffff - sum % 0x1_0000;
  }

  // The numerical example of RFC 1071, section 3, on a little-endian machine
  lemma Example()
    ensures var p := [0x00, 0x01, 0xf2, 0x03, 0xf4, 0xf5, 0xf6, 0xf7];
      Count(p) == 4 && OnesSum(p, 4) == 0xf2dd && Folded(Sum(p, 4)) == 0xf2dd
  {
    hide Word;
    var p := [0x00, 0x01, 0xf2, 0x03, 0xf4, 0xf5, 0xf6, 0xf7];
    WordOf(p, 0);
    WordOf(p, 1);
    WordOf(p, 2);
    WordOf(p, 3);
    assert Sum(p, 0) == 0 && OnesSum(p, 0) == 0;
    assert Sum(p, 1) == 0x0100 && OnesSum(p, 1) == 0x0100;
    assert Sum(p, 2) == 0x04f2 && OnesSum(p, 2) == 0x04f2;
    assert Sum(p, 3) == 0xfae6 && OnesSum(p, 3) == 0xfae6;
    assert Sum(p, 4) == 0x1_f2dc;
  }

  // The lower byte of a word comes first, and an odd byte at the end is one.
  lemma WordOf(p: seq<byte>, i: nat)
    ensures 2 * i + 1 < |p| ==> Word(p, i) == p[2 * i] + 0x100 * (p[2 * i + 1] as int)
    ensures 2 * i + 1 == |p| ==> Word(p, i) == p[2 * i]
  {
  }

  // Storing a 16-bit value in a little-endian word.
  function Store(p: seq<byte>, w: nat, a: nat): (r: seq<byte>)
    requires 2 * w + 1 < |p| && a <= 0xffff
    ensures |r| == |p|
  {
    p[2 * w := a % 0x100][2 * w + 1 := a / 0x100]
  }

  lemma {:induction false} StoreAdds(p: seq<byte>, w: nat, a: nat, n: nat)
    requires 2 * w + 1 < |p| && a <= 0xffff && p[2 * w] == 0 && p[2 * w + 1] == 0 && n <= Count(p)
    ensures Sum(Store(p, w, a), n) == Sum(p, n) + if n > w then a else 0
  {
    if n > 0 {
      StoreAdds(p, w, a, n - 1);
    }
  }

  // The complement of the sum of a message, stored in a zeroed word of it, makes the sum all ones.
  lemma StoredChecksumVerifies(p: seq<byte>, w: nat)
    requires 2 * w + 1 < |p| && p[2 * w] == 0 && p[2 * w + 1] == 0
    ensures var q := Store(p, w, 0xffff - OnesSum(p, Count(p))); OnesSum(q, Count(q)) == 0xffff
  {
    var a := 0xffff - OnesSum(p, Count(p));
    var sum := Sum(p, Count(p));
    StoreAdds(p, w, a, Count(p));
    OnesSumIs(p, Count(p));
    OnesSumIs(Store(p, w, a), Count(p));
    CanonicalIs(sum + a, if sum > 0 then (sum - 1) / 0xffff else 0, 0xffff);
  }

  // Fill in the checksum field of a message, and check the message.
  method Protect(p: seq<byte>, w: nat) returns (q: seq<byte>, check: nat)
    requires |p| <= 131076 && 2 * w + 1 < |p| && p[2 * w] == 0 && p[2 * w + 1] == 0
    ensures exists a :: 0 <= a <= 0xffff && q == Store(p, w, a)
    ensures check == 0
  {
    var answer := InCksum(p);
    q := Store(p, w, answer);
    StoredChecksumVerifies(p, w);
    check := InCksum(q);
  }

  // One byte more can be too many for two folds: the carry of the second is lost.
  lemma OneByteMore(p: seq<byte>)
    requires |p| == 131077 && p[131076] == 1 && forall i :: 0 <= i < 131076 ==> p[i] == 0xff
    ensures !FoldsTwice(Sum(p, Count(p)))
  {
    FullWords(p, 65538);
    assert Sum(p, 65539) == Sum(p, 65538) + Word(p, 65538);
  }

  lemma {:induction false} FullWords(p: seq<byte>, n: nat)
    requires 2 * n <= |p| && forall i :: 0 <= i < 2 * n ==> p[i] == 0xff
    ensures Sum(p, n) == 0xffff * n
  {
    if n > 0 {
      FullWords(p, n - 1);
    }
  }
}
