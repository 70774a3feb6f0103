// Bytes and unsigned words.
module Bytes {
  type byte = x: int | 0 <= x < 0x100
  type word = x: int | 0 <= x < 0x1_0000_0000

  // Byte i of a word, lowest first
  function Digit(w: word, i: nat): byte {
    if i == 0 then w % 0x100 else if i == 1 then w / 0x100 % 0x100
    else if i == 2 then w / 0x100 / 0x100 % 0x100 else w / 0x100 / 0x100 / 0x100
  }

  lemma Digits(w: word)
    ensures (Digit(w, 0) as int) + 0x100 * (Digit(w, 1) as int) + 0x1_0000 * (Digit(w, 2) as int)
      + 0x100_0000 * (Digit(w, 3) as int) == w
  {
    var q1 := w / 0x100;
    var q2 := q1 / 0x100;
    assert w == 0x100 * q1 + w % 0x100 && q1 == 0x100 * q2 + q1 % 0x100;
  }

  function Zeros(n: nat): (r: seq<byte>)
    ensures |r| == n && forall i :: 0 <= i < n ==> r[i] == 0
  {
    seq(n, _ => 0)
  }
}
