// parse.c: decimal numbers and dotted addresses.
module Parsing {
  import opened Arithmetic
  import opened Bytes
  import opened Wrappers

  datatype Code =
    | RT_OK
    | GENERAL_ERROR_NO_DATA
    | GENERAL_ERROR_NULL_POINTER
    | CONVERSION_ERROR_INCORRECT_TYPE
    | CONVERSION_ERROR_OVERFLOW
    | CONVERSION_ERROR_UNDERFLOW

  // ---- what a string says ----

  // ISDIGIT
  predicate IsDigit(c: char) {
    '0' <= c <= '9'
  }

  function Digit(c: char): int {
    c as int - '0' as int
  }

  predicate AllDigits(s: string) {
    forall i :: 0 <= i < |s| ==> IsDigit(s[i])
  }

  // The number that digits stand for
  function Number(s: string): (n: nat)
    requires AllDigits(s)
  {
    if s == "" then 0 else 10 * Number(s[..|s| - 1]) + Digit(s[|s| - 1])
  }

  lemma {:induction false} NumberGrows(s: string, k: nat)
    requires AllDigits(s) && k <= |s|
    ensures Number(s[..k]) <= Number(s)
  {
    if k < |s| {
      NumberGrows(s[..|s| - 1], k);
      assert s[..|s| - 1][..k] == s[..k];
    } else {
      assert s[..k] == s;
    }
  }

  // How n is spelled
  function Spelled(n: nat): string {
    if n < 10 then ["0123456789"[n]] else Spelled(n / 10) + ["0123456789"[n % 10]]
  }

  // Spelling is undone, and only the ten digits are digits.
  lemma {:induction false} NumberOfSpelled(n: nat)
    ensures Spelled(n) != "" && AllDigits(Spelled(n)) && Number(Spelled(n)) == n
  {
    DigitSays(n % 10);
    var s := Spelled(n);
    if n < 10 {
      assert s[..0] == "";
    } else {
      NumberOfSpelled(n / 10);
      assert s[..|s| - 1] == Spelled(n / 10);
    }
  }

  lemma DigitSays(k: nat)
    requires k < 10
    ensures IsDigit("0123456789"[k]) && Digit("0123456789"[k]) == k
    ensures forall c :: IsDigit(c) <==> c in "0123456789"
  {
    forall c | IsDigit(c) ensures c in "0123456789" {
      assert "0123456789"[c as int - '0' as int] == c;
    }
  }

  // A non-empty string of digits for a number up to limit
  predicate Decimal(s: string, limit: nat) {
    s != "" && AllDigits(s) && Number(s) <= limit
  }

  // How many digits s begins with
  function Leading(s: string): (n: nat)
    ensures n <= |s| && AllDigits(s[..n]) && (n < |s| ==> !IsDigit(s[n]))
  {
    if s == "" || !IsDigit(s[0]) then 0 else 1 + Leading(s[1..])
  }

  // What is wrong with s, if anything: a number that is too large comes to light before what follows it.
  function Verdict(s: string, limit: nat, tooLarge: Code): Code {
    if Number(s[..Leading(s)]) > limit then tooLarge
    else if Leading(s) < |s| then CONVERSION_ERROR_INCORRECT_TYPE
    else RT_OK
  }

  lemma VerdictIs(s: string, limit: nat, tooLarge: Code)
    requires s != "" && tooLarge != RT_OK
    ensures Verdict(s, limit, tooLarge) == RT_OK <==> Decimal(s, limit)
  {
    assert s[..|s|] == s;
  }

  lemma {:induction false} DigitsLead(s: string, k: nat)
    requires k <= |s| && AllDigits(s[..k])
    ensures k <= Leading(s)
  {
    if k > 0 {
      assert s[0] == s[..k][0];
      assert s[1..][..k - 1] == s[..k][1..];
      DigitsLead(s[1..], k - 1);
    }
  }

  // The first thing that is wrong, reading from the left
  lemma VerdictSays(s: string, limit: nat, tooLarge: Code, k: nat)
    requires k < |s| && AllDigits(s[..k]) && Number(s[..k]) <= limit
    ensures !IsDigit(s[k]) ==> Verdict(s, limit, tooLarge) == CONVERSION_ERROR_INCORRECT_TYPE
    ensures AllDigits(s[..k + 1]) && Number(s[..k + 1]) > limit ==> Verdict(s, limit, tooLarge) == tooLarge
  {
    if !IsDigit(s[k]) {
      LeadingIs(s, k);
    } else if AllDigits(s[..k + 1]) {
      var n := Leading(s);
      DigitsLead(s, k + 1);
      NumberGrows(s[..n], k + 1);
      assert s[..n][..k + 1] == s[..k + 1];
    }
  }

  lemma {:induction false} LeadingIs(s: string, n: nat)
    requires n <= |s| && AllDigits(s[..n]) && (n < |s| ==> !IsDigit(s[n]))
    ensures Leading(s) == n
  {
    if n > 0 {
      assert s[0] == s[..n][0];
      assert s[1..][..n - 1] == s[..n][1..];
      LeadingIs(s[1..], n - 1);
    }
  }

  // ---- accumulating ----

  predicate IsWidth(bits: nat) {
    bits == 8 || bits == 16 || bits == 32 || bits == 64
  }

  function Width(bits: nat): nat
    requires IsWidth(bits)
  {
    if bits == 8 then 0x100 else if bits == 16 then 0x1_0000 else if bits == 32 then 0x1_0000_0000
    else 0x1_0000_0000_0000_0000
  }

  // The check before each digit: would value * 10 + digit be more than max?
  predicate TooLarge(value: nat, digit: int, max: nat) {
    value > max / 10 || (value == max / 10 && digit > max % 10)
  }

  lemma TooLargeIs(value: nat, digit: int, max: nat)
    requires 0 <= digit <= 9
    ensures TooLarge(value, digit, max) <==> 10 * value + digit > max
  {
  }

  // The loop of every parser; the accumulator has the given width.
  method Accumulate(s: string, max: nat, width: nat, tooLarge: Code) returns (code: Code, acc: nat)
    requires s != "" && max < width && tooLarge != RT_OK
    ensures code == Verdict(s, max, tooLarge)
    ensures code == RT_OK ==> Decimal(s, max) && acc == Number(s)
  {
    hide Number, Leading, Verdict, AllDigits;
    code, acc := RT_OK, 0;
    var i := 0;
    NoNumber(s);
    while i < |s|
      invariant 0 <= i <= |s| && AllDigits(s[..i]) && acc == Number(s[..i]) <= max
    {
      if !IsDigit(s[i]) {
        Incorrect(s, i, max, tooLarge);
        return CONVERSION_ERROR_INCORRECT_TYPE, 0;
      }
      NextDigit(s, i);
      TooLargeIs(acc, Digit(s[i]), max);
      if TooLarge(acc, Digit(s[i]), max) {
        Overflowing(s, i + 1, max, tooLarge);
        return tooLarge, 0;
      }
      DivModUnique(acc * 10, width, 0, acc * 10);
      DivModUnique(acc * 10 + Digit(s[i]), width, 0, acc * 10 + Digit(s[i]));
      acc := acc * 10 % width;
      acc := (acc + Digit(s[i])) % width;
      i := i + 1;
    }
    assert s[..i] == s;
    AllCorrect(s, max, tooLarge);
  }

  lemma NoNumber(s: string)
    ensures AllDigits(s[..0]) && Number(s[..0]) == 0
  {
  }

  lemma NextDigit(s: string, i: nat)
    requires i < |s| && AllDigits(s[..i]) && IsDigit(s[i])
    ensures AllDigits(s[..i + 1]) && Number(s[..i + 1]) == 10 * Number(s[..i]) + Digit(s[i])
  {
    assert s[..i + 1][..i] == s[..i];
  }

  lemma Incorrect(s: string, i: nat, max: nat, tooLarge: Code)
    requires i < |s| && AllDigits(s[..i]) && Number(s[..i]) <= max && !IsDigit(s[i])
    ensures Verdict(s, max, tooLarge) == CONVERSION_ERROR_INCORRECT_TYPE
  {
    LeadingIs(s, i);
  }

  lemma Overflowing(s: string, k: nat, max: nat, tooLarge: Code)
    requires k <= |s| && AllDigits(s[..k]) && Number(s[..k]) > max
    ensures Verdict(s, max, tooLarge) == tooLarge
  {
    StillLeading(s, k);
  }

  lemma AllCorrect(s: string, max: nat, tooLarge: Code)
    requires s != "" && AllDigits(s) && Number(s) <= max
    ensures Verdict(s, max, tooLarge) == RT_OK
  {
    assert s[..|s|] == s;
    LeadingIs(s, |s|);
  }

  lemma {:induction false} LeadingAtLeast(s: string, k: nat)
    requires k <= |s| && AllDigits(s[..k])
    ensures k <= Leading(s)
  {
    if k > 0 {
      assert s[0] == s[..k][0];
      assert s[1..][..k - 1] == s[..k][1..];
      LeadingAtLeast(s[1..], k - 1);
    }
  }

  lemma StillLeading(s: string, k: nat)
    requires k <= |s| && AllDigits(s[..k])
    ensures k <= Leading(s) && Number(s[..k]) <= Number(s[..Leading(s)])
  {
    LeadingAtLeast(s, k);
    NumberGrows(s[..Leading(s)], k);
    assert s[..Leading(s)][..k] == s[..k];
  }

  // ---- the parsers ----

  // What a parser answers, and what it stores through its pointer, if anything.
  datatype Parsed = Parsed(code: Code, stored: Option<int>)

  predicate IsSign(c: char) {
    c == '-' || c == '+'
  }

  // The digits behind an optional sign
  function Unsigned(s: string): string {
    if s != "" && IsSign(s[0]) then s[1..] else s
  }

  predicate Negative(s: string) {
    s != "" && s[0] == '-'
  }

  // The largest magnitude of a number in bits with that sign
  function Magnitude(bits: nat, negative: bool): nat
    requires IsWidth(bits)
  {
    if negative then Width(bits) / 2 else Width(bits) / 2 - 1
  }

  // s is a decimal number, and it fits in a signed integer of so many bits.
  predicate SignedDecimal(s: string, bits: nat)
    requires IsWidth(bits)
  {
    Unsigned(s) != "" && AllDigits(Unsigned(s)) && 0 - Width(bits) / 2 <= SignedNumber(s) < Width(bits) / 2
  }

  function SignedNumber(s: string): int
    requires AllDigits(Unsigned(s))
  {
    if Negative(s) then 0 - Number(Unsigned(s)) else Number(Unsigned(s))
  }

  lemma SignedDecimalIs(s: string, bits: nat)
    requires IsWidth(bits)
    ensures SignedDecimal(s, bits) <==> Decimal(Unsigned(s), Magnitude(bits, Negative(s)))
  {
    hide Number;
  }

  // The ranges of the four widths
  lemma RangesAre(s: string)
    ensures SignedDecimal(s, 8) <==>
      Unsigned(s) != "" && AllDigits(Unsigned(s)) && -128 <= SignedNumber(s) <= 127
    ensures SignedDecimal(s, 16) <==>
      Unsigned(s) != "" && AllDigits(Unsigned(s)) && -32768 <= SignedNumber(s) <= 32767
    ensures SignedDecimal(s, 32) <==>
      Unsigned(s) != "" && AllDigits(Unsigned(s)) && -2147483648 <= SignedNumber(s) <= 2147483647
    ensures SignedDecimal(s, 64) <==>
      Unsigned(s) != "" && AllDigits(Unsigned(s))
      && -9223372036854775808 <= SignedNumber(s) <= 9223372036854775807
    ensures Width(8) == 256 && Width(16) == 65536 && Width(32) == 4294967296 && Width(64) == 18446744073709551616
  {
  }

  // What numbers with and without a sign stand for
  lemma SignedSays(n: nat)
    ensures AllDigits(Spelled(n)) && Spelled(n) != ""
    ensures Unsigned("-" + Spelled(n)) == Unsigned("+" + Spelled(n)) == Unsigned(Spelled(n)) == Spelled(n)
    ensures SignedNumber("-" + Spelled(n)) == 0 - n
    ensures SignedNumber("+" + Spelled(n)) == SignedNumber(Spelled(n)) == n
  {
    NumberOfSpelled(n);
    var s := Spelled(n);
    assert IsDigit(s[0]) && ("-" + s)[1..] == ("+" + s)[1..] == s;
  }

  // An unsigned value put into a signed integer of so many bits
  function ToSigned(v: int, bits: nat): int
    requires IsWidth(bits)
  {
    var u := v % Width(bits);
    if u >= Width(bits) / 2 then u - Width(bits) else u
  }

  // parseStrToByte, parseStrToShort, parseStrToInt and parseStrToLong
  method ParseSigned(pString: Option<string>, target: bool, convert: bool, bits: nat) returns (r: Parsed)
    requires IsWidth(bits)
    // parseStrToByte does not test its pointer
    requires bits == 8 && convert ==> target
    ensures r.code == RT_OK <==> pString.Some? && SignedDecimal(pString.value, bits) && (convert ==> target)
    ensures r.stored == if r.code == RT_OK && convert then Some(SignedNumber(pString.value)) else None
    ensures pString.Some? && Unsigned(pString.value) != "" ==>
      r.code == var tooLarge := if Negative(pString.value) then CONVERSION_ERROR_UNDERFLOW
        else CONVERSION_ERROR_OVERFLOW;
        var code := Verdict(Unsigned(pString.value), Magnitude(bits, Negative(pString.value)), tooLarge);
        if code == RT_OK && convert && !target then GENERAL_ERROR_NULL_POINTER else code
    ensures pString == None || Unsigned(pString.value) == "" ==> r.code == GENERAL_ERROR_NO_DATA
  {
    hide Number, Leading, Verdict;
    if pString == None || pString.value == "" {
      return Parsed(GENERAL_ERROR_NO_DATA, None);
    }
    var s := pString.value;
    SignedDecimalIs(s, bits);
    var negative := false;
    if s[0] == '-' {
      negative := true;
      s := s[1..];
    } else if s[0] == '+' {
      s := s[1..];
    }
    if s == "" {
      return Parsed(GENERAL_ERROR_NO_DATA, None);
    }
    var limit := Magnitude(bits, negative);
    var tooLarge := if negative then CONVERSION_ERROR_UNDERFLOW else CONVERSION_ERROR_OVERFLOW;
    var code, acc := Accumulate(s, limit, Width(bits), tooLarge);
    VerdictIs(s, limit, tooLarge);
    if code != RT_OK {
      return Parsed(code, None);
    }
    if !convert {
      return Parsed(RT_OK, None);
    }
    if !target {
      return Parsed(GENERAL_ERROR_NULL_POINTER, None);
    }
    Negation(acc, bits);
    return Parsed(RT_OK, Some(ToSigned(if negative then Width(bits) - 1 - acc + 1 else acc, bits)));
  }

  // Complement and increment negate, also at the end of the range.
  lemma Negation(acc: nat, bits: nat)
    requires IsWidth(bits) && acc <= Width(bits) / 2
    ensures ToSigned(Width(bits) - 1 - acc + 1, bits) == 0 - acc
    ensures acc < Width(bits) / 2 ==> ToSigned(acc, bits) == acc
  {
    hide Width;
    var w := Width(bits);
    WidthEven(bits);
    DivModUnique(acc, w, 0, acc);
    if acc > 0 {
      DivModUnique(w - acc, w, 0, w - acc);
    } else {
      DivModUnique(w, w, 1, 0);
    }
  }

  lemma WidthEven(bits: nat)
    requires IsWidth(bits)
    ensures Width(bits) > 0 && Width(bits) == 2 * (Width(bits) / 2)
  {
  }

  // parseStrToUbyte, parseStrToUshort, parseStrToUnsigned and parseStrToUlong
  method ParseUnsigned(pString: Option<string>, target: bool, convert: bool, bits: nat) returns (r: Parsed)
    requires IsWidth(bits)
    ensures r.code == RT_OK <==> pString.Some? && Decimal(pString.value, Width(bits) - 1) && (convert ==> target)
    ensures r.stored == if r.code == RT_OK && convert then Some(Number(pString.value)) else None
    ensures pString.Some? && pString.value != "" ==>
      r.code == var code := Verdict(pString.value, Width(bits) - 1, CONVERSION_ERROR_OVERFLOW);
        if code == RT_OK && convert && !target then GENERAL_ERROR_NULL_POINTER else code
    ensures pString == None || pString.value == "" ==> r.code == GENERAL_ERROR_NO_DATA
  {
    hide Number, Leading, Verdict;
    if pString == None || pString.value == "" {
      return Parsed(GENERAL_ERROR_NO_DATA, None);
    }
    var code, acc := Accumulate(pString.value, Width(bits) - 1, Width(bits), CONVERSION_ERROR_OVERFLOW);
    VerdictIs(pString.value, Width(bits) - 1, CONVERSION_ERROR_OVERFLOW);
    if code != RT_OK {
      return Parsed(code, None);
    }
    if !convert {
      return Parsed(RT_OK, None);
    }
    if !target {
      return Parsed(GENERAL_ERROR_NULL_POINTER, None);
    }
    return Parsed(RT_OK, Some(acc));
  }

  // ---- dotted addresses ----

  predicate NoDot(s: string) {
    forall i :: 0 <= i < |s| ==> s[i] != '.'
  }

  // Where the next dot is, or the end
  function NextDot(s: string): (n: nat)
    ensures n <= |s| && NoDot(s[..n]) && (n < |s| ==> s[n] == '.')
  {
    if s == "" || s[0] == '.' then 0 else 1 + NextDot(s[1..])
  }

  // The parts between the dots
  function Parts(s: string): seq<string>
    decreases |s|
  {
    var n := NextDot(s);
    if n == |s| then [s] else [s[..n]] + Parts(s[n + 1..])
  }

  predicate Octet(s: string) {
    Decimal(s, 255)
  }

  predicate FourOctets(parts: seq<string>) {
    |parts| == 4 && Octet(parts[0]) && Octet(parts[1]) && Octet(parts[2]) && Octet(parts[3])
  }

  lemma {:induction false} NextDotIs(a: string, rest: string)
    requires NoDot(a) && (rest == "" || rest[0] == '.')
    ensures NextDot(a + rest) == |a|
  {
    if a != "" {
      assert (a + rest)[1..] == a[1..] + rest;
      NextDotIs(a[1..], rest);
    } else {
      assert a + rest == rest;
    }
  }

  lemma PartsFirst(a: string, rest: string)
    requires NoDot(a)
    ensures Parts(a + "." + rest) == [a] + Parts(rest) && Parts(a) == [a]
  {
    NextDotIs(a, "." + rest);
    assert a + "." + rest == a + ("." + rest);
    assert (a + "." + rest)[|a| + 1..] == rest && (a + "." + rest)[..|a|] == a;
    NextDotIs(a, "");
    assert a + "" == a;
  }

  function Join(parts: seq<string>): string
    requires parts != []
  {
    if |parts| == 1 then parts[0] else parts[0] + "." + Join(parts[1..])
  }

  lemma {:induction false} PartsOfJoin(parts: seq<string>)
    requires parts != [] && forall i :: 0 <= i < |parts| ==> NoDot(parts[i])
    ensures Parts(Join(parts)) == parts
  {
    hide Parts;
    PartsFirst(parts[0], "");
    if |parts| > 1 {
      PartsOfJoin(parts[1..]);
      PartsFirst(parts[0], Join(parts[1..]));
      assert parts == [parts[0]] + parts[1..];
    } else {
      assert parts == [parts[0]];
    }
  }

  lemma JoinFirst(a: string, rest: seq<string>)
    requires rest != []
    ensures Join([a] + rest) == a + "." + Join(rest)
  {
    assert ([a] + rest)[1..] == rest;
  }

  lemma {:induction false} JoinOfParts(s: string)
    ensures Parts(s) != [] && Join(Parts(s)) == s
    decreases |s|
  {
    hide NextDot;
    var n := NextDot(s);
    if n < |s| {
      var rest := Parts(s[n + 1..]);
      JoinOfParts(s[n + 1..]);
      assert s == s[..n] + "." + s[n + 1..];
      JoinFirst(s[..n], rest);
    } else {
      assert Join([s]) == s;
    }
  }

  // A string has these octets for parts exactly when it is these octets joined by dots.
  lemma DottedParts(s: string, parts: seq<string>)
    requires FourOctets(parts)
    ensures s == parts[0] + "." + (parts[1] + "." + (parts[2] + "." + parts[3])) <==> Parts(s) == parts
  {
    hide Parts;
    forall i | 0 <= i < 4 ensures NoDot(parts[i]) {
      assert Octet(parts[i]);
    }
    PartsOfJoin(parts);
    JoinOfParts(s);
    JoinFour(parts);
  }

  lemma JoinFour(parts: seq<string>)
    requires |parts| == 4
    ensures Join(parts) == parts[0] + "." + (parts[1] + "." + (parts[2] + "." + parts[3]))
  {
    assert parts[1..][1..] == parts[2..] && parts[2..][1..] == parts[3..];
    assert Join(parts[3..]) == parts[3] && Join(parts[2..]) == parts[2] + "." + parts[3];
    assert Join(parts[1..]) == parts[1] + "." + Join(parts[2..]);
  }

  // The number that the first k parts spell
  function Address(parts: seq<string>, k: nat): nat
    requires k <= |parts| && forall i :: 0 <= i < k ==> Octet(parts[i])
  {
    if k == 0 then 0 else assert Octet(parts[k - 1]); 0x100 * Address(parts, k - 1) + Number(parts[k - 1])
  }

  // One octet: the digits up to the next dot, or to the end
  method ParseOctet(s: string) returns (code: Code, octet: nat, n: nat)
    ensures code == RT_OK <==> Octet(s[..NextDot(s)])
    ensures code == RT_OK ==> n == NextDot(s) && octet == Number(s[..n])
  {
    hide Number, NextDot;
    var hasOctet := false;
    code, octet, n := RT_OK, 0, 0;
    NoNumber(s);
    while n < |s| && s[n] != '.'
      invariant 0 <= n <= |s| && NoDot(s[..n]) && AllDigits(s[..n]) && octet == Number(s[..n]) <= 255
      invariant hasOctet <==> n > 0
    {
      BeforeDot(s, n);
      if !IsDigit(s[n]) {
        NoOctet(s, n);
        return CONVERSION_ERROR_INCORRECT_TYPE, 0, 0;
      }
      NextDigit(s, n);
      TooLargeIs(octet, Digit(s[n]), 255);
      if TooLarge(octet, Digit(s[n]), 255) {
        OctetTooLarge(s, n + 1);
        return CONVERSION_ERROR_OVERFLOW, 0, 0;
      }
      octet := (octet * 10 % 0x100 + Digit(s[n])) % 0x100;
      n, hasOctet := n + 1, true;
    }
    assert s == s[..n] + s[n..];
    NextDotIs(s[..n], s[n..]);
    if !hasOctet {
      return CONVERSION_ERROR_INCORRECT_TYPE, 0, 0;
    }
  }

  lemma {:induction false} BeforeDot(s: string, k: nat)
    requires k <= |s| && NoDot(s[..k])
    ensures k <= NextDot(s) && (k < |s| && s[k] != '.' ==> k < NextDot(s))
  {
    if k > 0 {
      assert s[0] == s[..k][0];
      assert s[1..][..k - 1] == s[..k][1..];
      BeforeDot(s[1..], k - 1);
    }
  }

  lemma NoOctet(s: string, k: nat)
    requires k < NextDot(s) && !IsDigit(s[k])
    ensures !Octet(s[..NextDot(s)])
  {
    assert s[..NextDot(s)][k] == s[k];
  }

  lemma OctetTooLarge(s: string, k: nat)
    requires 0 < k <= |s| && AllDigits(s[..k]) && Number(s[..k]) > 255
    ensures !Octet(s[..NextDot(s)])
  {
    BeforeDot(s, k);
    var t := s[..NextDot(s)];
    assert t[..k] == s[..k];
    if AllDigits(t) {
      NumberGrows(t, k);
    }
  }

  // HTON4, which swaps the bytes of a word whatever the machine
  function Hton4(x: word): word {
    Bytes.Digit(x, 3) + 0x100 * (Bytes.Digit(x, 2) as int) + 0x1_0000 * (Bytes.Digit(x, 1) as int)
      + 0x100_0000 * (Bytes.Digit(x, 0) as int)
  }

  // The address in network byte order, as a little-endian machine reads it
  function Stored(parts: seq<string>): nat
    requires FourOctets(parts)
  {
    Number(parts[0]) + 0x100 * Number(parts[1]) + 0x1_0000 * Number(parts[2]) + 0x100_0000 * Number(parts[3])
  }

  lemma AddressIs(parts: seq<string>)
    requires FourOctets(parts)
    ensures forall i :: 0 <= i < 4 ==> Octet(parts[i])
    ensures Address(parts, 4) < 0x1_0000_0000 && Hton4(Address(parts, 4)) == Stored(parts)
  {
    hide Number;
    var a, b, c, d := Number(parts[0]), Number(parts[1]), Number(parts[2]), Number(parts[3]);
    assert forall i :: 0 <= i < 4 ==> Octet(parts[i]);
    assert Address(parts, 0) == 0 && Address(parts, 1) == a && Address(parts, 2) == 0x100 * a + b;
    assert Address(parts, 3) == 0x100 * (0x100 * a + b) + c;
    Swapped(a, b, c, d);
  }

  lemma Swapped(a: byte, b: byte, c: byte, d: byte)
    ensures var x := 0x100_0000 * (a as int) + 0x1_0000 * (b as int) + 0x100 * (c as int) + d;
      Hton4(x) == a + 0x100 * (b as int) + 0x1_0000 * (c as int) + 0x100_0000 * (d as int)
  {
    var x: word := 0x100_0000 * (a as int) + 0x1_0000 * (b as int) + 0x100 * (c as int) + d;
    assert x / 0x100 == 0x1_0000 * (a as int) + 0x100 * (b as int) + c;
    assert x / 0x100 / 0x100 == 0x100 * (a as int) + b && x / 0x100 / 0x100 / 0x100 == a;
  }

  function Bound(k: nat): nat {
    if k == 0 then 0 else if k == 1 then 0xff else if k == 2 then 0xffff else if k == 3 then 0xff_ffff else 0xffff_ffff
  }

  lemma BoundIs(k: nat)
    requires k < 4
    ensures 0x100 * Bound(k) + 0xff == Bound(k + 1) <= 0xffff_ffff
  {
  }

  lemma NextAddress(parts: seq<string>, k: nat)
    requires k < 4 && k < |parts| && (forall i :: 0 <= i <= k ==> Octet(parts[i])) && Address(parts, k) <= Bound(k)
    ensures AllDigits(parts[k]) && Number(parts[k]) <= 255
    ensures Address(parts, k + 1) == 0x100 * Address(parts, k) + Number(parts[k]) <= Bound(k + 1)
  {
    assert Octet(parts[k]);
  }

  lemma NoAddress(parts: seq<string>)
    ensures Address(parts, 0) == 0 <= Bound(0)
  {
  }

  lemma PartsAre(s: string)
    ensures var n := NextDot(s);
      Parts(s) == (if n == |s| then [s[..n]] else [s[..n]] + Parts(s[n + 1..])) && (n < |s| ==> Parts(s[n + 1..]) != [])
  {
    hide NextDot;
    assert s[..|s|] == s;
    if NextDot(s) < |s| {
      SomePart(s[NextDot(s) + 1..]);
    }
  }

  lemma SomePart(s: string)
    ensures Parts(s) != []
  {
  }

  lemma EmptyParts()
    ensures !FourOctets(Parts(""))
  {
  }

  // parseStrToIP
  method ParseIp(pString: Option<string>, target: bool, convert: bool) returns (r: Parsed)
    ensures r.code == RT_OK <==> pString.Some? && FourOctets(Parts(pString.value)) && (convert ==> target)
    ensures r.stored == if r.code == RT_OK && convert then Some(Stored(Parts(pString.value))) else None
  {
    hide Number, Parts, Octet, NextDot, Address, Stored, Hton4, Bound;
    if pString == None || pString.value == "" {
      EmptyParts();
      return Parsed(GENERAL_ERROR_NO_DATA, None);
    }
    ghost var parts := Parts(pString.value);
    var rest, address, k := pString.value, 0, 0;
    NoAddress(parts);
    while true
      invariant 0 <= k < 4 && k <= |parts| && Parts(rest) == parts[k..]
      invariant forall i :: 0 <= i < k ==> Octet(parts[i])
      invariant address == Address(parts, k) <= Bound(k)
      decreases 4 - k
    {
      PartsAre(rest);
      var code, octet, n := ParseOctet(rest);
      assert parts[k] == parts[k..][0];
      if code != RT_OK {
        return Parsed(code, None);
      }
      NextAddress(parts, k);
      BoundIs(k);
      address := (address * 0x100 % 0x1_0000_0000 + octet) % 0x1_0000_0000;
      k := k + 1;
      if n == |rest| {
        if k != 4 {
          return Parsed(CONVERSION_ERROR_INCORRECT_TYPE, None);
        }
        break;
      }
      if k == 4 {
        return Parsed(CONVERSION_ERROR_INCORRECT_TYPE, None);
      }
      rest := rest[n + 1..];
    }
    assert |parts| == 4;
    AddressIs(parts);
    if !convert {
      return Parsed(RT_OK, None);
    }
    if !target {
      return Parsed(GENERAL_ERROR_NULL_POINTER, None);
    }
    return Parsed(RT_OK, Some(Hton4(address)));
  }

  // Four numbers with dots between them: accepted exactly if each is at most 255, and stored with the first in
  // the lowest byte.
  lemma DottedQuad(a: nat, b: nat, c: nat, d: nat)
    ensures var s := Spelled(a) + "." + Spelled(b) + "." + Spelled(c) + "." + Spelled(d);
      && Parts(s) == [Spelled(a), Spelled(b), Spelled(c), Spelled(d)]
      && (FourOctets(Parts(s)) <==> a <= 255 && b <= 255 && c <= 255 && d <= 255)
      && (FourOctets(Parts(s)) ==> Stored(Parts(s)) == a + 256 * b + 65536 * c + 16777216 * d)
  {
    hide Parts, Number, Spelled, NextDot, Octet, NoDot, AllDigits, FourOctets, Stored;
    FourSays(Spelled(a), Spelled(b), Spelled(c), Spelled(d));
    SpelledPart(a);
    SpelledPart(b);
    SpelledPart(c);
    SpelledPart(d);
    QuadParts(Spelled(a), Spelled(b), Spelled(c), Spelled(d));
  }

  lemma FourSays(a: string, b: string, c: string, d: string)
    ensures FourOctets([a, b, c, d]) <==> Octet(a) && Octet(b) && Octet(c) && Octet(d)
    ensures FourOctets([a, b, c, d]) ==>
      AllDigits(a) && AllDigits(b) && AllDigits(c) && AllDigits(d)
      && Stored([a, b, c, d]) == Number(a) + 256 * Number(b) + 65536 * Number(c) + 16777216 * Number(d)
  {
    hide Number;
  }

  lemma QuadParts(a: string, b: string, c: string, d: string)
    requires NoDot(a) && NoDot(b) && NoDot(c) && NoDot(d)
    ensures Parts(a + "." + b + "." + c + "." + d) == [a, b, c, d]
  {
    hide Parts, NextDot, Join, NoDot;
    var s3 := c + "." + d;
    PartsFirst(a, b + "." + s3);
    PartsFirst(b, s3);
    PartsFirst(c, d);
    PartsFirst(d, "");
    Regrouped(a, b, c, d);
  }

  lemma Regrouped(a: string, b: string, c: string, d: string)
    ensures a + "." + b + "." + c + "." + d == a + "." + (b + "." + (c + "." + d))
  {
  }

  lemma SpelledPart(n: nat)
    ensures NoDot(Spelled(n)) && (Octet(Spelled(n)) <==> n <= 255)
    ensures AllDigits(Spelled(n)) && Number(Spelled(n)) == n
  {
    hide Number, Spelled;
    NumberOfSpelled(n);
  }
}
