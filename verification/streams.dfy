// stream.c: a buffer with a position to read at and a position to write at.
module Streams {
  import opened Bytes
  import opened Wrappers

  const QUAD := 0x1_0000_0000_0000_0000

  // ---- what the typed operations write ----

  datatype Kind = C | W | L | Q

  function Width(kind: Kind): nat {
    match kind
    case C => 1
    case W => 2
    case L => 4
    case Q => 8
  }

  function Range(kind: Kind): nat {
    match kind
    case C => 0x100
    case W => 0x1_0000
    case L => 0x1_0000_0000
    case Q => QUAD
  }

  function Long(v: word): (r: seq<byte>)
    ensures |r| == 4
  {
    [Digit(v, 3), Digit(v, 2), Digit(v, 1), Digit(v, 0)]
  }

  // Network byte order
  function Encoded(kind: Kind, v: nat): (r: seq<byte>)
    requires v < Range(kind)
    ensures |r| == Width(kind)
  {
    match kind
    case C => [v]
    case W => Long(v)[2..]
    case L => Long(v)
    case Q => Long(v / 0x1_0000_0000) + Long(v % 0x1_0000_0000)
  }

  // The number that bytes in network byte order stand for
  function Value(s: seq<byte>): nat {
    if s == [] then 0 else 0x100 * Value(s[..|s| - 1]) + s[|s| - 1]
  }

  lemma ValueOfFour(s: seq<byte>)
    requires |s| == 4
    ensures Value(s) == 0x100_0000 * (s[0] as int) + 0x1_0000 * (s[1] as int) + 0x100 * (s[2] as int) + s[3]
  {
    assert s[..3][..2] == s[..2] && s[..2][..1] == s[..1] && s[..1][..0] == [];
    assert Value(s[..1]) == s[0] && Value(s[..2]) == 0x100 * Value(s[..1]) + s[1];
    assert Value(s[..3]) == 0x100 * Value(s[..2]) + s[2];
  }

  lemma LongValue(v: word)
    ensures Value(Long(v)) == v
  {
    ValueOfFour(Long(v));
    Digits(v);
  }

  lemma ValueOfTwo(s: seq<byte>)
    requires |s| == 2
    ensures Value(s) == 0x100 * (s[0] as int) + s[1]
  {
    assert Value(s[..1]) == s[0];
  }

  lemma ValueOfEight(a: seq<byte>, b: seq<byte>)
    requires |b| == 4
    ensures Value(a + b) == 0x1_0000_0000 * Value(a) + Value(b)
  {
    ValueOfFour(b);
    var s := a + b;
    var n := |a|;
    assert s[..n + 3][..n + 2] == s[..n + 2] && s[..n + 2][..n + 1] == s[..n + 1] && s[..n + 1][..n] == a;
    assert Value(s[..n + 1]) == 0x100 * Value(a) + b[0] && Value(s[..n + 2]) == 0x100 * Value(s[..n + 1]) + b[1];
    assert Value(s[..n + 3]) == 0x100 * Value(s[..n + 2]) + b[2];
  }

  // Reading undoes writing.
  lemma ValueOfEncoded(kind: Kind, v: nat)
    requires v < Range(kind)
    ensures Value(Encoded(kind, v)) == v
  {
    match kind
    case C => assert Value([v]) == v;
    case W =>
      ValueOfTwo(Encoded(W, v));
      Digits(v);
    case L => LongValue(v);
    case Q =>
      LongValue(v / 0x1_0000_0000);
      LongValue(v % 0x1_0000_0000);
      ValueOfEight(Long(v / 0x1_0000_0000), Long(v % 0x1_0000_0000));
  }

  // The bytes that are written, highest first
  lemma EncodedSays(v: nat)
    ensures v < 0x100 ==> Encoded(C, v) == [v]
    ensures v < 0x1_0000 ==> Encoded(W, v) == [v / 0x100, v % 0x100]
    ensures v < 0x1_0000_0000 ==> var b := Encoded(L, v);
      |b| == 4 && v == 0x100_0000 * (b[0] as int) + 0x1_0000 * (b[1] as int) + 0x100 * (b[2] as int) + b[3]
    ensures v < 0x1_0000_0000_0000_0000 ==> var b := Encoded(Q, v);
      |b| == 8 && v == 0x100_0000_0000_0000 * (b[0] as int) + 0x1_0000_0000_0000 * (b[1] as int)
        + 0x100_0000_0000 * (b[2] as int) + 0x1_0000_0000 * (b[3] as int)
        + 0x100_0000 * (b[4] as int) + 0x1_0000 * (b[5] as int) + 0x100 * (b[6] as int) + b[7]
  {
    if v < 0x1_0000_0000 {
      Digits(v);
    }
    if v < QUAD {
      QuadSays(v);
    }
  }

  lemma QuadSays(v: nat)
    requires v < QUAD
    ensures var b := Encoded(Q, v);
      v == 0x100_0000_0000_0000 * (b[0] as int) + 0x1_0000_0000_0000 * (b[1] as int)
        + 0x100_0000_0000 * (b[2] as int) + 0x1_0000_0000 * (b[3] as int)
        + 0x100_0000 * (b[4] as int) + 0x1_0000 * (b[5] as int) + 0x100 * (b[6] as int) + b[7]
  {
    hide Long, Value;
    var high, low := Long(v / 0x1_0000_0000), Long(v % 0x1_0000_0000);
    LongSays(v / 0x1_0000_0000);
    LongSays(v % 0x1_0000_0000);
    assert Encoded(Q, v)[..4] == high && Encoded(Q, v)[4..] == low;
    assert v == 0x1_0000_0000 * (v / 0x1_0000_0000) + v % 0x1_0000_0000;
  }

  lemma LongSays(v: word)
    ensures var b := Long(v);
      v == 0x100_0000 * (b[0] as int) + 0x1_0000 * (b[1] as int) + 0x100 * (b[2] as int) + b[3]
  {
    Digits(v);
  }

  // The number that is read from any bytes
  lemma ValueSays(s: seq<byte>)
    ensures |s| == 1 ==> Value(s) == s[0]
    ensures |s| == 2 ==> Value(s) == 0x100 * (s[0] as int) + s[1]
    ensures |s| == 4 ==>
      Value(s) == 0x100_0000 * (s[0] as int) + 0x1_0000 * (s[1] as int) + 0x100 * (s[2] as int) + s[3]
    ensures |s| == 8 ==>
      Value(s) == 0x100_0000_0000_0000 * (s[0] as int) + 0x1_0000_0000_0000 * (s[1] as int)
        + 0x100_0000_0000 * (s[2] as int) + 0x1_0000_0000 * (s[3] as int)
        + 0x100_0000 * (s[4] as int) + 0x1_0000 * (s[5] as int) + 0x100 * (s[6] as int) + s[7]
  {
    hide Value;
    if |s| == 1 {
      ValueOfOne(s);
    } else if |s| == 2 {
      ValueOfTwo(s);
    } else if |s| == 4 {
      ValueOfFour(s);
    } else if |s| == 8 {
      ValueOfFour(s[..4]);
      ValueOfFour(s[4..]);
      ValueOfEight(s[..4], s[4..]);
      assert s == s[..4] + s[4..];
    }
  }

  lemma ValueOfOne(s: seq<byte>)
    requires |s| == 1
    ensures Value(s) == s[0]
  {
    assert s[..0] == [];
  }

  // d with the bytes at "at" replaced
  function Splice(d: seq<byte>, at: nat, e: seq<byte>): (r: seq<byte>)
    requires at + |e| <= |d|
    ensures |r| == |d|
  {
    d[..at] + e + d[at + |e|..]
  }

  lemma SpliceThree(d: seq<byte>, a: seq<byte>, b: seq<byte>, c: seq<byte>)
    requires |d| == |a| + |b| + |c|
    ensures Splice(Splice(Splice(d, 0, a), |a|, b), |a| + |b|, c) == a + b + c
  {
    var d1 := Splice(d, 0, a);
    assert d1 == a + d[|a|..];
    var d2 := Splice(d1, |a|, b);
    assert d2 == a + b + d[|a| + |b|..];
  }

  // Everything there is to know about a stream
  datatype View = View(getp: nat, endp: nat, data: seq<byte>)

  predicate Sane(v: View) {
    v.getp <= v.endp <= |v.data|
  }

  // What was put and not yet got
  function Unread(v: View): seq<byte>
    requires Sane(v)
  {
    v.data[v.getp..v.endp]
  }

  // Writing e behind everything else
  function Appended(v: View, e: seq<byte>): View
    requires Sane(v) && v.endp + |e| <= |v.data|
  {
    v.(data := Splice(v.data, v.endp, e), endp := v.endp + |e|)
  }

  lemma AppendedNothing(v: View)
    requires Sane(v)
    ensures Appended(v, []) == v
  {
  }

  // Byte by byte: what is appended stands behind the old end, and everything else where it was.
  lemma AppendedSays(v: View, e: seq<byte>)
    requires Sane(v) && v.endp + |e| <= |v.data|
    ensures var w := Appended(v, e);
      && w.getp == v.getp && w.endp == v.endp + |e| && |w.data| == |v.data|
      && forall i :: 0 <= i < |v.data| ==>
        w.data[i] == if v.endp <= i < v.endp + |e| then e[i - v.endp] else v.data[i]
    ensures |Unread(v)| == v.endp - v.getp
    ensures forall i :: 0 <= i < v.endp - v.getp ==> Unread(v)[i] == v.data[v.getp + i]
  {
  }

  lemma SpliceSays(d: seq<byte>, at: nat, e: seq<byte>, i: nat)
    requires at + |e| <= |d| && i < |d|
    ensures Splice(d, at, e)[i] == if at <= i < at + |e| then e[i - at] else d[i]
  {
  }

  // ---- sums of two size_t values, which wrap around ----

  // Where a position ends up that is moved forward by n, unless the sum is beyond limit
  function Forwarded(at: nat, n: nat, limit: nat): nat {
    if (at + n) % QUAD <= limit then (at + n) % QUAD else at
  }

  // The sum does not wrap, or the wrapped one is rejected, or is not before getp.
  predicate ForwardKeepsOrder(getp: nat, endp: nat, n: nat, size: nat) {
    endp + n < QUAD || endp + n - QUAD > size || endp + n - QUAD >= getp
  }

  // Moving endp forward keeps the positions in order exactly then.
  lemma ForwardedOrder(getp: nat, endp: nat, n: nat, size: nat)
    requires getp <= endp <= size < QUAD && n < QUAD
    ensures getp <= Forwarded(endp, n, size) <= size <==> ForwardKeepsOrder(getp, endp, n, size)
  {
    SumWraps(endp, n);
  }

  lemma SumWraps(a: nat, b: nat)
    requires a < QUAD && b < QUAD
    ensures (a + b) % QUAD == if a + b < QUAD then a + b else a + b - QUAD
  {
  }

  // A move that does not wrap is made exactly up to the limit, and one that wraps as far as it wraps.
  lemma ForwardedSays(at: nat, n: nat, limit: nat)
    requires at <= limit < 0x1_0000_0000_0000_0000 && n < 0x1_0000_0000_0000_0000
    ensures at + n <= limit ==> Forwarded(at, n, limit) == at + n
    ensures limit < at + n < 0x1_0000_0000_0000_0000 ==> Forwarded(at, n, limit) == at
    ensures at + n >= 0x1_0000_0000_0000_0000 ==>
      Forwarded(at, n, limit) == at + n - 0x1_0000_0000_0000_0000 < at
  {
    SumWraps(at, n);
  }

  // Moved forward by 2^64 - 5 from 10, the end falls to 5, behind what is yet to be read at 10.
  lemma ForwardBreaksOrder()
    ensures Forwarded(10, QUAD - 5, 100) == 5 && !ForwardKeepsOrder(10, 10, QUAD - 5, 100)
  {
  }

  // How many of n bytes stream_put puts behind endp: all, or as many as there is room for, or none when
  // the sum wraps around so that it does not look too long
  function Accepted(endp: nat, n: nat, size: nat): (m: nat)
    requires endp <= size
    ensures m <= n
    ensures endp + m <= size
  {
    if endp + n <= size then n else if (endp + n) % QUAD > size then size - endp else 0
  }

  // All of them exactly if they fit, and otherwise what fits, unless the sum wraps into range.
  lemma AcceptedSays(endp: nat, n: nat, size: nat)
    requires endp <= size < 0x1_0000_0000_0000_0000 && n < 0x1_0000_0000_0000_0000
    ensures Accepted(endp, n, size) == n <==> endp + n <= size
    ensures size < endp + n < 0x1_0000_0000_0000_0000 ==> Accepted(endp, n, size) == size - endp
    ensures endp + n >= 0x1_0000_0000_0000_0000 ==> Accepted(endp, n, size) == 0
  {
    SumWraps(endp, n);
  }

  // The test of an access to w bytes at pos lets nothing through that is not before endp: the sum does
  // not wrap, or the wrapped one is rejected.
  predicate StaysInside(pos: nat, w: nat, endp: nat) {
    pos + w < QUAD || pos + w - QUAD > endp
  }

  lemma AccessIsInside(pos: nat, w: nat, endp: nat)
    requires pos < QUAD && endp < QUAD && w <= 8
    ensures ((pos + w) % QUAD <= endp ==> pos + w <= endp) <==> StaysInside(pos, w, endp)
  {
    SumWraps(pos, w);
  }

  // At the last position there is, the test of one byte is passed whatever endp is.
  lemma LastPositionIsOutside(endp: nat)
    requires endp < QUAD
    ensures (QUAD - 1 + 1) % QUAD <= endp && !StaysInside(QUAD - 1, 1, endp)
  {
  }

  // A put of 2^64 - 5 bytes behind 10 is not cut off at 100, and puts nothing.
  lemma HugePutPutsNothing()
    ensures Accepted(10, QUAD - 5, 100) == 0
  {
  }

  // A put of v, as a kind, changes the stream this way and returns n.
  ghost predicate Wrote(before: View, after: View, kind: Kind, v: nat, n: nat)
    requires Sane(before) && v < Range(kind)
  {
    if before.endp + Width(kind) <= |before.data| then n == Width(kind) && after == Appended(before, Encoded(kind, v))
    else n == 0 && after == before
  }

  ghost predicate WroteAt(before: View, after: View, putp: nat, kind: Kind, v: nat, n: nat)
    requires Sane(before) && v < Range(kind)
  {
    if putp + Width(kind) <= before.endp then
      n == Width(kind) && after == before.(data := Splice(before.data, putp, Encoded(kind, v)))
    else n == 0 && after == before
  }

  // What was put at a position is there, and the rest of the stream is as it was.
  lemma WrittenIsThere(before: View, after: View, putp: nat, kind: Kind, v: nat, n: nat)
    requires Sane(before) && v < Range(kind) && WroteAt(before, after, putp, kind, v, n)
    ensures |after.data| == |before.data| && after.getp == before.getp && after.endp == before.endp
    ensures putp + Width(kind) <= before.endp ==>
      && n == Width(kind) && Value(after.data[putp..putp + n]) == v
      && forall i :: 0 <= i < |after.data| && !(putp <= i < putp + n) ==> after.data[i] == before.data[i]
    ensures putp + Width(kind) > before.endp ==> n == 0 && after == before
  {
    hide Value, Encoded;
    ValueOfEncoded(kind, v);
    if putp + Width(kind) <= before.endp {
      assert after.data[putp..putp + n] == Encoded(kind, v);
    }
  }

  // A get of a kind changes the stream this way and returns v.
  ghost predicate Read(before: View, after: View, kind: Kind, v: nat)
    requires Sane(before)
  {
    if |Unread(before)| >= Width(kind) then
      v == Value(Unread(before)[..Width(kind)]) && after == before.(getp := before.getp + Width(kind))
    else v == 0 && after == before
  }

  datatype Item = Item(kind: Kind, v: nat)

  function Total(items: seq<Item>): nat {
    if items == [] then 0 else Width(items[0].kind) + Total(items[1..])
  }

  function AllEncoded(items: seq<Item>): (r: seq<byte>)
    requires forall i :: 0 <= i < |items| ==> items[i].v < Range(items[i].kind)
  {
    if items == [] then []
    else
      var n := |items| - 1;
      AllEncoded(items[..n]) + Encoded(items[n].kind, items[n].v)
  }

  lemma {:induction false} FirstEncoded(items: seq<Item>)
    requires items != [] && forall i :: 0 <= i < |items| ==> items[i].v < Range(items[i].kind)
    ensures AllEncoded(items) == Encoded(items[0].kind, items[0].v) + AllEncoded(items[1..])
  {
    hide Encoded;
    var n := |items| - 1;
    if n > 0 {
      FirstEncoded(items[..n]);
      assert items[1..][..n - 1] == items[..n][1..];
      assert items[1..][n - 1] == items[n] && items[..n][0] == items[0];
      var a, b, c := Encoded(items[0].kind, items[0].v), AllEncoded(items[..n][1..]),
        Encoded(items[n].kind, items[n].v);
      assert a + b + c == a + (b + c);
    }
  }

  lemma LastEncoded(items: seq<Item>, i: nat)
    requires i < |items| && forall i :: 0 <= i < |items| ==> items[i].v < Range(items[i].kind)
    ensures AllEncoded(items[..i + 1]) == AllEncoded(items[..i]) + Encoded(items[i].kind, items[i].v)
    ensures Total(items[i..]) == Width(items[i].kind) + Total(items[i + 1..])
  {
    assert items[..i + 1][..i] == items[..i];
  }

  lemma AppendedIs(v: View, e: seq<byte>, k: nat)
    requires Sane(v) && v.endp + |e| <= |v.data| && k <= v.endp
    ensures var w := Appended(v, e);
      Sane(w) && w.endp == v.endp + |e| && w.getp == v.getp && |w.data| == |v.data| && w.data[..k] == v.data[..k]
    ensures Unread(Appended(v, e)) == Unread(v) + e
  {
  }

  lemma Prefix(u: seq<byte>, a: seq<byte>, b: seq<byte>)
    requires a + b <= u
    ensures u[..|a|] == a && b <= u[|a|..] && u[|a|..][|b|..] == u[|a + b|..]
  {
  }

  lemma ReadUnread(v: View, n: nat)
    requires Sane(v)
    ensures |Unread(v)| == v.endp - v.getp
    ensures n <= |Unread(v)| ==> Sane(v.(getp := v.getp + n)) && Unread(v.(getp := v.getp + n)) == Unread(v)[n..]
  {
  }

  lemma NoItems()
    ensures forall items: seq<Item> {:trigger items[..0]} :: items[..0] == [] && AllEncoded(items[..0]) == []
    ensures AllEncoded([]) == [] && Total([]) == 0
  {
  }

  class Stream {
    var getp: nat
    var endp: nat
    var size: nat
    var data: array<byte>

    ghost predicate Valid()
      reads this
    {
      getp <= endp <= size == data.Length < QUAD
    }

    ghost function Now(): View
      reads this, data
    {
      View(getp, endp, data[..])
    }

    // stream_new
    constructor (size: nat)
      requires 0 < size < QUAD
      ensures Valid() && fresh(data) && getp == endp == 0 && this.size == size
    {
      getp, endp, this.size := 0, 0, size;
      data := new byte[size](_ => 0);
    }

    // memcpy into the data
    method Copy(at: nat, e: seq<byte>)
      requires at + |e| <= data.Length
      modifies data
      ensures data[..] == Splice(old(data[..]), at, e)
    {
      forall k | 0 <= k < |e| {
        data[at + k] := e[k];
      }
    }

    // stream_copy
    method CopyFrom(src: Stream)
      requires Valid() && src.Valid() && size >= src.endp && data != src.data
      modifies this, data
      ensures Valid() && data == old(data)
      ensures Now() == View(old(src.getp), old(src.endp), Splice(old(data[..]), 0, old(src.data[..src.endp])))
    {
      Copy(0, src.data[..src.endp]);
      endp, getp := src.endp, src.getp;
    }

    // stream_dup
    method Dup() returns (s: Stream)
      requires Valid() && endp > 0
      ensures s.Valid() && fresh(s) && fresh(s.data) && s.size == endp
      ensures s.Now() == View(getp, endp, data[..endp])
    {
      s := new Stream(endp);
      s.CopyFrom(this);
    }

    // stream_dupcat, on s1
    method Dupcat(s2: Stream, offset: nat) returns (s: Stream)
      requires Valid() && s2.Valid() && offset <= endp && 0 < endp + s2.endp < QUAD
      ensures s.Valid() && fresh(s) && fresh(s.data)
      ensures s.Now() == View(0, endp + s2.endp, data[..offset] + s2.data[..s2.endp] + data[offset..endp])
    {
      hide Splice;
      ghost var a, b, c := data[..offset], s2.data[..s2.endp], data[offset..endp];
      s := new Stream(endp + s2.endp);
      ghost var d := s.data[..];
      s.Copy(0, data[..offset]);
      s.Copy(offset, s2.data[..s2.endp]);
      s.Copy(offset + s2.endp, data[offset..endp]);
      SpliceThree(d, a, b, c);
      s.endp := endp + s2.endp;
    }

    // stream_resize
    method Resize(newsize: nat) returns (r: nat)
      requires Valid() && newsize < QUAD
      modifies this
      ensures Valid() && r == size == newsize && fresh(data)
      ensures endp == (if old(endp) > newsize then newsize else old(endp))
        && getp == (if old(getp) > endp then endp else old(getp))
      ensures data[..endp] == old(data[..])[..endp]
    {
      var newdata := new byte[newsize](_ => 0);
      forall k | 0 <= k < size && k < newsize {
        newdata[k] := data[k];
      }
      data, size := newdata, newsize;
      if endp > size {
        endp := size;
      }
      if getp > endp {
        getp := endp;
      }
      r := size;
    }

    // stream_set_getp; out of bounds it stops the program, or goes on from endp
    method SetGetp(pos: nat)
      requires Valid()
      modifies this`getp
      ensures Valid() && getp == if pos <= endp then pos else endp
    {
      getp := if pos <= endp then pos else endp;
    }

    // stream_set_endp
    method SetEndp(pos: nat) returns (ok: bool)
      requires Valid()
      modifies this`endp
      ensures Valid() && (ok <==> getp <= pos <= size) && endp == if ok then pos else old(endp)
    {
      ok := pos <= size && getp <= pos;
      if ok {
        endp := pos;
      }
    }

    // stream_forward_getp
    method ForwardGetp(n: nat)
      requires Valid() && n < QUAD
      modifies this`getp
      ensures Valid() && getp == Forwarded(old(getp), n, endp)
      ensures getp >= old(getp) <==> old(getp) + n < QUAD || old(getp) + n - QUAD > endp
    {
      if (getp + n) % QUAD <= endp {
        getp := (getp + n) % QUAD;
      }
    }

    // stream_forward_endp
    method ForwardEndp(n: nat)
      requires Valid() && n < QUAD
      modifies this`endp
      ensures endp == Forwarded(old(endp), n, size)
      ensures Valid() <==> ForwardKeepsOrder(getp, old(endp), n, size)
    {
      ForwardedOrder(getp, endp, n, size);
      if (endp + n) % QUAD <= size {
        endp := (endp + n) % QUAD;
      }
    }

    // stream_get
    method Get(n: nat) returns (dst: Option<seq<byte>>)
      requires Valid()
      modifies this`getp
      ensures Valid() && (dst.Some? <==> old(endp - getp) >= n)
      ensures if dst.Some? then dst.value == old(Unread(Now()))[..n] && Unread(Now()) == old(Unread(Now()))[n..]
        else getp == old(getp)
    {
      if endp - getp < n {
        return None;
      }
      ghost var unread := Unread(Now());
      assert data[getp..getp + n] == unread[..n];
      dst := Some(data[getp..getp + n]);
      getp := getp + n;
      assert Unread(Now()) == unread[n..];
    }

    // stream_put; without a source zeros are put
    method Put(src: Option<seq<byte>>, n: nat)
      requires Valid() && n < QUAD && (src.Some? ==> |src.value| >= n)
      modifies this`endp, data
      ensures Valid()
      ensures var m := Accepted(old(endp), n, size);
        Now() == Appended(old(Now()), if src.Some? then src.value[..m] else Zeros(m))
    {
      var m := n;
      if (endp + m) % QUAD > size {
        m := size - endp;
      }
      if size - endp < m {
        AppendedNothing(Now());
        return;
      }
      Copy(endp, if src.Some? then src.value[..m] else Zeros(m));
      endp := endp + m;
    }

    // stream_putc
    method Putc(c: byte) returns (n: nat)
      requires Valid()
      modifies this`endp, data
      ensures Valid() && Wrote(old(Now()), Now(), C, c, n)
    {
      if size - endp < 1 {
        return 0;
      }
      ghost var d := data[..];
      data[endp] := c;
      assert data[..] == Splice(d, endp, Encoded(C, c));
      endp := endp + 1;
      n := 1;
    }

    // stream_putw
    method Putw(w: word) returns (n: nat)
      requires Valid() && w < 0x1_0000
      modifies this`endp, data
      ensures Valid() && Wrote(old(Now()), Now(), W, w, n)
    {
      if size - endp < 2 {
        return 0;
      }
      ghost var d := data[..];
      data[endp], data[endp + 1] := Digit(w, 1), Digit(w, 0);
      assert data[..] == Splice(d, endp, Encoded(W, w));
      endp := endp + 2;
      n := 2;
    }

    // stream_putl
    method Putl(l: word) returns (n: nat)
      requires Valid()
      modifies this`endp, data
      ensures Valid() && Wrote(old(Now()), Now(), L, l, n)
    {
      if size - endp < 4 {
        return 0;
      }
      ghost var d := data[..];
      data[endp], data[endp + 1], data[endp + 2], data[endp + 3] :=
        Digit(l, 3), Digit(l, 2), Digit(l, 1), Digit(l, 0);
      assert data[..] == Splice(d, endp, Encoded(L, l));
      endp := endp + 4;
      n := 4;
    }

    // stream_putq
    method Putq(q: nat) returns (n: nat)
      requires Valid() && q < QUAD
      modifies this`endp, data
      ensures Valid() && Wrote(old(Now()), Now(), Q, q, n)
    {
      if size - endp < 8 {
        return 0;
      }
      var hi: word, lo: word := q / 0x1_0000_0000, q % 0x1_0000_0000;
      ghost var d := data[..];
      data[endp], data[endp + 1], data[endp + 2], data[endp + 3], data[endp + 4], data[endp + 5], data[endp + 6],
        data[endp + 7] :=
        Digit(hi, 3), Digit(hi, 2), Digit(hi, 1), Digit(hi, 0), Digit(lo, 3), Digit(lo, 2), Digit(lo, 1), Digit(lo, 0);
      assert data[..] == Splice(d, endp, Encoded(Q, q));
      endp := endp + 8;
      n := 8;
    }

    // stream_putc_at
    method PutcAt(putp: nat, c: byte) returns (n: nat, inside: bool)
      requires Valid() && putp < QUAD
      modifies data
      ensures inside <==> StaysInside(putp, 1, endp)
      ensures inside ==> WroteAt(old(Now()), Now(), putp, C, c, n)
    {
      if (putp + 1) % QUAD > endp {
        return 0, true;
      }
      if putp + 1 > endp {
        return 0, false;
      }
      ghost var d := data[..];
      data[putp] := c;
      assert data[..] == Splice(d, putp, Encoded(C, c));
      n, inside := 1, true;
    }

    // stream_putw_at
    method PutwAt(putp: nat, w: word) returns (n: nat, inside: bool)
      requires Valid() && putp < QUAD && w < 0x1_0000
      modifies data
      ensures inside <==> StaysInside(putp, 2, endp)
      ensures inside ==> WroteAt(old(Now()), Now(), putp, W, w, n)
    {
      if (putp + 2) % QUAD > endp {
        return 0, true;
      }
      if putp + 2 > endp {
        return 0, false;
      }
      ghost var d := data[..];
      data[putp], data[putp + 1] := Digit(w, 1), Digit(w, 0);
      assert data[..] == Splice(d, putp, Encoded(W, w));
      n, inside := 2, true;
    }

    // stream_putl_at
    method PutlAt(putp: nat, l: word) returns (n: nat, inside: bool)
      requires Valid() && putp < QUAD
      modifies data
      ensures inside <==> StaysInside(putp, 4, endp)
      ensures inside ==> WroteAt(old(Now()), Now(), putp, L, l, n)
    {
      if (putp + 4) % QUAD > endp {
        return 0, true;
      }
      if putp + 4 > endp {
        return 0, false;
      }
      ghost var d := data[..];
      data[putp], data[putp + 1], data[putp + 2], data[putp + 3] :=
        Digit(l, 3), Digit(l, 2), Digit(l, 1), Digit(l, 0);
      assert data[..] == Splice(d, putp, Encoded(L, l));
      n, inside := 4, true;
    }

    // stream_putq_at
    method PutqAt(putp: nat, q: nat) returns (n: nat, inside: bool)
      requires Valid() && putp < QUAD && q < QUAD
      modifies data
      ensures inside <==> StaysInside(putp, 8, endp)
      ensures inside ==> WroteAt(old(Now()), Now(), putp, Q, q, n)
    {
      if (putp + 8) % QUAD > endp {
        return 0, true;
      }
      if putp + 8 > endp {
        return 0, false;
      }
      var hi: word, lo: word := q / 0x1_0000_0000, q % 0x1_0000_0000;
      ghost var d := data[..];
      data[putp], data[putp + 1], data[putp + 2], data[putp + 3], data[putp + 4], data[putp + 5], data[putp + 6],
        data[putp + 7] :=
        Digit(hi, 3), Digit(hi, 2), Digit(hi, 1), Digit(hi, 0), Digit(lo, 3), Digit(lo, 2), Digit(lo, 1), Digit(lo, 0);
      assert data[..] == Splice(d, putp, Encoded(Q, q));
      n, inside := 8, true;
    }

    // stream_getc
    method Getc() returns (v: nat)
      requires Valid()
      modifies this`getp
      ensures Valid() && Read(old(Now()), Now(), C, v)
    {
      if endp - getp < 1 {
        return 0;
      }
      ghost var s := data[getp..getp + 1];
      assert Unread(Now())[..1] == s;
      assert s[..0] == [];
      v := (data[getp] as int);
      getp := getp + 1;
    }

    // stream_getc_from
    method GetcFrom(from: nat) returns (v: nat, inside: bool)
      requires Valid() && from < QUAD
      ensures inside <==> StaysInside(from, 1, endp)
      ensures inside ==> v == if from + 1 <= endp then Value(data[from..from + 1]) else 0
    {
      if (from + 1) % QUAD > endp {
        return 0, true;
      }
      if from + 1 > endp {
        return 0, false;
      }
      inside := true;
      ghost var s := data[from..from + 1];
      assert s[..0] == [];
      v := (data[from] as int);
    }

    // stream_getw
    method Getw() returns (v: nat)
      requires Valid()
      modifies this`getp
      ensures Valid() && Read(old(Now()), Now(), W, v)
    {
      if endp - getp < 2 {
        return 0;
      }
      ghost var s := data[getp..getp + 2];
      assert Unread(Now())[..2] == s;
      ValueOfTwo(s);
      v := 0x100 * (data[getp] as int) + (data[getp + 1] as int);
      getp := getp + 2;
    }

    // stream_getw_from
    method GetwFrom(from: nat) returns (v: nat, inside: bool)
      requires Valid() && from < QUAD
      ensures inside <==> StaysInside(from, 2, endp)
      ensures inside ==> v == if from + 2 <= endp then Value(data[from..from + 2]) else 0
    {
      if (from + 2) % QUAD > endp {
        return 0, true;
      }
      if from + 2 > endp {
        return 0, false;
      }
      inside := true;
      ghost var s := data[from..from + 2];
      ValueOfTwo(s);
      v := 0x100 * (data[from] as int) + (data[from + 1] as int);
    }

    // stream_getl
    method Getl() returns (v: nat)
      requires Valid()
      modifies this`getp
      ensures Valid() && Read(old(Now()), Now(), L, v)
    {
      if endp - getp < 4 {
        return 0;
      }
      ghost var s := data[getp..getp + 4];
      assert Unread(Now())[..4] == s;
      ValueOfFour(s);
      v := 0x100_0000 * (data[getp] as int) + 0x1_0000 * (data[getp + 1] as int) + 0x100 * (data[getp + 2] as int)
        + (data[getp + 3] as int);
      getp := getp + 4;
    }

    // stream_getl_from
    method GetlFrom(from: nat) returns (v: nat, inside: bool)
      requires Valid() && from < QUAD
      ensures inside <==> StaysInside(from, 4, endp)
      ensures inside ==> v == if from + 4 <= endp then Value(data[from..from + 4]) else 0
    {
      if (from + 4) % QUAD > endp {
        return 0, true;
      }
      if from + 4 > endp {
        return 0, false;
      }
      inside := true;
      ghost var s := data[from..from + 4];
      ValueOfFour(s);
      v := 0x100_0000 * (data[from] as int) + 0x1_0000 * (data[from + 1] as int) + 0x100 * (data[from + 2] as int)
        + (data[from + 3] as int);
    }

    // stream_getq
    method Getq() returns (v: nat)
      requires Valid()
      modifies this`getp
      ensures Valid() && Read(old(Now()), Now(), Q, v)
    {
      if endp - getp < 8 {
        return 0;
      }
      ghost var s := data[getp..getp + 8];
      assert Unread(Now())[..8] == s;
      ValueOfFour(s[..4]);
      ValueOfFour(s[4..]);
      ValueOfEight(s[..4], s[4..]);
      assert s == s[..4] + s[4..];
      v := 0x100_0000_0000_0000 * (data[getp] as int) + 0x1_0000_0000_0000 * (data[getp + 1] as int)
        + 0x100_0000_0000 * (data[getp + 2] as int) + 0x1_0000_0000 * (data[getp + 3] as int)
        + 0x100_0000 * (data[getp + 4] as int) + 0x1_0000 * (data[getp + 5] as int)
          + 0x100 * (data[getp + 6] as int) + (data[getp + 7] as int);
      getp := getp + 8;
    }

    // stream_getq_from
    method GetqFrom(from: nat) returns (v: nat, inside: bool)
      requires Valid() && from < QUAD
      ensures inside <==> StaysInside(from, 8, endp)
      ensures inside ==> v == if from + 8 <= endp then Value(data[from..from + 8]) else 0
    {
      if (from + 8) % QUAD > endp {
        return 0, true;
      }
      if from + 8 > endp {
        return 0, false;
      }
      inside := true;
      ghost var s := data[from..from + 8];
      ValueOfFour(s[..4]);
      ValueOfFour(s[4..]);
      ValueOfEight(s[..4], s[4..]);
      assert s == s[..4] + s[4..];
      v := 0x100_0000_0000_0000 * (data[from] as int) + 0x1_0000_0000_0000 * (data[from + 1] as int)
        + 0x100_0000_0000 * (data[from + 2] as int) + 0x1_0000_0000 * (data[from + 3] as int)
        + 0x100_0000 * (data[from + 4] as int) + 0x1_0000 * (data[from + 5] as int)
          + 0x100 * (data[from + 6] as int) + (data[from + 7] as int);
    }

    // The same by kind
    method PutKind(item: Item) returns (n: nat)
      requires Valid() && item.v < Range(item.kind)
      modifies this`endp, data
      ensures Valid() && Wrote(old(Now()), Now(), item.kind, item.v, n)
    {
      match item.kind
      case C => n := Putc(item.v);
      case W => n := Putw(item.v);
      case L => n := Putl(item.v);
      case Q => n := Putq(item.v);
    }

    method GetKind(kind: Kind) returns (v: nat)
      requires Valid()
      modifies this`getp
      ensures Valid() && Read(old(Now()), Now(), kind, v)
    {
      match kind
      case C => v := Getc();
      case W => v := Getw();
      case L => v := Getl();
      case Q => v := Getq();
    }

    method PutAll(items: seq<Item>)
      requires Valid() && (forall i :: 0 <= i < |items| ==> items[i].v < Range(items[i].kind))
      requires endp + Total(items) <= size
      modifies this`endp, data
      ensures Valid() && endp == old(endp) + Total(items) && data[..old(endp)] == old(data[..endp])
      ensures Unread(Now()) == old(Unread(Now())) + AllEncoded(items)
    {
      hide Encoded, Splice, AllEncoded, Total, Unread, Appended;
      NoItems();
      var i := 0;
      while i < |items|
        invariant 0 <= i <= |items| && Valid()
        invariant endp + Total(items[i..]) == old(endp) + Total(items)
        invariant Unread(Now()) == old(Unread(Now())) + AllEncoded(items[..i])
        invariant endp >= old(endp) && Now().data[..old(endp)] == old(Now().data)[..old(endp)]
      {
        LastEncoded(items, i);
        AppendedIs(Now(), Encoded(items[i].kind, items[i].v), old(endp));
        var n := PutKind(items[i]);
        i := i + 1;
      }
      assert items[..i] == items && items[i..] == [];
    }

    // Get as many items, of the same kinds: they come back.
    method GetAll(items: seq<Item>) returns (got: seq<nat>)
      requires Valid() && (forall i :: 0 <= i < |items| ==> items[i].v < Range(items[i].kind))
      requires AllEncoded(items) <= Unread(Now())
      modifies this`getp
      ensures Valid() && |got| == |items| && forall i :: 0 <= i < |items| ==> got[i] == items[i].v
      ensures Unread(Now()) == old(Unread(Now()))[|AllEncoded(items)|..]
    {
      hide Encoded, AllEncoded, Value, Unread;
      ghost var unread := Unread(Now());
      NoItems();
      got := [];
      var i := 0;
      while i < |items|
        invariant 0 <= i <= |items| && Valid() && |got| == i
        invariant AllEncoded(items[i..]) <= Unread(Now())
        invariant Unread(Now())[|AllEncoded(items[i..])|..] == unread[|AllEncoded(items)|..]
        invariant forall k :: 0 <= k < i ==> got[k] == items[k].v
      {
        var kind := items[i].kind;
        FirstEncoded(items[i..]);
        ValueOfEncoded(kind, items[i].v);
        assert items[i..][1..] == items[i + 1..];
        Prefix(Unread(Now()), Encoded(kind, items[i].v), AllEncoded(items[i + 1..]));
        ReadUnread(Now(), Width(kind));
        var v := GetKind(kind);
        got := got + [v];
        i := i + 1;
      }
      assert items[i..] == [];
    }

    // Whatever items fit into an empty stream come back, and the stream is empty again.
    method RoundTrip(items: seq<Item>) returns (got: seq<nat>)
      requires Valid() && getp == endp && (forall i :: 0 <= i < |items| ==> items[i].v < Range(items[i].kind))
      requires endp + Total(items) <= size
      modifies this`getp, this`endp, data
      ensures Valid() && getp == endp == old(endp) + Total(items)
      ensures |got| == |items| && forall i :: 0 <= i < |items| ==> got[i] == items[i].v
    {
      hide AllEncoded, Total;
      PutAll(items);
      got := GetAll(items);
    }
  }
}
