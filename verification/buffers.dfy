// buffer.c: output waiting for a descriptor, kept in a list of fixed-size chunks.
module Buffers {
  import opened Arithmetic
  import opened Bytes

  // struct buffer_data
  datatype Chunk = Chunk(sp: nat, cp: nat, data: seq<byte>)

  predicate Sound(c: Chunk, size: nat) {
    c.sp <= c.cp <= |c.data| == size
  }

  function Pending(c: Chunk): (r: seq<byte>)
    ensures c.sp <= c.cp <= |c.data| ==> |r| == c.cp - c.sp
  {
    if c.sp <= c.cp <= |c.data| then c.data[c.sp..c.cp] else []
  }

  // Everything not yet flushed, in order.
  function Content(chunks: seq<Chunk>): seq<byte> {
    if chunks == [] then [] else Pending(chunks[0]) + Content(chunks[1..])
  }

  lemma {:induction false} ContentSplit(a: seq<Chunk>, b: seq<Chunk>)
    ensures Content(a + b) == Content(a) + Content(b)
  {
    hide Pending;
    if a == [] {
      assert a + b == b;
    } else {
      ContentSplit(a[1..], b);
      assert (a + b)[1..] == a[1..] + b && (a + b)[0] == a[0];
      assert Pending(a[0]) + (Content(a[1..]) + Content(b)) == Pending(a[0]) + Content(a[1..]) + Content(b);
    }
  }

  lemma ContentLast(chunks: seq<Chunk>)
    requires chunks != []
    ensures Content(chunks) == Content(chunks[..|chunks| - 1]) + Pending(chunks[|chunks| - 1])
  {
    var n := |chunks| - 1;
    assert chunks == chunks[..n] + [chunks[n]];
    ContentSplit(chunks[..n], [chunks[n]]);
  }

  lemma ContentOfOne(sp: nat, cp: nat, data: seq<byte>)
    requires sp <= cp <= |data|
    ensures Content([Chunk(sp, cp, data)]) == data[sp..cp] && Content([]) == []
  {
  }

  // ---- runs ----

  // What a call does to the content, given how much of it, or of its new data, the descriptor accepts. A window
  // removes n bytes, of which the descriptor accepts only the first m.
  datatype Event = Put(p: seq<byte>) | Write(p: seq<byte>, n: nat) | Refuse | Flush(n: nat) | Window(n: nat, m: nat)

  predicate Step(c: seq<byte>, e: Event, c': seq<byte>) {
    match e
    case Put(p) => c' == c + p
    case Write(p, n) => n <= |p| && (c != [] ==> n == 0) && c' == c + p[n..]
    case Refuse => c' == c
    case Flush(n) => n <= |c| && c' == c[n..]
    case Window(n, m) => m <= n <= |c| && c' == c[n..]
  }

  function Given(e: Event): seq<byte> {
    if e.Put? || e.Write? then e.p else []
  }

  function Accepted(c: seq<byte>, e: Event): seq<byte> {
    match e
    case Write(p, n) => if n <= |p| then p[..n] else []
    case Flush(n) => if n <= |c| then c[..n] else []
    case Window(n, m) => if m <= |c| then c[..m] else []
    case _ => []
  }

  // How many bytes leave the buffer and are not accepted.
  function Lost(e: Event): nat {
    if e.Window? && e.m < e.n then e.n - e.m else 0
  }

  function AllLost(es: seq<Event>): nat {
    if es == [] then 0 else AllLost(es[..|es| - 1]) + Lost(es[|es| - 1])
  }

  function AllGiven(es: seq<Event>): seq<byte> {
    if es == [] then [] else AllGiven(es[..|es| - 1]) + Given(es[|es| - 1])
  }

  function AllAccepted(cs: seq<seq<byte>>, es: seq<Event>): seq<byte>
    requires |es| <= |cs|
  {
    if es == [] then [] else AllAccepted(cs, es[..|es| - 1]) + Accepted(cs[|es| - 1], es[|es| - 1])
  }

  ghost predicate IsRun(cs: seq<seq<byte>>, es: seq<Event>) {
    |cs| == |es| + 1 && forall i :: 0 <= i < |es| ==> Step(cs[i], es[i], cs[i + 1])
  }

  // Over every run, what the descriptor accepted and what is still held are together what was there at
  // first and what was supplied, in order, exactly if no window lost a byte. Each byte is accepted, lost or held.
  lemma {:induction false} Conserved(cs: seq<seq<byte>>, es: seq<Event>, k: nat)
    requires IsRun(cs, es) && k <= |es|
    ensures AllAccepted(cs, es[..k]) + cs[k] == cs[0] + AllGiven(es[..k]) <==> AllLost(es[..k]) == 0
    ensures |AllAccepted(cs, es[..k])| + AllLost(es[..k]) + |cs[k]| == |cs[0]| + |AllGiven(es[..k])|
  {
    hide Step, Accepted, Given, Lost;
    if k > 0 {
      Conserved(cs, es, k - 1);
      assert Step(cs[k - 1], es[k - 1], cs[k]);
      StepConserves(cs[k - 1], es[k - 1], cs[k]);
      assert es[..k][..k - 1] == es[..k - 1];
      if AllLost(es[..k]) == 0 {
        Joined(AllAccepted(cs, es[..k - 1]), Accepted(cs[k - 1], es[k - 1]), cs[k - 1], cs[k],
          cs[0], AllGiven(es[..k - 1]), Given(es[k - 1]));
      }
    }
  }

  lemma Joined(a: seq<byte>, a1: seq<byte>, c: seq<byte>, c': seq<byte>, c0: seq<byte>, g: seq<byte>, g1: seq<byte>)
    requires a + c == c0 + g && a1 + c' == c + g1
    ensures a + a1 + c' == c0 + (g + g1)
  {
    calc {
      a + a1 + c';
      a + (a1 + c');
      a + (c + g1);
      a + c + g1;
      c0 + g + g1;
      c0 + (g + g1);
    }
  }

  lemma StepConserves(c: seq<byte>, e: Event, c': seq<byte>)
    requires Step(c, e, c')
    ensures |Accepted(c, e)| + Lost(e) + |c'| == |c| + |Given(e)|
    ensures Lost(e) == 0 ==> Accepted(c, e) + c' == c + Given(e)
  {
  }

  // ---- lines on a terminal ----

  const CR: byte := 13
  const LF: byte := 10

  // The cursor after showing c at column, and whether that ends a line.
  predicate Ends(column: int, c: byte, width: int) {
    c != CR && (c == LF || column == width)
  }

  function Column(s: seq<byte>, width: int): int {
    if s == [] then 1
    else
      var n := |s| - 1;
      var column := Column(s[..n], width);
      if s[n] == CR || Ends(column, s[n], width) then 1 else column + 1
  }

  // The number of lines that s completes.
  function Lines(s: seq<byte>, width: int): nat {
    if s == [] then 0
    else
      var n := |s| - 1;
      Lines(s[..n], width) + if Ends(Column(s[..n], width), s[n], width) then 1 else 0
  }

  lemma {:induction false} ColumnInside(s: seq<byte>, width: int)
    requires width >= 1
    ensures 1 <= Column(s, width) <= width
  {
    if s != [] {
      ColumnInside(s[..|s| - 1], width);
    }
  }

  // A line feed completes a line, wherever the cursor is, and a carriage return only takes it back.
  lemma LineFeed(s: seq<byte>, width: int)
    ensures Lines(s + [10], width) == Lines(s, width) + 1 && Column(s + [10], width) == 1
    ensures Lines(s + [13], width) == Lines(s, width) && Column(s + [13], width) == 1
    ensures Lines([], width) == 0 && Column([], width) == 1
  {
    assert (s + [10])[..|s|] == s && (s + [13])[..|s|] == s;
  }

  // Any other text completes a line as often as it reaches the right margin.
  lemma {:induction false} TextOn(s: seq<byte>, t: seq<byte>, width: int)
    requires width >= 1 && forall i :: 0 <= i < |t| ==> t[i] != 10 && t[i] != 13
    ensures var at := Column(s, width) - 1 + |t|;
      Lines(s + t, width) == Lines(s, width) + at / width && Column(s + t, width) == at % width + 1
  {
    hide Lines, Column;
    ColumnInside(s, width);
    var at := Column(s, width) - 1 + |t|;
    if t == [] {
      assert s + t == s;
      DivModUnique(at, width, 0, at);
    } else {
      var n := |t| - 1;
      TextOn(s, t[..n], width);
      assert (s + t)[..|s| + n] == s + t[..n] && (s + t)[|s| + n] == t[n];
      OneOn(s + t[..n], t[n], width);
      assert s + t == s + t[..n] + [t[n]];
      NextPlace(at - 1, width);
    }
  }

  lemma OneOn(s: seq<byte>, c: byte, width: int)
    requires c != 10 && c != 13
    ensures var wraps := Column(s, width) == width;
      && Lines(s + [c], width) == Lines(s, width) + (if wraps then 1 else 0)
      && Column(s + [c], width) == if wraps then 1 else Column(s, width) + 1
  {
    assert (s + [c])[..|s|] == s;
  }

  lemma NextPlace(at: nat, width: int)
    requires width >= 1
    ensures var last := at % width == width - 1;
      && (at + 1) / width == at / width + (if last then 1 else 0)
      && (at + 1) % width == if last then 0 else at % width + 1
  {
    var q, r := at / width, at % width;
    if r == width - 1 {
      assert width * (q + 1) == width * q + width;
      DivModUnique(at + 1, width, q + 1, 0);
    } else {
      DivModUnique(at + 1, width, q, r + 1);
    }
  }

  lemma {:induction false} LinesGrow(s: seq<byte>, width: int, m: nat, n: nat)
    requires m <= n <= |s|
    ensures Lines(s[..m], width) <= Lines(s[..n], width)
  {
    if m < n {
      LinesGrow(s, width, m, n - 1);
      assert s[..n][..n - 1] == s[..n - 1];
    }
  }

  // The shortest prefix that completes height lines, or everything.
  ghost predicate Fills(s: seq<byte>, width: int, height: int, n: nat) {
    && n <= |s|
    && (forall m :: 0 <= m < n ==> Lines(s[..m], width) < height)
    && (n < |s| ==> Lines(s[..n], width) == height)
    && Lines(s[..n], width) <= height
  }

  lemma FillsOnce(s: seq<byte>, width: int, height: int, m: nat, n: nat)
    requires Fills(s, width, height, m) && Fills(s, width, height, n)
    ensures m == n
  {
  }

  lemma FillsAtMost(s: seq<byte>, width: int, height: int, n: nat)
    requires Fills(s, width, height, n)
    ensures n <= |s| && Lines(s[..n], width) <= height
  {
  }

  // The longest prefix that completes at most height lines.
  ghost predicate Longest(s: seq<byte>, width: int, height: int, n: nat) {
    && n <= |s| && Lines(s[..n], width) <= height
    && forall m :: n < m <= |s| ==> Lines(s[..m], width) > height
  }

  // The two are the same exactly when nothing is left, or the next character would end a line by itself.
  lemma LongestIf(s: seq<byte>, width: int, height: int, n: nat)
    requires Fills(s, width, height, n) && 0 < height && 0 < width
    ensures Longest(s, width, height, n) <==> n == |s| || s[n] == LF || (width == 1 && s[n] != CR)
  {
    if n < |s| {
      assert s[..n + 1][..n] == s[..n];
      LastColumn(s, width, n);
      if Lines(s[..n + 1], width) > height {
        forall m | n < m <= |s| ensures Lines(s[..m], width) > height {
          LinesGrow(s, width, n + 1, m);
        }
      }
    }
  }

  // A prefix that has just completed a line leaves the cursor at the start of the next.
  lemma LastColumn(s: seq<byte>, width: int, n: nat)
    requires 0 < n <= |s| && Lines(s[..n - 1], width) < Lines(s[..n], width)
    ensures Column(s[..n], width) == 1
  {
    assert s[..n][..n - 1] == s[..n - 1];
  }

  // "\nab" in a window of one line: the flush stops after the newline, but "\nab" completes one line too.
  lemma NotLongest()
    ensures Fills([LF, 97, 98], 80, 1, 1) && !Longest([LF, 97, 98], 80, 1, 1)
  {
    var s := [LF, 97, 98];
    assert s[..1][..0] == [] && s[..2][..1] == s[..1] && s[..3][..2] == s[..2] && s[..0] == [];
    assert Lines(s[..0], 80) == 0 && Lines(s[..1], 80) == 1 && Lines(s[..2], 80) == 1;
    LongestIf(s, 80, 1, 1);
  }

  // ---- the buffer ----

  const MAX_CHUNKS := 16
  const MAX_FLUSH := 131072
  const BS: byte := 8
  const ERASE: seq<byte> := seq(33, _ => BS) + seq(33, _ => 32) + seq(33, _ => BS)
  const MORE: seq<byte> := Bytestring("  --More ( Press 'Q' to quit )-- ") + [0]

  predicate Printable(s: seq<byte>) {
    forall i :: 0 <= i < |s| ==> 32 <= s[i] < 127
  }

  predicate AllAre(s: seq<byte>, c: byte) {
    forall i :: 0 <= i < |s| ==> s[i] == c
  }

  lemma PromptIs()
    ensures |MORE| == 34 && MORE[33] == 0 && Printable(MORE[..33])
  {
    hide AllAre;
  }

  // Erasing goes back over the visible part of the prompt, blanks it, and goes back again.
  lemma EraseIsPrompt()
    ensures var n := |MORE| - 1;
      && MORE[n] == 0 && Printable(MORE[..n])
      && |ERASE| == 3 * n && AllAre(ERASE[..n], 8) && AllAre(ERASE[n..2 * n], 32) && AllAre(ERASE[2 * n..], 8)
  {
    hide Printable, Bytestring;
    PromptIs();
  }

  function Bytestring(s: string): seq<byte> {
    seq(|s|, i requires 0 <= i < |s| => s[i] as int % 0x100)
  }

  datatype Status = BUFFER_ERROR | BUFFER_EMPTY | BUFFER_PENDING

  // What write or writev reports: the number of bytes accepted, an error to retry after, or another one.
  datatype Reply = Wrote(n: nat) | Retry | Fatal

  // What a list of chunks must look like between calls.
  predicate Packed(chunks: seq<Chunk>, size: nat) {
    && (forall i :: 0 <= i < |chunks| ==> Sound(chunks[i], size) && chunks[i].sp < chunks[i].cp)
    && (forall i :: 0 < i < |chunks| ==> chunks[i].sp == 0)
    && (forall i :: 0 <= i < |chunks| - 1 ==> chunks[i].cp == size)
  }

  // cs' is cs with the first k chunks used up, and r bytes more.
  ghost predicate Used(cs: seq<Chunk>, cs': seq<Chunk>, k: nat, r: nat) {
    && |cs'| == |cs| && k <= |cs|
    && (forall i :: 0 <= i < k ==> cs'[i] == cs[i].(sp := cs[i].cp))
    && (if k < |cs| then cs'[k] == cs[k].(sp := cs[k].sp + r) && r < |Pending(cs[k])| else r == 0)
    && (forall i :: k < i < |cs| ==> cs'[i] == cs[i])
  }

  // How many bytes that is.
  ghost predicate Uses(cs: seq<Chunk>, cs': seq<Chunk>, k: nat, r: nat, n: nat) {
    Used(cs, cs', k, r) && n == |Content(cs[..k])| + r
  }

  lemma ContentOf(cs: seq<Chunk>, k: nat)
    requires k < |cs|
    ensures var n := |Content(cs[..k])|; var len := |Pending(cs[k])|;
      n + len <= |Content(cs)| && Content(cs)[n..n + len] == Pending(cs[k])
  {
    assert cs == cs[..k] + cs[k..];
    ContentSplit(cs[..k], cs[k..]);
  }

  lemma ContentUpTo(cs: seq<Chunk>, k: nat)
    requires k <= |cs|
    ensures |Content(cs[..k])| <= |Content(cs)| && Content(cs)[..|Content(cs[..k])|] == Content(cs[..k])
    ensures k < |cs| ==> Content(cs[..k + 1]) == Content(cs[..k]) + Pending(cs[k])
    ensures k == |cs| ==> cs[..k] == cs
  {
    assert cs == cs[..k] + cs[k..];
    ContentSplit(cs[..k], cs[k..]);
    if k < |cs| {
      ContentLast(cs[..k + 1]);
      assert cs[..k + 1][..k] == cs[..k];
    }
  }

  // The text before n fits in the window so far: the cursor is at column, with left lines to go.
  ghost predicate Shown(s: seq<byte>, width: int, height: int, n: nat, column: int, left: int) {
    && n <= |s| && column == Column(s[..n], width) && left == height - Lines(s[..n], width) >= 0
    && forall m :: 0 <= m < n ==> Lines(s[..m], width) < height
  }

  lemma ShownInside(s: seq<byte>, width: int, height: int, n: nat, column: int, left: int)
    requires Shown(s, width, height, n, column, left)
    ensures n <= |s|
  {
  }

  lemma ShownNext(s: seq<byte>, width: int, height: int, n: nat, column: int, left: int)
    requires Shown(s, width, height, n, column, left) && n < |s| && left > 0
    ensures var ends := Ends(column, s[n], width);
      Shown(s, width, height, n + 1, if s[n] == CR || ends then 1 else column + 1, if ends then left - 1 else left)
  {
    assert s[..n + 1][..n] == s[..n];
  }

  // All chunks but the last are as they must be, and the last has room.
  ghost predicate Roomy(chunks: seq<Chunk>, size: nat) {
    && chunks != [] && Packed(chunks[..|chunks| - 1], size)
    && Sound(chunks[|chunks| - 1], size) && chunks[|chunks| - 1].cp < size
    && (|chunks| > 1 ==> chunks[|chunks| - 2].cp == size && chunks[|chunks| - 1].sp == 0)
  }

  lemma RoomAdded(chunks: seq<Chunk>, size: nat)
    requires size > 0 && Packed(chunks, size) && (chunks == [] || chunks[|chunks| - 1].cp == size)
    ensures var r := chunks + [Chunk(0, 0, Zeros(size))]; Roomy(r, size) && Content(r) == Content(chunks)
  {
    hide Content;
    var r := chunks + [Chunk(0, 0, Zeros(size))];
    ContentLast(r);
    assert r[..|r| - 1] == chunks;
  }

  lemma RoomThere(chunks: seq<Chunk>, size: nat)
    requires Packed(chunks, size) && chunks != [] && chunks[|chunks| - 1].cp != size
    ensures Roomy(chunks, size)
  {
    hide Content;
  }

  lemma Filled(before: seq<Chunk>, after: seq<Chunk>, size: nat)
    requires Roomy(before, size) && |after| == |before| && after[..|after| - 1] == before[..|before| - 1]
    requires var c, c' := before[|before| - 1], after[|after| - 1];
      Sound(c', size) && c'.sp == c.sp && c'.cp > c.cp
    ensures Packed(after, size)
  {
    var n := |before| - 1;
    assert forall i :: 0 <= i < n ==> after[i] == before[..n][i];
  }

  lemma PendingFilled(c: Chunk, p: seq<byte>)
    requires c.sp <= c.cp && c.cp + |p| <= |c.data|
    ensures Pending(Chunk(c.sp, c.cp + |p|, c.data[..c.cp] + p + c.data[c.cp + |p|..])) == Pending(c) + p
  {
  }

  // What becomes of n bytes of content that are offered behind a lead.
  function Showing(reply: Reply, lead: nat, n: nat): Event {
    match reply
    case Retry => Refuse
    case Fatal => Window(n, 0)
    case Wrote(m) => Window(n, if m <= lead then 0 else if m <= lead + n then m - lead else n)
  }

  // The window loses content exactly if it has some, and writev fails or does not get to its end.
  lemma WindowLoses(reply: Reply, lead: seq<byte>, text: seq<byte>, tail: seq<byte>)
    ensures Lost(Showing(reply, |lead|, |text|)) > 0 <==>
      text != [] && (reply.Fatal? || (reply.Wrote? && reply.n < |lead| + |text|))
    ensures reply.Wrote? && reply.n <= |lead + text + tail| ==>
      Accepted(text, Showing(reply, |lead|, |text|)) == Within((lead + text + tail)[..reply.n], |lead|, |text|)
  {
  }

  // The part of s at [at, at + n), as far as there is any.
  function Within(s: seq<byte>, at: nat, n: nat): seq<byte> {
    if |s| <= at then [] else if |s| <= at + n then s[at..] else s[at..at + n]
  }

  lemma ContentFirst(c: Chunk, rest: seq<Chunk>)
    ensures Content([c] + rest) == Pending(c) + Content(rest)
  {
    assert ([c] + rest)[1..] == rest;
  }

  lemma DropsPart(chunks: seq<Chunk>, n: nat)
    requires chunks != [] && var d := chunks[0]; d.sp <= d.cp <= |d.data| && n < d.cp - d.sp
    ensures n <= |Content(chunks)|
    ensures var d := chunks[0]; Content([d.(sp := d.sp + n)] + chunks[1..]) == Content(chunks)[n..]
  {
    hide Content;
    var d, rest := chunks[0], chunks[1..];
    assert chunks == [d] + rest;
    ContentFirst(d, rest);
    ContentFirst(d.(sp := d.sp + n), rest);
    assert Pending(d.(sp := d.sp + n)) == Pending(d)[n..];
  }

  lemma DropsFirst(chunks: seq<Chunk>, n: nat)
    requires chunks != [] && |Pending(chunks[0])| <= n <= |Content(chunks)|
    ensures n - |Pending(chunks[0])| <= |Content(chunks[1..])|
    ensures Content(chunks[1..])[n - |Pending(chunks[0])|..] == Content(chunks)[n..]
  {
    hide Pending;
    var p, rest := Pending(chunks[0]), Content(chunks[1..]);
    assert Content(chunks) == p + rest;
    DropsWhole(p, rest, n);
  }

  lemma DropsWhole(p: seq<byte>, rest: seq<byte>, n: nat)
    requires |p| <= n <= |p + rest|
    ensures rest[n - |p|..] == (p + rest)[n..]
  {
  }

  lemma ShownFirst(s: seq<byte>, width: int, height: int)
    requires height > 0
    ensures Shown(s, width, height, 0, 1, height)
  {
    assert s[..0] == [];
  }

  lemma UsedFirst(cs: seq<Chunk>)
    requires cs != [] && cs[0].sp < cs[0].cp <= |cs[0].data|
    ensures Uses(cs, cs, 0, 0, 0)
  {
    assert cs[0] == cs[0].(sp := cs[0].sp + 0);
  }

  // Using up chunk i, or the part of it before cp.
  lemma UsesNext(cs: seq<Chunk>, cs': seq<Chunk>, i: nat, n: nat, cp: nat)
    requires Uses(cs, cs', i, 0, n) && i < |cs| && cs[i].sp <= cp <= cs[i].cp
    requires forall m :: 0 <= m < |cs| ==> cs[m].sp < cs[m].cp <= |cs[m].data|
    ensures var whole := cp == cs[i].cp; var used := cp - cs[i].sp;
      Uses(cs, cs'[i := cs'[i].(sp := cp)], if whole then i + 1 else i, if whole then 0 else used, n + used)
  {
    hide Content;
    ContentUpTo(cs, i);
  }

  // What is there of chunk i is what comes next in the content.
  lemma NextPending(cs: seq<Chunk>, cs': seq<Chunk>, i: nat, n: nat)
    requires Uses(cs, cs', i, 0, n) && i < |cs|
    ensures cs'[i] == cs[i]
    ensures n + |Pending(cs[i])| <= |Content(cs)| && Content(cs)[n..n + |Pending(cs[i])|] == Pending(cs[i])
  {
    hide Content;
    ContentOf(cs, i);
  }

  lemma PendingSizes(cs: seq<Chunk>, size: nat)
    requires Packed(cs, size)
    ensures forall i :: 0 <= i < |cs| ==> |Pending(cs[i])| == cs[i].cp - cs[i].sp > 0
  {
  }

  lemma UsedContent(cs: seq<Chunk>, cs': seq<Chunk>, k: nat, r: nat, n: nat)
    requires Uses(cs, cs', k, r, n) && forall i :: 0 <= i < |cs| ==> cs[i].sp <= cs[i].cp <= |cs[i].data|
    ensures n <= |Content(cs)| && Content(cs'[k..]) == Content(cs)[n..]
  {
    hide Content, Pending;
    assert cs == cs[..k] + cs[k..];
    ContentSplit(cs[..k], cs[k..]);
    if k < |cs| {
      DropsPart(cs[k..], r);
      assert cs'[k..] == [cs[k].(sp := cs[k].sp + r)] + cs[k..][1..];
    } else {
      assert cs'[k..] == cs[k..] == [];
    }
  }

  lemma UsesAll(cs: seq<Chunk>, cs': seq<Chunk>, k: nat, r: nat, n: nat)
    requires Uses(cs, cs', k, r, n)
    ensures n <= |Content(cs)| && (n == |Content(cs)| <==> k == |cs|)
  {
    hide Content, Pending;
    ContentUpTo(cs, k);
    if k < |cs| {
      ContentUpTo(cs, k + 1);
    }
  }

  lemma FirstContent(cs: seq<Chunk>)
    requires cs != []
    ensures Content(cs[..1]) == Pending(cs[0]) && Content(cs[..0]) == []
  {
    assert cs[..1][1..] == [];
  }

  lemma NoContent()
    ensures forall s: seq<Chunk> {:trigger s[..0]} :: Content(s[..0]) == []
  {
  }

  // Only an empty list holds nothing.
  lemma SomeContent(chunks: seq<Chunk>, size: nat)
    requires Packed(chunks, size)
    ensures Content(chunks) == [] <==> chunks == []
  {
  }

  lemma Longer(c: seq<byte>, p: seq<byte>, i: nat, k: nat)
    requires i + k <= |p|
    ensures c + p[..i] + p[i..][..k] == c + p[..i + k]
  {
    assert p[..i + k] == p[..i] + p[i..][..k];
  }

  class Buffer {
    const size: nat
    var chunks: seq<Chunk>

    predicate Valid()
      reads this
    {
      size > 0 && Packed(chunks, size)
    }

    constructor (size: nat, pageSize: nat)
      requires pageSize > 0
      ensures Valid() && chunks == [] && (size > 0 ==> this.size == size)
      ensures size == 0 ==> this.size % pageSize == 0 && 4096 <= this.size < 4096 + pageSize
    {
      var pages := 4095 / pageSize + 1;
      RoundedUp(pageSize);
      this.size := if size > 0 then size else pages * pageSize;
      chunks := [];
    }

    static lemma RoundedUp(pageSize: nat)
      requires pageSize > 0
      ensures var s := (4095 / pageSize + 1) * pageSize; s % pageSize == 0 && 4096 <= s < 4096 + pageSize
    {
      var q := 4095 / pageSize;
      assert 4095 == pageSize * q + 4095 % pageSize;
      assert (q + 1) * pageSize == pageSize * q + pageSize;
      DivModUnique((q + 1) * pageSize, pageSize, q + 1, 0);
    }

    // buffer_add
    method Add()
      modifies this`chunks
      ensures chunks == old(chunks) + [Chunk(0, 0, Zeros(size))]
    {
      chunks := chunks + [Chunk(0, 0, Zeros(size))];
    }

    // memcpy behind the data of the last chunk
    method Fill(p: seq<byte>)
      requires chunks != [] && var c := chunks[|chunks| - 1]; Sound(c, size) && c.cp + |p| <= size
      modifies this`chunks
      ensures |chunks| == |old(chunks)| && chunks[..|chunks| - 1] == old(chunks)[..|chunks| - 1]
      ensures var c, c' := old(chunks)[|chunks| - 1], chunks[|chunks| - 1];
        Sound(c', size) && c'.sp == c.sp && c'.cp == c.cp + |p|
      ensures Content(chunks) == old(Content(chunks)) + p
    {
      hide Content, Pending;
      var n := |chunks| - 1;
      var c := chunks[n];
      var c' := Chunk(c.sp, c.cp + |p|, c.data[..c.cp] + p + c.data[c.cp + |p|..]);
      PendingFilled(c, p);
      ContentLast(chunks);
      chunks := chunks[n := c'];
      ContentLast(chunks);
    }

    // One round of the loop of buffer_put: as much of p as the last chunk takes, or a new one if that is full.
    method PutSome(p: seq<byte>) returns (k: nat)
      requires Valid() && p != []
      modifies this`chunks
      ensures Valid() && 0 < k <= |p| && Content(chunks) == old(Content(chunks)) + p[..k]
    {
      hide Content, Pending, Packed;
      if chunks == [] || chunks[|chunks| - 1].cp == size {
        RoomAdded(chunks, size);
        Add();
      } else {
        RoomThere(chunks, size);
      }
      var c := chunks[|chunks| - 1];
      k := if |p| <= size - c.cp then |p| else size - c.cp;
      ghost var before := chunks;
      Fill(p[..k]);
      Filled(before, chunks, size);
    }

    // buffer_put
    method Put(p: seq<byte>)
      requires Valid()
      modifies this`chunks
      ensures Valid() && Content(chunks) == old(Content(chunks)) + p
      ensures Step(old(Content(chunks)), Event.Put(p), Content(chunks))
    {
      hide Content, Packed;
      var i := 0;
      assert p[..0] == [];
      while i < |p|
        invariant 0 <= i <= |p| && Valid() && Content(chunks) == old(Content(chunks)) + p[..i]
      {
        var k := PutSome(p[i..]);
        Longer(old(Content(chunks)), p, i, k);
        i := i + k;
      }
      assert p[..i] == p;
    }

    // buffer_getstr
    method GetString() returns (text: seq<byte>)
      requires Valid()
      ensures text == Content(chunks) + [0]
    {
      hide Content;
      NoContent();
      text := [];
      var i := 0;
      while i < |chunks|
        invariant 0 <= i <= |chunks| && text == Content(chunks[..i])
      {
        ContentLast(chunks[..i + 1]);
        assert chunks[..i + 1][..i] == chunks[..i];
        text := text + chunks[i].data[chunks[i].sp..chunks[i].cp];
        i := i + 1;
      }
      assert chunks[..i] == chunks;
      text := text + [0];
    }

    // buffer_data_size: the sum of the first k chunks, where the next one would make it wrap around
    method DataSize() returns (total: nat, ghost k: nat)
      requires Valid() && size < 0x1_0000_0000_0000_0000
      ensures k <= |chunks| && total == |Content(chunks[..k])|
        && (k < |chunks| ==> |Content(chunks[..k + 1])| >= 0x1_0000_0000_0000_0000)
      ensures |Content(chunks)| < 0x1_0000_0000_0000_0000 ==> total == |Content(chunks)|
      ensures total < 0x1_0000_0000_0000_0000
    {
      hide Content;
      NoContent();
      total := 0;
      var i := 0;
      while i < |chunks|
        invariant 0 <= i <= |chunks| && total == |Content(chunks[..i])| < 0x1_0000_0000_0000_0000
      {
        ContentLast(chunks[..i + 1]);
        assert chunks[..i + 1][..i] == chunks[..i];
        var len := chunks[i].cp - chunks[i].sp;
        if (total + len) % 0x1_0000_0000_0000_0000 < total {
          assert chunks == chunks[..i + 1] + chunks[i + 1..];
          ContentSplit(chunks[..i + 1], chunks[i + 1..]);
          return total, i;
        }
        total := (total + len) % 0x1_0000_0000_0000_0000;
        i := i + 1;
      }
      assert chunks[..i] == chunks;
      k := i;
    }

    // The chunks that one writev offers to the descriptor.
    method Gather() returns (k: nat, nbyte: nat)
      requires Valid()
      ensures Offered(k) && nbyte == |Content(chunks[..k])| && (nbyte == 0 <==> chunks == [])
    {
      hide Content;
      NoContent();
      k, nbyte := 0, 0;
      while k < |chunks| && k < MAX_CHUNKS && nbyte < MAX_FLUSH
        invariant 0 <= k <= |chunks| && k <= MAX_CHUNKS && nbyte == |Content(chunks[..k])| && (k > 0 ==> nbyte > 0)
        invariant k > 0 ==> |Content(chunks[..k - 1])| < MAX_FLUSH
      {
        ContentLast(chunks[..k + 1]);
        assert chunks[..k + 1][..k] == chunks[..k];
        nbyte := nbyte + (chunks[k].cp - chunks[k].sp);
        k := k + 1;
      }
    }

    // Drop what was written.
    method Drop(n: nat)
      requires Valid() && n <= |Content(chunks)|
      modifies this`chunks
      ensures Valid() && Content(chunks) == old(Content(chunks))[n..]
    {
      hide Content;
      var written := n;
      while written > 0
        invariant Valid() && 0 <= written <= |Content(chunks)|
          && Content(chunks)[written..] == old(Content(chunks))[n..]
      {
        SomeContent(chunks, size);
        var d := chunks[0];
        if written < d.cp - d.sp {
          DropsPart(chunks, written);
          chunks := [d.(sp := d.sp + written)] + chunks[1..];
          return;
        }
        DropsFirst(chunks, written);
        written := written - (d.cp - d.sp);
        chunks := chunks[1..];
      }
    }

    // buffer_flush_available; reply is what writev answers to an offer of k chunks.
    method FlushAvailable(reply: Reply) returns (status: Status, ghost k: nat)
      requires Valid()
      requires reply.Wrote? ==> forall k: nat :: k <= |chunks| && Offered(k) ==> reply.n <= |Content(chunks[..k])|
      modifies this`chunks
      ensures Valid()
      ensures k <= |old(chunks)| && old(Offered(k))
      ensures k <= 16 && (k > 0 ==> |Content(old(chunks)[..k - 1])| < 131072)
        && (k == 16 || k == |old(chunks)| || |Content(old(chunks)[..k])| >= 131072)
      ensures if old(chunks) == [] || !reply.Wrote? then chunks == old(chunks)
        else
          Step(old(Content(chunks)), Event.Flush(reply.n), Content(chunks))
          && Content(chunks) == old(Content(chunks))[reply.n..]
      ensures status == if old(chunks) == [] then BUFFER_EMPTY else if reply.Fatal? then BUFFER_ERROR
        else if chunks == [] then BUFFER_EMPTY else BUFFER_PENDING
    {
      hide Content;
      var count, nbyte := Gather();
      k := count;
      NoContent();
      if nbyte == 0 {
        return BUFFER_EMPTY, k;
      }
      match reply
      case Retry => return BUFFER_PENDING, k;
      case Fatal => return BUFFER_ERROR, k;
      case Wrote(n) =>
        assert chunks == chunks[..k] + chunks[k..];
        ContentSplit(chunks[..k], chunks[k..]);
        Drop(n);
        status := if chunks == [] then BUFFER_EMPTY else BUFFER_PENDING;
    }

    // writev is offered the first k chunks.
    ghost predicate Offered(k: nat)
      reads this
    {
      && k <= |chunks| && k <= MAX_CHUNKS
      && (k == |chunks| || k == MAX_CHUNKS || |Content(chunks[..k])| >= MAX_FLUSH)
      && (k > 0 ==> |Content(chunks[..k - 1])| < MAX_FLUSH)
    }

    // buffer_write; reply is what write answers, if the buffer is empty.
    method Write(p: seq<byte>, reply: Reply) returns (status: Status)
      requires Valid() && (reply.Wrote? ==> reply.n <= |p|)
      modifies this`chunks
      ensures Valid()
      ensures var c := old(Content(chunks));
        if c == [] && reply.Fatal? then status == BUFFER_ERROR && chunks == old(chunks)
        else
          Step(c, Event.Write(p, if c == [] && reply.Wrote? then reply.n else 0), Content(chunks))
          && Content(chunks) == (if c == [] && reply.Wrote? then p[reply.n..] else c + p)
          && status == if Content(chunks) == [] then BUFFER_EMPTY else BUFFER_PENDING
    {
      hide Content;
      SomeContent(chunks, size);
      var written := 0;
      if chunks == [] {
        match reply
        case Retry => written := 0;
        case Fatal => return BUFFER_ERROR;
        case Wrote(n) => written := n;
      }
      if written < |p| {
        Put(p[written..]);
      }
      SomeContent(chunks, size);
      status := if chunks == [] then BUFFER_EMPTY else BUFFER_PENDING;
    }

    // Show what is in chunk i, from byte n of everything.
    method Show(i: nat, width: int, height: int, n0: nat, column0: int, left0: int, ghost s: seq<byte>)
      returns (n: nat, column: int, left: int, cp: nat)
      requires i < |chunks| && Sound(chunks[i], size) && left0 > 0 && Shown(s, width, height, n0, column0, left0)
      requires n0 + |Pending(chunks[i])| <= |s| && s[n0..n0 + |Pending(chunks[i])|] == Pending(chunks[i])
      ensures chunks[i].sp <= cp <= chunks[i].cp && n == n0 + (cp - chunks[i].sp)
      ensures n <= |s| && chunks[i].data[chunks[i].sp..cp] == s[n0..n]
      ensures Shown(s, width, height, n, column, left) && (cp < chunks[i].cp ==> left == 0)
    {
      hide Shown;
      var c := chunks[i];
      ShownInside(s, width, height, n0, column0, left0);
      n, column, left, cp := n0, column0, left0, c.sp;
      assert c.data[c.sp..c.cp] == s[n0..n0 + (c.cp - c.sp)];
      while cp < c.cp && left > 0
        invariant c.sp <= cp <= c.cp && n == n0 + (cp - c.sp) && Shown(s, width, height, n, column, left)
      {
        assert Pending(c)[cp - c.sp] == c.data[cp] == s[n0..n0 + |Pending(c)|][cp - c.sp];
        ShownNext(s, width, height, n, column, left);
        if c.data[cp] == CR {
          column := 1;
        } else if c.data[cp] == LF || column == width {
          column, left := 1, left - 1;
        } else {
          column := column + 1;
        }
        cp, n := cp + 1, n + 1;
      }
      assert c.data[c.sp..cp] == c.data[c.sp..c.cp][..cp - c.sp] == s[n0..n0 + (c.cp - c.sp)][..cp - c.sp];
    }

    // The loop that fills the window; what it passes over is no longer pending.
    method FillWindow(width: int, height: int) returns (n: nat, out: seq<byte>, ghost k: nat, ghost r: nat)
      requires Valid() && chunks != [] && height > 0 && width > 0
      modifies this`chunks
      ensures var s := old(Content(chunks)); Fills(s, width, height, n) && out == s[..n]
      ensures Uses(old(chunks), chunks, k, r, n) && n > 0
    {
      hide Content, Column, Lines, Pending, Used;
      ghost var cs, s := chunks, Content(chunks);
      NoContent();
      var column, left := 1, height;
      n, out, k, r := 0, [], 0, 0;
      var i := 0;
      assert Shown(s, width, height, 0, column, left) by { ShownFirst(s, width, height); }
      UsedFirst(cs);
      while i < |chunks| && left > 0
        invariant 0 <= i <= |chunks| == |cs| && Uses(cs, chunks, k, r, n)
        invariant if left > 0 then k == i && r == 0 else true
        invariant i == 0 ==> left > 0
        invariant i > 0 ==> n > 0
        invariant Shown(s, width, height, n, column, left) && out == s[..n]
      {
        var c := chunks[i];
        NextPending(cs, chunks, i, n);
        var cp;
        n, column, left, cp := Show(i, width, height, n, column, left, s);
        UsesNext(cs, chunks, i, n - (cp - c.sp), cp);
        out := out + c.data[c.sp..cp];
        chunks := chunks[i := c.(sp := cp)];
        if cp == c.cp {
          k, r := i + 1, 0;
        } else {
          k, r := i, cp - c.sp;
        }
        i := i + 1;
      }
      ContentUpTo(cs, |cs|);
    }

    // Undo FillWindow, as the flush does when writev would block.
    method Unflush(n: nat, ghost cs: seq<Chunk>, ghost k: nat, ghost r: nat)
      requires size > 0 && Packed(cs, size) && cs != [] && Uses(cs, chunks, k, r, n) && n > 0
      modifies this`chunks
      ensures chunks == cs
    {
      hide Content;
      var bufs, j := 0, 0;
      FirstContent(cs);
      while j < |chunks| && chunks[j].sp == chunks[j].cp
        invariant 0 <= j <= k && unchanged(this)
        invariant if j == 0 then bufs == 0 else bufs == |Content(cs[..j])| - |Pending(cs[0])|
      {
        if j > 0 {
          ContentUpTo(cs, j);
          assert chunks[j].sp == |Pending(cs[j])|;
          bufs := bufs + chunks[j].sp;
        }
        j := j + 1;
      }
      assert j == k;
      if j < |chunks| && j > 0 {
        bufs := bufs + chunks[j].sp;
      }
      var head := chunks[0];
      if bufs < n && head.sp >= n - bufs {
        chunks := chunks[0 := head.(sp := head.sp - (n - bufs))];
        assert chunks[0] == cs[0];
        var i := 1;
        while i < |chunks| && chunks[i].sp == chunks[i].cp
          invariant 1 <= i <= |chunks| == |cs| && (i <= k || i == 1)
          invariant chunks[..i] == cs[..i] && chunks[0] == cs[0]
          invariant forall m :: i <= m < k ==> chunks[m] == cs[m].(sp := cs[m].cp)
          invariant k < |cs| && k > 0 ==> chunks[k] == cs[k].(sp := cs[k].sp + r)
          invariant forall m :: k < m < |cs| ==> chunks[m] == cs[m]
        {
          chunks := chunks[i := chunks[i].(sp := 0)];
          assert chunks[i] == cs[i];
          i := i + 1;
        }
        if i < |chunks| {
          chunks := chunks[i := chunks[i].(sp := 0)];
        }
      }
    }

    // Free the chunks at the front that are used up.
    method FreeUsed(ghost cs: seq<Chunk>, ghost k: nat, ghost r: nat, ghost n: nat)
      requires size > 0 && Packed(cs, size) && Uses(cs, chunks, k, r, n)
      modifies this`chunks
      ensures Valid() && n <= |Content(cs)| && Content(chunks) == Content(cs)[n..]
    {
      hide Content, Pending;
      PendingSizes(cs, size);
      ghost var used := chunks;
      ghost var j := 0;
      while chunks != [] && chunks[0].sp == chunks[0].cp
        invariant 0 <= j <= k && chunks == used[j..]
        decreases |chunks|
      {
        chunks := chunks[1..];
        j := j + 1;
      }
      assert j == k;
      UsedContent(cs, used, k, r, n);
    }

    // What is left to show of a list of which the last part is used last.
    method SomeLeft(ghost cs: seq<Chunk>, ghost k: nat, ghost r: nat, ghost n: nat) returns (more: bool)
      requires Packed(cs, size) && cs != [] && Uses(cs, chunks, k, r, n)
      ensures more <==> n < |Content(cs)|
    {
      hide Content, Pending;
      PendingSizes(cs, size);
      UsesAll(cs, chunks, k, r, n);
      var tail := chunks[|chunks| - 1];
      more := tail.sp < tail.cp;
    }

    // buffer_flush_window; reply is what writev answers to the offer.
    method FlushWindow(width: int, height: int, erase: bool, noMore: bool, reply: Reply)
      returns (status: Status, offer: seq<byte>, ghost n: nat)
      requires Valid()
      modifies this`chunks
      ensures Valid()
      ensures old(chunks) == [] ==> status == BUFFER_EMPTY && chunks == [] && offer == []
      ensures old(chunks) != [] ==> (
        var s := old(Content(chunks));
        && Fills(s, if width < 1 then 1 else width, if height < 2 then 1 else height - 1, n)
        && offer == (if erase then ERASE else []) + s[..n] + (if n < |s| && !noMore then MORE else [])
        && (if reply.Retry? then chunks == old(chunks) else Content(chunks) == s[n..])
        && status == if reply.Fatal? then BUFFER_ERROR
          else if reply.Retry? || n < |s| then BUFFER_PENDING else BUFFER_EMPTY)
      // a line is left for the prompt, where there is room for one
      ensures old(chunks) != [] && width >= 1 && height >= 2 ==> Lines(old(Content(chunks))[..n], width) + 1 <= height
      ensures Step(old(Content(chunks)), Showing(reply, if erase then |ERASE| else 0, n), Content(chunks))
    {
      hide Content, Fills, Packed, Uses;
      n, offer := 0, [];
      NoContent();
      if chunks == [] {
        return BUFFER_EMPTY, [], 0;
      }
      ghost var cs := chunks;
      var w, h := if width < 1 then 1 else width, if height < 1 then 1 else if height >= 2 then height - 1 else height;
      var shown, text;
      ghost var k, r;
      shown, text, k, r := FillWindow(w, h);
      n := shown;
      FillsAtMost(Content(cs), w, h, n);
      var more := SomeLeft(cs, k, r, n);
      offer := (if erase then ERASE else []) + text + (if more && !noMore then MORE else []);
      if reply.Retry? {
        Unflush(shown, cs, k, r);
        return BUFFER_PENDING, offer, n;
      }
      FreeUsed(cs, k, r, n);
      SomeContent(chunks, size);
      status := if reply.Fatal? then BUFFER_ERROR else if chunks != [] then BUFFER_PENDING else BUFFER_EMPTY;
    }

    // buffer_reset
    method Reset()
      modifies this`chunks
      ensures chunks == []
    {
      chunks := [];
    }
  }
}
