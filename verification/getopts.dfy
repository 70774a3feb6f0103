// getopt.c: reading options out of argv while what is not an option moves to the end.
// A C string is a string here, and a null nextchar is the empty one.
module Getopts {
  import opened Wrappers

  datatype Ordering = RequireOrder | Permute | ReturnInOrder
  datatype LongOption = LongOption(name: string, hasArg: int)

  // The arguments optstring, longopts and long_only of a call.
  datatype Table = Table(shorts: string, longs: Option<seq<LongOption>>, longOnly: bool)

  // ---- looking options up ----

  // my_index: the part of s that begins with c, empty when c is not there
  function From(s: string, c: char): string {
    if s == "" || s[0] == c then s else From(s[1..], c)
  }

  predicate Has(s: string, i: nat, c: char) {
    i < |s| && s[i] == c
  }

  datatype ShortKind = Invalid | Plain | Optional | Required | LongName

  function KindOf(shorts: string, c: char): ShortKind {
    var at := From(shorts, c);
    if at == "" || c == ':' then Invalid
    else if c == 'W' && Has(at, 1, ';') then LongName
    else if !Has(at, 1, ':') then Plain
    else if Has(at, 2, ':') then Optional
    else Required
  }

  predicate HasSign(shorts: string) {
    Has(shorts, 0, '-') || Has(shorts, 0, '+')
  }

  // The option characters without the sign that selects an ordering.
  function Stripped(shorts: string): string {
    if HasSign(shorts) then shorts[1..] else shorts
  }

  // The table of a first call, and by its documentation of every call.
  function Bare(t: Table): Table {
    t.(shorts := Stripped(t.shorts))
  }

  // The length of the name that a '=' may end.
  function NameLength(text: string): (n: nat)
    ensures n <= |text|
  {
    if text == "" || text[0] == '=' then 0 else 1 + NameLength(text[1..])
  }

  // The entries that a name may mean: those it spells in full, or those it begins.
  function Candidates(longs: seq<LongOption>, name: string, inFull: bool): (r: seq<nat>)
    ensures forall i :: 0 <= i < |r| ==> r[i] < |longs|
  {
    if longs == [] then []
    else
      var n := |longs| - 1;
      Candidates(longs[..n], name, inFull)
      + if (if inFull then longs[n].name == name else name <= longs[n].name) then [n] else []
  }

  datatype Match = Unknown | Ambiguous | Found(index: nat)

  // The first entry of that very name, or else the only one the name begins.
  function Lookup(longs: seq<LongOption>, name: string): (m: Match)
    ensures m.Found? ==> m.index < |longs|
  {
    var full, begun := Candidates(longs, name, true), Candidates(longs, name, false);
    if full != [] then Found(full[0])
    else if begun == [] then Unknown
    else if |begun| == 1 then Found(begun[0])
    else Ambiguous
  }

  // ---- decoding ----

  // NullTable: the call reads through longopts, which is null.
  datatype Result = End | Operand | Short(c: char) | Long(index: nat) | Wrong | Missing | NullTable

  // What one call does past the start of an option element: how many elements it passes, what is left of
  // the element for the next call, and what it returns.
  datatype Move = Move(took: nat, rest: string, result: Result, arg: Option<string>)

  // Entry i was named by text; more are the elements that follow.
  function LongMove(longs: seq<LongOption>, i: nat, text: string, more: seq<string>, arg: Option<string>): Move
    requires i < |longs|
  {
    var n := NameLength(text);
    if n < |text| then
      if longs[i].hasArg != 0 then Move(0, "", Long(i), Some(text[n + 1..])) else Move(0, "", Wrong, arg)
    else if longs[i].hasArg == 1 then
      if more != [] then Move(1, "", Long(i), Some(more[0])) else Move(0, "", Missing, arg)
    else Move(0, "", Long(i), arg)
  }

  // -W name, where k elements hold the W and the name
  function NamedMove(t: Table, name: string, k: nat, more: seq<string>): Move
  {
    if t.longs == None then Move(k, "", NullTable, Some(name))
    else match Lookup(t.longs.value, name[..NameLength(name)])
    case Ambiguous => Move(k + 1, "", Wrong, Some(name))
    case Found(i) =>
      var m := LongMove(t.longs.value, i, name, more, Some(name));
      m.(took := k + m.took)
    case Unknown => Move(k, "", Short('W'), Some(name))
  }

  function ShortMove(t: Table, next: string, more: seq<string>): Move
    requires next != ""
  {
    var c, rest := next[0], next[1..];
    var took := if rest == "" then 1 else 0;
    match KindOf(t.shorts, c)
    case Invalid => Move(took, rest, Wrong, None)
    case Plain => Move(took, rest, Short(c), None)
    case Optional => Move(1, "", Short(c), if rest == "" then None else Some(rest))
    case Required =>
      if rest != "" then Move(1, "", Short(c), Some(rest))
      else if more == [] then Move(1, "", Missing, None)
      else Move(2, "", Short(c), Some(more[0]))
    case LongName =>
      if rest != "" then NamedMove(t, rest, 1, more)
      else if more == [] then Move(1, "", Missing, None)
      else NamedMove(t, more[0], 2, more[1..])
  }

  predicate IsOption(e: string) {
    |e| >= 2 && e[0] == '-'
  }

  // Where the decoding of an option element starts.
  function TextOf(t: Table, e: string): (r: string)
    requires IsOption(e) && e != "--"
    ensures r != ""
  {
    if t.longs.Some? && e[1] == '-' then e[2..] else e[1..]
  }

  predicate LongForm(t: Table, e: string)
    requires IsOption(e)
  {
    t.longs.Some? && (e[1] == '-' || (t.longOnly && (|e| > 2 || e[1] !in t.shorts)))
  }

  function Decode(t: Table, e: string, next: string, more: seq<string>): Move
    requires IsOption(e) && next != ""
  {
    if LongForm(t, e) then
      match Lookup(t.longs.value, next[..NameLength(next)])
      case Ambiguous => Move(1, "", Wrong, None)
      case Found(i) =>
        var m := LongMove(t.longs.value, i, next, more, None);
        m.(took := 1 + m.took)
      case Unknown =>
        if !t.longOnly || e[1] == '-' || next[0] !in t.shorts then Move(1, "", Wrong, None)
        else ShortMove(t, next, more)
    else ShortMove(t, next, more)
  }

  lemma DecodeAdvances(t: Table, e: string, next: string, more: seq<string>)
    requires IsOption(e) && next != ""
    ensures var m := Decode(t, e, next, more);
      m.result != End && if m.rest == "" then m.took > 0 else m.took == 0 && |m.rest| < |next|
  {
    hide Lookup, KindOf, NameLength, Candidates, From;
  }

  // ---- what an option takes, as its documentation has it ----

  function LongArguments(o: LongOption, text: string, more: seq<string>): nat {
    if o.hasArg == 1 && NameLength(text) == |text| && more != [] then 1 else 0
  }

  function NameArguments(t: Table, name: string, more: seq<string>): nat {
    if t.longs == None then 0
    else match Lookup(t.longs.value, name[..NameLength(name)])
    case Found(i) => LongArguments(t.longs.value[i], name, more)
    case _ => 0
  }

  predicate DecodedAsLong(t: Table, e: string, next: string)
    requires IsOption(e) && next != ""
  {
    LongForm(t, e) &&
    !(Lookup(t.longs.value, next[..NameLength(next)]) == Unknown && t.longOnly && e[1] != '-' && next[0] in t.shorts)
  }

  // By the documentation only the start of an element can name a long option; the characters that follow a
  // short one are options too.
  predicate DocumentedAsLong(t: Table, e: string, next: string)
    requires IsOption(e) && next != ""
  {
    DecodedAsLong(t, e, next) && (e[1] == '-' || |next| + 1 >= |e|)
  }

  // How many of the elements that follow are arguments of the option that next begins with.
  function ArgumentsOf(t: Table, asLong: bool, next: string, more: seq<string>): nat
    requires next != ""
  {
    if asLong then NameArguments(t, next, more)
    else match KindOf(t.shorts, next[0])
      case Required => if |next| == 1 && more != [] then 1 else 0
      case LongName =>
        if |next| > 1 then NameArguments(t, next[1..], more)
        else if more == [] then 0
        else 1 + NameArguments(t, more[0], more[1..])
      case _ => 0
  }

  // The option is the last thing in its element: what follows it there is its argument, if anything.
  predicate IsLast(t: Table, asLong: bool, next: string)
    requires next != ""
  {
    asLong || |next| == 1 || KindOf(t.shorts, next[0]) in {Optional, Required, LongName}
  }

  // As the option is decoded.
  function Arguments(t: Table, e: string, next: string, more: seq<string>): nat
    requires IsOption(e) && next != ""
  {
    ArgumentsOf(t, DecodedAsLong(t, e, next), next, more)
  }

  predicate EndsElement(t: Table, e: string, next: string)
    requires IsOption(e) && next != ""
  {
    IsLast(t, DecodedAsLong(t, e, next), next)
  }

  // As it is documented.
  function DocumentedArguments(t: Table, e: string, next: string, more: seq<string>): nat
    requires IsOption(e) && next != ""
  {
    ArgumentsOf(t, DocumentedAsLong(t, e, next), next, more)
  }

  predicate DocumentedEnd(t: Table, e: string, next: string)
    requires IsOption(e) && next != ""
  {
    IsLast(t, DocumentedAsLong(t, e, next), next)
  }

  // Decoding has come to a -W whose name begins several long options.
  predicate AmbiguousName(t: Table, e: string, next: string, more: seq<string>)
    requires IsOption(e) && next != ""
  {
    && t.longs.Some? && !DecodedAsLong(t, e, next)
    && KindOf(t.shorts, next[0]) == LongName && (|next| > 1 || more != [])
    && var name := if |next| > 1 then next[1..] else more[0];
      Lookup(t.longs.value, name[..NameLength(name)]) == Ambiguous
  }

  // Decoding has come to a -W with a name, and there is no table to find it in.
  predicate NameWithoutTable(t: Table, e: string, next: string, more: seq<string>)
    requires IsOption(e) && next != ""
  {
    t.longs == None && KindOf(t.shorts, next[0]) == LongName && (|next| > 1 || more != [])
  }

  // A call passes exactly the element, once it is done with it, and its arguments, unless it has come to an
  // ambiguous -W name: then it passes one more.
  lemma PassesItsArguments(t: Table, e: string, next: string, more: seq<string>)
    requires IsOption(e) && next != ""
    ensures var m := Decode(t, e, next, more);
      m.took == (if m.rest == "" then 1 else 0) + Arguments(t, e, next, more) <==> !AmbiguousName(t, e, next, more)
  {
    hide Lookup, NameLength, Candidates, From, KindOf;
  }

  // A call is done with the element exactly at its last option, and any other option has no argument.
  lemma DecodesOneOption(t: Table, e: string, next: string, more: seq<string>)
    requires IsOption(e) && next != ""
    ensures var m := Decode(t, e, next, more);
      if EndsElement(t, e, next) then m.rest == ""
      else (
        && m.took == 0 && m.rest == next[1..] != "" && Arguments(t, e, next, more) == 0
        && !AmbiguousName(t, e, next, more) && !NameWithoutTable(t, e, next, more))
  {
    hide Lookup, NameLength, Candidates, From, KindOf;
  }

  // Such a -W passes one element too many, which takes optind out of argv when the name is the last
  // element. That is the only way out of argv, and a -W with a name is the only way through a null longopts.
  lemma DecodeOverruns(t: Table, e: string, next: string, more: seq<string>)
    requires IsOption(e) && next != ""
    ensures var m := Decode(t, e, next, more);
      && m.took <= |more| + 2
      && (m.took > |more| + 1 <==> AmbiguousName(t, e, next, more) && |more| == if |next| > 1 then 0 else 1)
      && (m.result == NullTable <==> NameWithoutTable(t, e, next, more))
  {
    hide Lookup, NameLength, Candidates, From, KindOf;
  }

  // ---- one call ----

  // front: what was passed over as options and their arguments; back: what was set aside; todo: what
  // is still to be read, of which the first element has only next left if next is not empty.
  datatype Scan = Scan(front: seq<string>, back: seq<string>, todo: seq<string>, next: string)

  predicate Ready(p: Scan) {
    p.next != "" ==> p.todo != [] && IsOption(p.todo[0])
  }

  // The number of elements before the first option.
  function Operands(todo: seq<string>): (n: nat)
    ensures n <= |todo| && (n < |todo| ==> IsOption(todo[n]))
  {
    if todo == [] || IsOption(todo[0]) then 0 else 1 + Operands(todo[1..])
  }

  lemma {:induction false} OperandsAre(todo: seq<string>, n: nat)
    requires n <= |todo| && (forall i :: 0 <= i < n ==> !IsOption(todo[i])) && (n < |todo| ==> IsOption(todo[n]))
    ensures Operands(todo) == n
  {
    if n > 0 {
      OperandsAre(todo[1..], n - 1);
    }
  }

  // astray: the call leaves argv or reads through a null pointer, and nothing is promised after it.
  datatype Called = Called(result: Result, arg: Option<string>, scan: Scan, astray: bool)

  function DecodeCall(t: Table, p: Scan): (r: Called)
    requires Ready(p) && p.next != ""
  {
    var m := Decode(t, p.todo[0], p.next, p.todo[1..]);
    if m.took > |p.todo| || m.result == NullTable then Called(m.result, m.arg, p, true)
    else Called(m.result, m.arg, Scan(p.front + p.todo[..m.took], p.back, p.todo[m.took..], m.rest), false)
  }

  // Where the next decoding starts, after the operands before it are set aside.
  function Aside(ordering: Ordering, p: Scan): (r: Scan)
    ensures r.front == p.front && r.next == p.next
  {
    var n := if p.next == "" && ordering == Permute then Operands(p.todo) else 0;
    Scan(p.front, p.back + p.todo[..n], p.todo[n..], p.next)
  }

  // How argv holds a scan: the front is split around the elements set aside.
  function Laid(s: seq<string>, start: int, first: int, last: int, optind: int, next: string): Scan
    requires 0 <= start <= first <= last <= optind <= |s|
  {
    Scan(s[start..first] + s[last..optind], s[first..last], s[optind..], next)
  }

  lemma Renext(s: seq<string>, start: int, first: int, last: int, optind: int, next: string)
    requires 0 <= start <= first <= last <= optind <= |s|
    ensures Laid(s, start, first, last, optind, next) == Laid(s, start, first, last, optind, "").(next := next)
  {
  }

  lemma AsideStops(ordering: Ordering, p: Scan)
    ensures var q := Aside(ordering, p);
      p.next == "" && ordering == Permute && q.todo != [] ==> IsOption(q.todo[0])
  {
  }

  // Moving optind on takes elements to the front.
  lemma LaidOn(s: seq<string>, start: int, first: int, last: int, optind: int, k: nat, next: string)
    requires 0 <= start <= first <= last <= optind <= optind + k <= |s|
    ensures var p := Laid(s, start, first, last, optind, "");
      Laid(s, start, first, last, optind + k, next) == Scan(p.front + p.todo[..k], p.back, p.todo[k..], next)
  {
  }

  // What a decoding call does where argv holds the scan.
  lemma LaidCall(t: Table, s: seq<string>, start: int, first: int, last: int, optind: int, next: string)
    requires 0 <= start <= first <= last <= optind < |s| && IsOption(s[optind]) && next != ""
    ensures var m := Decode(t, s[optind], next, s[optind + 1..]);
      var c := DecodeCall(t, Laid(s, start, first, last, optind, next));
      && c.result == m.result != End && c.arg == m.arg
      && (c.astray ==> m.result == NullTable || optind + m.took == |s| + 1)
      && (!c.astray ==>
        && optind + m.took <= |s| && c.scan == Laid(s, start, first, last, optind + m.took, m.rest)
        && (m.rest != "" ==> m.took == 0))
  {
    hide Decode;
    var e, more := s[optind], s[optind + 1..];
    DecodeReach(t, e, next, more);
    DecodeAdvances(t, e, next, more);
    var m := Decode(t, e, next, more);
    assert s[optind..][1..] == more;
    if optind + m.took <= |s| {
      LaidOn(s, start, first, last, optind, m.took, m.rest);
    }
  }

  lemma DecodeReach(t: Table, e: string, next: string, more: seq<string>)
    requires IsOption(e) && next != ""
    ensures Decode(t, e, next, more).took <= |more| + 2
  {
    hide Decode, AmbiguousName, NameWithoutTable;
    DecodeOverruns(t, e, next, more);
  }

  // In s, the operands at [from, k) stand right behind those set aside before them.
  lemma AsideIs(s: seq<string>, start: int, first: int, from: int, k: int)
    requires 0 <= start <= first <= from <= k <= |s|
    requires (forall i :: from <= i < k ==> !IsOption(s[i])) && (k < |s| ==> IsOption(s[k]))
    ensures Aside(Permute, Laid(s, start, first, from, from, "")) == Laid(s, start, first, k, k, "")
  {
    hide Operands, IsOption;
    OperandsAre(s[from..], k - from);
    SplitThere(s, first, from, k);
    assert s[k..k] == s[from..from] == [];
  }

  lemma SplitThere(s: seq<string>, first: int, from: int, k: int)
    requires 0 <= first <= from <= k <= |s|
    ensures s[from..][..k - from] == s[from..k] && s[from..][k - from..] == s[k..]
    ensures s[first..from] + s[from..k] == s[first..k]
  {
  }

  function Call(ordering: Ordering, t: Table, p: Scan): Called
    requires Ready(p)
  {
    if p.next != "" then DecodeCall(t, p)
    else
      var q := Aside(ordering, p);
      if q.todo == [] then Called(End, None, q, false)
      else if q.todo[0] == "--" then Called(End, None, Scan(q.front + ["--"], q.back + q.todo[1..], [], ""), false)
      else if IsOption(q.todo[0]) then DecodeCall(t, q.(next := TextOf(t, q.todo[0])))
      else if ordering == RequireOrder then Called(End, None, q, false)
      else Called(Operand, Some(q.todo[0]), Scan(q.front + [q.todo[0]], q.back, q.todo[1..], ""), false)
  }

  lemma NullIsAstray(ordering: Ordering, t: Table, p: Scan)
    requires Ready(p) && Call(ordering, t, p).result == NullTable
    ensures Call(ordering, t, p).astray
  {
    hide Decode, TextOf;
  }

  // ---- every call until -1 ----

  function All(n: nat, b: bool): (r: seq<bool>)
    ensures |r| == n
  {
    seq(n, _ => b)
  }

  // The number of elements that an option element takes up, over all the calls that decode it. The table
  // of the first of these calls can differ from the later one.
  function Taken(now: Table, later: Table, e: string, next: string, more: seq<string>): (k: nat)
    requires IsOption(e) && next != ""
    ensures k > 0
    decreases |next|
  {
    DecodeAdvances(now, e, next, more);
    var m := Decode(now, e, next, more);
    if m.rest == "" then m.took else Taken(later, later, e, m.rest, more)
  }

  // Which of the elements go to the front.
  function Marks(ordering: Ordering, now: Table, later: Table, todo: seq<string>, next: string): (r: seq<bool>)
    requires next != "" ==> todo != [] && IsOption(todo[0])
    ensures |r| == |todo|
    decreases |todo|, next == ""
  {
    if todo == [] then []
    else if next != "" then
      var k := Taken(now, later, todo[0], next, todo[1..]);
      if k > |todo| then All(|todo|, true) else All(k, true) + Marks(ordering, later, later, todo[k..], "")
    else if todo[0] == "--" then [true] + All(|todo| - 1, false)
    else if IsOption(todo[0]) then Marks(ordering, now, later, todo, TextOf(now, todo[0]))
    else match ordering
      case Permute => [false] + Marks(ordering, now, later, todo[1..], "")
      case RequireOrder => All(|todo|, false)
      case ReturnInOrder => [true] + Marks(ordering, later, later, todo[1..], "")
  }

  // No call that decodes the element goes astray.
  predicate SafeElement(now: Table, later: Table, e: string, next: string, more: seq<string>): (r: bool)
    requires IsOption(e) && next != ""
    ensures r ==> Taken(now, later, e, next, more) <= |more| + 1
    decreases |next|
  {
    DecodeAdvances(now, e, next, more);
    var m := Decode(now, e, next, more);
    m.result != NullTable && if m.rest == "" then m.took <= |more| + 1 else SafeElement(later, later, e, m.rest, more)
  }

  // No call of the scan goes astray.
  predicate Safe(ordering: Ordering, now: Table, later: Table, todo: seq<string>, next: string)
    requires next != "" ==> todo != [] && IsOption(todo[0])
    decreases |todo|, next == ""
  {
    if todo == [] then true
    else if next != "" then
      SafeElement(now, later, todo[0], next, todo[1..])
      && Safe(ordering, later, later, todo[Taken(now, later, todo[0], next, todo[1..])..], "")
    else if todo[0] == "--" then true
    else if IsOption(todo[0]) then Safe(ordering, now, later, todo, TextOf(now, todo[0]))
    else match ordering
      case Permute => Safe(ordering, now, later, todo[1..], "")
      case RequireOrder => true
      case ReturnInOrder => Safe(ordering, later, later, todo[1..], "")
  }

  // The elements with mark b, in their order.
  function Select(args: seq<string>, marks: seq<bool>, b: bool): seq<string>
    requires |args| == |marks|
  {
    if args == [] then []
    else (if marks[0] == b then [args[0]] else []) + Select(args[1..], marks[1..], b)
  }

  lemma {:induction false} SelectAll(args: seq<string>, b: bool)
    ensures Select(args, All(|args|, b), b) == args && Select(args, All(|args|, b), !b) == []
  {
    if args != [] {
      assert All(|args|, b)[1..] == All(|args| - 1, b);
      SelectAll(args[1..], b);
    }
  }

  lemma {:induction false} SelectSplit(args: seq<string>, marks: seq<bool>, k: nat, b: bool)
    requires |args| == |marks| && k <= |args|
    ensures Select(args, marks, b) == Select(args[..k], marks[..k], b) + Select(args[k..], marks[k..], b)
  {
    if k > 0 {
      SelectSplit(args[1..], marks[1..], k - 1, b);
      assert args[..k][1..] == args[1..][..k - 1] && marks[..k][1..] == marks[1..][..k - 1];
      assert args[1..][k - 1..] == args[k..] && marks[1..][k - 1..] == marks[k..];
    }
  }

  // Marks that begin with k equal ones.
  lemma SelectLed(args: seq<string>, k: nat, marks: seq<bool>, lead: bool, b: bool)
    requires k <= |args| && |marks| == |args| - k
    ensures Select(args, All(k, lead) + marks, b) == (if lead == b then args[..k] else []) + Select(args[k..], marks, b)
  {
    var all := All(k, lead) + marks;
    SelectSplit(args, all, k, b);
    assert all[..k] == All(k, lead) && all[k..] == marks;
    SelectAll(args[..k], lead);
  }

  ghost function FrontOf(ordering: Ordering, now: Table, later: Table, p: Scan): seq<string>
    requires Ready(p)
  {
    p.front + Select(p.todo, Marks(ordering, now, later, p.todo, p.next), true)
  }

  ghost function BackOf(ordering: Ordering, now: Table, later: Table, p: Scan): seq<string>
    requires Ready(p)
  {
    p.back + Select(p.todo, Marks(ordering, now, later, p.todo, p.next), false)
  }

  ghost predicate SameGoal(ordering: Ordering, now: Table, later: Table, p: Scan, q: Scan)
    requires Ready(p) && Ready(q)
  {
    && FrontOf(ordering, now, later, p) == FrontOf(ordering, later, later, q)
    && BackOf(ordering, now, later, p) == BackOf(ordering, later, later, q)
    && Safe(ordering, now, later, p.todo, p.next) == Safe(ordering, later, later, q.todo, q.next)
  }

  // Setting operands aside does not change where everything will end up.
  lemma {:induction false} OperandsAside(now: Table, later: Table, todo: seq<string>)
    ensures var n := Operands(todo);
      && Select(todo, Marks(Permute, now, later, todo, ""), true) == Select(todo[n..],
        Marks(Permute, now, later, todo[n..], ""), true)
      && Select(todo, Marks(Permute, now, later, todo, ""), false)
        == todo[..n] + Select(todo[n..], Marks(Permute, now, later, todo[n..], ""), false)
      && Safe(Permute, now, later, todo, "") == Safe(Permute, now, later, todo[n..], "")
  {
    hide Taken, SafeElement, Decode, TextOf;
    var n := Operands(todo);
    if n > 0 {
      OperandsAside(now, later, todo[1..]);
      assert todo[n..] == todo[1..][n - 1..];
      assert todo[..n] == [todo[0]] + todo[1..][..n - 1];
    } else {
      assert todo[n..] == todo;
    }
  }

  lemma TakenSteps(now: Table, later: Table, e: string, next: string, more: seq<string>)
    requires IsOption(e) && next != ""
    ensures var m := Decode(now, e, next, more);
      && Taken(now, later, e, next, more) == (if m.rest == "" then m.took else Taken(later, later, e, m.rest, more))
      && SafeElement(now, later, e, next, more) == (m.result != NullTable
        && if m.rest == "" then m.took <= |more| + 1 else SafeElement(later, later, e, m.rest, more))
  {
    hide Decode;
  }

  lemma MarksStep(ordering: Ordering, now: Table, later: Table, todo: seq<string>, next: string)
    requires todo != [] && IsOption(todo[0]) && next != ""
    ensures var k := Taken(now, later, todo[0], next, todo[1..]);
      k <= |todo| ==>
        Marks(ordering, now, later, todo, next) == All(k, true) + Marks(ordering, later, later, todo[k..], "")
    ensures Safe(ordering, now, later, todo, next) <==> (
      && SafeElement(now, later, todo[0], next, todo[1..])
      && Safe(ordering, later, later, todo[Taken(now, later, todo[0], next, todo[1..])..], ""))
  {
    hide Taken, SafeElement;
  }

  // Two ways to go on with the first element that take as much.
  lemma SameStep(
    ordering: Ordering, now: Table, second: Table, later: Table, todo: seq<string>, next: string, rest: string)
    requires todo != [] && IsOption(todo[0]) && next != "" && rest != ""
    requires Taken(now, later, todo[0], next, todo[1..]) == Taken(second, later, todo[0], rest, todo[1..])
    requires SafeElement(now, later, todo[0], next, todo[1..]) == SafeElement(second, later, todo[0], rest, todo[1..])
    ensures Marks(ordering, now, later, todo, next) == Marks(ordering, second, later, todo, rest)
    ensures Safe(ordering, now, later, todo, next) == Safe(ordering, second, later, todo, rest)
  {
    hide Taken, SafeElement;
  }

  lemma DecodeCallKeeps(ordering: Ordering, now: Table, later: Table, p: Scan)
    requires Ready(p) && p.next != ""
    ensures var r := DecodeCall(now, p);
      if r.astray then !Safe(ordering, now, later, p.todo, p.next)
      else Ready(r.scan) && r.result != End && SameGoal(ordering, now, later, p, r.scan)
  {
    hide Decode, Select, Taken, SafeElement, Marks, Safe;
    var m := Decode(now, p.todo[0], p.next, p.todo[1..]);
    TakenSteps(now, later, p.todo[0], p.next, p.todo[1..]);
    DecodeAdvances(now, p.todo[0], p.next, p.todo[1..]);
    MarksStep(ordering, now, later, p.todo, p.next);
    if m.rest != "" {
      assert p.todo[m.took..] == p.todo;
      if m.result != NullTable {
        SameStep(ordering, now, later, later, p.todo, p.next, m.rest);
      }
    } else if m.took <= |p.todo| {
      var marks := Marks(ordering, later, later, p.todo[m.took..], "");
      SelectLed(p.todo, m.took, marks, true, true);
      SelectLed(p.todo, m.took, marks, true, false);
    }
  }

  lemma AsideKeeps(ordering: Ordering, now: Table, later: Table, p: Scan)
    requires Ready(p) && p.next == ""
    ensures var q := Aside(ordering, p);
      && FrontOf(ordering, now, later, q) == FrontOf(ordering, now, later, p)
      && BackOf(ordering, now, later, q) == BackOf(ordering, now, later, p)
      && Safe(ordering, now, later, q.todo, "") == Safe(ordering, now, later, p.todo, "")
  {
    hide Marks, Select, Safe;
    if ordering == Permute {
      OperandsAside(now, later, p.todo);
    } else {
      assert p.todo[0..] == p.todo;
    }
  }

  // What is left to read of the first element.
  function Chars(p: Scan): nat {
    if p.next != "" then |p.next| else if p.todo != [] then |p.todo[0]| else 0
  }

  ghost predicate Nearer(p: Scan, q: Scan) {
    |q.todo| < |p.todo| || (|q.todo| == |p.todo| && Chars(q) < Chars(p))
  }

  lemma DecodeCallNears(t: Table, p: Scan)
    requires Ready(p) && p.next != "" && !DecodeCall(t, p).astray
    ensures Nearer(p, DecodeCall(t, p).scan)
  {
    hide Decode;
    DecodeAdvances(t, p.todo[0], p.next, p.todo[1..]);
  }

  lemma CallNears(ordering: Ordering, t: Table, p: Scan)
    requires Ready(p) && !Call(ordering, t, p).astray && Call(ordering, t, p).result != End
    ensures Nearer(p, Call(ordering, t, p).scan)
  {
    hide Decode, DecodeCall;
    if p.next != "" {
      DecodeCallNears(t, p);
    } else {
      var q := Aside(ordering, p);
      if q.todo[0] != "--" && IsOption(q.todo[0]) {
        DecodeCallNears(t, q.(next := TextOf(t, q.todo[0])));
      }
    }
  }

  // The ways a call ends the scan: at the end, at "--", or at an operand that stops it.
  lemma EndKeeps(ordering: Ordering, now: Table, later: Table, q: Scan)
    requires q.next == "" && (q.todo == [] || q.todo[0] == "--" || (!IsOption(q.todo[0]) && ordering == RequireOrder))
    ensures Safe(ordering, now, later, q.todo, "")
    ensures var dashes := q.todo != [] && q.todo[0] == "--";
      && FrontOf(ordering, now, later, q) == q.front + (if dashes then ["--"] else [])
      && BackOf(ordering, now, later, q) == q.back + (if dashes then q.todo[1..] else q.todo)
  {
    hide Select;
    if q.todo != [] && q.todo[0] == "--" {
      SelectLed(q.todo, 1, All(|q.todo| - 1, false), true, true);
      SelectLed(q.todo, 1, All(|q.todo| - 1, false), true, false);
      SelectAll(q.todo[1..], false);
      assert All(1, true) == [true];
    } else {
      SelectAll(q.todo, false);
    }
  }

  lemma OperandKeeps(now: Table, later: Table, q: Scan)
    requires q.next == "" && q.todo != [] && q.todo[0] != "--" && !IsOption(q.todo[0])
    ensures SameGoal(ReturnInOrder, now, later, q, Scan(q.front + [q.todo[0]], q.back, q.todo[1..], ""))
  {
    hide Select, Taken, SafeElement, Decode, TextOf;
    SelectLed(q.todo, 1, Marks(ReturnInOrder, later, later, q.todo[1..], ""), true, true);
    SelectLed(q.todo, 1, Marks(ReturnInOrder, later, later, q.todo[1..], ""), true, false);
    assert All(1, true) == [true];
  }

  lemma OptionKeeps(ordering: Ordering, now: Table, later: Table, q: Scan)
    requires q.next == "" && q.todo != [] && q.todo[0] != "--" && IsOption(q.todo[0])
    ensures var p := q.(next := TextOf(now, q.todo[0]));
      && FrontOf(ordering, now, later, q) == FrontOf(ordering, now, later, p)
      && BackOf(ordering, now, later, q) == BackOf(ordering, now, later, p)
      && Safe(ordering, now, later, q.todo, "") == Safe(ordering, now, later, p.todo, p.next)
  {
    hide Select;
  }

  // One call leaves every element on its way to where it was going.
  lemma CallKeeps(ordering: Ordering, now: Table, later: Table, p: Scan)
    requires Ready(p)
    ensures var r := Call(ordering, now, p);
      if r.astray then !Safe(ordering, now, later, p.todo, p.next)
      else Ready(r.scan) && if r.result == End then
        FrontOf(ordering, now, later, p) == r.scan.front
        && BackOf(ordering, now, later, p) == r.scan.back + r.scan.todo
        && Safe(ordering, now, later, p.todo, p.next)
      else SameGoal(ordering, now, later, p, r.scan)
  {
    hide Decode, DecodeCall, Select, Marks, Safe, FrontOf, BackOf, Operands, TextOf, Taken;
    if p.next != "" {
      DecodeCallKeeps(ordering, now, later, p);
    } else {
      AsideKeeps(ordering, now, later, p);
      var q := Aside(ordering, p);
      if q.todo == [] || q.todo[0] == "--" || (!IsOption(q.todo[0]) && ordering == RequireOrder) {
        EndKeeps(ordering, now, later, q);
      } else if IsOption(q.todo[0]) {
        OptionKeeps(ordering, now, later, q);
        DecodeCallKeeps(ordering, now, later, q.(next := TextOf(now, q.todo[0])));
      } else {
        OperandKeeps(now, later, q);
      }
    }
  }

  // ---- the documented partition ----

  // An option that does not end its element is followed by others there, and has no arguments.
  lemma DocumentedRoom(t: Table, e: string, next: string, more: seq<string>)
    requires IsOption(e) && next != ""
    ensures DocumentedArguments(t, e, next, more) <= |more|
    ensures !DocumentedEnd(t, e, next) ==> next[1..] != "" && DocumentedArguments(t, e, next, more) == 0
  {
    hide Lookup, NameLength, KindOf;
  }

  // How many elements an option element and the arguments of its last option are.
  function Documented(t: Table, e: string, next: string, more: seq<string>): (k: nat)
    requires IsOption(e) && next != ""
    ensures 0 < k <= |more| + 1
    decreases |next|
  {
    DocumentedRoom(t, e, next, more);
    if DocumentedEnd(t, e, next) then 1 + DocumentedArguments(t, e, next, more)
    else Documented(t, e, next[1..], more)
  }

  // The option ends its element, and takes arguments, in table t as it is documented to in table d.
  predicate ReadAlike(t: Table, d: Table, e: string, next: string, more: seq<string>)
    requires IsOption(e) && next != ""
  {
    && EndsElement(t, e, next) == DocumentedEnd(d, e, next)
    && Arguments(t, e, next, more) == DocumentedArguments(d, e, next, more)
  }

  // No option of the element is a -W with an ambiguous name, or with a name and no table to find it in, or is
  // decoded as another one than it is documented to be.
  predicate Clear(now: Table, later: Table, e: string, next: string, more: seq<string>)
    requires IsOption(e) && next != ""
    decreases |next|
  {
    && !AmbiguousName(now, e, next, more) && !NameWithoutTable(now, e, next, more)
    && ReadAlike(now, Bare(later), e, next, more)
    && (EndsElement(now, e, next) || Clear(later, later, e, next[1..], more))
  }

  // Every call on the element goes on by one character, or over the element and the arguments, as documented.
  predicate ReadAsDocumented(now: Table, later: Table, e: string, next: string, more: seq<string>)
    requires IsOption(e) && next != ""
    decreases |next|
  {
    var m := Decode(now, e, next, more);
    && m.result != NullTable
    && if DocumentedEnd(Bare(later), e, next) then
      m.rest == "" && m.took == 1 + DocumentedArguments(Bare(later), e, next, more)
    else
      m.rest == next[1..] && m.took == 0 && ReadAsDocumented(later, later, e, next[1..], more)
  }

  // next is what is left of e.
  predicate IsLeft(e: string, next: string) {
    |next| < |e| && next == e[|e| - |next|..]
  }

  lemma ClearReads(now: Table, d: Table, e: string, next: string, more: seq<string>)
    requires IsOption(e) && next != ""
    requires !AmbiguousName(now, e, next, more) && !NameWithoutTable(now, e, next, more)
    ensures var m := Decode(now, e, next, more);
      && m.result != NullTable
      && (ReadAlike(now, d, e, next, more) <==>
        if DocumentedEnd(d, e, next) then m.rest == "" && m.took == 1 + DocumentedArguments(d, e, next, more)
        else m.rest == next[1..] && m.took == 0)
  {
    hide Decode, AmbiguousName, NameWithoutTable, Arguments, EndsElement, DocumentedArguments, DocumentedEnd;
    DecodesOneOption(now, e, next, more);
    DecodeOverruns(now, e, next, more);
    PassesItsArguments(now, e, next, more);
    DocumentedRoom(d, e, next, more);
  }

  // A first call strips no "W;" and brings none in.
  lemma StrippedKind(shorts: string)
    ensures KindOf(Stripped(shorts), 'W') == KindOf(shorts, 'W')
  {
  }

  lemma OnlyW(shorts: string, c: char)
    ensures KindOf(shorts, c) == LongName ==> c == 'W'
  {
  }

  predicate LongOnly(t: Table) {
    t.longs.Some? && t.longOnly
  }

  // Only the sign is decoded otherwise than in the table without it. Only the sign, and what follows the first
  // option of an element for getopt_long_only, can be decoded otherwise than documented.
  lemma OnlyTheSign(t: Table, e: string, next: string, more: seq<string>)
    requires IsOption(e) && next != "" && IsLeft(e, next) && (HasSign(t.shorts) ==> next[0] != t.shorts[0])
    ensures Decode(t, e, next, more) == Decode(Bare(t), e, next, more)
    ensures EndsElement(t, e, next) == EndsElement(Bare(t), e, next)
    ensures Arguments(t, e, next, more) == Arguments(Bare(t), e, next, more)
    ensures !LongOnly(t) || |next| + 1 == |e| ==> ReadAlike(t, Bare(t), e, next, more)
  {
    hide Lookup, NameLength, KindOf;
    KindWithoutSign(t.shorts, next[0]);
    if HasSign(t.shorts) {
      assert t.shorts == [t.shorts[0]] + Stripped(t.shorts);
      assert |e| == 2 ==> e[1] == next[0];
    }
  }

  lemma KindWithoutSign(shorts: string, c: char)
    requires HasSign(shorts) ==> c != shorts[0]
    ensures KindOf(shorts, c) == KindOf(Stripped(shorts), c)
  {
  }

  // An element is read as documented exactly when it is clear.
  lemma {:induction false} TakenAsDocumented(now: Table, later: Table, e: string, next: string, more: seq<string>)
    requires IsOption(e) && next != ""
    ensures Clear(now, later, e, next, more) ==> ReadAsDocumented(now, later, e, next, more)
    ensures IsLeft(e, next) && (now == later || now == Bare(later)) && ReadAsDocumented(now, later, e, next, more)
      ==> Clear(now, later, e, next, more)
    decreases |next|
  {
    hide Decode, EndsElement, AmbiguousName, NameWithoutTable, Arguments, Bare, DocumentedEnd, DocumentedArguments;
    DecodeOverruns(now, e, next, more);
    if AmbiguousName(now, e, next, more) {
      if IsLeft(e, next) && (now == later || now == Bare(later)) {
        AmbiguousNameMisread(now, later, e, next, more);
      }
    } else if !NameWithoutTable(now, e, next, more) {
      ClearReads(now, Bare(later), e, next, more);
      DecodesOneOption(now, e, next, more);
      if !EndsElement(now, e, next) {
        TakenAsDocumented(later, later, e, next[1..], more);
      }
    }
  }

  lemma AmbiguousNameMisread(now: Table, later: Table, e: string, next: string, more: seq<string>)
    requires IsOption(e) && next != "" && AmbiguousName(now, e, next, more)
    requires IsLeft(e, next) && (now == later || now == Bare(later))
    ensures !ReadAsDocumented(now, later, e, next, more)
  {
    hide Decode, Lookup, NameLength, KindOf;
    OnlyW(now.shorts, next[0]);
    OnlyTheSign(later, e, next, more);
    PassesItsArguments(now, e, next, more);
    DecodesOneOption(now, e, next, more);
  }

  // What is read as documented does not go astray, and is the documented number of elements.
  lemma {:induction false} ReadIsTaken(now: Table, later: Table, e: string, next: string, more: seq<string>)
    requires IsOption(e) && next != "" && ReadAsDocumented(now, later, e, next, more)
    ensures SafeElement(now, later, e, next, more)
    ensures Taken(now, later, e, next, more) == Documented(Bare(later), e, next, more)
    decreases |next|
  {
    hide Decode, DocumentedEnd, DocumentedArguments, Bare;
    TakenSteps(now, later, e, next, more);
    DocumentedRoom(Bare(later), e, next, more);
    if !DocumentedEnd(Bare(later), e, next) {
      ReadIsTaken(later, later, e, next[1..], more);
    }
  }

  // Where there is no sign, and but for getopt_long_only, counting is enough.
  lemma {:induction false} CountedAsDocumented(t: Table, e: string, next: string, more: seq<string>)
    requires IsOption(e) && next != "" && Bare(t) == t && !LongOnly(t)
    ensures Clear(t, t, e, next, more) <==> (
      SafeElement(t, t, e, next, more) && Taken(t, t, e, next, more) == Documented(t, e, next, more))
    decreases |next|
  {
    hide Decode, AmbiguousName, NameWithoutTable, Bare, ArgumentsOf, IsLast;
    TakenSteps(t, t, e, next, more);
    DecodesOneOption(t, e, next, more);
    DecodeOverruns(t, e, next, more);
    PassesItsArguments(t, e, next, more);
    if !EndsElement(t, e, next) {
      CountedAsDocumented(t, e, next[1..], more);
    }
  }

  // ---- a table whose sign does no harm ----

  // Options of these kinds go as far as each other.
  predicate SameReach(a: ShortKind, b: ShortKind) {
    a == b || (a in {Invalid, Plain} && b in {Invalid, Plain})
  }

  predicate TakesText(k: ShortKind) {
    k == Optional || k == Required
  }

  // What a caller can look up beforehand: as an option of the later calls the sign reaches as far as it does
  // without the sign in front.
  predicate SignIsHarmless(t: Table) {
    HasSign(t.shorts) ==> SameReach(KindOf(t.shorts, t.shorts[0]), KindOf(Stripped(t.shorts), t.shorts[0]))
  }

  // Whatever the element and what is left of it, and whatever follows, it is read as documented.
  ghost predicate AlwaysAlike(t: Table) {
    forall e, next, more :: IsOption(e) && next != "" && IsLeft(e, next) ==> ReadAlike(t, Bare(t), e, next, more)
  }

  lemma HarmlessIsAlike(t: Table, e: string, next: string, more: seq<string>)
    requires SignIsHarmless(t) && !LongOnly(t) && IsOption(e) && next != "" && IsLeft(e, next)
    ensures ReadAlike(t, Bare(t), e, next, more)
  {
    hide Lookup, KindOf;
    if HasSign(t.shorts) && next[0] == t.shorts[0] {
      assert t.shorts == [t.shorts[0]] + Stripped(t.shorts);
      assert |e| == 2 ==> e[1] == next[0];
      OnlyW(t.shorts, next[0]);
      OnlyW(Bare(t).shorts, next[0]);
    } else {
      OnlyTheSign(t, e, next, more);
    }
  }

  lemma HarmIsSeen(t: Table)
    requires !LongOnly(t) && AlwaysAlike(t)
    ensures SignIsHarmless(t)
  {
    hide Lookup, KindOf, AlwaysAlike;
    if HasSign(t.shorts) {
      var c := t.shorts[0];
      OnlyW(t.shorts, c);
      OnlyW(Bare(t).shorts, c);
      AlikeThere(t, "-a" + [c, 'x'], [c, 'x'], []);
      AlikeThere(t, "-a" + [c], [c], ["x"]);
    }
  }

  lemma AlikeThere(t: Table, e: string, next: string, more: seq<string>)
    requires AlwaysAlike(t) && IsOption(e) && next != "" && IsLeft(e, next)
    ensures ReadAlike(t, Bare(t), e, next, more)
  {
  }

  // For getopt and getopt_long, the sign is harmless exactly if no element is misread.
  lemma HarmlessIf(t: Table)
    requires t.longs == None || !t.longOnly
    ensures SignIsHarmless(t) <==> AlwaysAlike(t)
  {
    hide SignIsHarmless, ReadAlike;
    if SignIsHarmless(t) {
      forall e, next, more | IsOption(e) && next != "" && IsLeft(e, next) ensures ReadAlike(t, Bare(t), e, next, more) {
        HarmlessIsAlike(t, e, next, more);
      }
    }
    if AlwaysAlike(t) {
      HarmIsSeen(t);
    }
  }

  // A sign that no ':' follows and that does not come again is harmless.
  lemma SignWithoutColon(t: Table)
    requires HasSign(t.shorts) ==> !Has(t.shorts, 1, ':') && t.shorts[0] !in t.shorts[1..]
    ensures SignIsHarmless(t)
  {
    if HasSign(t.shorts) {
      NotThere(t.shorts[1..], t.shorts[0]);
    }
  }

  lemma {:induction false} NotThere(s: string, c: char)
    requires c !in s
    ensures From(s, c) == ""
  {
    if s != "" {
      NotThere(s[1..], c);
    }
  }

  // Which of the elements go to the front by the documentation: the options, with the arguments each has, and
  // a "--" that ends them. What is an operand is left, unless it is to be returned in order.
  function DocumentedMarks(ordering: Ordering, t: Table, todo: seq<string>, next: string): (r: seq<bool>)
    requires next != "" ==> todo != [] && IsOption(todo[0])
    ensures |r| == |todo|
    decreases |todo|, next == ""
  {
    if todo == [] then []
    else if next != "" then
      var k := Documented(t, todo[0], next, todo[1..]);
      All(k, true) + DocumentedMarks(ordering, t, todo[k..], "")
    else if todo[0] == "--" then [true] + All(|todo| - 1, false)
    else if IsOption(todo[0]) then DocumentedMarks(ordering, t, todo, TextOf(t, todo[0]))
    else match ordering
      case Permute => [false] + DocumentedMarks(ordering, t, todo[1..], "")
      case RequireOrder => All(|todo|, false)
      case ReturnInOrder => [true] + DocumentedMarks(ordering, t, todo[1..], "")
  }

  // Every option element of the scan is clear.
  predicate AllClear(ordering: Ordering, now: Table, later: Table, todo: seq<string>, next: string)
    requires next != "" ==> todo != [] && IsOption(todo[0])
    decreases |todo|, next == ""
  {
    if todo == [] then true
    else if next != "" then
      Clear(now, later, todo[0], next, todo[1..])
      && AllClear(ordering, later, later, todo[Documented(Bare(later), todo[0], next, todo[1..])..], "")
    else if todo[0] == "--" then true
    else if IsOption(todo[0]) then AllClear(ordering, now, later, todo, TextOf(now, todo[0]))
    else match ordering
      case Permute => AllClear(ordering, now, later, todo[1..], "")
      case RequireOrder => true
      case ReturnInOrder => AllClear(ordering, later, later, todo[1..], "")
  }

  // The table of the first call is that of the others, with or without the sign.
  predicate OneTable(now: Table, later: Table) {
    now == later || now == Bare(later)
  }

  // A scan of clear elements does not go astray and parts argv as documented.
  lemma {:induction false} MarksAsDocumented(
    ordering: Ordering, now: Table, later: Table, todo: seq<string>, next: string)
    requires (next != "" ==> todo != [] && IsOption(todo[0])) && AllClear(ordering, now, later, todo, next)
    requires OneTable(now, later)
    ensures Safe(ordering, now, later, todo, next)
    ensures Marks(ordering, now, later, todo, next) == DocumentedMarks(ordering, Bare(later), todo, next)
    decreases |todo|, next == ""
  {
    hide Taken, SafeElement, Documented, Clear;
    if todo != [] {
      if next != "" {
        var k := Documented(Bare(later), todo[0], next, todo[1..]);
        TakenAsDocumented(now, later, todo[0], next, todo[1..]);
        ReadIsTaken(now, later, todo[0], next, todo[1..]);
        MarksAsDocumented(ordering, later, later, todo[k..], "");
      } else if IsOption(todo[0]) && todo[0] != "--" {
        MarksAsDocumented(ordering, now, later, todo, TextOf(now, todo[0]));
      } else if todo[0] != "--" && ordering == Permute {
        MarksAsDocumented(ordering, now, later, todo[1..], "");
      } else if todo[0] != "--" && ordering == ReturnInOrder {
        MarksAsDocumented(ordering, later, later, todo[1..], "");
      }
    }
  }

  lemma DecodedAsDocumented(t: Table, e: string, next: string, more: seq<string>)
    requires IsOption(e) && next != "" && !LongOnly(t)
    ensures ReadAlike(t, t, e, next, more)
  {
  }

  // Without a "W;", and with no sign or a harmless one, every element is clear.
  lemma {:induction false} HarmlessIsClear(now: Table, later: Table, e: string, next: string, more: seq<string>)
    requires SignIsHarmless(later) && !LongOnly(later) && OneTable(now, later)
    requires KindOf(later.shorts, 'W') != LongName
    requires IsOption(e) && next != "" && IsLeft(e, next)
    ensures Clear(now, later, e, next, more)
    decreases |next|
  {
    hide KindOf, EndsElement, Arguments, DocumentedEnd, DocumentedArguments, SignIsHarmless, Lookup, NameLength;
    StrippedKind(later.shorts);
    OnlyW(now.shorts, next[0]);
    HarmlessIsAlike(later, e, next, more);
    DecodedAsDocumented(Bare(later), e, next, more);
    DecodesOneOption(now, e, next, more);
    if !EndsElement(now, e, next) {
      HarmlessIsClear(later, later, e, next[1..], more);
    }
  }

  lemma {:induction false} HarmlessIsAllClear(
    ordering: Ordering, now: Table, later: Table, todo: seq<string>, next: string)
    requires SignIsHarmless(later) && (later.longs == None || !later.longOnly) && OneTable(now, later)
    requires KindOf(later.shorts, 'W') != LongName
    requires next != "" ==> todo != [] && IsOption(todo[0]) && IsLeft(todo[0], next)
    ensures AllClear(ordering, now, later, todo, next)
    decreases |todo|, next == ""
  {
    hide Documented, Clear, KindOf, SignIsHarmless;
    if todo != [] {
      if next != "" {
        HarmlessIsClear(now, later, todo[0], next, todo[1..]);
        HarmlessIsAllClear(ordering, later, later, todo[Documented(Bare(later), todo[0], next, todo[1..])..], "");
      } else if IsOption(todo[0]) && todo[0] != "--" {
        HarmlessIsAllClear(ordering, now, later, todo, TextOf(now, todo[0]));
      } else if todo[0] != "--" && ordering == Permute {
        HarmlessIsAllClear(ordering, now, later, todo[1..], "");
      } else if todo[0] != "--" && ordering == ReturnInOrder {
        HarmlessIsAllClear(ordering, later, later, todo[1..], "");
      }
    }
  }

  lemma EndsAsDocumented(ordering: Ordering, now: Table, later: Table, p: Scan)
    requires Ready(p) && AllClear(ordering, now, later, p.todo, p.next) && OneTable(now, later)
    ensures var marks := DocumentedMarks(ordering, Bare(later), p.todo, p.next);
      && Safe(ordering, now, later, p.todo, p.next)
      && FrontOf(ordering, now, later, p) == p.front + Select(p.todo, marks, true)
      && BackOf(ordering, now, later, p) == p.back + Select(p.todo, marks, false)
  {
    MarksAsDocumented(ordering, now, later, p.todo, p.next);
  }

  // ---- the scanner itself ----

  lemma {:induction false} CandidatesGrow(longs: seq<LongOption>, k: nat, name: string, inFull: bool)
    requires k <= |longs|
    ensures Candidates(longs[..k], name, inFull) <= Candidates(longs, name, inFull)
  {
    if k < |longs| {
      CandidatesGrow(longs[..|longs| - 1], k, name, inFull);
      assert longs[..|longs| - 1][..k] == longs[..k];
    } else {
      assert longs[..k] == longs;
    }
  }

  lemma {:induction false} NameLengthIs(text: string, n: nat)
    requires n <= |text| && (forall i :: 0 <= i < n ==> text[i] != '=') && (n < |text| ==> text[n] == '=')
    ensures NameLength(text) == n
  {
    if n > 0 {
      NameLengthIs(text[1..], n - 1);
    }
  }

  lemma NoCandidates(name: string)
    ensures Candidates([], name, true) == Candidates([], name, false) == []
  {
  }

  lemma OneMore(longs: seq<LongOption>, i: nat, name: string)
    requires i < |longs|
    ensures Candidates(longs[..i + 1], name, true) == Candidates(longs[..i], name, true)
      + if longs[i].name == name then [i] else []
    ensures Candidates(longs[..i + 1], name, false) == Candidates(longs[..i], name, false)
      + if name <= longs[i].name then [i] else []
  {
    assert longs[..i + 1][..i] == longs[..i];
  }

  // The two loops that look a long name up.
  method FindLong(longs: seq<LongOption>, text: string) returns (m: Match, n: nat)
    ensures n == NameLength(text) && m == Lookup(longs, text[..n])
  {
    hide Candidates, NameLength;
    n := 0;
    while n < |text| && text[n] != '='
      invariant 0 <= n <= |text| && forall i :: 0 <= i < n ==> text[i] != '='
    {
      n := n + 1;
    }
    NameLengthIs(text, n);
    var name := text[..n];
    var found, ambig := Unknown, false;
    var i := 0;
    NoCandidates(name);
    assert longs[..0] == [];
    while i < |longs|
      invariant 0 <= i <= |longs| && Candidates(longs[..i], name, true) == []
      invariant var begun := Candidates(longs[..i], name, false);
        found == (if begun == [] then Unknown else Found(begun[0])) && (ambig <==> |begun| > 1)
    {
      OneMore(longs, i, name);
      if name <= longs[i].name {
        if n == |longs[i].name| {
          CandidatesGrow(longs, i + 1, name, true);
          return Found(i), n;
        } else if found == Unknown {
          found := Found(i);
        } else {
          ambig := true;
        }
      }
      i := i + 1;
    }
    assert longs[..i] == longs;
    return if ambig then Ambiguous else found, n;
  }

  // The ordering that the first option character of a first call selects.
  function Chosen(shorts: string, posixly: bool): Ordering {
    if Has(shorts, 0, '-') then ReturnInOrder
    else if Has(shorts, 0, '+') || posixly then RequireOrder
    else Permute
  }

  function Min(a: int, b: int): int {
    if a < b then a else b
  }

  // s with the len elements at i and those at j swapped
  function Swapped(s: seq<string>, i: int, j: int, len: int): (r: seq<string>)
    requires 0 <= len && 0 <= i && i + len <= j && j + len <= |s|
    ensures |r| == |s|
  {
    s[..i] + s[j..j + len] + s[i + len..j] + s[i..i + len] + s[j + len..]
  }

  // Where the element at k comes from.
  function Source(i: int, j: int, len: int, k: int): int {
    if i <= k < i + len then k - i + j else if j <= k < j + len then k - j + i else k
  }

  lemma SwappedAt(s: seq<string>, i: int, j: int, len: int, k: int)
    requires 0 <= len && 0 <= i && i + len <= j && j + len <= |s| && 0 <= k < |s|
    ensures Swapped(s, i, j, len)[k] == s[Source(i, j, len, k)]
  {
  }

  // s with the segments [bottom, middle) and [middle, top) exchanged
  function Exchanged(s: seq<string>, bottom: int, middle: int, top: int): (r: seq<string>)
    requires 0 <= bottom <= middle <= top <= |s|
    ensures |r| == |s|
  {
    s[..bottom] + s[middle..top] + s[bottom..middle] + s[top..]
  }

  function ExchangedFrom(bottom: int, middle: int, top: int, k: int): int {
    if k < bottom || k >= top then k else if k < bottom + (top - middle) then k - bottom + middle
      else k - (top - middle)
  }

  lemma ExchangedAt(s: seq<string>, bottom: int, middle: int, top: int, k: int)
    requires 0 <= bottom <= middle <= top <= |s| && 0 <= k < |s|
    ensures Exchanged(s, bottom, middle, top)[k] == s[ExchangedFrom(bottom, middle, top, k)]
  {
  }

  // Swapping a shorter bottom segment with the far end of the top one leaves a smaller exchange to do.
  lemma BottomStep(s: seq<string>, bottom: int, middle: int, top: int)
    requires 0 <= bottom < middle <= top <= |s| && top - middle > middle - bottom
    ensures var len := middle - bottom;
      Exchanged(Swapped(s, bottom, top - len, len), bottom, middle, top - len) == Exchanged(s, bottom, middle, top)
  {
    hide Exchanged, Swapped;
    var len := middle - bottom;
    var r := Swapped(s, bottom, top - len, len);
    forall k | 0 <= k < |s| ensures Exchanged(r, bottom, middle, top - len)[k] == Exchanged(s, bottom, middle, top)[k] {
      ExchangedAt(r, bottom, middle, top - len, k);
      ExchangedAt(s, bottom, middle, top, k);
      SwappedAt(s, bottom, top - len, len, ExchangedFrom(bottom, middle, top - len, k));
    }
  }

  lemma TopStep(s: seq<string>, bottom: int, middle: int, top: int)
    requires 0 <= bottom <= middle < top <= |s| && top - middle <= middle - bottom
    ensures var len := top - middle;
      Exchanged(Swapped(s, bottom, middle, len), bottom + len, middle, top) == Exchanged(s, bottom, middle, top)
  {
    hide Exchanged, Swapped;
    var len := top - middle;
    var r := Swapped(s, bottom, middle, len);
    forall k | 0 <= k < |s| ensures Exchanged(r, bottom + len, middle, top)[k] == Exchanged(s, bottom, middle, top)[k] {
      ExchangedAt(r, bottom + len, middle, top, k);
      ExchangedAt(s, bottom, middle, top, k);
      SwappedAt(s, bottom, middle, len, ExchangedFrom(bottom + len, middle, top, k));
    }
  }

  lemma ExchangedNone(s: seq<string>, bottom: int, middle: int, top: int)
    requires 0 <= bottom <= middle <= top <= |s|
    ensures bottom == middle || middle == top ==> Exchanged(s, bottom, middle, top) == s
  {
  }

  // Options that follow the operands set aside change places with them; without operands there is no move.
  lemma RanksClosed(s: seq<string>, start: int, first: int, last: int, optind: int)
    requires 0 <= start <= first <= last <= optind <= |s|
    ensures var r := Exchanged(s, first, last, optind);
      && Laid(r, start, first + (optind - last), optind, optind, "") == Laid(s, start, first, last, optind, "")
      && r[..start] == s[..start]
  {
    var r := Exchanged(s, first, last, optind);
    assert r[start..first + (optind - last)] == s[start..first] + s[last..optind];
    assert r[first + (optind - last)..optind] == s[first..last] && r[optind..] == s[optind..];
  }

  // "--" at d changes places with the elements set aside before it, if there are any.
  lemma DashesMove(s: seq<string>, start: int, first: int, last: int, d: int)
    requires 0 <= start <= first <= last <= d < |s| && s[d] == "--" && (first == last || last == d)
    ensures var q := Laid(s, start, first, last, d, "");
      var r := if first == last then s else Exchanged(s, first, last, d + 1);
      var f := if first == last then d + 1 else first + 1;
      && Laid(r, start, f, |s|, |s|, "") == Scan(q.front + ["--"], q.back + q.todo[1..], [], "")
      && r[..start] == s[..start]
  {
    if first == last {
      assert s[start..d + 1] == s[start..first] + s[last..d] + ["--"];
    } else {
      DashesPass(s, start, first, d);
    }
  }

  lemma DashesPass(s: seq<string>, start: int, first: int, d: int)
    requires 0 <= start <= first < d < |s| && s[d] == "--"
    ensures var r := Exchanged(s, first, d, d + 1);
      && r[..start] == s[..start] && r[start..first + 1] == s[start..first] + ["--"]
      && r[first + 1..] == s[first..d] + s[d..][1..]
  {
    assert s[d..d + 1] == ["--"];
  }

  class Getopt {
    const argv: array<string>
    const posixly: bool
    var initialized: bool
    var ordering: Ordering
    var firstNonopt: int
    var lastNonopt: int
    var optind: int
    var nextchar: string
    var optarg: Option<string>
    ghost var start: int

    constructor (argv: array<string>, posixly: bool)
      requires argv.Length > 0
      ensures Valid() && this.argv == argv && Fresh() && View() == Scan([], [], argv[1..], "")
    {
      this.argv, this.posixly, initialized, ordering := argv, posixly, false, Permute;
      firstNonopt, lastNonopt, optind, nextchar, optarg, start := 1, 1, 1, "", None, 1;
    }

    // The next call starts a scan.
    predicate Fresh()
      reads this`initialized, this`optind
    {
      optind == 0 || !initialized
    }

    ghost function Start(): int
      reads this`initialized, this`optind, this`start
    {
      if Fresh() then (if optind == 0 then 1 else optind) else start
    }

    ghost predicate Valid()
      reads this`initialized, this`ordering, this`firstNonopt, this`lastNonopt, this`optind, this`nextchar,
        this`start, argv
    {
      && argv.Length > 0 && 0 <= optind <= argv.Length
      && (!Fresh() ==>
        && 1 <= start <= Min(firstNonopt, optind) <= Min(lastNonopt, optind)
        && (ordering != Permute ==> Min(firstNonopt, optind) == Min(lastNonopt, optind))
        && (nextchar != "" ==> optind < argv.Length && IsOption(argv[optind]) && firstNonopt <= lastNonopt <= optind))
    }

    ghost function View(): Scan
      reads this`initialized, this`ordering, this`firstNonopt, this`lastNonopt, this`optind, this`nextchar,
        this`start, argv
      requires Valid()
    {
      if Fresh() then Scan([], [], argv[Start()..], "")
      else
        Laid(argv[..], start, Min(firstNonopt, optind), Min(lastNonopt, optind), optind, nextchar)
    }

    // With nothing aside, argv holds the front and then the rest.
    lemma ViewSpells()
      requires Valid() && View().back == []
      ensures argv[Start()..] == View().front + View().todo && Start() + |View().front| + |View().todo| == argv.Length
      ensures !Fresh() ==> optind == start + |View().front|
    {
    }

    method SwapBlocks(i: int, j: int, len: nat)
      requires 0 <= i && i + len <= j && j + len <= argv.Length
      modifies argv
      ensures argv[..] == Swapped(old(argv[..]), i, j, len)
    {
      hide Swapped;
      var k := 0;
      ghost var was := argv[..];
      while k < len
        invariant 0 <= k <= len
        invariant forall x :: 0 <= x < argv.Length ==> argv[x] == was[Source(i, j, k, x)]
      {
        argv[i + k], argv[j + k] := argv[j + k], argv[i + k];
        k := k + 1;
      }
      forall x | 0 <= x < argv.Length ensures argv[x] == Swapped(was, i, j, len)[x] {
        SwappedAt(was, i, j, len, x);
      }
    }

    // exchange
    method Exchange()
      requires 0 <= firstNonopt <= lastNonopt <= optind <= argv.Length
      modifies argv, this`firstNonopt, this`lastNonopt
      ensures argv[..] == old(Exchanged(argv[..], firstNonopt, lastNonopt, optind))
      ensures firstNonopt == old(firstNonopt) + (optind - old(lastNonopt)) && lastNonopt == optind
    {
      hide Exchanged, Swapped;
      var bottom, middle, top := firstNonopt, lastNonopt, optind;
      while top > middle && middle > bottom
        invariant unchanged(this) && 0 <= bottom <= middle <= top <= argv.Length
        invariant Exchanged(argv[..], bottom, middle, top) == old(Exchanged(argv[..], firstNonopt, lastNonopt, optind))
        decreases top - bottom
      {
        if top - middle > middle - bottom {
          // the bottom segment is the short one
          var len := middle - bottom;
          BottomStep(argv[..], bottom, middle, top);
          SwapBlocks(bottom, top - len, len);
          top := top - len;
        } else {
          var len := top - middle;
          TopStep(argv[..], bottom, middle, top);
          SwapBlocks(bottom, middle, len);
          bottom := bottom + len;
        }
      }
      ExchangedNone(argv[..], bottom, middle, top);
      firstNonopt := firstNonopt + (optind - lastNonopt);
      lastNonopt := optind;
    }

    // The options that follow the operands set aside change places with them.
    method CloseRanks()
      requires Valid() && !Fresh() && nextchar == "" && firstNonopt <= lastNonopt <= optind
      modifies argv, this`firstNonopt, this`lastNonopt
      ensures 1 <= start <= firstNonopt <= optind <= argv.Length
      ensures Laid(argv[..], start, firstNonopt, optind, optind, "") == old(View())
      ensures argv[..start] == old(argv[..start])
    {
      hide Exchanged, Laid;
      RanksClosed(argv[..], start, firstNonopt, lastNonopt, optind);
      ExchangedNone(argv[..], firstNonopt, lastNonopt, optind);
      if firstNonopt != lastNonopt && lastNonopt != optind {
        Exchange();
      } else if lastNonopt != optind {
        firstNonopt := optind;
      }
    }

    method SetAside()
      requires Valid() && !Fresh() && nextchar == "" && firstNonopt <= lastNonopt <= optind && ordering == Permute
      modifies argv, this`firstNonopt, this`lastNonopt, this`optind
      ensures Valid() && !Fresh() && firstNonopt <= lastNonopt == optind
      ensures View() == Aside(Permute, old(View())) && argv[..start] == old(argv[..start])
    {
      hide Aside, Laid;
      CloseRanks();
      ghost var from, first, after := optind, firstNonopt, argv[..];
      while optind < argv.Length && !IsOption(argv[optind])
        modifies this`optind
        invariant 1 <= start <= firstNonopt <= from <= optind <= argv.Length
        invariant forall i :: from <= i < optind ==> !IsOption(after[i])
      {
        optind := optind + 1;
      }
      AsideIs(after, start, first, from, optind);
      lastNonopt := optind;
      assert argv[..] == after;
    }

    // m was made from position "from".
    predicate Made(m: Move, from: int, result: Result)
      reads this
    {
      optind == from + m.took && nextchar == m.rest && optarg == m.arg && result == m.result
    }

    // A long option was found: see whether it has its argument.
    method TakeLong(longs: seq<LongOption>, i: nat, text: string, n: nat) returns (result: Result)
      requires i < |longs| && n == NameLength(text) && 0 <= optind <= argv.Length
      modifies this`optind, this`nextchar, this`optarg
      ensures Made(LongMove(longs, i, text, argv[old(optind)..], old(optarg)), old(optind), result)
    {
      nextchar := "";
      if n < |text| {
        if longs[i].hasArg != 0 {
          optarg := Some(text[n + 1..]);
        } else {
          return Wrong;
        }
      } else if longs[i].hasArg == 1 {
        if optind < argv.Length {
          optarg, optind := Some(argv[optind]), optind + 1;
        } else {
          return Missing;
        }
      }
      return Long(i);
    }

    // -W name is the same as --name.
    method DecodeNamed(t: Table) returns (result: Result)
      requires optarg == None && 0 <= optind && optind + (if nextchar == "" then 0 else 1) <= argv.Length
      modifies this`optind, this`nextchar, this`optarg
      ensures var next, from := old(nextchar), old(optind);
        Made(if next != "" then NamedMove(t, next, 1, argv[from + 1..])
          else if from == argv.Length then Move(0, "", Missing, None)
          else NamedMove(t, argv[from], 1, argv[from + 1..]), from, result)
    {
      hide Lookup, NameLength;
      if nextchar != "" {
        optarg, optind := Some(nextchar), optind + 1;
      } else if optind == argv.Length {
        return Missing;
      } else {
        optarg, optind := Some(argv[optind]), optind + 1;
      }
      nextchar := optarg.value;
      if t.longs == None {
        nextchar := "";
        return NullTable;
      }
      var m, n := FindLong(t.longs.value, nextchar);
      match m
      case Ambiguous =>
        nextchar, optind := "", optind + 1;
        result := Wrong;
      case Found(i) =>
        result := TakeLong(t.longs.value, i, nextchar, n);
      case Unknown =>
        nextchar := "";
        result := Short('W');
    }

    method DecodeShort(t: Table) returns (result: Result)
      requires 0 <= optind < argv.Length && nextchar != "" && optarg == None
      modifies this`optind, this`nextchar, this`optarg
      ensures Made(ShortMove(t, old(nextchar), argv[old(optind) + 1..]), old(optind), result)
    {
      hide From, Lookup, NameLength;
      var c := nextchar[0];
      nextchar := nextchar[1..];
      var at := From(t.shorts, c);
      if nextchar == "" {
        optind := optind + 1;
      }
      if at == "" || c == ':' {
        return Wrong;
      }
      if c == 'W' && Has(at, 1, ';') {
        result := DecodeNamed(t);
        return;
      }
      if Has(at, 1, ':') {
        if nextchar != "" {
          optarg, optind := Some(nextchar), optind + 1;
        } else if !Has(at, 2, ':') {
          if optind == argv.Length {
            return Missing;
          }
          optarg, optind := Some(argv[optind]), optind + 1;
        }
        nextchar := "";
      }
      return Short(c);
    }

    // Decode the current element.
    method DecodeElement(t: Table) returns (result: Result)
      requires 0 <= optind < argv.Length && IsOption(argv[optind]) && nextchar != "" && optarg == None
      modifies this`optind, this`nextchar, this`optarg
      ensures Made(Decode(t, argv[old(optind)], old(nextchar), argv[old(optind) + 1..]), old(optind), result)
    {
      hide Lookup, NameLength, ShortMove, KindOf;
      var e := argv[optind];
      if LongForm(t, e) {
        var m, n := FindLong(t.longs.value, nextchar);
        if m.Found? {
          optind := optind + 1;
          result := TakeLong(t.longs.value, m.index, nextchar, n);
          return;
        }
        if m.Ambiguous? || !t.longOnly || e[1] == '-' || nextchar[0] !in t.shorts {
          nextchar, optind := "", optind + 1;
          return Wrong;
        }
      }
      result := DecodeShort(t);
    }

    // The first and last fields describe elements before optind.
    ghost predicate Settled()
      reads this, argv
    {
      && Valid() && !Fresh() && nextchar == "" && firstNonopt <= lastNonopt <= optind
      && (if ordering == Permute then lastNonopt == optind else firstNonopt == lastNonopt)
    }

    // Whatever the caller did to optind, set operands aside and stop before the next option.
    method Prepare()
      requires Valid() && !Fresh() && nextchar == ""
      modifies argv, this`firstNonopt, this`lastNonopt, this`optind
      ensures Settled() && View() == Aside(ordering, old(View())) && argv[..start] == old(argv[..start])
    {
      if lastNonopt > optind {
        lastNonopt := optind;
      }
      if firstNonopt > optind {
        firstNonopt := optind;
      }
      assert View() == old(View());
      if ordering == Permute {
        SetAside();
      }
    }

    // "--" goes before the operands, and everything after it is left.
    method SkipDashes()
      requires Settled() && optind < argv.Length && argv[optind] == "--"
      modifies argv, this`firstNonopt, this`lastNonopt, this`optind
      ensures 1 <= start <= firstNonopt <= lastNonopt == optind == argv.Length && argv[..start] == old(argv[..start])
      ensures var q := old(View());
        Laid(argv[..], start, firstNonopt, lastNonopt, optind, "") == Scan(q.front + ["--"], q.back + q.todo[1..],
          [], "")
    {
      hide Exchanged, Laid;
      DashesMove(argv[..], start, firstNonopt, lastNonopt, optind);
      optind := optind + 1;
      if firstNonopt != lastNonopt && lastNonopt != optind {
        Exchange();
      } else if firstNonopt == lastNonopt {
        firstNonopt := optind;
      }
      lastNonopt, optind := argv.Length, argv.Length;
    }

    // The scan is over: what was not passed over is what the caller will find at optind.
    static function Ended(p: Scan): Scan {
      Scan(p.front, [], p.back + p.todo, "")
    }

    // Leave optind at the first of the elements set aside.
    method Finish()
      requires !Fresh() && nextchar == "" && 1 <= start <= firstNonopt <= lastNonopt <= optind == argv.Length
      requires lastNonopt == argv.Length || firstNonopt == lastNonopt
      modifies this`optind
      ensures Valid() && !Fresh() && View() == Ended(old(Laid(argv[..], start, firstNonopt, lastNonopt, optind, "")))
    {
      if firstNonopt != lastNonopt {
        optind := firstNonopt;
      }
    }

    // An operand that is not set aside: stop at it, or hand it out.
    method TakeOperand() returns (result: Result)
      requires Settled() && ordering != Permute && optind < argv.Length && !IsOption(argv[optind]) && optarg == None
      modifies this`optind, this`optarg
      ensures Valid() && !Fresh()
      ensures var q := old(View());
        if ordering == RequireOrder then result == End && optarg == None && View() == Ended(q)
        else (
          result == Operand && optarg == Some(q.todo[0])
          && View() == Scan(q.front + [q.todo[0]], q.back, q.todo[1..], ""))
    {
      if ordering == RequireOrder {
        return End;
      }
      optarg, optind := Some(argv[optind]), optind + 1;
      return Operand;
    }

    // What the part of a call that moves on to the next element does from q.
    ghost predicate Advanced(q: Scan, t: Table, result: Option<Result>)
      reads this, argv
    {
      && Valid() && !Fresh()
      && if q.todo != [] && q.todo[0] != "--" && IsOption(q.todo[0]) then
        result == None && View() == q.(next := TextOf(t, q.todo[0])) && optarg == None
          && firstNonopt <= lastNonopt <= optind
      else if q.todo != [] && q.todo[0] != "--" && ordering != RequireOrder then
        result == Some(Operand) && optarg == Some(q.todo[0])
          && View() == Scan(q.front + [q.todo[0]], q.back, q.todo[1..], "")
      else
        result == Some(End) && optarg == None
        && View() == Ended(if q.todo != [] && q.todo[0] == "--" then
          Scan(q.front + ["--"], q.back + q.todo[1..], [], "") else q)
    }

    method Advance(t: Table) returns (result: Option<Result>)
      requires Valid() && !Fresh() && nextchar == "" && optarg == None
      modifies argv, this`firstNonopt, this`lastNonopt, this`optind, this`nextchar, this`optarg
      ensures Advanced(Aside(ordering, old(View())), t, result) && argv[..start] == old(argv[..start])
    {
      hide Laid, Aside, Operands, TextOf;
      NextIs();
      AsideStops(ordering, View());
      Prepare();
      ghost var q := View();
      TodoIs();
      if optind != argv.Length && argv[optind] == "--" {
        SkipDashes();
      }
      if optind == argv.Length {
        Finish();
        return Some(End);
      }
      if !IsOption(argv[optind]) {
        var r := TakeOperand();
        return Some(r);
      }
      nextchar := TextOf(t, argv[optind]);
      assert View() == q.(next := nextchar) by { Renext(argv[..], start, firstNonopt, lastNonopt, optind, nextchar); }
      return None;
    }

    // Decode on, wherever that leaves optind.
    method DecodeOn(t: Table) returns (result: Result)
      requires Valid() && !Fresh() && nextchar != "" && optarg == None
      modifies this`optind, this`nextchar, this`optarg
      ensures Ready(old(View()))
      ensures var c := DecodeCall(t, old(View()));
        result == c.result != End && optarg == c.arg
        && if c.astray then result == NullTable || optind == argv.Length + 1
        else Valid() && !Fresh() && View() == c.scan
    {
      hide Decode, DecodeCall;
      LaidCall(t, argv[..], start, firstNonopt, lastNonopt, optind, nextchar);
      assert argv[..][optind + 1..] == argv[optind + 1..];
      result := DecodeElement(t);
    }

    method Initialize(t: Table) returns (u: Table)
      requires Valid() && Fresh()
      modifies this
      ensures Valid() && !Fresh() && nextchar == "" && optarg == old(optarg) && View() == old(View())
        && start == old(Start())
      ensures u == old(TableFor(t)) && ordering == old(OrderingFor(t))
      ensures ordering == if t.shorts != "" && t.shorts[0] == '-' then ReturnInOrder
        else if (t.shorts != "" && t.shorts[0] == '+') || posixly then RequireOrder else Permute
    {
      if optind == 0 {
        optind := 1;
      }
      firstNonopt, lastNonopt, start := optind, optind, optind;
      nextchar, initialized := "", true;
      ordering := Chosen(t.shorts, posixly);
      u := Bare(t);
    }

    function OrderingFor(t: Table): Ordering
      reads this
    {
      if Fresh() then Chosen(t.shorts, posixly) else ordering
    }

    function TableFor(t: Table): Table
      reads this
    {
      if Fresh() then Bare(t) else t
    }

    // _getopt_internal
    method Next(t: Table) returns (result: Result)
      requires Valid()
      modifies this, argv
      ensures Ready(old(View())) && argv[..old(Start())] == old(argv[..Start()])
      ensures var c := Call(old(OrderingFor(t)), old(TableFor(t)), old(View()));
        && result == c.result && optarg == c.arg && ordering == old(OrderingFor(t))
        && if c.astray then result == NullTable || optind == argv.Length + 1
        else Valid() && !Fresh() && Start() == old(Start()) && View() == if result == End then Ended(c.scan) else c.scan
    {
      hide KindOf, DecodeCall, TextOf, Getopt.Valid, Getopt.View, Aside;
      optarg := None;
      var u := t;
      if Fresh() {
        u := Initialize(t);
      }
      NextIs();
      ghost var p := View();
      assert Ready(p) by { Readiness(); }
      if nextchar == "" {
        var r := Advance(u);
        if r.Some? {
          return r.value;
        }
        NextIs();
      }
      result := DecodeOn(u);
    }

    // What the first call of a scan works with, written out
    lemma FreshStart(t: Table)
      requires Valid() && (optind == 0 || !initialized)
      ensures Start() == (if optind == 0 then 1 else optind) && View() == Scan([], [], argv[..][Start()..], "")
      ensures var sign := if t.shorts != "" && (t.shorts[0] == '-' || t.shorts[0] == '+') then t.shorts[..1] else "";
        && TableFor(t) == Bare(t) == t.(shorts := t.shorts[|sign|..])
        && OrderingFor(t) == if sign == "-" then ReturnInOrder else if sign == "+" || posixly then RequireOrder
          else Permute
    {
    }

    lemma Readiness()
      requires Valid()
      ensures Ready(View()) && 0 < Start() <= argv.Length && optind <= argv.Length
    {
    }

    lemma NextIs()
      requires Valid() && !Fresh()
      ensures View().next == nextchar
    {
    }

    lemma TodoIs()
      requires Valid() && !Fresh() && firstNonopt <= lastNonopt <= optind
      ensures View() == Laid(argv[..], start, firstNonopt, lastNonopt, optind, nextchar)
      ensures View().todo == argv[optind..]
    {
    }

    // Call until the end. The answer tells whether no call went astray.
    method ReadAll(t: Table) returns (safe: bool)
      requires Valid()
      modifies this, argv
      ensures Ready(old(View())) && argv[..old(Start())] == old(argv[..Start()])
      ensures var p, ordering := old(View()), old(OrderingFor(t));
        && safe == Safe(ordering, old(TableFor(t)), t, p.todo, p.next)
        && (safe ==> (
          var front, back := FrontOf(ordering, old(TableFor(t)), t, p), BackOf(ordering, old(TableFor(t)), t, p);
          Valid() && !Fresh() && argv[old(Start())..] == front + back && optind == old(Start()) + |front|))
    {
      hide Safe, Marks, Select, FrontOf, BackOf, Call, KindOf, Getopt.Valid, Getopt.View;
      ghost var from, ordering, now := Start(), OrderingFor(t), TableFor(t);
      ghost var p := View();
      Readiness();
      ghost var q, u := p, now;
      while true
        invariant Valid() && 0 < Start() == from <= argv.Length && OrderingFor(t) == ordering && TableFor(t) == u
        invariant argv[..from] == old(argv[..Start()])
        invariant q == View() && Ready(q)
        invariant FrontOf(ordering, u, t, q) == FrontOf(ordering, now, t, p)
        invariant BackOf(ordering, u, t, q) == BackOf(ordering, now, t, p)
        invariant Safe(ordering, u, t, q.todo, q.next) == Safe(ordering, now, t, p.todo, p.next)
        decreases |q.todo|, Chars(q)
      {
        CallKeeps(ordering, u, t, q);
        var result := Next(t);
        if result == NullTable || optind > argv.Length {
          if !Call(ordering, u, q).astray {
            Readiness();
            NullIsAstray(ordering, u, q);
          }
          return false;
        }
        if result == End {
          ViewSpells();
          return true;
        }
        CallNears(ordering, u, q);
        q, u := View(), t;
      }
    }

    // As every program does
    method Run(t: Table) returns (safe: bool)
      requires Valid()
      modifies this, argv
      ensures Ready(old(View())) && argv[..old(Start())] == old(argv[..Start()])
      ensures var p, ordering := old(View()), old(OrderingFor(t));
        && safe == Safe(ordering, old(TableFor(t)), t, p.todo, p.next)
        && (safe ==> (
          var front, back := FrontOf(ordering, old(TableFor(t)), t, p), BackOf(ordering, old(TableFor(t)), t, p);
          Valid() && !Fresh() && argv[old(Start())..] == front + back && optind == old(Start()) + |front|))
      ensures var p, ordering := old(View()), old(OrderingFor(t));
        AllClear(ordering, old(TableFor(t)), t, p.todo, p.next) ==>
          var marks := DocumentedMarks(ordering, Bare(t), p.todo, p.next);
          var front, back := p.front + Select(p.todo, marks, true), p.back + Select(p.todo, marks, false);
          safe && argv[old(Start())..] == front + back && optind == old(Start()) + |front|
      // a fresh scan, with the ordering and the table it uses written out
      ensures old(optind == 0 || !initialized) ==>
        var from := if old(optind) == 0 then 1 else old(optind);
        var sign := if t.shorts != "" && (t.shorts[0] == '-' || t.shorts[0] == '+') then t.shorts[..1] else "";
        var bare := t.(shorts := t.shorts[|sign|..]);
        var ordering := if sign == "-" then ReturnInOrder else if sign == "+" || posixly then RequireOrder else Permute;
        var todo := old(argv[..])[from..];
        AllClear(ordering, bare, t, todo, "") ==>
          var marks := DocumentedMarks(ordering, bare, todo, "");
          var front, back := Select(todo, marks, true), Select(todo, marks, false);
          safe && argv[..] == old(argv[..])[..from] + front + back && optind == from + |front|
    {
      hide Safe, AllClear, Marks, DocumentedMarks, Select, FrontOf, BackOf, KindOf, Getopt.Valid, Getopt.View;
      ghost var ordering, now, p := OrderingFor(t), TableFor(t), View();
      Readiness();
      if Fresh() {
        FreshStart(t);
      }
      if AllClear(ordering, now, t, p.todo, p.next) {
        EndsAsDocumented(ordering, now, t, p);
      }
      safe := ReadAll(t);
    }
  }

  // ---- what it means for argv ----

  // Unless operands are permuted, argv stays as it is.
  lemma {:induction false} OthersKeepArgv(ordering: Ordering, now: Table, later: Table, todo: seq<string>, next: string)
    requires ordering != Permute && (next != "" ==> todo != [] && IsOption(todo[0]))
    ensures var marks := Marks(ordering, now, later, todo, next);
      Select(todo, marks, true) + Select(todo, marks, false) == todo
    decreases |todo|, next == ""
  {
    hide Taken, Select;
    if todo == [] {
      SelectAll(todo, true);
    } else if next != "" {
      var k := Taken(now, later, todo[0], next, todo[1..]);
      if k > |todo| {
        SelectAll(todo, true);
      } else {
        TailKeepsArgv(ordering, later, todo, k);
      }
    } else if todo[0] == "--" {
      assert All(1, true) == [true];
      SelectLed(todo, 1, All(|todo| - 1, false), true, true);
      SelectLed(todo, 1, All(|todo| - 1, false), true, false);
      SelectAll(todo[1..], false);
    } else if IsOption(todo[0]) {
      OthersKeepArgv(ordering, now, later, todo, TextOf(now, todo[0]));
    } else if ordering == RequireOrder {
      SelectAll(todo, false);
    } else {
      assert All(1, true) == [true];
      TailKeepsArgv(ordering, later, todo, 1);
    }
  }

  lemma {:induction false} TailKeepsArgv(ordering: Ordering, t: Table, todo: seq<string>, k: nat)
    requires ordering != Permute && 0 < k <= |todo|
    ensures var marks := All(k, true) + Marks(ordering, t, t, todo[k..], "");
      Select(todo, marks, true) + Select(todo, marks, false) == todo
    decreases |todo|, false, 0
  {
    hide Select, Marks;
    var marks := Marks(ordering, t, t, todo[k..], "");
    OthersKeepArgv(ordering, t, t, todo[k..], "");
    SelectLed(todo, k, marks, true, true);
    SelectLed(todo, k, marks, true, false);
  }

  // How many elements are passed over from element j, when the scan comes to it: one, or what its option takes.
  // Up to the first option the first call's table holds.
  function Width(now: Table, later: Table, todo: seq<string>, next: string, j: nat): (w: nat)
    requires j < |todo|
    ensures w > 0
  {
    var t := if j == Operands(todo) then now else later;
    if !IsOption(todo[j]) then 1
    else if j == 0 && next != "" then Taken(t, later, todo[0], next, todo[1..])
    else if todo[j] == "--" then 1
    else Taken(t, later, todo[j], TextOf(t, todo[j]), todo[j + 1..])
  }

  predicate EndsAtOnce(todo: seq<string>, next: string) {
    todo != [] && todo[0] == "--" && next == ""
  }

  // The scan comes to element j, rather than passing over it as an argument or ending before it.
  predicate ComesTo(now: Table, later: Table, todo: seq<string>, next: string, j: nat)
    requires j < |todo|
    decreases |todo|
  {
    var w := Width(now, later, todo, next, 0);
    j == 0 || (!EndsAtOnce(todo, next) && w <= j
      && ComesTo(if IsOption(todo[0]) then later else now, later, todo[w..], "", j - w))
  }

  // The scan comes to the option element j, and element i is j or an argument of it.
  predicate BelongsTo(now: Table, later: Table, todo: seq<string>, next: string, i: nat, j: nat)
    requires i < |todo|
  {
    j <= i && IsOption(todo[j]) && ComesTo(now, later, todo, next, j) && i < j + Width(now, later, todo, next, j)
  }

  predicate Belongs(now: Table, later: Table, todo: seq<string>, next: string, i: nat)
    requires i < |todo|
  {
    exists j :: 0 <= j <= i && BelongsTo(now, later, todo, next, i, j)
  }

  // Coming from element w on, the widths are the same.
  lemma WidthLater(now: Table, later: Table, todo: seq<string>, next: string, j: nat)
    requires todo != [] && Width(now, later, todo, next, 0) <= j < |todo|
    ensures var w := Width(now, later, todo, next, 0);
      Width(if IsOption(todo[0]) then later else now, later, todo[w..], "", j - w) == Width(now, later, todo, next, j)
  {
    hide Taken, TextOf;
    var w := Width(now, later, todo, next, 0);
    assert todo[w..][j - w + 1..] == todo[j + 1..] && todo[w..][0..] == todo[w..];
  }

  lemma BelongsLater(now: Table, later: Table, todo: seq<string>, next: string, i: nat)
    requires todo != [] && Width(now, later, todo, next, 0) <= i < |todo| && !EndsAtOnce(todo, next)
    ensures var w := Width(now, later, todo, next, 0);
      Belongs(now, later, todo, next, i)
      <==> Belongs(if IsOption(todo[0]) then later else now, later, todo[w..], "", i - w)
  {
    hide Taken, TextOf, Width;
    var w := Width(now, later, todo, next, 0);
    var t := if IsOption(todo[0]) then later else now;
    if Belongs(now, later, todo, next, i) {
      var j :| 0 <= j <= i && BelongsTo(now, later, todo, next, i, j);
      WidthLater(now, later, todo, next, j);
      assert BelongsTo(t, later, todo[w..], "", i - w, j - w);
    }
    if Belongs(t, later, todo[w..], "", i - w) {
      var j :| 0 <= j <= i - w && BelongsTo(t, later, todo[w..], "", i - w, j);
      WidthLater(now, later, todo, next, j + w);
      assert BelongsTo(now, later, todo, next, i, j + w);
    }
  }

  // Starting on the first option is not a step.
  lemma BelongsStarted(now: Table, later: Table, todo: seq<string>, i: nat)
    requires i < |todo| && IsOption(todo[0]) && todo[0] != "--"
    ensures Belongs(now, later, todo, TextOf(now, todo[0]), i) <==> Belongs(now, later, todo, "", i)
  {
    hide Taken, TextOf;
    var next := TextOf(now, todo[0]);
    forall j: nat | j <= i ensures BelongsTo(now, later, todo, next, i, j) == BelongsTo(now, later, todo, "", i, j) {
      assert Width(now, later, todo, next, j) == Width(now, later, todo, "", j);
      assert ComesTo(now, later, todo, next, j) == ComesTo(now, later, todo, "", j);
    }
  }

  // The elements that go to the front are exactly the options that the scan comes to and what they take.
  lemma {:induction false} MarksAre(now: Table, later: Table, todo: seq<string>, next: string, i: nat)
    requires i < |todo| && (next != "" ==> IsOption(todo[0]))
    ensures Marks(Permute, now, later, todo, next)[i] <==> Belongs(now, later, todo, next, i)
    decreases |todo|, next == ""
  {
    hide Taken, TextOf;
    var w := Width(now, later, todo, next, 0);
    if EndsAtOnce(todo, next) {
      assert i == 0 ==> BelongsTo(now, later, todo, next, 0, 0);
    } else if IsOption(todo[0]) && next == "" {
      MarksAre(now, later, todo, TextOf(now, todo[0]), i);
      BelongsStarted(now, later, todo, i);
    } else if i < w {
      assert IsOption(todo[0]) ==> BelongsTo(now, later, todo, next, i, 0);
    } else {
      BelongsLater(now, later, todo, next, i);
      MarksAre(if IsOption(todo[0]) then later else now, later, todo[w..], "", i - w);
    }
  }

  // Element i is passed over only as an option, or right behind an element that is; it is set aside only as
  // an operand, or after a "--".
  ghost predicate Sorted(todo: seq<string>, marks: seq<bool>, i: nat)
    requires |todo| == |marks| && i < |todo|
  {
    if marks[i] then IsOption(todo[i]) || (i > 0 && marks[i - 1])
    else !IsOption(todo[i]) || (exists j :: 0 <= j < i && todo[j] == "--" && marks[j])
  }

  lemma {:induction false} MarksSort(now: Table, later: Table, todo: seq<string>, next: string, i: nat)
    requires i < |todo| && (next != "" ==> IsOption(todo[0]))
    ensures Sorted(todo, Marks(Permute, now, later, todo, next), i)
    decreases |todo|, next == ""
  {
    hide Taken;
    var marks := Marks(Permute, now, later, todo, next);
    if next != "" {
      var k := Taken(now, later, todo[0], next, todo[1..]);
      if k <= i {
        SortedLater(todo, k, All(k, true), Marks(Permute, later, later, todo[k..], ""), i, later);
      }
    } else if todo[0] == "--" {
      assert i > 0 ==> todo[0] == "--" && marks[0];
    } else if IsOption(todo[0]) {
      MarksSort(now, later, todo, TextOf(now, todo[0]), i);
    } else if i > 0 {
      MarksSort(now, later, todo[1..], "", i - 1);
      SortedShift(todo, 1, [false], Marks(Permute, now, later, todo[1..], ""), i);
    }
  }

  lemma SortedShift(todo: seq<string>, k: nat, lead: seq<bool>, marks: seq<bool>, i: nat)
    requires |lead| == k <= i < |todo| && |marks| == |todo| - k && Sorted(todo[k..], marks, i - k)
    ensures Sorted(todo, lead + marks, i)
  {
    var all := lead + marks;
    if !all[i] && IsOption(todo[i]) {
      var j :| 0 <= j < i - k && todo[k..][j] == "--" && marks[j];
      assert todo[j + k] == "--" && all[j + k];
    }
  }

  lemma {:induction false} SortedLater(todo: seq<string>, k: nat, lead: seq<bool>, marks: seq<bool>, i: nat, t: Table)
    requires 0 < |lead| == k <= i < |todo| && marks == Marks(Permute, t, t, todo[k..], "")
    ensures Sorted(todo, lead + marks, i)
    decreases |todo|, false, 0
  {
    MarksSort(t, t, todo[k..], "", i - k);
    SortedShift(todo, k, lead, marks, i);
  }

  // Without a "W;" among the short options, no call goes astray.
  lemma {:induction false} StaysInBounds(
    ordering: Ordering, now: Table, later: Table, todo: seq<string>, next: string)
    requires KindOf(now.shorts, 'W') != LongName && KindOf(later.shorts, 'W') != LongName
    requires next != "" ==> todo != [] && IsOption(todo[0])
    ensures Safe(ordering, now, later, todo, next)
    decreases |todo|, next == ""
  {
    hide KindOf, Taken, SafeElement;
    if todo != [] {
      if next != "" {
        TakesWhatIsThere(now, later, todo[0], next, todo[1..]);
        StaysInBounds(ordering, later, later, todo[Taken(now, later, todo[0], next, todo[1..])..], "");
      } else if todo[0] != "--" && IsOption(todo[0]) {
        StaysInBounds(ordering, now, later, todo, TextOf(now, todo[0]));
      } else if todo[0] != "--" {
        StaysInBounds(ordering, now, later, todo[1..], "");
        StaysInBounds(ordering, later, later, todo[1..], "");
      }
    }
  }

  lemma {:induction false} TakesWhatIsThere(now: Table, later: Table, e: string, next: string, more: seq<string>)
    requires KindOf(now.shorts, 'W') != LongName && KindOf(later.shorts, 'W') != LongName
    requires IsOption(e) && next != ""
    ensures SafeElement(now, later, e, next, more)
    decreases |next|
  {
    hide KindOf, Decode;
    DecodeOverruns(now, e, next, more);
    DecodeAdvances(now, e, next, more);
    OnlyW(now.shorts, next[0]);
    var m := Decode(now, e, next, more);
    if m.rest != "" {
      TakesWhatIsThere(later, later, e, m.rest, more);
    }
  }

  const TWO_LONGS := [LongOption("add", 0), LongOption("address", 0)]

  lemma AdIsAmbiguous()
    ensures NameLength("ad") == 2 && Lookup(TWO_LONGS, "ad"[..2]) == Ambiguous && KindOf("W;", 'W') == LongName
  {
    assert TWO_LONGS[..1] == [LongOption("add", 0)] && TWO_LONGS[..0] == [];
  }

  // With "-W ad", where "ad" could be either of two long options, one call leaves optind past the end of argv.
  lemma AmbiguousNameOverruns()
    ensures var t := Table("W;", Some(TWO_LONGS), false);
      !Safe(Permute, t, t, ["-W", "ad"], "")
  {
    hide Lookup, NameLength, KindOf;
    AdIsAmbiguous();
    var t := Table("W;", Some(TWO_LONGS), false);
    assert Decode(t, "-W", "W", ["ad"]).took == 3;
  }

  // With "-Wad file", the operand goes to the front although it is nobody's argument.
  lemma AmbiguousNameTakesOperand()
    ensures var t := Table("W;", Some(TWO_LONGS), false);
      && Marks(Permute, t, t, ["-Wad", "file"], "") == [true, true]
      && DocumentedMarks(Permute, t, ["-Wad", "file"], "") == [true, false]
  {
    hide Lookup, NameLength, KindOf;
    AdIsAmbiguous();
    var t := Table("W;", Some(TWO_LONGS), false);
    assert "Wad"[1..] == "ad";
    assert Decode(t, "-Wad", "Wad", ["file"]).took == 2 && Documented(t, "-Wad", "Wad", ["file"]) == 1;
    assert ["-Wad", "file"][1..] == ["file"] && !IsOption("file");
  }

  lemma OnlyWIsThere()
    ensures KindOf("W;", 'a') == Invalid
  {
  }

  lemma AIsClear()
    ensures var t := Table("W;", None, false); Clear(t, t, "-a", "a", []) && Documented(t, "-a", "a", []) == 1
  {
    hide KindOf;
    OnlyWIsThere();
  }

  lemma NoNameIsClear()
    ensures var t := Table("W;", None, false); AllClear(Permute, t, t, ["-a"], "")
  {
    hide KindOf, Clear, Documented;
    var t, todo := Table("W;", None, false), ["-a"];
    AIsClear();
    assert "-a"[1..] == "a" && todo[1..] == [] && Bare(t) == t;
    assert AllClear(Permute, t, t, todo, "a");
  }

  lemma NameIsNotFound()
    ensures var t := Table("W;", None, false); !Safe(Permute, t, t, ["-Wad"], "")
  {
    hide KindOf, Taken;
    var t, todo := Table("W;", None, false), ["-Wad"];
    AdIsAmbiguous();
    assert "-Wad"[1..] == "Wad" && todo[1..] == [];
    assert Decode(t, "-Wad", "Wad", []).result == NullTable;
    assert !SafeElement(t, t, "-Wad", "Wad", []);
    assert !Safe(Permute, t, t, todo, "Wad");
  }

  // Without long options, "-Wad" is looked up through the null pointer. The same table does no harm where
  // there is no -W.
  lemma NameNeedsTable()
    ensures var t := Table("W;", None, false);
      !Safe(Permute, t, t, ["-Wad"], "") && AllClear(Permute, t, t, ["-a"], "")
  {
    hide Safe, AllClear;
    NoNameIsClear();
    NameIsNotFound();
  }

  // The options of "+:a" and "-:a", with and without the sign.
  lemma SignedKinds()
    ensures KindOf(":a", 'a') == KindOf("+:a", 'a') == KindOf("-:a", 'a') == Plain
    ensures KindOf("+:a", '+') == KindOf("-:a", '-') == Required && KindOf(":a", '+') == KindOf(":a", '-') == Invalid
    ensures Stripped("+:a") == Stripped("-:a") == ":a"
  {
    assert ":a"[1..] == "a" && "a"[1..] == "" && "+:a"[1..] == ":a" && "-:a"[1..] == ":a";
  }

  // With "-a+ file" and the option characters "+:a", which ask for quiet errors and for stopping at the first
  // operand, the operand is taken as the argument of '+'.
  lemma SignTakesOperand()
    ensures var t := Table("+:a", None, false);
      var todo := ["-a+", "file"];
      && Safe(RequireOrder, Bare(t), t, todo, "") && !SignIsHarmless(t)
      && Marks(RequireOrder, Bare(t), t, todo, "") == [true, true]
      && DocumentedMarks(RequireOrder, Bare(t), todo, "") == [true, false]
      && !AllClear(RequireOrder, Bare(t), t, todo, "")
  {
    hide KindOf;
    SignedKinds();
    var t := Table("+:a", None, false);
    assert "-a+"[1..] == "a+" && "a+"[1..] == "+" && "+"[1..] == "";
    assert Taken(t, t, "-a+", "+", ["file"]) == 2;
    assert Taken(Bare(t), t, "-a+", "a+", ["file"]) == 2 && SafeElement(Bare(t), t, "-a+", "a+", ["file"]);
    assert Documented(Bare(t), "-a+", "+", ["file"]) == 1;
    assert Documented(Bare(t), "-a+", "a+", ["file"]) == 1;
    assert ["-a+", "file"][1..] == ["file"] && !IsOption("file");
    if AllClear(RequireOrder, Bare(t), t, ["-a+", "file"], "") {
      MarksAsDocumented(RequireOrder, Bare(t), t, ["-a+", "file"], "");
    }
  }

  // With "-a- -- file" and the option characters "-:a", the "--" is taken as the argument of '-'.
  lemma SignTakesDashes()
    ensures var t := Table("-:a", None, false);
      var todo := ["-a-", "--", "file"];
      && Safe(ReturnInOrder, Bare(t), t, todo, "") && !SignIsHarmless(t)
      && Marks(ReturnInOrder, Bare(t), t, todo, "") == [true, true, true]
      && DocumentedMarks(ReturnInOrder, Bare(t), todo, "") == [true, true, false]
  {
    hide KindOf;
    SignedKinds();
    var t := Table("-:a", None, false);
    var more := ["--", "file"];
    assert "-a-"[1..] == "a-" && "a-"[1..] == "-" && "-"[1..] == "";
    assert Taken(t, t, "-a-", "-", more) == 2;
    assert Taken(Bare(t), t, "-a-", "a-", more) == 2 && SafeElement(Bare(t), t, "-a-", "a-", more);
    assert Documented(Bare(t), "-a-", "-", more) == 1;
    assert Documented(Bare(t), "-a-", "a-", more) == 1;
    assert ["-a-", "--", "file"][1..] == more && ["-a-", "--", "file"][2..] == ["file"] && !IsOption("file");
    assert ["file"][1..] == [];
  }

  const BAR := [LongOption("bar", 1)]

  lemma BarIsFound(name: string)
    requires name != "bar"
    ensures Lookup(BAR, name) == if name <= "bar" then Found(0) else Unknown
  {
    var longs := BAR;
    assert longs[..0] == [] && |longs| == 1 && longs[0].name == "bar";
    assert Candidates(longs[..0], name, true) == Candidates(longs[..0], name, false) == [];
  }

  lemma BarIsBegun()
    ensures NameLength("ab") == 2 && Lookup(BAR, "ab"[..2]) == Unknown
    ensures NameLength("b") == 1 && Lookup(BAR, "b"[..1]) == Found(0)
  {
    hide Lookup;
    assert "ab"[1..] == "b" && "b"[1..] == "" && "b"[..1] == "b" && "ab"[..2] == "ab";
    BarIsFound("ab");
    BarIsFound("b");
  }

  lemma PlainKinds()
    ensures KindOf("ab", 'a') == KindOf("ab", 'b') == Plain
  {
    assert "ab"[1..] == "b" && "b"[1..] == "";
  }

  // For getopt_long_only, with "-ab file", the option characters a and b, and a long option "bar": "-ab" is no
  // long option and a is a short one, but then b is looked up as an abbreviation of "bar", and takes the operand.
  lemma LongOnlyTakesOperand()
    ensures var t := Table("ab", Some(BAR), true);
      var todo := ["-ab", "file"];
      && Safe(Permute, t, t, todo, "") && Bare(t) == t
      && Marks(Permute, t, t, todo, "") == [true, true]
      && DocumentedMarks(Permute, t, todo, "") == [true, false]
  {
    hide KindOf, Lookup, NameLength;
    BarIsBegun();
    PlainKinds();
    var t, more := Table("ab", Some(BAR), true), ["file"];
    assert "-ab"[1..] == "ab" && "ab"[1..] == "b" && "b"[1..] == "";
    assert Decode(t, "-ab", "b", more).took == 2 && Decode(t, "-ab", "b", more).rest == "";
    assert Decode(t, "-ab", "ab", more).rest == "b";
    assert Taken(t, t, "-ab", "b", more) == 2 && SafeElement(t, t, "-ab", "b", more);
    assert Taken(t, t, "-ab", "ab", more) == 2 && SafeElement(t, t, "-ab", "ab", more);
    assert Documented(t, "-ab", "b", more) == 1;
    assert Documented(t, "-ab", "ab", more) == 1;
    assert ["-ab", "file"][1..] == more && !IsOption("file") && ["file"][1..] == [];
  }
}
