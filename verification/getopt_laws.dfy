// What the calls of getopt do with an element, said in terms of the strings alone.
module GetoptLaws {
  import opened Wrappers
  import opened Getopts

  // ---- elements ----

  // Of two characters or more, and beginning with '-': any other element is an operand, a single '-' too.
  lemma OptionsAre(t: Table, e: string)
    ensures Marks(Permute, t, t, [e], "") == [|e| >= 2 && e[0] == '-']
  {
    hide Decode;
    if |e| >= 2 && e[0] == '-' && e != "--" {
      var next := TextOf(t, e);
      assert Marks(Permute, t, t, [e], "") == Marks(Permute, t, t, [e], next);
      AllIs(1);
    } else if e == "--" {
      AllIs(0);
    }
  }

  lemma AllIs(n: nat)
    ensures All(1, true) == [true] && All(0, false) == []
  {
  }

  // ---- option characters ----

  lemma {:induction false} FromIs(s: string, c: char, i: nat)
    requires i < |s| && s[i] == c && forall k :: 0 <= k < i ==> s[k] != c
    ensures From(s, c) == s[i..]
  {
    if i > 0 {
      FromIs(s[1..], c, i - 1);
      assert s[1..][i - 1..] == s[i..];
    }
  }

  lemma {:induction false} FromNothing(s: string, c: char)
    requires c !in s
    ensures From(s, c) == ""
  {
    if s != "" {
      FromNothing(s[1..], c);
    }
  }

  // The number of colons that follow position i, up to two
  function Colons(s: string, i: nat): nat {
    if i + 1 >= |s| || s[i + 1] != ':' then 0 else if i + 2 >= |s| || s[i + 2] != ':' then 1 else 2
  }

  // An element that is read as short options: which option the next character is, and what it takes.
  lemma ShortSays(t: Table, e: string, next: string, more: seq<string>, i: nat)
    requires IsOption(e) && next != "" && t.longs == None
    requires i < |t.shorts| && t.shorts[i] == next[0] && forall k :: 0 <= k < i ==> t.shorts[k] != next[0]
    requires next[0] != ':' && !(next[0] == 'W' && i + 1 < |t.shorts| && t.shorts[i + 1] == ';')
    ensures var m := Decode(t, e, next, more); var c, rest, n := next[0], next[1..], Colons(t.shorts, i);
      && (n == 0 ==> m == Move(if rest == "" then 1 else 0, rest, Short(c), None))
      && (n == 2 ==> m == Move(1, "", Short(c), if rest == "" then None else Some(rest)))
      && (n == 1 ==> m == if rest != "" then Move(1, "", Short(c), Some(rest))
        else if more == [] then Move(1, "", Missing, None) else Move(2, "", Short(c), Some(more[0])))
  {
    FromIs(t.shorts, next[0], i);
  }

  // Any other character is an error, and is passed over.
  lemma OtherSays(t: Table, e: string, next: string, more: seq<string>)
    requires IsOption(e) && next != "" && t.longs == None && (next[0] !in t.shorts || next[0] == ':')
    ensures Decode(t, e, next, more) == Move(if |next| == 1 then 1 else 0, next[1..], Wrong, None)
  {
    if next[0] !in t.shorts {
      FromNothing(t.shorts, next[0]);
    }
  }

  // ---- names of long options ----

  predicate Increasing(r: seq<nat>) {
    forall k: nat, l: nat :: k < l < |r| ==> r[k] < r[l]
  }

  lemma {:induction false} CandidatesAre(longs: seq<LongOption>, name: string, inFull: bool)
    ensures forall i :: i in Candidates(longs, name, inFull) <==>
      0 <= i < |longs| && (if inFull then longs[i].name == name else name <= longs[i].name)
    ensures Increasing(Candidates(longs, name, inFull))
  {
    if longs != [] {
      var n := |longs| - 1;
      CandidatesAre(longs[..n], name, inFull);
      var p: seq<nat> := Candidates(longs[..n], name, inFull);
      assert Increasing(p + [n]);
    }
  }

  // The first entry of that very name, or else the only entry whose name begins with it.
  lemma LookupSays(longs: seq<LongOption>, name: string, i: nat)
    requires i < |longs|
    ensures Lookup(longs, name) == Found(i) <==> (
      if exists k :: 0 <= k < |longs| && longs[k].name == name then
        longs[i].name == name && forall k :: 0 <= k < i ==> longs[k].name != name
      else
        name <= longs[i].name && forall k :: 0 <= k < |longs| && name <= longs[k].name ==> k == i)
  {
    hide Candidates;
    CandidatesAre(longs, name, true);
    CandidatesAre(longs, name, false);
    var full, begun := Candidates(longs, name, true), Candidates(longs, name, false);
    if full != [] {
      assert full[0] in full;
    }
    if begun != [] {
      assert begun[0] in begun;
      if |begun| > 1 {
        assert begun[1] in begun && begun[0] < begun[1];
      }
    }
  }

  // Without such an entry, the name is unknown or begins several.
  lemma NotFoundSays(longs: seq<LongOption>, name: string)
    ensures Lookup(longs, name) == Unknown <==> forall k :: 0 <= k < |longs| ==> !(name <= longs[k].name)
    ensures Lookup(longs, name) == Ambiguous <==>
      && (forall k :: 0 <= k < |longs| ==> longs[k].name != name)
      && exists k, l :: 0 <= k < l < |longs| && name <= longs[k].name && name <= longs[l].name
  {
    hide Candidates;
    CandidatesAre(longs, name, true);
    CandidatesAre(longs, name, false);
    var full, begun := Candidates(longs, name, true), Candidates(longs, name, false);
    if full != [] {
      assert full[0] in full;
    }
    if |begun| > 1 {
      assert begun[0] in begun && begun[1] in begun;
      assert begun[0] < begun[1];
    }
    if begun != [] {
      assert begun[0] in begun;
    }
    if k, l :| 0 <= k < l < |longs| && name <= longs[k].name && name <= longs[l].name {
      assert k in begun && l in begun;
    }
  }

  // ---- long options ----

  lemma {:induction false} NameEnds(name: string, rest: string)
    requires '=' !in name && (rest == "" || rest[0] == '=')
    ensures NameLength(name + rest) == |name| && (name + rest)[..|name|] == name
  {
    if name == "" {
      assert name + rest == rest;
    } else {
      assert (name + rest)[1..] == name[1..] + rest;
      NameEnds(name[1..], rest);
    }
  }

  // What a long option found as entry i takes: text behind '=', or the next element, or nothing.
  function LongSaid(longs: seq<LongOption>, i: nat, given: Option<string>, more: seq<string>): Move
    requires i < |longs|
  {
    match given
    case Some(value) => if longs[i].hasArg != 0 then Move(1, "", Long(i), given) else Move(1, "", Wrong, None)
    case None =>
      if longs[i].hasArg != 1 then Move(1, "", Long(i), None)
      else if more == [] then Move(1, "", Missing, None) else Move(2, "", Long(i), Some(more[0]))
  }

  function Text(name: string, given: Option<string>): string {
    if given.Some? then name + "=" + given.value else name
  }

  lemma TextSays(name: string, given: Option<string>)
    requires '=' !in name
    ensures var text := Text(name, given); NameLength(text) == |name| && text[..|name|] == name
    ensures given.Some? ==> Text(name, given)[|name| + 1..] == given.value && |Text(name, given)| > |name|
  {
    if given.Some? {
      assert name + "=" + given.value == name + ("=" + given.value);
      NameEnds(name, "=" + given.value);
    } else {
      NameEnds(name, "");
      assert name + "" == name;
    }
  }

  // "--name" and "--name=value" are read whole, from behind the two dashes.
  lemma LongSays(t: Table, name: string, given: Option<string>, more: seq<string>)
    requires t.longs.Some? && '=' !in name && Text(name, given) != ""
    ensures var e := "--" + Text(name, given);
      && IsOption(e) && e != "--" && TextOf(t, e) == Text(name, given)
      && Decode(t, e, TextOf(t, e), more) == match Lookup(t.longs.value, name)
        case Found(i) => LongSaid(t.longs.value, i, given, more)
        case _ => Move(1, "", Wrong, None)
  {
    hide Lookup, NameLength;
    var text := Text(name, given);
    var e := "--" + text;
    assert e[2..] == text;
    TextSays(name, given);
  }

  // An element that begins with one dash is read from behind it.
  lemma OneDash(t: Table, text: string)
    requires text != "" && text[0] != '-'
    ensures var e := "-" + text; IsOption(e) && e != "--" && TextOf(t, e) == text
  {
    var e := "-" + text;
    assert e[1..] == text && e[1] == text[0];
  }

  // But for getopt_long_only, its characters are short options, with long ones or without.
  lemma OneDashIsShort(t: Table, text: string, next: string, more: seq<string>)
    requires text != "" && text[0] != '-' && next != "" && !(t.longs.Some? && t.longOnly)
    requires next[0] != 'W'
    ensures IsOption("-" + text)
    ensures Decode(t, "-" + text, next, more) == Decode(t.(longs := None), "-" + text, next, more)
  {
    hide KindOf;
    var e := "-" + text;
    assert e[1] == text[0];
    OnlyW(t.shorts, next[0]);
  }

  // For getopt_long_only they are a long option, if there is one that is meant, except for a single character
  // that is a short option; and short options if there is none and the first is such an option.
  lemma LongOnlySays(t: Table, name: string, given: Option<string>, more: seq<string>)
    requires t.longs.Some? && t.longOnly && '=' !in name && Text(name, given) != "" && Text(name, given)[0] != '-'
    ensures var text := Text(name, given); var e := "-" + text;
      && IsOption(e)
      && Decode(t, e, text, more) ==
        if |text| == 1 && text[0] in t.shorts then ShortMove(t, text, more)
        else match Lookup(t.longs.value, name)
          case Found(i) => LongSaid(t.longs.value, i, given, more)
          case Ambiguous => Move(1, "", Wrong, None)
          case Unknown => if text[0] in t.shorts then ShortMove(t, text, more) else Move(1, "", Wrong, None)
  {
    hide Lookup, NameLength, ShortMove;
    var text := Text(name, given);
    var e := "-" + text;
    assert e[1..] == text && e[1] == text[0];
    TextSays(name, given);
  }

  // Where "W;" is declared, "-Wname", with the name in the same element or the next, is read as "--name" is,
  // but that an unknown name is handed to the program, and an ambiguous one passes one element too many.
  lemma NamedSays(t: Table, e: string, name: string, given: Option<string>, inNext: bool, more: seq<string>)
    requires IsOption(e) && e[1] != '-' && t.longs.Some? && !t.longOnly && '=' !in name
    requires KindOf(t.shorts, 'W') == LongName && (!inNext ==> Text(name, given) != "")
    ensures var text, k := Text(name, given), if inNext then 1 else 0;
      var m := Decode(t, e, if inNext then "W" else "W" + text, (if inNext then [text] else []) + more);
      m == match Lookup(t.longs.value, name)
        case Found(i) =>
          var said := LongSaid(t.longs.value, i, given, more);
          said.(took := k + said.took, arg := if said.arg == None then Some(text) else said.arg)
        case Ambiguous => Move(k + 2, "", Wrong, Some(text))
        case Unknown => Move(k + 1, "", Short('W'), Some(text))
  {
    hide Lookup, NameLength, KindOf;
    var text := Text(name, given);
    TextSays(name, given);
    if inNext {
      assert ([text] + more)[1..] == more;
    } else {
      assert ("W" + text)[1..] == text && [] + more == more;
    }
  }
}
