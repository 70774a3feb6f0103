// Sequence operations shared by the models: filtering by a set, deleting a position.
module Sequences {

  ghost predicate Distinct<T>(s: seq<T>) {
    forall i, j :: 0 <= i < j < |s| ==> s[i] != s[j]
  }

  // The elements of s that lie in chosen, in order.
  ghost function Keep<T>(s: seq<T>, chosen: set<T>): seq<T> {
    if s == [] then []
    else
      var n := |s| - 1;
      if s[n] in chosen then Keep(s[..n], chosen) + [s[n]] else Keep(s[..n], chosen)
  }

  // The elements of s that do not lie in gone, in order.
  ghost function Erase<T>(s: seq<T>, gone: set<T>): seq<T> {
    if s == [] then []
    else
      var n := |s| - 1;
      if s[n] in gone then Erase(s[..n], gone) else Erase(s[..n], gone) + [s[n]]
  }

  // Keep and Erase share the elements of s out between them.
  lemma {:induction false} Parted<T>(s: seq<T>, chosen: set<T>)
    ensures |Keep(s, chosen)| + |Erase(s, chosen)| == |s|
    ensures forall x :: x in Keep(s, chosen) ==> x in s && x in chosen
    ensures forall x :: x in Erase(s, chosen) ==> x in s && x !in chosen
    ensures forall x :: x in s ==> if x in chosen then x in Keep(s, chosen) else x in Erase(s, chosen)
  {
    if s != [] {
      var n := |s| - 1;
      Parted(s[..n], chosen);
      assert s == s[..n] + [s[n]];
    }
  }

  lemma {:induction false} PartedDistinct<T>(s: seq<T>, chosen: set<T>)
    requires Distinct(s)
    ensures Distinct(Keep(s, chosen)) && Distinct(Erase(s, chosen))
  {
    if s != [] {
      var n := |s| - 1;
      PartedDistinct(s[..n], chosen);
      Parted(s[..n], chosen);
      assert s[n] !in s[..n];
    }
  }

  function Without<T>(s: seq<T>, i: nat): (r: seq<T>)
    requires i < |s|
    ensures |r| == |s| - 1
    ensures forall k :: 0 <= k < |r| ==> r[k] == s[if k < i then k else k + 1]
  {
    s[..i] + s[i + 1..]
  }

  ghost function IndexOf<T>(s: seq<T>, x: T): (i: nat)
    requires x in s
    ensures i < |s| && s[i] == x
  {
    var i :| 0 <= i < |s| && s[i] == x; i
  }

  lemma {:induction false} EraseNone<T>(s: seq<T>, gone: set<T>)
    requires forall x :: x in s ==> x !in gone
    ensures Erase(s, gone) == s && Keep(s, gone) == []
  {
    if s != [] {
      EraseNone(s[..|s| - 1], gone);
    }
  }

  lemma {:induction false} SplitAt<T>(a: seq<T>, b: seq<T>, chosen: set<T>)
    ensures Keep(a + b, chosen) == Keep(a, chosen) + Keep(b, chosen)
    ensures Erase(a + b, chosen) == Erase(a, chosen) + Erase(b, chosen)
  {
    if b == [] {
      assert a + b == a;
    } else {
      var n := |b| - 1;
      SplitAt(a, b[..n], chosen);
      assert (a + b)[..|a| + n] == a + b[..n];
    }
  }

  // In a list without repetitions, erasing one element deletes one position.
  lemma EraseOne<T>(s: seq<T>, i: nat)
    requires i < |s| && Distinct(s)
    ensures Erase(s, {s[i]}) == Without(s, i)
  {
    var x := s[i];
    assert s == s[..i] + [x] + s[i + 1..];
    SplitAt(s[..i] + [x], s[i + 1..], {x});
    SplitAt(s[..i], [x], {x});
    EraseNone(s[..i], {x});
    EraseNone(s[i + 1..], {x});
  }

  lemma EraseSingle<T>(s: seq<T>, x: T)
    requires Distinct(s)
    ensures |Erase(s, {x})| == |s| - if x in s then 1 else 0
  {
    if x in s {
      EraseOne(s, IndexOf(s, x));
    } else {
      EraseNone(s, {x});
    }
  }

  lemma DistinctConcat<T>(a: seq<T>, b: seq<T>)
    requires Distinct(a) && Distinct(b) && forall x :: x in a ==> x !in b
    ensures Distinct(a + b)
  {
    forall i, j | 0 <= i < j < |a + b| ensures (a + b)[i] != (a + b)[j] {
      if i < |a| <= j {
        assert (a + b)[i] in a && (a + b)[j] == b[j - |a|] && b[j - |a|] in b;
      }
    }
  }

  // The elements of a sequence without repetitions are as many as its positions.
  lemma {:induction false} DistinctSize<T>(s: seq<T>, elems: set<T>)
    requires Distinct(s)
    requires (forall x :: x in s ==> x in elems) && (forall x :: x in elems ==> x in s)
    ensures |elems| == |s|
  {
    if s != [] {
      var n := |s| - 1;
      assert s == s[..n] + [s[n]];
      assert s[n] !in s[..n];
      DistinctSize(s[..n], elems - {s[n]});
    } else {
      assert elems == {};
    }
  }

  lemma {:induction false} KeepAll<T>(s: seq<T>, chosen: set<T>)
    requires forall x :: x in s ==> x in chosen
    ensures Keep(s, chosen) == s && Erase(s, chosen) == []
  {
    if s != [] {
      KeepAll(s[..|s| - 1], chosen);
    }
  }
}
