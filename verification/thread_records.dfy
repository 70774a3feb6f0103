// Thread records, the fields that link them into lists, and what linking and unlinking do to those fields.
module ThreadRecords {
  import opened Sequences
  import opened SchedulerSpec

  datatype ThreadType = READ | WRITE | TIMER | EVENT | READY | BACKGROUND | UNUSED | EXECUTE

  class Thread {
    var typ: ThreadType
    var addType: ThreadType
    var next: Thread?
    var prev: Thread?
    var arg: int
    var u: Payload
    var index: int

    constructor ()
      ensures next == null && prev == null && typ == READ
    {
      typ, addType, next, prev, arg, u, index := READ, READ, null, null, 0, Val(0), 0;
    }
  }

  // struct thread_list
  datatype Head = Head(head: Thread?, tail: Thread?, count: int)

  // The fields of a record that tell where it is kept.
  datatype Rec = Rec(typ: ThreadType, next: Thread?, prev: Thread?)
  type Memory = map<Thread, Rec>

  // The record at position i, or the null pointer that ends a list.
  function Nth(s: seq<Thread>, i: int): Thread? {
    if 0 <= i < |s| then s[i] else null
  }

  function HeadOf(q: seq<Thread>): Head {
    Head(Nth(q, 0), Nth(q, |q| - 1), |q|)
  }

  ghost predicate LinkedAt(q: seq<Thread>, m: Memory, i: int) {
    0 <= i < |q| && q[i] in m && m[q[i]].next == Nth(q, i + 1) && m[q[i]].prev == Nth(q, i - 1)
  }

  // The records of q are linked in that order.
  ghost predicate Chain(q: seq<Thread>, m: Memory) {
    && Distinct(q)
    && forall i :: 0 <= i < |q| ==> LinkedAt(q, m, i)
  }

  lemma HeadWithout(q: seq<Thread>, i: nat)
    requires i < |q|
    ensures HeadOf(Without(q, i)) == Head(
      if i == 0 then Nth(q, 1) else Nth(q, 0),
      if i + 1 == |q| then Nth(q, i - 1) else Nth(q, |q| - 1),
      |q| - 1)
  {
  }

  // What thread_list_add writes.
  ghost function Append(m: Memory, q: seq<Thread>, t: Thread): (r: Memory)
    requires t in m
    ensures r.Keys == m.Keys && forall x :: x in m ==> r[x].typ == m[x].typ
    ensures forall x :: x in m && x != t && x !in q ==> r[x] == m[x]
  {
    var tail := Nth(q, |q| - 1);
    var m1 := m[t := m[t].(next := null, prev := tail)];
    if tail != null && tail in m1 then m1[tail := m1[tail].(next := t)] else m1
  }

  // What thread_list_delete writes.
  ghost function Unlink(m: Memory, t: Thread): (r: Memory)
    ensures r.Keys == m.Keys && forall x :: x in m ==> r[x].typ == m[x].typ
  {
    if t !in m then m else
    var r := m[t];
    var m1 := if r.next != null && r.next in m then m[r.next := m[r.next].(prev := r.prev)] else m;
    var m2 := if r.prev != null && r.prev in m1 then m1[r.prev := m1[r.prev].(next := r.next)] else m1;
    m2[t := m2[t].(next := null, prev := null)]
  }

  lemma AppendChains(m: Memory, q: seq<Thread>, t: Thread)
    requires Chain(q, m) && t in m && t !in q
    ensures Chain(q + [t], Append(m, q, t))
  {
    var r, m' := q + [t], Append(m, q, t);
    forall i | 0 <= i < |r| ensures LinkedAt(r, m', i) {
      if i < |q| {
        assert LinkedAt(q, m, i);
      }
    }
  }

  lemma UnlinkAt(m: Memory, q: seq<Thread>, i: nat, b: nat)
    requires Chain(q, m) && i < |q| && b < |q| && b != i
    ensures var m' := Unlink(m, q[i]);
      && q[b] in m'
      && m'[q[b]].next == Nth(q, if b + 1 == i then i + 1 else b + 1)
      && m'[q[b]].prev == Nth(q, if b == i + 1 then i - 1 else b - 1)
  {
    assert LinkedAt(q, m, i) && LinkedAt(q, m, b);
  }

  lemma UnlinkOthers(m: Memory, q: seq<Thread>, i: nat)
    requires Chain(q, m) && i < |q|
    ensures var m' := Unlink(m, q[i]);
      && q[i] in m' && m'[q[i]].next == null && m'[q[i]].prev == null
      && forall x :: x in m && x !in q ==> m'[x] == m[x]
  {
    assert LinkedAt(q, m, i);
  }

  lemma UnlinkRelinks(m: Memory, q: seq<Thread>, i: nat, k: nat)
    requires Chain(q, m) && i < |q| && k < |q| - 1
    ensures LinkedAt(Without(q, i), Unlink(m, q[i]), k)
  {
    UnlinkAt(m, q, i, if k < i then k else k + 1);
  }

  lemma UnlinkChains(m: Memory, q: seq<Thread>, i: nat)
    requires Chain(q, m) && i < |q|
    ensures Chain(Without(q, i), Unlink(m, q[i]))
  {
    var r, m' := Without(q, i), Unlink(m, q[i]);
    forall k | 0 <= k < |r| ensures LinkedAt(r, m', k) {
      UnlinkRelinks(m, q, i, k);
    }
  }

  // Appending to one list leaves the others alone.
  lemma AppendKeeps(m: Memory, q: seq<Thread>, t: Thread, other: seq<Thread>)
    requires t in m && Chain(other, m) && t !in other && forall x :: x in q ==> x !in other
    ensures Chain(other, Append(m, q, t))
  {
    var m' := Append(m, q, t);
    forall i | 0 <= i < |other| ensures LinkedAt(other, m', i) {
      assert LinkedAt(other, m, i) && other[i] in other;
    }
  }

  lemma UnlinkKeeps(m: Memory, q: seq<Thread>, i: nat, other: seq<Thread>)
    requires Chain(q, m) && i < |q| && Chain(other, m) && forall x :: x in q ==> x !in other
    ensures Chain(other, Unlink(m, q[i]))
  {
    var m' := Unlink(m, q[i]);
    assert LinkedAt(q, m, i);
    forall k | 0 <= k < |other| ensures LinkedAt(other, m', k) {
      assert LinkedAt(other, m, k) && other[k] in other;
    }
  }

  // Links do not depend on types, nor on records outside the list.
  lemma ChainKept(q: seq<Thread>, m: Memory, m': Memory)
    requires Chain(q, m)
    requires forall x :: x in m ==> x in m' && m'[x].next == m[x].next && m'[x].prev == m[x].prev
    ensures Chain(q, m')
  {
    forall i | 0 <= i < |q| ensures LinkedAt(q, m', i) {
      assert LinkedAt(q, m, i);
    }
  }

  lemma WithoutFirst(q: seq<Thread>)
    requires q != [] && Distinct(q)
    ensures IndexOf(q, q[0]) == 0 && Without(q, 0) == q[1..]
  {
  }
}
