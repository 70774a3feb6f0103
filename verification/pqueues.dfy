// The timer heap: pqueue.c with thread_timer_cmp and thread_timer_update as its callbacks.
module Pqueues {
  import opened Timevals
  import opened SchedulerSpec
  import opened ThreadRecords

  function Parent(i: int): int { (i - 1) / 2 }
  function Left(i: int): int { 2 * i + 1 }
  function Right(i: int): int { 2 * i + 2 }

  function Swap<T>(s: seq<T>, i: nat, j: nat): (r: seq<T>)
    requires i < |s| && j < |s|
    ensures |r| == |s|
    ensures forall k :: 0 <= k < |s| ==> r[k] == if k == i then s[j] else if k == j then s[i] else s[k]
  {
    s[i := s[j]][j := s[i]]
  }

  // Position i does not come before its parent.
  predicate Settled(k: seq<Timeval>, i: int) {
    0 < i < |k| ==> Cmp(k[Parent(i)], k[i]) <= 0
  }

  ghost predicate Heap(k: seq<Timeval>) {
    forall i :: 0 < i < |k| ==> Settled(k, i)
  }

  // Children of h do not come before the parent of h.
  predicate Bridged(k: seq<Timeval>, h: int) {
    0 < h < |k| ==>
      && (Left(h) < |k| ==> Cmp(k[Parent(h)], k[Left(h)]) <= 0)
      && (Right(h) < |k| ==> Cmp(k[Parent(h)], k[Right(h)]) <= 0)
  }

  ghost predicate HeapAbove(k: seq<Timeval>, h: int) {
    && Bridged(k, h)
    && forall i :: 0 < i < |k| && i != h ==> Settled(k, i)
  }

  ghost predicate HeapBelow(k: seq<Timeval>, h: int) {
    && Bridged(k, h)
    && forall i :: 0 < i < |k| && Parent(i) != h ==> Settled(k, i)
  }

  lemma UpStep(k: seq<Timeval>, h: nat)
    requires 0 < h < |k| && HeapAbove(k, h) && Cmp(k[h], k[Parent(h)]) < 0
    ensures HeapAbove(Swap(k, h, Parent(h)), Parent(h))
  {
    var p := Parent(h);
    var r := Swap(k, h, p);
    forall i | 0 < i < |r| && i != p ensures Settled(r, i) {
      assert i != h ==> Settled(k, i);
    }
    if p > 0 {
      assert Settled(k, p);
      assert Left(p) < |k| ==> Left(p) != h ==> Settled(k, Left(p));
      assert Right(p) < |k| ==> Right(p) != h ==> Settled(k, Right(p));
    }
  }

  lemma UpDone(k: seq<Timeval>, h: nat)
    requires h < |k| && HeapAbove(k, h) && (h == 0 || Cmp(k[h], k[Parent(h)]) >= 0)
    ensures Heap(k)
  {
    forall i | 0 < i < |k| ensures Settled(k, i) {
      assert i == h || Settled(k, i);
    }
  }

  lemma DownDone(k: seq<Timeval>, h: nat)
    requires HeapBelow(k, h)
    requires Left(h) < |k| ==> Cmp(k[h], k[Left(h)]) <= 0
    requires Right(h) < |k| ==> Cmp(k[h], k[Right(h)]) <= 0
    ensures Heap(k)
  {
    forall i | 0 < i < |k| ensures Settled(k, i) {
      if Parent(i) == h {
        assert i == Left(h) || i == Right(h);
      } else {
        assert Settled(k, i);
      }
    }
  }

  lemma DownStep(k: seq<Timeval>, h: nat, w: nat)
    requires h < |k| && (w == Left(h) || w == Right(h)) && w < |k|
    requires Left(h) < |k| ==> Cmp(k[w], k[Left(h)]) <= 0
    requires Right(h) < |k| ==> Cmp(k[w], k[Right(h)]) <= 0
    requires HeapBelow(k, h) && Cmp(k[w], k[h]) <= 0
    ensures HeapBelow(Swap(k, h, w), w)
  {
    var r := Swap(k, h, w);
    forall i | 0 < i < |r| && Parent(i) != w ensures Settled(r, i) {
      if Parent(i) == h {
        assert i == Left(h) || i == Right(h);
      } else {
        assert Settled(k, i);
      }
    }
    assert Left(w) < |k| ==> Settled(k, Left(w));
    assert Right(w) < |k| ==> Settled(k, Right(w));
  }

  // The last element, taken off the end, fills slot i.
  function Refill<T>(s: seq<T>, i: nat): (r: seq<T>)
    requires i < |s|
    ensures |r| == |s| - 1
    ensures forall j :: 0 <= j < |r| ==> r[j] == s[if j == i then |s| - 1 else j]
  {
    var n := |s| - 1;
    if i == n then s[..n] else s[..n][i := s[n]]
  }

  lemma RefillBridges(k: seq<Timeval>, i: nat)
    requires i < |k| && Heap(k)
    ensures if 0 < i && Cmp(k[|k| - 1], k[Parent(i)]) < 0
      then i < |k| - 1 && HeapAbove(Refill(k, i), i)
      else HeapBelow(Refill(k, i), i)
  {
    var r := Refill(k, i);
    forall j | 0 < j < |r| ensures Settled(k, j) {}
    if 0 < i {
      assert Settled(k, i);
      assert Left(i) < |k| ==> Settled(k, Left(i));
      assert Right(i) < |k| ==> Settled(k, Right(i));
    }
    forall j | 0 < j < |r| && j != i && Parent(j) != i ensures Settled(r, j) {
      assert Settled(k, j);
    }
    forall j | 0 < j < |r| && Parent(j) == i ensures j == Left(i) || j == Right(i) {}
  }

  lemma AppendLeaf(k: seq<Timeval>, x: Timeval)
    requires Heap(k)
    ensures HeapAbove(k + [x], |k|)
  {
    forall i | 0 < i < |k| ensures Settled(k + [x], i) {
      assert Settled(k, i);
    }
  }

  lemma {:induction false} RootIsLeast(k: seq<Timeval>, i: nat)
    requires Heap(k) && i < |k|
    ensures Cmp(k[0], k[i]) <= 0
  {
    if i > 0 {
      RootIsLeast(k, Parent(i));
      assert Settled(k, i);
    }
  }

  class Pqueue {
    var slots: array<Thread?>
    var size: nat
    ghost var items: seq<Thread>
    ghost var keys: seq<Timeval>
    ghost var members: set<Thread>

    ghost predicate Backed(hole: int)
      reads this, slots
    {
      && |items| <= slots.Length
      && forall i :: 0 <= i < |items| && i != hole ==> slots[i] == items[i]
    }

    // Slots and members are paired by the back-pointers, except for the record at the hole.
    ghost predicate Indexed(hole: int)
      reads this, members`index
    {
      && (forall i {:trigger items[i]} :: 0 <= i < |items| ==> items[i] in members)
      && (forall i {:trigger items[i].index} ::
        0 <= i < |items| && i != hole ==> items[i].index == i && (0 <= hole < |items| ==> items[i] != items[hole]))
      && (forall t {:trigger t.index} :: t in members && (0 <= hole < |items| ==> t != items[hole]) ==>
        0 <= t.index < |items| && t.index != hole && items[t.index] == t)
    }

    ghost predicate Keyed()
      reads this, members`u
    {
      && |keys| == |items|
      && forall i :: 0 <= i < |items| && items[i] in members ==> keys[i] == Expiry(items[i].u)
    }

    ghost predicate Valid()
      reads this, slots, members`index, members`u
    {
      && size == |items| && size < slots.Length && slots.Length >= 32 && Backed(-1) && Indexed(-1) && Keyed()
        && Heap(keys)
    }

    constructor ()
      ensures Valid() && members == {} && fresh(slots)
    {
      slots, size, items, keys, members := new Thread?[32](_ => null), 0, [], [], {};
    }

    // Move the record at slot "from" into the hole, which moves to "from".
    method Shift(hole: nat, from: nat)
      requires hole < |items| && from < |items| && hole != from && Backed(hole) && Indexed(hole) && Keyed()
      modifies this`items, this`keys, slots, (items[from] as Thread)`index
      ensures items == Swap(old(items), hole, from) && Backed(from) && Indexed(from) && Keyed()
      ensures keys == Swap(old(keys), hole, from)
    {
      hide Expiry;
      ghost var was := items;
      assert items[from].index == from;
      forall i | 0 <= i < |was| && i != hole
        ensures was[i].index == i && was[i] != was[hole] && (i != from ==> was[i] != was[from])
      {
        assert items[i].index == i;
      }
      slots[hole] := slots[from];
      slots[hole].index := hole;
      items := Swap(items, hole, from);
      keys := Swap(keys, hole, from);
      assert forall i {:trigger items[i]} :: 0 <= i < |items| ==>
        items[i] == was[if i == hole then from else if i == from then hole else i];
    }

    // Put the record that was lifted out back into the hole.
    method Settle(hole: nat, tmp: Thread)
      requires hole < slots.Length && hole <= |items| && Backed(hole) && Indexed(hole) && Keyed()
      requires if hole < |items| then items[hole] == tmp else tmp !in members
      modifies slots, tmp`index
      ensures Backed(-1) && Indexed(-1) && Keyed()
    {
      slots[hole] := tmp;
      tmp.index := hole;
    }

    method TrickleUp(index0: nat)
      requires index0 < |items| && Backed(-1) && Indexed(index0) && Keyed()
      requires HeapAbove(keys, index0)
      modifies this`items, this`keys, slots, members`index
      ensures Backed(-1) && Indexed(-1) && Keyed() && Heap(keys)
      ensures |items| == |old(items)|
    {
      var index := index0;
      var tmp := slots[index];
      while index > 0 && Cmp(Expiry(tmp.u), Expiry(slots[Parent(index)].u)) < 0
        invariant 0 <= index < |items| == |old(items)|
        invariant items[index] == tmp && Backed(index) && Indexed(index) && Keyed()
        invariant HeapAbove(keys, index)
      {
        UpStep(keys, index);
        Shift(index, Parent(index));
        index := Parent(index);
      }
      UpDone(keys, index);
      Settle(index, tmp);
    }

    // Choose the child to move up, and tell whether the lifted record should stay above it.
    method EarlierChild(index: nat, tmp: Thread) returns (which: nat, done: bool)
      requires size == |items| && index < size / 2 && items[index] == tmp
      requires Backed(index) && Indexed(index) && Keyed() && HeapBelow(keys, index)
      ensures (which == Left(index) || which == Right(index)) && which < size
      ensures if done then Heap(keys) else HeapBelow(Swap(keys, index, which), which)
    {
      which := Left(index);
      if Right(index) < size && Cmp(Expiry(slots[Left(index)].u), Expiry(slots[Right(index)].u)) > 0 {
        which := Right(index);
      }
      done := Cmp(Expiry(slots[which].u), Expiry(tmp.u)) > 0;
      if done {
        DownDone(keys, index);
      } else {
        DownStep(keys, index, which);
      }
    }

    method TrickleDown(index0: nat)
      requires index0 <= |items| == size && index0 < slots.Length && Backed(-1) && Indexed(index0) && Keyed()
      requires slots[index0] != null && (index0 == |items| ==> slots[index0] !in members)
      requires HeapBelow(keys, index0)
      modifies this`items, this`keys, slots, (slots[index0] as Thread)`index, members`index
      ensures Backed(-1) && Indexed(-1) && Keyed() && Heap(keys)
      ensures |items| == |old(items)|
    {
      var index := index0;
      var tmp := slots[index];
      while index < size / 2
        invariant 0 <= index <= |items| == |old(items)| == size
        invariant index == size ==> index == index0
        invariant index < size ==> items[index] == tmp
        invariant Backed(index) && Indexed(index) && Keyed()
        invariant HeapBelow(keys, index)
        decreases size - index
      {
        var which, done := EarlierChild(index, tmp);
        if done {
          break;
        }
        Shift(index, which);
        index := which;
      }
      if index >= size / 2 {
        DownDone(keys, index);
      }
      Settle(index, tmp);
    }

    method Expand()
      requires Valid()
      modifies this`slots
      ensures Valid() && fresh(slots) && slots.Length == 2 * old(slots.Length)
    {
      var bigger := new Thread?[2 * slots.Length](_ => null);
      forall i | 0 <= i < slots.Length {
        bigger[i] := slots[i];
      }
      slots := bigger;
    }

    method Append(data: Thread)
      requires Valid() && data !in members
      modifies this`items, this`keys, this`members, slots, data`index
      ensures items == old(items) + [data] && members == old(members) + {data} && |items| <= slots.Length
      ensures Backed(-1) && Indexed(size) && Keyed() && keys == old(keys) + [Expiry(data.u)]
    {
      slots[size] := data;
      data.index := size;
      members := members + {data};
      items := items + [data];
      keys := keys + [Expiry(data.u)];
    }

    method Enqueue(data: Thread)
      requires Valid() && data !in members
      modifies this, slots, data`index, members`index
      ensures Valid() && (slots == old(slots) || fresh(slots))
      ensures members == old(members) + {data}
    {
      if size + 2 >= slots.Length {
        Expand();
      }
      AppendLeaf(keys, Expiry(data.u));
      Append(data);
      TrickleUp(size);
      size := size + 1;
    }

    // Take the last record off the end and put it in slot "index", as both removals begin.
    method TakeLast(index: nat)
      requires Valid() && index < size
      modifies this`items, this`keys, this`members, this`size, slots
      ensures size == |items| && items == Refill(old(items), index)
      ensures members == old(members) - {old(items[index])}
      ensures Backed(-1) && Indexed(index) && Keyed() && keys == Refill(old(keys), index)
      ensures slots[index] == old(items[|items| - 1]) && (index == |items| ==> slots[index] !in members)
    {
      assert forall i {:trigger items[i]} :: 0 <= i < |items| ==> items[i].index == i;
      size := size - 1;
      slots[index] := slots[size];
      members := members - {items[index]};
      items := Refill(items, index);
      keys := Refill(keys, index);
    }

    method Top() returns (t: Thread)
      requires Valid() && size > 0
      ensures t == slots[0] && t in members && forall x :: x in members ==> Cmp(Expiry(t.u), Expiry(x.u)) <= 0
    {
      t := slots[0];
      forall x | x in members ensures Cmp(Expiry(t.u), Expiry(x.u)) <= 0 {
        RootIsLeast(keys, x.index);
      }
    }

    method Dequeue() returns (data: Thread)
      requires Valid() && size > 0
      modifies this`items, this`keys, this`members, this`size, slots, members`index
      ensures Valid()
      ensures data == old(slots[0]) && data in old(members) && members == old(members) - {data}
      ensures forall t :: t in old(members) ==> Cmp(Expiry(data.u), Expiry(t.u)) <= 0
    {
      data := slots[0];
      RefillBridges(keys, 0);
      forall t | t in members ensures Cmp(Expiry(data.u), Expiry(t.u)) <= 0 {
        RootIsLeast(keys, t.index);
      }
      TakeLast(0);
      TrickleDown(0);
    }

    method RemoveAt(index: nat)
      requires Valid() && index < size
      modifies this`items, this`keys, this`members, this`size, slots, members`index
      ensures Valid()
      ensures members == old(members) - {old(items[index])}
    {
      RefillBridges(keys, index);
      TakeLast(index);
      if index > 0 && Cmp(Expiry(slots[index].u), Expiry(slots[Parent(index)].u)) < 0 {
        TrickleUp(index);
      } else {
        TrickleDown(index);
      }
    }

    // Removal through the back-pointer, as thread_cancel does it.
    method RemoveMember(t: Thread)
      requires Valid() && t in members
      modifies this`items, this`keys, this`members, this`size, slots, members`index
      ensures Valid() && members == old(members) - {t}
    {
      assert 0 <= t.index < size && slots[t.index] == t;
      RemoveAt(t.index);
    }
  }
}
