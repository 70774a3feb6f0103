// The scheduler of thread.c: a master with five lists and two heaps of thread records.
module Scheduler {
  import opened Arithmetic
  import opened Pqueues
  import opened SchedulerLaws
  import opened SchedulerMoves
  import opened SchedulerSpec
  import opened Sequences
  import opened ThreadRecords
  import opened Timevals

  // How a call of thread_fetch ends: with the copy made of a record, with NULL, or not at all
  // within the outcomes given.
  datatype Fetched = Ran(t: Thread, arg: int, u: Payload) | Null | Waiting

  ghost function Out(f: Fetched): seq<Thread> {
    if f.Ran? then [f.t] else []
  }

  // The list that a program finds that starts at the head and follows the pointers: q, in both directions.
  ghost predicate ListIs(h: Head, q: seq<Thread>, typ: ThreadType)
    reads set t | t in q
  {
    && h.count == |q| && (q == [] ==> h.head == null && h.tail == null)
    && (q != [] ==> h.head == q[0] && h.tail == q[|q| - 1] && q[0].prev == null && q[|q| - 1].next == null)
    && (forall i :: 0 <= i < |q| ==> q[i].typ == typ)
    && (forall i {:trigger q[i].next} :: 0 <= i < |q| - 1 ==> q[i].next == q[i + 1] && q[i + 1].prev == q[i])
  }

  lemma ChainList(h: Head, q: seq<Thread>, m: Memory, typ: ThreadType)
    requires h == HeadOf(q) && Chain(q, m)
    requires forall t :: t in q ==> t in m && t.typ == m[t].typ == typ && t.next == m[t].next && t.prev == m[t].prev
    ensures ListIs(h, q, typ)
  {
    forall i | 0 <= i < |q| ensures q[i].typ == typ && q[i].next == Nth(q, i + 1) && q[i].prev == Nth(q, i - 1) {
      assert LinkedAt(q, m, i);
    }
  }

  class ThreadMaster {
    var heads: Heads
    const timer: Pqueue
    const background: Pqueue
    var readfd: set<int>
    var writefd: set<int>
    var alloc: int
    // The abstract state, and a copy of the fields that tell where each record is kept.
    ghost var view: Sched<Thread>
    ghost var mem: Memory

    ghost predicate Mirrored()
      reads this`mem, mem.Keys`typ, mem.Keys`next, mem.Keys`prev
    {
      forall t :: t in mem ==> t.typ == mem[t].typ && t.next == mem[t].next && t.prev == mem[t].prev
    }

    // Every record holds what it was filed with.
    ghost predicate Filed()
      reads this`view, view.info.Keys`arg, view.info.Keys`u
    {
      forall t :: t in view.info ==> view.info[t] == Info(t.arg, t.u)
    }

    ghost predicate Headed()
      reads this`heads, this`view, this`readfd, this`writefd, this`alloc
    {
      && heads == HeadsOf(view)
      && readfd == view.readfd && writefd == view.writefd && alloc == view.alloc
    }

    ghost predicate HeapsValid()
      reads timer, background, timer.slots, background.slots
      reads timer.members`index, background.members`index, timer.members`u, background.members`u
    {
      timer != background && timer.slots != background.slots && timer.Valid() && background.Valid()
    }

    ghost predicate Heaped()
      reads this`view, timer, background, timer.slots, background.slots
      reads timer.members`index, background.members`index, timer.members`u, background.members`u
    {
      HeapsValid() && timer.members == view.timer && background.members == view.background
    }

    ghost predicate Rep()
      reads this, timer, background, timer.slots, background.slots
      reads mem.Keys`typ, mem.Keys`next, mem.Keys`prev, view.info.Keys`arg, view.info.Keys`u
      reads timer.members`index, background.members`index, timer.members`u, background.members`u
    {
      Mirrored() && Filed() && Headed() && Heaped() && Linked(view, mem) && mem.Keys == view.info.Keys
    }

    ghost predicate Valid()
      reads this, timer, background, timer.slots, background.slots
      reads mem.Keys`typ, mem.Keys`next, mem.Keys`prev, view.info.Keys`arg, view.info.Keys`u
      reads timer.members`index, background.members`index, timer.members`u, background.members`u
    {
      Rep() && Typed(view, mem) && Inv(view)
    }

    constructor ()
      ensures Valid() && view == Created() && mem == map[]
      ensures fresh(timer) && fresh(background) && fresh(timer.slots) && fresh(background.slots)
    {
      heads := Heads(HeadOf([]), HeadOf([]), HeadOf([]), HeadOf([]), HeadOf([]));
      timer := new Pqueue();
      background := new Pqueue();
      readfd, writefd, alloc := {}, {}, 0;
      view, mem := Created(), map[];
    }

    lemma Parts()
      requires Valid()
      ensures Rep() && Typed(view, mem) && Inv(view) && Housed(view) && NoSharing(view) && Contained(view)
      ensures mem.Keys == view.info.Keys && heads == HeadsOf(view)
    {
    }

    lemma Whole()
      requires Rep() && Typed(view, mem) && Inv(view)
      ensures Valid()
    {
    }

    lemma ValidInv()
      requires Valid()
      ensures Inv(view)
    {
    }

    // What the fields of a master and of its records say, in terms of the abstract state.
    lemma Represents()
      requires Valid()
      ensures ListIs(heads.read, view.read, READ) && ListIs(heads.write, view.write, WRITE)
      ensures ListIs(heads.event, view.event, EVENT) && ListIs(heads.ready, view.ready, READY)
      ensures ListIs(heads.unuse, view.unuse, UNUSED)
      ensures forall t :: t in view.info ==> view.info[t].arg == t.arg && view.info[t].u == t.u
      ensures readfd == view.readfd && writefd == view.writefd && alloc == view.alloc
      ensures timer.size == |timer.items| && background.size == |background.items|
      ensures forall t :: t in view.timer ==>
        t.typ == TIMER && 0 <= t.index < timer.size < timer.slots.Length && timer.slots[t.index] == t
      ensures forall t :: t in view.background ==>
        t.typ == BACKGROUND && 0 <= t.index < background.size < background.slots.Length
        && background.slots[t.index] == t
      ensures forall i :: 0 <= i < timer.size < timer.slots.Length ==>
        timer.slots[i] != null && timer.slots[i] in view.timer
      ensures forall i :: 0 <= i < background.size < background.slots.Length ==>
        background.slots[i] != null && background.slots[i] in view.background
    {
      hide Inv, Homes;
      Parts();
      ListsRepresented();
      HeapRepresented(timer);
      HeapRepresented(background);
      assert forall t :: t in view.timer + view.background ==> t in view.info && TypedAt(view, mem[t], t);
    }

    lemma ListsRepresented()
      requires Valid()
      ensures ListIs(heads.read, view.read, READ) && ListIs(heads.write, view.write, WRITE)
      ensures ListIs(heads.event, view.event, EVENT) && ListIs(heads.ready, view.ready, READY)
      ensures ListIs(heads.unuse, view.unuse, UNUSED)
    {
      hide Inv, Homes, ListIs;
      Parts();
      assert forall t :: t in view.info ==> TypedAt(view, mem[t], t);
      ChainList(heads.read, view.read, mem, READ);
      ChainList(heads.write, view.write, mem, WRITE);
      ChainList(heads.event, view.event, mem, EVENT);
      ChainList(heads.ready, view.ready, mem, READY);
      ChainList(heads.unuse, view.unuse, mem, UNUSED);
    }

    static lemma HeapRepresented(q: Pqueue)
      requires q.Valid()
      ensures q.size == |q.items| < q.slots.Length
      ensures forall t :: t in q.members ==> 0 <= t.index < q.size && q.slots[t.index] == t
      ensures forall i :: 0 <= i < q.size ==> q.slots[i] != null && q.slots[i] in q.members
    {
      forall t | t in q.members ensures 0 <= t.index < q.size && q.slots[t.index] == t {
        assert q.slots[t.index] == q.items[t.index];
      }
      forall i | 0 <= i < q.size ensures q.slots[i] != null && q.slots[i] in q.members {
        assert q.slots[i] == q.items[i];
      }
    }

    lemma RepKeys()
      requires Rep()
      ensures mem.Keys == view.info.Keys
    {
    }

    method SetNext(t: Thread, next: Thread?)
      requires Mirrored() && t in mem
      modifies this`mem, t`next
      ensures Mirrored() && mem == old(mem)[t := old(mem[t]).(next := next)]
    {
      t.next := next;
      mem := mem[t := mem[t].(next := next)];
    }

    method SetPrev(t: Thread, prev: Thread?)
      requires Mirrored() && t in mem
      modifies this`mem, t`prev
      ensures Mirrored() && mem == old(mem)[t := old(mem[t]).(prev := prev)]
    {
      t.prev := prev;
      mem := mem[t := mem[t].(prev := prev)];
    }

    method SetLinks(t: Thread, next: Thread?, prev: Thread?)
      requires Mirrored() && t in mem
      modifies this`mem, t`next, t`prev
      ensures Mirrored() && mem == old(mem)[t := old(mem[t]).(next := next, prev := prev)]
      ensures t.next == next && t.prev == prev
    {
      t.next, t.prev := next, prev;
      mem := mem[t := mem[t].(next := next, prev := prev)];
    }

    method SetType(t: Thread, typ: ThreadType)
      requires Mirrored() && t in mem
      modifies this`mem, t`typ
      ensures Mirrored() && mem == old(mem)[t := old(mem[t]).(typ := typ)]
    {
      t.typ := typ;
      mem := mem[t := mem[t].(typ := typ)];
    }

    method HeadAdd(list: Head, t: Thread, ghost q: seq<Thread>) returns (r: Head)
      requires Mirrored() && t in mem && Chain(q, mem) && list == HeadOf(q)
      modifies this`mem, t`next, t`prev, mem.Keys`next
      ensures Mirrored() && mem == Append(old(mem), q, t) && r == HeadOf(q + [t])
    {
      SetLinks(t, null, list.tail);
      r := list;
      if list.tail != null {
        assert LinkedAt(q, old(mem), |q| - 1);
        SetNext(list.tail, t);
      } else {
        r := r.(head := t);
      }
      r := r.(tail := t, count := r.count + 1);
    }

    method HeadDelete(list: Head, t: Thread, ghost q: seq<Thread>) returns (r: Head)
      requires Mirrored() && t in q && Chain(q, mem) && list == HeadOf(q)
      modifies this`mem, mem.Keys`next, mem.Keys`prev
      ensures Mirrored() && mem == Unlink(old(mem), t) && r == HeadOf(Without(q, IndexOf(q, t)))
      ensures t.next == null && t.prev == null
    {
      ghost var i := IndexOf(q, t);
      assert LinkedAt(q, mem, i);
      HeadWithout(q, i);
      r := list;
      if t.next != null {
        assert LinkedAt(q, mem, i + 1);
        SetPrev(t.next, t.prev);
      } else {
        r := r.(tail := t.prev);
      }
      if t.prev != null {
        assert LinkedAt(q, old(mem), i - 1);
        SetNext(t.prev, t.next);
      } else {
        r := r.(head := t.next);
      }
      SetLinks(t, null, null);
      r := r.(count := r.count - 1);
    }

    // List p has become q.
    method SetList(p: Place, h: Head, ghost q: seq<Thread>)
      requires Mirrored() && Filed() && Headed() && Heaped() && mem.Keys == view.info.Keys
      requires Linked(WithList(view, p, q), mem) && h == HeadOf(q)
      modifies this`heads, this`view
      ensures Rep() && view == WithList(old(view), p, q)
    {
      hide Linked, WithList, HeadsOf, PutHead, ThreadMaster.HeapsValid, ThreadMaster.Mirrored;
      HeadsWithList(view, p, q);
      heads, view := PutHead(heads, p, h), WithList(view, p, q);
    }

    // thread_list_add on one of the five lists.
    method ListAdd(p: Place, t: Thread)
      requires Rep() && NoSharing(view) && t in view.info && forall q: Place :: t !in ListOf(view, q)
      modifies this, t`next, t`prev, mem.Keys`next
      ensures Rep() && Enlisted(old(view), old(mem), p, t, view, mem)
    {
      hide Linked, NoSharing, Chain, Append, WithList, HeadsOf, PutHead, GetHead, ListOf;
      hide ThreadMaster.HeapsValid, ThreadMaster.Mirrored;
      LinkedIs(view, mem);
      AppendLinks(view, mem, p, t);
      ghost var q := ListOf(view, p);
      HeadsWithList(view, p, q + [t]);
      var h := HeadAdd(GetHead(heads, p), t, q);
      SetList(p, h, q + [t]);
    }

    // thread_list_delete on one of the five lists.
    method ListDelete(p: Place, t: Thread)
      requires Rep() && NoSharing(view) && t in ListOf(view, p)
      modifies this, mem.Keys`next, mem.Keys`prev
      ensures Rep() && Delisted(old(view), old(mem), p, t, view, mem)
    {
      hide Linked, NoSharing, Chain, Unlink, WithList, HeadsOf, PutHead, GetHead, ListOf, Without;
      hide ThreadMaster.HeapsValid, ThreadMaster.Mirrored;
      LinkedIs(view, mem);
      ghost var q := ListOf(view, p);
      UnlinkLinks(view, mem, p, IndexOf(q, t));
      UnlinkOthers(mem, q, IndexOf(q, t));
      HeadsWithList(view, p, Without(q, IndexOf(q, t)));
      var h := HeadDelete(GetHead(heads, p), t, q);
      SetList(p, h, Without(q, IndexOf(q, t)));
    }

    method Retype(t: Thread, typ: ThreadType)
      requires Rep() && t in mem
      modifies this`mem, t`typ
      ensures Rep() && mem == old(mem)[t := old(mem[t]).(typ := typ)]
    {
      hide Linked, HeadsOf, ThreadMaster.HeapsValid;
      LinksKept(view, view, mem, mem[t := mem[t].(typ := typ)]);
      SetType(t, typ);
    }

    // Give a record that is in no heap its argument and payload, and no heap position.
    method Refile(t: Thread, i: Info)
      requires Rep() && t in view.info && t !in view.timer && t !in view.background
      modifies this`view, t`arg, t`u, t`index
      ensures Rep() && view == old(view).(info := old(view.info)[t := i])
    {
      hide Linked, HeadsOf, ThreadMaster.HeapsValid, ThreadMaster.Mirrored;
      ghost var s := view.(info := view.info[t := i]);
      LinksKept(view, s, mem, mem);
      t.arg := i.arg;
      t.u := i.u;
      t.index := -1;
      view := s;
    }

    // The allocating branch of thread_get: a cleared record is counted and becomes known.
    method Enroll(t: Thread)
      requires Rep() && view.unuse == [] && t !in mem && t.typ == READ && t.next == null && t.prev == null
      modifies this`mem, this`alloc, this`view
      ensures Rep() && mem == old(mem)[t := Rec(READ, null, null)]
      ensures view == Take(old(view)).(info := old(view.info)[t := Info(t.arg, t.u)])
    {
      hide Linked, ThreadMaster.HeapsValid, HeadsOf;
      ghost var s, m := Take(view).(info := view.info[t := Info(t.arg, t.u)]), mem[t := Rec(READ, null, null)];
      LinksKept(view, s, mem, m);
      alloc, mem, view := alloc + 1, m, s;
    }

    // thread_get
    method Get(typ: ThreadType) returns (t: Thread)
      requires Valid()
      modifies this, mem.Keys`typ, mem.Keys`addType, mem.Keys`next, mem.Keys`prev
      ensures Rep() && Got(old(view), old(mem), t, typ, view, mem)
      ensures t !in old(mem) ==> fresh(t)
    {
      hide NoSharing, Typed, Inv, Delisted, Got, Housed, Contained, ThreadMaster.Rep, ThreadMaster.Valid;
      Parts();
      if heads.unuse.head != null {
        t := heads.unuse.head;
        ListDelete(InUnuse, t);
        RecycledIsGot(old(view), old(mem), t, typ, view, mem);
      } else {
        t := new Thread();
        Enroll(t);
        AllocatedIsGot(old(view), old(mem), t, typ, view, mem);
      }
      Retype(t, typ);
      t.addType := typ;
    }

    method Watch(kind: Kind, i: Info)
      requires Rep()
      modifies this`readfd, this`writefd, this`view
      ensures Rep() && view == Watched(old(view), kind, i)
    {
      hide Linked, HeadsOf, ThreadMaster.HeapsValid, ThreadMaster.Mirrored;
      LinksKept(view, Watched(view, kind, i), mem, mem);
      match kind {
        case ForRead => readfd := readfd + {FdOf(i)};
        case ForWrite => writefd := writefd + {FdOf(i)};
        case _ =>
      }
      view := Watched(view, kind, i);
    }

    // Take a record, fill it in, and set its descriptor.
    method Obtain(kind: Kind, typ: ThreadType, i: Info) returns (t: Thread)
      requires Valid()
      modifies this, mem.Keys
      ensures Rep() && InFlight(view, mem, t, typ) && Obtained(old(view), kind, t, i, view)
      ensures mem.Keys == old(mem).Keys + {t} && (t !in old(mem) ==> fresh(t))
    {
      hide NoSharing, Typed, Inv, Contained, Housed, Loose, Watched, InFlight, Obtained, ThreadMaster.Rep,
        ThreadMaster.Valid;
      Parts();
      t := Get(typ);
      ObtainedInFlight(old(view), old(mem), kind, t, typ, i, view, mem);
      LooseOffHeaps(view, t);
      Refile(t, i);
      Watch(kind, i);
    }

    // Put a record in flight on the list its type names.
    method PutOn(p: Place, t: Thread)
      requires Rep() && InFlight(view, mem, t, TypeOf(p))
      modifies this, mem.Keys`next, mem.Keys`prev
      ensures Rep() && Typed(view, mem) && NoSharing(view)
      ensures view == WithList(old(view), p, ListOf(old(view), p) + [t]) && mem.Keys == old(mem).Keys
    {
      hide NoSharing, Typed, Loose, WithList, ListOf, ThreadMaster.Rep;
      LooseOnLists(view, t);
      ListAdd(p, t);
      EnlistTyped(old(view), old(mem), p, t, view, mem);
      EnlistUnshared(old(view), p, t);
    }

    // What every call that files a record on a list does.
    method FileOnList(kind: Kind, i: Info) returns (t: Thread)
      requires Valid() && !InHeap(kind)
      requires (kind == ForRead ==> FdOf(i) !in view.readfd) && (kind == ForWrite ==> FdOf(i) !in view.writefd)
      modifies this, mem.Keys
      ensures Valid() && CanAdd(old(view), kind, t, i) && view == Add(old(view), kind, t, i)
      ensures mem.Keys == old(mem).Keys + {t} && (t !in old(mem) ==> fresh(t))
    {
      hide NoSharing, Typed, Inv, Contained, Housed, Loose, Add, Watched, InFlight, ThreadMaster.Rep,
        ThreadMaster.Valid;
      Parts();
      t := Obtain(kind, TypeOf(PlaceOf(kind)), i);
      ListingAdds(old(view), kind, t, i, view);
      PutOn(PlaceOf(kind), t);
      AddKeeps(old(view), kind, t, i);
      Whole();
    }

    // Take a record off one list and put it at the end of another.
    method Move(p: Place, q: Place, t: Thread)
      requires Rep() && Typed(view, mem) && NoSharing(view) && t in ListOf(view, p) && Distinct(ListOf(view, p))
        && p != q
      modifies this, mem.Keys`typ, mem.Keys`next, mem.Keys`prev
      ensures Rep() && Typed(view, mem) && NoSharing(view)
      ensures view == Moved(old(view), p, q, t) && mem.Keys == old(mem).Keys
    {
      hide NoSharing, Typed, Distinct, Delisted, InFlight, ThreadMaster.Rep;
      ListDelete(p, t);
      DelistInFlight(old(view), old(mem), p, t, TypeOf(q), view, mem);
      Retype(t, TypeOf(q));
      PutOn(q, t);
    }

    // THREAD_FD, where it means anything.
    method DescriptorOf(t: Thread) returns (fd: int)
      requires Rep() && t in view.info
      ensures fd == FdOf(view.info[t])
    {
      fd := FdOf(Info(t.arg, t.u));
    }

    function Heap(foreground: bool): Pqueue {
      if foreground then timer else background
    }

    // A heap holds q now.
    ghost method SetQueued(foreground: bool, q: set<Thread>)
      requires Mirrored() && Filed() && Headed() && HeapsValid() && Linked(view, mem) && mem.Keys == view.info.Keys
      requires timer.members == (if foreground then q else view.timer)
      requires background.members == (if foreground then view.background else q)
      modifies this`view
      ensures Rep() && view == WithQueued(old(view), foreground, q)
    {
      hide Linked, HeadsOf, ThreadMaster.HeapsValid, ThreadMaster.Mirrored;
      LinksKept(view, WithQueued(view, foreground, q), mem, mem);
      view := WithQueued(view, foreground, q);
    }

    // Put a record in flight in the heap its type names.
    method Enheap(foreground: bool, t: Thread)
      requires Rep() && InFlight(view, mem, t, HeapType(foreground))
      modifies this`view, timer, background, timer.slots, background.slots, view.info.Keys`index
      ensures Rep() && Typed(view, mem) && view == WithQueued(old(view), foreground, Queued(old(view), foreground)
        + {t})
      ensures timer.slots == old(timer.slots) || fresh(timer.slots)
      ensures background.slots == old(background.slots) || fresh(background.slots)
    {
      hide Linked, HeadsOf, InFlight, Typed, NoSharing, ThreadMaster.Mirrored, Pqueue.Valid;
      EnheapTyped(view, mem, foreground, t);
      HeapsApart(view);
      if foreground {
        timer.Enqueue(t);
      } else {
        background.Enqueue(t);
      }
      SetQueued(foreground, Queued(view, foreground) + {t});
    }

    method FileInHeap(foreground: bool, i: Info) returns (t: Thread)
      requires Valid()
      modifies this, mem.Keys, timer, background, timer.slots, background.slots
      ensures var kind := if foreground then ForTimer else ForBackground;
        Valid() && CanAdd(old(view), kind, t, i) && view == Add(old(view), kind, t, i)
      ensures mem.Keys == old(mem).Keys + {t} && (t !in old(mem) ==> fresh(t))
      ensures timer.slots == old(timer.slots) || fresh(timer.slots)
      ensures background.slots == old(background.slots) || fresh(background.slots)
    {
      hide NoSharing, Typed, Inv, Contained, Housed, Loose, Watched, InFlight, ThreadMaster.Rep, ThreadMaster.Valid;
      var kind := if foreground then ForTimer else ForBackground;
      Parts();
      t := Obtain(kind, HeapType(foreground), i);
      QueueingAdds(old(view), foreground, t, i, view);
      RepKeys();
      Enheap(foreground, t);
      AddKeeps(old(view), kind, t, i);
      Whole();
    }

    // Remove a record from the middle of a heap, through its back-pointer.
    method HeapRemove(foreground: bool, t: Thread)
      requires Rep() && NoSharing(view) && t in Queued(view, foreground)
      modifies this`view, timer, background, timer.slots, background.slots, view.info.Keys`index
      ensures Rep() && view == WithQueued(old(view), foreground, Queued(old(view), foreground) - {t})
      ensures timer.slots == old(timer.slots) && background.slots == old(background.slots)
    {
      hide Linked, HeadsOf, NoSharing, ThreadMaster.Mirrored, Pqueue.Valid;
      HeapsApart(view);
      if foreground {
        timer.RemoveMember(t);
      } else {
        background.RemoveMember(t);
      }
      SetQueued(foreground, Queued(view, foreground) - {t});
    }

    method HeapPop(foreground: bool) returns (t: Thread)
      requires Rep() && NoSharing(view) && Heap(foreground).size > 0
      modifies this`view, timer, background, timer.slots, background.slots, view.info.Keys`index
      ensures Rep() && t in Queued(old(view), foreground)
      ensures view == WithQueued(old(view), foreground, Queued(old(view), foreground) - {t})
      ensures timer.slots == old(timer.slots) && background.slots == old(background.slots)
      ensures t == old(Heap(foreground).slots[0])
    {
      hide Linked, HeadsOf, NoSharing, ThreadMaster.Mirrored, Pqueue.Valid;
      HeapsApart(view);
      if foreground {
        t := timer.Dequeue();
      } else {
        t := background.Dequeue();
      }
      SetQueued(foreground, Queued(view, foreground) - {t});
    }

    method Unwatch(p: Place, fd: int)
      requires Rep()
      modifies this`readfd, this`writefd, this`view
      ensures Rep() && view == Unwatched(old(view), p, fd)
    {
      hide Linked, HeadsOf, ThreadMaster.HeapsValid, ThreadMaster.Mirrored;
      LinksKept(view, Unwatched(view, p, fd), mem, mem);
      match p {
        case InRead => readfd := readfd - {fd};
        case InWrite => writefd := writefd - {fd};
        case _ =>
      }
      view := Unwatched(view, p, fd);
    }

    // thread_cancel of a record that is on a list.
    method CancelListed(p: Place, t: Thread)
      requires Valid() && t in ListOf(view, p) && p != InUnuse && t in view.info
      modifies this, mem.Keys`typ, mem.Keys`next, mem.Keys`prev
      ensures Valid() && view == SchedulerSpec.Cancel(old(view), t) && mem.Keys == old(mem).Keys
    {
      hide NoSharing, Typed, Inv, Contained, Housed, Unwatched, Moved, Distinct;
      hide ThreadMaster.Rep, ThreadMaster.Valid, SchedulerSpec.Cancel;
      Parts();
      ListDistinct(view, p);
      var fd := DescriptorOf(t);
      CancelOffList(view, p, t);
      CancelKeeps(view, t);
      UnwatchKeeps(view, mem, p, fd);
      Unwatch(p, fd);
      Move(p, InUnuse, t);
      Whole();
    }

    // thread_cancel of a record that is in a heap.
    method CancelQueued(foreground: bool, t: Thread)
      requires Valid() && t in Queued(view, foreground) && t in view.info
      modifies this, mem.Keys, timer, background, timer.slots, background.slots
      ensures Valid() && view == SchedulerSpec.Cancel(old(view), t) && mem.Keys == old(mem).Keys
      ensures timer.slots == old(timer.slots) && background.slots == old(background.slots)
    {
      hide NoSharing, Typed, Inv, Contained, Housed, InFlight, HeadsOf;
      hide ThreadMaster.Rep, ThreadMaster.Valid, SchedulerSpec.Cancel;
      Parts();
      CancelOffHeap(view, foreground, t);
      CancelKeeps(view, t);
      DeheapInFlight(view, mem, foreground, t, UNUSED);
      HeapRemove(foreground, t);
      Retype(t, UNUSED);
      PutOn(InUnuse, t);
      Whole();
    }

    method TypeIn(t: Thread) returns (typ: ThreadType)
      requires Rep() && t in mem
      ensures typ == mem[t].typ
    {
      typ := t.typ;
    }

    // thread_cancel
    method Cancel(t: Thread)
      requires Valid() && t in view.info
      modifies this, mem.Keys, timer, background, timer.slots, background.slots
      ensures Valid() && view == SchedulerSpec.Cancel(old(view), t) && mem.Keys == old(mem).Keys
      ensures timer.slots == old(timer.slots) && background.slots == old(background.slots)
    {
      hide NoSharing, Typed, Inv, Contained, Housed, ThreadMaster.Rep, ThreadMaster.Valid;
      Parts();
      Located(view, mem, t);
      var typ := TypeIn(t);
      match typ {
        case READ => CancelListed(InRead, t);
        case WRITE => CancelListed(InWrite, t);
        case EVENT => CancelListed(InEvent, t);
        case READY => CancelListed(InReady, t);
        case TIMER => CancelQueued(true, t);
        case BACKGROUND => CancelQueued(false, t);
        case UNUSED => assert TypeOf(InUnuse) == UNUSED;
        case EXECUTE =>
      }
    }

    lemma RepDistinct(p: Place)
      requires Rep()
      ensures Distinct(ListOf(view, p)) && GetHead(heads, p) == HeadOf(ListOf(view, p))
    {
      LinkedIs(view, mem);
    }

    // thread->next
    method Successor(p: Place, t: Thread, ghost i: int) returns (next: Thread?)
      requires Rep() && 0 <= i < |ListOf(view, p)| && ListOf(view, p)[i] == t
      ensures next == Nth(ListOf(view, p), i + 1)
    {
      LinkedIs(view, mem);
      assert Chain(ListOf(view, p), mem) && LinkedAt(ListOf(view, p), mem, i);
      next := t.next;
    }

    method ArgumentOf(t: Thread) returns (arg: int)
      requires Rep() && t in view.info
      ensures arg == view.info[t].arg
    {
      arg := t.arg;
    }

    // One of the two loops of thread_cancel_event.
    method SweepArgument(p: Place, arg: int) returns (n: nat)
      requires Rep() && Typed(view, mem) && NoSharing(view) && p != InUnuse
      modifies this, mem.Keys`typ, mem.Keys`next, mem.Keys`prev
      ensures Rep() && Typed(view, mem) && NoSharing(view) && mem.Keys == old(mem).Keys
      ensures var l, gone := ListOf(old(view), p), WithArg(old(view), arg);
        view == SweptTo(old(view), p, InUnuse, gone, |l|) && n == |Keep(l, gone)|
    {
      hide NoSharing, Typed, SweptTo, Moved, Erase, Keep, GetHead, ListOf, HeadsOf, Contained, ThreadMaster.Rep;
      ghost var s, l, gone, k := view, ListOf(view, p), WithArg(view, arg), 0;
      SweepStart(s, p, InUnuse, gone);
      RepDistinct(p);
      n := 0;
      KeepNone(l, gone);
      var thread := GetHead(heads, p).head;
      while thread != null
        invariant 0 <= k <= |l| && thread == Nth(l, k) && n == |Keep(l[..k], gone)|
        invariant Rep() && Typed(view, mem) && NoSharing(view) && mem.Keys == old(mem).Keys
        invariant view == SweptTo(s, p, InUnuse, gone, k)
        decreases |l| - k
      {
        var t := thread;
        SweepNext(s, p, InUnuse, gone, k);
        thread := Successor(p, t, |Erase(l[..k], gone)|);
        SweptSame(s, p, InUnuse, gone, k);
        UnsharedHas(view, p, t);
        KeepNext(l, k, gone);
        var a := ArgumentOf(t);
        if a == arg {
          n := n + 1;
          RepDistinct(p);
          SweepHit(s, p, InUnuse, gone, k);
          Move(p, InUnuse, t);
        } else {
          SweepMiss(s, p, InUnuse, gone, k);
        }
        k := k + 1;
      }
      assert l[..k] == l;
    }

    // thread_cancel_event
    method CancelEvent(arg: int) returns (n: nat)
      requires Valid()
      modifies this, mem.Keys`typ, mem.Keys`next, mem.Keys`prev
      ensures Valid() && view == SchedulerSpec.CancelEvent(old(view), arg) && mem.Keys == old(mem).Keys
      ensures var s, gone := old(view), WithArg(old(view), arg); n == |Keep(s.event, gone)| + |Keep(s.ready, gone)|
    {
      hide NoSharing, Typed, Inv, Housed, Contained, SweptTo, ThreadMaster.Rep, ThreadMaster.Valid;
      hide SchedulerSpec.CancelEvent;
      Parts();
      CancelEventKeeps(view, arg);
      SweepsCancel(view, arg);
      var fromEvent := SweepArgument(InEvent, arg);
      var fromReady := SweepArgument(InReady, arg);
      n := fromEvent + fromReady;
      Whole();
    }

    // The loop of thread_process.
    method SweepEvents(ghost gone: set<Thread>)
      requires Rep() && Typed(view, mem) && NoSharing(view) && forall t :: t in view.event ==> t in gone
      modifies this, mem.Keys`typ, mem.Keys`next, mem.Keys`prev
      ensures Rep() && Typed(view, mem) && NoSharing(view) && mem.Keys == old(mem).Keys
      ensures view == SweptTo(old(view), InEvent, InReady, gone, |old(view).event|)
    {
      hide NoSharing, Typed, SweptTo, Moved, ThreadMaster.Rep;
      ghost var s, l, k := view, ListOf(view, InEvent), 0;
      SweepStart(s, InEvent, InReady, gone);
      RepDistinct(InEvent);
      var thread := GetHead(heads, InEvent).head;
      while thread != null
        invariant 0 <= k <= |l| && thread == Nth(l, k)
        invariant Rep() && Typed(view, mem) && NoSharing(view) && mem.Keys == old(mem).Keys
        invariant view == SweptTo(s, InEvent, InReady, gone, k)
        decreases |l| - k
      {
        var t := thread;
        SweepNext(s, InEvent, InReady, gone, k);
        thread := Successor(InEvent, t, |Erase(l[..k], gone)|);
        RepDistinct(InEvent);
        SweepHit(s, InEvent, InReady, gone, k);
        Move(InEvent, InReady, t);
        k := k + 1;
      }
    }

    // thread_process on the event list
    method ProcessEvents()
      requires Valid()
      modifies this, mem.Keys`typ, mem.Keys`next, mem.Keys`prev
      ensures Valid() && view == Promote(old(view)) && mem.Keys == old(mem).Keys
    {
      hide NoSharing, Typed, SweptTo, Inv, Housed, Contained, Promote, ThreadMaster.Rep, ThreadMaster.Valid;
      Parts();
      ghost var gone := set t | t in view.event;
      PromoteKeeps(view);
      SweepPromotes(view, gone);
      SweepEvents(gone);
      Whole();
    }

    // The loop of thread_process_fd; cleared collects the descriptors passed to FD_CLR.
    method SweepFd(reading: bool, fdset: set<int>, ghost gone: set<Thread>) returns (ghost cleared: set<int>)
      requires Rep() && Typed(view, mem) && NoSharing(view)
      requires forall t :: t in ListOf(view, FdPlace(reading)) ==>
        t in view.info && (t in gone <==> FdOf(view.info[t]) in fdset)
      modifies this, mem.Keys`typ, mem.Keys`next, mem.Keys`prev
      ensures Rep() && Typed(view, mem) && NoSharing(view) && mem.Keys == old(mem).Keys && cleared <= fdset
      ensures var s, l := old(view), ListOf(old(view), FdPlace(reading));
        && view == WokenTo(s, reading, gone, |l|, cleared)
        && forall i :: 0 <= i < |l| && l[i] in gone ==> l[i] in s.info && FdOf(s.info[l[i]]) in cleared
    {
      hide NoSharing, Typed, WokenTo, Erase, Keep, GetHead, ListOf, FdPlace, HeadsOf, Contained, ThreadMaster.Rep;
      var p := FdPlace(reading);
      ghost var s, l, k := view, ListOf(view, p), 0;
      cleared := {};
      WokenStart(s, reading, gone);
      RepDistinct(p);
      var thread := GetHead(heads, p).head;
      while thread != null
        invariant 0 <= k <= |l| && thread == Nth(l, k) && cleared <= fdset
        invariant forall i :: 0 <= i < k && l[i] in gone ==> l[i] in s.info && FdOf(s.info[l[i]]) in cleared
        invariant Rep() && Typed(view, mem) && NoSharing(view) && mem.Keys == old(mem).Keys
        invariant view == WokenTo(s, reading, gone, k, cleared)
        decreases |l| - k
      {
        var t := thread;
        WokenNext(s, reading, gone, k, cleared);
        thread := Successor(p, t, |Erase(l[..k], gone)|);
        UnsharedHas(view, p, t);
        assert l[k] in l;
        var fd := DescriptorOf(t);
        if fd in fdset {
          Wakeup(reading, t, fd, s, gone, k, cleared);
          cleared := cleared + {fd};
        } else {
          WokenMiss(s, reading, gone, k, cleared);
        }
        k := k + 1;
      }
    }

    // FD_CLR and the move to the ready list, for record k of the list swept.
    method Wakeup(reading: bool, t: Thread, fd: int,
        ghost s: Sched<Thread>, ghost gone: set<Thread>, ghost k: nat, ghost cleared: set<int>)
      requires Rep() && Typed(view, mem) && NoSharing(view)
      requires k < |ListOf(s, FdPlace(reading))| && t == ListOf(s, FdPlace(reading))[k] && t in gone
      requires view == WokenTo(s, reading, gone, k, cleared)
      modifies this, mem.Keys`typ, mem.Keys`next, mem.Keys`prev
      ensures Rep() && Typed(view, mem) && NoSharing(view) && mem.Keys == old(mem).Keys
      ensures view == WokenTo(s, reading, gone, k + 1, cleared + {fd})
    {
      hide NoSharing, Typed, Moved, Unwatched, WokenTo, ThreadMaster.Rep;
      RepDistinct(FdPlace(reading));
      WokenHit(s, reading, gone, k, cleared, fd);
      UnwatchKeeps(view, mem, FdPlace(reading), fd);
      Unwatch(FdPlace(reading), fd);
      Move(FdPlace(reading), InReady, t);
    }

    // thread_process_fd on the read or the write list, with the descriptors select reported
    method ProcessFd(reading: bool, fdset: set<int>)
      requires Valid()
      modifies this, mem.Keys`typ, mem.Keys`next, mem.Keys`prev
      ensures Valid() && Contained(old(view)) && view == Wake(old(view), reading, fdset) && mem.Keys == old(mem).Keys
    {
      hide NoSharing, Typed, WokenTo, Inv, Housed, Contained, Wake, ThreadMaster.Rep, ThreadMaster.Valid;
      Parts();
      ghost var s := view;
      ListContained(s, FdPlace(reading));
      WakeKeeps(s, reading, fdset);
      ghost var cleared := SweepFd(reading, fdset, OnFd(s, ListOf(s, FdPlace(reading)), fdset));
      WokenEnd(s, reading, fdset, cleared);
      Whole();
    }

    // The first statements of thread_run, and the move to the unuse list.
    method RunHead() returns (t: Thread)
      requires Valid() && view.ready != []
      modifies this, mem.Keys`typ, mem.Keys`next, mem.Keys`prev
      ensures Valid() && t == old(view).ready[0] && view == Run(old(view)) && mem.Keys == old(mem).Keys
    {
      hide NoSharing, Typed, Inv, Housed, Contained, Moved, ThreadMaster.Rep, ThreadMaster.Valid;
      Parts();
      RunKeeps(view);
      ListDistinct(view, InReady);
      RunMoves(view);
      RepDistinct(InReady);
      t := GetHead(heads, InReady).head;
      Move(InReady, InUnuse, t);
      Whole();
    }

    method HeapEmpty(foreground: bool) returns (empty: bool)
      requires Rep()
      ensures empty <==> Queued(view, foreground) == {}
      ensures !empty ==> Heap(foreground).size > 0
    {
      empty := Heap(foreground).size == 0;
      assert Heap(foreground).size > 0 ==> Heap(foreground).items[0] in Heap(foreground).members;
      assert forall t :: t in Heap(foreground).members ==> t.index < Heap(foreground).size;
    }

    // The record at the top of a heap, and whether its time has come.
    method TopDue(foreground: bool, now: Timeval) returns (due: bool, t: Thread)
      requires Rep() && Contained(view) && Heap(foreground).size > 0
      ensures t == Heap(foreground).slots[0] && t in Queued(view, foreground) && t in view.info
      ensures due <==> Cmp(now, Expiry(view.info[t].u)) >= 0
      ensures forall y :: y in Queued(view, foreground) ==>
        y in view.info && Cmp(Expiry(view.info[t].u), Expiry(view.info[y].u)) <= 0
    {
      hide Linked, HeadsOf;
      t := Heap(foreground).Top();
      due := Cmp(now, Expiry(t.u)) >= 0;
    }

    // Move the earliest timer to the ready list.
    method PopTop(foreground: bool, t: Thread)
      requires Rep() && Typed(view, mem) && NoSharing(view) && Heap(foreground).size > 0
      requires t == Heap(foreground).slots[0] && t in Queued(view, foreground)
      modifies this, mem.Keys, timer, background, timer.slots, background.slots
      ensures Rep() && Typed(view, mem) && NoSharing(view) && mem.Keys == old(mem).Keys
      ensures timer.slots == old(timer.slots) && background.slots == old(background.slots)
      ensures var s := old(view);
        view == WithList(WithQueued(s, foreground, Queued(s, foreground) - {t}), InReady, s.ready + [t])
    {
      hide NoSharing, Typed, InFlight, ThreadMaster.Rep;
      DeheapInFlight(view, mem, foreground, t, READY);
      RepKeys();
      var popped := HeapPop(foreground);
      Retype(t, READY);
      PutOn(InReady, t);
    }

    // One trip of the loop of thread_timer_process: stop at a timer that is not due, or move it.
    method PopStep(foreground: bool, now: Timeval, ghost s: Sched<Thread>, ghost q: seq<Thread>) returns (due: bool,
        t: Thread)
      requires Rep() && Typed(view, mem) && NoSharing(view) && Heap(foreground).size > 0
      requires Popping(s, foreground, q, now) && view == Pop(s, foreground, q)
      modifies this, mem.Keys, timer, background, timer.slots, background.slots
      ensures Rep() && Typed(view, mem) && NoSharing(view) && mem.Keys == old(mem).Keys
      ensures timer.slots == old(timer.slots) && background.slots == old(background.slots)
      ensures var r := if due then q + [t] else q; Popping(s, foreground, r, now) && view == Pop(s, foreground, r)
      ensures due ==> t in Queued(old(view), foreground)
      ensures if due then Queued(view, foreground) == Queued(old(view), foreground) - {t}
        else Contained(s) && InExpiryOrder(s, q, Due(s, Queued(s, foreground), now))
    {
      hide NoSharing, Typed, Popping, Pop, ThreadMaster.Rep, InExpiryOrder;
      PoppedQueue(s, foreground, q);
      UnsharedContained(view);
      due, t := TopDue(foreground, now);
      if due {
        PoppedMore(s, foreground, q, now, t);
        PopOne(s, foreground, q, t);
        PopTop(foreground, t);
      } else {
        forall y | y in Queued(view, foreground) ensures Cmp(now, Expiry(s.info[y].u)) < 0 {
          EarlierStill(now, Expiry(s.info[t].u), Expiry(s.info[y].u));
        }
        PoppedAll(s, foreground, q, now);
      }
    }

    // The loop of thread_timer_process.
    method PopLoop(foreground: bool, now: Timeval) returns (ghost q: seq<Thread>)
      requires Rep() && Typed(view, mem) && NoSharing(view)
      modifies this, mem.Keys, timer, background, timer.slots, background.slots
      ensures Rep() && Typed(view, mem) && NoSharing(view) && mem.Keys == old(mem).Keys
      ensures timer.slots == old(timer.slots) && background.slots == old(background.slots)
      ensures Contained(old(view)) && InExpiryOrder(old(view), q, Due(old(view), Queued(old(view), foreground), now))
      ensures view == Pop(old(view), foreground, q)
    {
      hide NoSharing, Typed, Popping, Pop, ThreadMaster.Rep, InExpiryOrder, Contained, Due;
      ghost var s := view;
      q := [];
      UnsharedContained(s);
      NothingPopped(s, foreground, now);
      var empty := HeapEmpty(foreground);
      while !empty
        invariant Rep() && Typed(view, mem) && NoSharing(view) && mem.Keys == old(mem).Keys
        invariant timer.slots == old(timer.slots) && background.slots == old(background.slots)
        invariant Popping(s, foreground, q, now) && view == Pop(s, foreground, q)
        invariant empty <==> Queued(view, foreground) == {}
        invariant !empty ==> Heap(foreground).size > 0
        decreases Queued(view, foreground)
      {
        var due, t := PopStep(foreground, now, s, q);
        if !due {
          return;
        }
        q := q + [t];
        empty := HeapEmpty(foreground);
      }
      PoppedQueue(s, foreground, q);
      PoppedAll(s, foreground, q, now);
    }

    // thread_timer_process on the foreground or the background heap
    method ProcessTimers(foreground: bool, now: Timeval) returns (ghost q: seq<Thread>)
      requires Valid()
      modifies this, mem.Keys, timer, background, timer.slots, background.slots
      ensures Valid() && mem.Keys == old(mem).Keys
      ensures timer.slots == old(timer.slots) && background.slots == old(background.slots)
      ensures Contained(old(view)) && InExpiryOrder(old(view), q, Due(old(view), Queued(old(view), foreground), now))
      ensures view == Pop(old(view), foreground, q)
    {
      hide NoSharing, Typed, Inv, Housed, Contained, Pop, ThreadMaster.Rep, ThreadMaster.Valid;
      Parts();
      q := PopLoop(foreground, now);
      PopKeeps(old(view), foreground, q);
      Whole();
    }

    // What thread_fetch does with what select reports, after the foreground timers.
    method ProcessReports(o: Outcome, readable: set<int>, writable: set<int>)
      returns (ghost mid: Sched<Thread>)
      requires Valid() && o.Selected?
      requires readable == o.readable * view.readfd && writable == o.writable * view.writefd
      modifies this, mem.Keys`typ, mem.Keys`next, mem.Keys`prev
      ensures Valid() && mem.Keys == old(mem).Keys
      ensures Contained(old(view)) && mid == Wake(old(view), true, o.readable)
      ensures Contained(mid) && view == Wake(mid, false, o.writable)
    {
      hide NoSharing, Typed, Inv, Housed, Contained, Wake, ThreadMaster.Rep, ThreadMaster.Valid;
      var num := |readable| + |writable|;
      Parts();
      ghost var s := view;
      WakeSelected(s, true, o.readable);
      if num > 0 {
        ProcessFd(true, readable);
      }
      mid := view;
      Parts();
      WokenReports(s, o.readable);
      WakeSelected(mid, false, o.writable);
      if num > 0 {
        ProcessFd(false, writable);
      }
    }

    // What thread_fetch does once select has returned num >= 0, given the state s at the top of its loop.
    method FinishPass(o: Outcome, ghost s: Sched<Thread>) returns (ghost fg: seq<Thread>, ghost bg: seq<Thread>)
      requires Valid() && Inv(s) && view == Promote(s) && o.Selected?
      modifies this, mem.Keys, timer, background, timer.slots, background.slots
      ensures Valid() && Pass(s, o, fg, bg, view) && mem.Keys == old(mem).Keys
      ensures timer.slots == old(timer.slots) && background.slots == old(background.slots)
    {
      hide NoSharing, Typed, Inv, Housed, Contained, Pop, Wake, Promote, Pass, ThreadMaster.Rep, ThreadMaster.Valid;
      hide InExpiryOrder, Due;
      // the fd_sets that select leaves in its arguments
      var readable, writable := Reported(o);
      fg := ProcessTimers(true, o.now);
      ghost var s2 := view;
      Reports(s, fg);
      ghost var s3 := ProcessReports(o, readable, writable);
      ghost var s4 := view;
      bg := ProcessTimers(false, o.now);
      PassParts(s, o, fg, bg, s2, s3, s4);
    }

    method Reported(o: Outcome) returns (readable: set<int>, writable: set<int>)
      requires Valid() && o.Selected?
      ensures readable == o.readable * view.readfd && writable == o.writable * view.writefd
    {
      readable, writable := o.readable * readfd, o.writable * writefd;
    }

    method IsReady() returns (some: bool)
      requires Valid()
      ensures some <==> view.ready != []
    {
      HeadsReady(view);
      some := heads.ready.head != null;
    }

    method Copy(t: Thread) returns (arg: int, u: Payload)
      requires Valid() && t in view.info
      ensures Info(arg, u) == view.info[t]
    {
      arg, u := t.arg, t.u;
    }

    // One trip of the loop of thread_fetch that found nothing ready and does not end the call.
    method GoRound(o: Outcome) returns (ghost fg: seq<Thread>, ghost bg: seq<Thread>)
      requires Valid() && view.ready == [] && !o.Failed?
      modifies this, mem.Keys, timer, background, timer.slots, background.slots
      ensures Valid() && Loops(Trip(old(view), fg, bg), o, view) && mem.Keys == old(mem).Keys
      ensures timer.slots == old(timer.slots) && background.slots == old(background.slots)
    {
      hide NoSharing, Typed, Inv, Housed, Contained, Promote, Pass, ThreadMaster.Rep, ThreadMaster.Valid;
      Parts();
      fg, bg := [], [];
      ProcessEvents();
      if o.Selected? {
        fg, bg := FinishPass(o, old(view));
      }
    }

    // thread_fetch, given what its calls of select report one after the other
    method Fetch(env: seq<Outcome>) returns (fetch: Fetched, ghost trips: seq<Trip<Thread>>)
      requires Valid()
      modifies this, mem.Keys, timer, background, timer.slots, background.slots
      ensures Valid() && SchedulerSpec.Fetch(old(view), env, trips, Out(fetch), view)
      ensures fetch.Ran? ==> fetch.t in view.info && Info(fetch.arg, fetch.u) == view.info[fetch.t]
      ensures fetch.Null? ==> |trips| <= |env| && env[|trips| - 1].Failed?
      ensures mem.Keys == old(mem).Keys && timer.slots == old(timer.slots) && background.slots == old(background.slots)
    {
      hide NoSharing, Typed, Inv, Housed, Promote, Run, Pass, Looped, Loops, ThreadMaster.Rep, ThreadMaster.Valid;
      hide SchedulerSpec.Fetch;
      ghost var s := view;
      trips := [];
      LoopedNone(s, env);
      var i := 0;
      while true
        invariant 0 <= i == |trips| <= |env| && Valid() && Looped(s, env, trips, view)
        invariant mem.Keys == old(mem).Keys && timer.slots == old(timer.slots)
          && background.slots == old(background.slots)
        decreases |env| - i
      {
        ghost var top := view;
        var some := IsReady();
        if some {
          var t := RunHead();
          Parts();
          RunHolds(top);
          var arg, u := Copy(t);
          LoopedDone(s, env, trips, top, [t], view);
          trips := trips + [Trip(top, [], [])];
          return Ran(t, arg, u), trips;
        }
        if i == |env| || env[i].Failed? {
          ProcessEvents();
          LoopedDone(s, env, trips, top, [], view);
          trips := trips + [Trip(top, [], [])];
          return if i == |env| then Waiting else Null, trips;
        }
        ghost var fg, bg := GoRound(env[i]);
        LoopedMore(s, env, trips, Trip(top, fg, bg), view);
        trips := trips + [Trip(top, fg, bg)];
        i := i + 1;
      }
    }

    // thread_add_read: NULL if the descriptor is already waited on
    method AddRead(fd: int, arg: int) returns (t: Thread?)
      requires Valid()
      modifies this, mem.Keys
      ensures Valid()
      ensures if fd in old(view).readfd then t == null && view == old(view)
        else (
          var i := Info(arg, Fd(fd));
          t != null && CanAdd(old(view), ForRead, t, i) && view == Add(old(view), ForRead, t, i))
      ensures t != null ==>
        && view.read == old(view).read + [t] && view.readfd == old(view).readfd + {fd}
        && view.info == old(view).info[t := Info(arg, Fd(fd))]
      ensures mem.Keys == old(mem).Keys + (if t == null then {} else {t})
      ensures t != null && t !in old(mem) ==> fresh(t)
    {
      hide NoSharing, Typed, Inv, Housed, Contained, Add, CanTake, ThreadMaster.Rep;
      var isSet := IsSet(ForRead, fd);
      if isSet {
        return null;
      }
      ValidInv();
      t := FileOnList(ForRead, Info(arg, Fd(fd)));
      AddSays(old(view), ForRead, t, Info(arg, Fd(fd)));
    }

    method AddWrite(fd: int, arg: int) returns (t: Thread?)
      requires Valid()
      modifies this, mem.Keys
      ensures Valid()
      ensures if fd in old(view).writefd then t == null && view == old(view)
        else (
          var i := Info(arg, Fd(fd));
          t != null && CanAdd(old(view), ForWrite, t, i) && view == Add(old(view), ForWrite, t, i))
      ensures t != null ==>
        && view.write == old(view).write + [t] && view.writefd == old(view).writefd + {fd}
        && view.info == old(view).info[t := Info(arg, Fd(fd))]
      ensures mem.Keys == old(mem).Keys + (if t == null then {} else {t})
      ensures t != null && t !in old(mem) ==> fresh(t)
    {
      hide NoSharing, Typed, Inv, Housed, Contained, Add, CanTake, ThreadMaster.Rep;
      var isSet := IsSet(ForWrite, fd);
      if isSet {
        return null;
      }
      ValidInv();
      t := FileOnList(ForWrite, Info(arg, Fd(fd)));
      AddSays(old(view), ForWrite, t, Info(arg, Fd(fd)));
    }

    // FD_ISSET
    method IsSet(kind: Kind, fd: int) returns (b: bool)
      requires Valid()
      ensures b <==> if kind == ForRead then fd in view.readfd else fd in view.writefd
    {
      b := if kind == ForRead then fd in readfd else fd in writefd;
    }

    method AddEvent(val: int, arg: int) returns (t: Thread)
      requires Valid()
      modifies this, mem.Keys
      ensures Valid() && CanAdd(old(view), ForEvent, t, Info(arg, Val(val)))
      ensures view == Add(old(view), ForEvent, t, Info(arg, Val(val)))
      ensures view.event == old(view).event + [t] && view.info == old(view).info[t := Info(arg, Val(val))]
      ensures mem.Keys == old(mem).Keys + {t} && (t !in old(mem) ==> fresh(t))
    {
      hide NoSharing, Typed, Inv, Housed, Contained, Add, CanTake, ThreadMaster.Rep;
      ValidInv();
      t := FileOnList(ForEvent, Info(arg, Val(val)));
      AddSays(old(view), ForEvent, t, Info(arg, Val(val)));
    }

    method Adjusted(now: Timeval, wait: Timeval) returns (alarm: Timeval)
      requires Valid()
      ensures Valid() && alarm == Alarm(now, wait)
    {
      hide Clamped, ThreadMaster.Rep;
      alarm := Adjust(Timeval(now.sec + wait.sec, now.usec + wait.usec));
    }

    // thread_add_timer_timeval, given the clock reading it takes
    method AddTimeval(foreground: bool, arg: int, now: Timeval, wait: Timeval) returns (t: Thread)
      requires Valid()
      modifies this, mem.Keys, timer, background, timer.slots, background.slots
      ensures var kind := if foreground then ForTimer else ForBackground;
        var i := Info(arg, At(Alarm(now, wait)));
        Valid() && CanAdd(old(view), kind, t, i) && view == Add(old(view), kind, t, i)
      ensures (if foreground then view.timer == old(view).timer + {t} && view.background == old(view).background
          else view.background == old(view).background + {t} && view.timer == old(view).timer)
        && t in view.info && view.info[t].arg == arg && view.info[t].u.At?
        && Spells(view.info[t].u.at, now.sec * 1000000 + now.usec + (wait.sec * 1000000 + wait.usec))
      ensures mem.Keys == old(mem).Keys + {t} && (t !in old(mem) ==> fresh(t))
      ensures timer.slots == old(timer.slots) || fresh(timer.slots)
      ensures background.slots == old(background.slots) || fresh(background.slots)
    {
      hide NoSharing, Typed, Inv, Housed, Contained, Add, CanTake, ThreadMaster.Rep, ThreadMaster.Valid;
      var alarm := Adjusted(now, wait);
      ValidInv();
      t := FileInHeap(foreground, Info(arg, At(alarm)));
      AddSays(old(view), if foreground then ForTimer else ForBackground, t, Info(arg, At(alarm)));
      AlarmSpells(now, wait);
    }

    // thread_add_timer, in seconds
    method AddTimer(arg: int, now: Timeval, seconds: int) returns (t: Thread)
      requires Valid()
      modifies this, mem.Keys, timer, background, timer.slots, background.slots
      ensures var i := Info(arg, At(Alarm(now, Timeval(seconds, 0))));
        Valid() && CanAdd(old(view), ForTimer, t, i) && view == Add(old(view), ForTimer, t, i)
      ensures view.timer == old(view).timer + {t} && view.background == old(view).background
        && t in view.info && view.info[t].arg == arg && view.info[t].u.At?
        && Spells(view.info[t].u.at, now.sec * 1000000 + now.usec + 1000000 * seconds)
      ensures mem.Keys == old(mem).Keys + {t} && (t !in old(mem) ==> fresh(t))
      ensures timer.slots == old(timer.slots) || fresh(timer.slots)
      ensures background.slots == old(background.slots) || fresh(background.slots)
    {
      hide NoSharing, Typed, Inv, Housed, Contained, Add, CanTake, Alarm, ThreadMaster.Rep, ThreadMaster.Valid;
      t := AddTimeval(true, arg, now, Timeval(seconds, 0));
    }

    // thread_add_timer_msec: the span is split with C division, which truncates
    method AddTimerMsec(arg: int, now: Timeval, millis: int) returns (t: Thread)
      requires Valid()
      modifies this, mem.Keys, timer, background, timer.slots, background.slots
      ensures var i := Info(arg, At(Alarm(now, FromMicros(1000 * millis))));
        Valid() && CanAdd(old(view), ForTimer, t, i) && view == Add(old(view), ForTimer, t, i)
      ensures view.timer == old(view).timer + {t} && view.background == old(view).background
        && t in view.info && view.info[t].arg == arg && view.info[t].u.At?
        && Spells(view.info[t].u.at, now.sec * 1000000 + now.usec + 1000 * millis)
      ensures mem.Keys == old(mem).Keys + {t} && (t !in old(mem) ==> fresh(t))
      ensures timer.slots == old(timer.slots) || fresh(timer.slots)
      ensures background.slots == old(background.slots) || fresh(background.slots)
    {
      hide NoSharing, Typed, Inv, Housed, Contained, Add, CanTake, Alarm, ThreadMaster.Rep, ThreadMaster.Valid;
      MsecAlarm(now, millis);
      t := AddTimeval(true, arg, now, Timeval(CDiv(millis, 1000), 1000 * CMod(millis, 1000)));
    }

    // thread_add_background: the same for the background heap
    method AddBackground(arg: int, now: Timeval, delay: int) returns (t: Thread)
      requires Valid()
      modifies this, mem.Keys, timer, background, timer.slots, background.slots
      ensures var i := Info(arg, At(Alarm(now, FromMicros(1000 * delay))));
        Valid() && CanAdd(old(view), ForBackground, t, i) && view == Add(old(view), ForBackground, t, i)
      ensures view.background == old(view).background + {t} && view.timer == old(view).timer
        && t in view.info && view.info[t].arg == arg && view.info[t].u.At?
        && Spells(view.info[t].u.at, now.sec * 1000000 + now.usec + 1000 * delay)
      ensures mem.Keys == old(mem).Keys + {t} && (t !in old(mem) ==> fresh(t))
      ensures timer.slots == old(timer.slots) || fresh(timer.slots)
      ensures background.slots == old(background.slots) || fresh(background.slots)
    {
      hide NoSharing, Typed, Inv, Housed, Contained, Add, CanTake, Alarm, ThreadMaster.Rep, ThreadMaster.Valid;
      MsecAlarm(now, delay);
      if delay != 0 {
        t := AddTimeval(false, arg, now, Timeval(CDiv(delay, 1000), 1000 * CMod(delay, 1000)));
      } else {
        t := AddTimeval(false, arg, now, Timeval(0, 0));
      }
    }
  }
}
