// How moving records between the containers of a scheduler keeps links, types and homes in order.
module SchedulerMoves {
  import opened Sequences
  import opened Timevals
  import opened SchedulerSpec
  import opened ThreadRecords

  // A record's type names the container it is in, and a record in a heap has no neighbours.
  ghost predicate TypedAt(s: Sched<Thread>, r: Rec, t: Thread) {
    && (t in s.read ==> r.typ == READ) && (t in s.write ==> r.typ == WRITE) && (t in s.event ==> r.typ == EVENT)
    && (t in s.ready ==> r.typ == READY) && (t in s.unuse ==> r.typ == UNUSED)
    && (t in s.timer ==> r == Rec(TIMER, null, null)) && (t in s.background ==> r == Rec(BACKGROUND, null, null))
  }

  ghost predicate Typed(s: Sched<Thread>, m: Memory) {
    Contained(s) && m.Keys == s.info.Keys && forall t :: t in s.info ==> TypedAt(s, m[t], t)
  }

  ghost predicate Linked(s: Sched<Thread>, m: Memory) {
    Chain(s.read, m) && Chain(s.write, m) && Chain(s.event, m) && Chain(s.ready, m) && Chain(s.unuse, m)
  }

  datatype Place = InRead | InWrite | InEvent | InReady | InUnuse

  ghost function ListOf(s: Sched<Thread>, p: Place): seq<Thread> {
    match p
    case InRead => s.read
    case InWrite => s.write
    case InEvent => s.event
    case InReady => s.ready
    case InUnuse => s.unuse
  }

  ghost function WithList(s: Sched<Thread>, p: Place, q: seq<Thread>): Sched<Thread> {
    match p
    case InRead => s.(read := q)
    case InWrite => s.(write := q)
    case InEvent => s.(event := q)
    case InReady => s.(ready := q)
    case InUnuse => s.(unuse := q)
  }

  // The five struct thread_list of a master.
  datatype Heads = Heads(read: Head, write: Head, event: Head, ready: Head, unuse: Head)

  function GetHead(h: Heads, p: Place): Head {
    match p
    case InRead => h.read
    case InWrite => h.write
    case InEvent => h.event
    case InReady => h.ready
    case InUnuse => h.unuse
  }

  function PutHead(h: Heads, p: Place, l: Head): Heads {
    match p
    case InRead => h.(read := l)
    case InWrite => h.(write := l)
    case InEvent => h.(event := l)
    case InReady => h.(ready := l)
    case InUnuse => h.(unuse := l)
  }

  ghost function HeadsOf(s: Sched<Thread>): Heads {
    Heads(HeadOf(s.read), HeadOf(s.write), HeadOf(s.event), HeadOf(s.ready), HeadOf(s.unuse))
  }

  lemma HeadsWithList(s: Sched<Thread>, p: Place, q: seq<Thread>)
    ensures HeadsOf(WithList(s, p, q)) == PutHead(HeadsOf(s), p, HeadOf(q))
    ensures GetHead(HeadsOf(s), p) == HeadOf(ListOf(s, p))
    ensures var r := WithList(s, p, q);
      r.readfd == s.readfd && r.writefd == s.writefd && r.alloc == s.alloc && r.info == s.info
      && r.timer == s.timer && r.background == s.background
  {
  }

  ghost predicate NoSharing(s: Sched<Thread>) {
    Contained(s) && forall x :: x in s.info ==> Homes(s, x) <= 1
  }

  lemma InvHoused(s: Sched<Thread>)
    requires Inv(s)
    ensures Housed(s)
  {
  }

  lemma ListsApart(s: Sched<Thread>, p: Place, q: Place)
    requires NoSharing(s) && p != q
    ensures forall x :: x in ListOf(s, p) ==> x !in ListOf(s, q)
  {
    forall x | x in ListOf(s, p) ensures x !in ListOf(s, q) {
      assert Homes(s, x) <= 1;
    }
  }

  lemma LinkedIs(s: Sched<Thread>, m: Memory)
    ensures Linked(s, m) <==> forall p: Place :: Chain(ListOf(s, p), m)
  {
    if forall p: Place :: Chain(ListOf(s, p), m) {
      assert Chain(ListOf(s, InRead), m) && Chain(ListOf(s, InWrite), m) && Chain(ListOf(s, InEvent), m)
        && Chain(ListOf(s, InReady), m) && Chain(ListOf(s, InUnuse), m);
    }
  }

  lemma AppendLinks(s: Sched<Thread>, m: Memory, p: Place, t: Thread)
    requires NoSharing(s) && Linked(s, m) && t in m && forall q: Place :: t !in ListOf(s, q)
    ensures Linked(WithList(s, p, ListOf(s, p) + [t]), Append(m, ListOf(s, p), t))
  {
    var r := WithList(s, p, ListOf(s, p) + [t]);
    AppendChains(m, ListOf(s, p), t);
    forall q: Place ensures Chain(ListOf(r, q), Append(m, ListOf(s, p), t)) {
      if q != p {
        ListsApart(s, p, q);
        AppendKeeps(m, ListOf(s, p), t, ListOf(s, q));
      }
    }
    LinkedIs(r, Append(m, ListOf(s, p), t));
  }

  lemma UnlinkLinks(s: Sched<Thread>, m: Memory, p: Place, i: nat)
    requires NoSharing(s) && Linked(s, m) && i < |ListOf(s, p)|
    ensures Linked(WithList(s, p, Without(ListOf(s, p), i)), Unlink(m, ListOf(s, p)[i]))
  {
    var r := WithList(s, p, Without(ListOf(s, p), i));
    UnlinkChains(m, ListOf(s, p), i);
    forall q: Place ensures Chain(ListOf(r, q), Unlink(m, ListOf(s, p)[i])) {
      if q != p {
        ListsApart(s, p, q);
        UnlinkKeeps(m, ListOf(s, p), i, ListOf(s, q));
      }
    }
    LinkedIs(r, Unlink(m, ListOf(s, p)[i]));
  }

  ghost predicate SameLists(s: Sched<Thread>, s': Sched<Thread>) {
    s'.read == s.read && s'.write == s.write && s'.event == s.event && s'.ready == s.ready && s'.unuse == s.unuse
  }

  lemma LinksKept(s: Sched<Thread>, s': Sched<Thread>, m: Memory, m': Memory)
    requires Linked(s, m) && SameLists(s, s')
    requires forall x :: x in m ==> x in m' && m'[x].next == m[x].next && m'[x].prev == m[x].prev
    ensures Linked(s', m') && HeadsOf(s') == HeadsOf(s)
  {
    ChainKept(s.read, m, m');
    ChainKept(s.write, m, m');
    ChainKept(s.event, m, m');
    ChainKept(s.ready, m, m');
    ChainKept(s.unuse, m, m');
  }

  // A record was taken off list p, and nothing else moved.
  ghost predicate Delisted(s: Sched<Thread>, m: Memory, p: Place, t: Thread, s': Sched<Thread>, m': Memory) {
    && t in ListOf(s, p) && s' == WithList(s, p, Without(ListOf(s, p), IndexOf(ListOf(s, p), t)))
    && t in m && m'.Keys == m.Keys && m'[t] == Rec(m[t].typ, null, null)
    && (forall x :: x in m ==> m'[x].typ == m[x].typ)
    && (forall x :: x in m && x !in ListOf(s, p) ==> m'[x] == m[x])
  }

  // A record was put at the end of list p, and nothing else moved.
  ghost predicate Enlisted(s: Sched<Thread>, m: Memory, p: Place, t: Thread, s': Sched<Thread>, m': Memory) {
    && s' == WithList(s, p, ListOf(s, p) + [t])
    && t in m && m'.Keys == m.Keys
    && (forall x :: x in m ==> m'[x].typ == m[x].typ)
    && (forall x :: x in m && x != t && x !in ListOf(s, p) ==> m'[x] == m[x])
  }

  // thread_get handed out t, which is on no list.
  ghost predicate Got(s: Sched<Thread>, m: Memory, t: Thread, typ: ThreadType, s': Sched<Thread>, m': Memory) {
    && CanTake(s, t) && t in s'.info && s' == Take(s).(info := s.info[t := s'.info[t]])
    && m'.Keys == m.Keys + {t} && m'[t] == Rec(typ, null, null)
    && (forall x :: x in m && x != t ==> m'[x].typ == m[x].typ)
    && (forall x :: x in m && x !in s.unuse && x != t ==> m'[x] == m[x])
  }

  lemma RecycledIsGot(s: Sched<Thread>, m: Memory, t: Thread, typ: ThreadType, s': Sched<Thread>, m': Memory)
    requires Housed(s) && s.unuse != [] && t == s.unuse[0] && Delisted(s, m, InUnuse, t, s', m')
    ensures t in m' && Got(s, m, t, typ, s', m'[t := m'[t].(typ := typ)])
  {
    WithoutFirst(s.unuse);
  }

  lemma AllocatedIsGot(s: Sched<Thread>, m: Memory, t: Thread, typ: ThreadType, s': Sched<Thread>, m': Memory)
    requires Contained(s) && m.Keys == s.info.Keys && s.unuse == [] && t !in m && m' == m[t := Rec(READ, null, null)]
    requires t in s'.info && s' == Take(s).(info := s.info[t := s'.info[t]])
    ensures Got(s, m, t, typ, s', m'[t := m'[t].(typ := typ)])
  {
  }

  function TypeOf(p: Place): ThreadType {
    match p
    case InRead => READ
    case InWrite => WRITE
    case InEvent => EVENT
    case InReady => READY
    case InUnuse => UNUSED
  }

  predicate InHeap(kind: Kind) {
    kind == ForTimer || kind == ForBackground
  }

  function PlaceOf(kind: Kind): Place
    requires !InHeap(kind)
  {
    match kind
    case ForRead => InRead
    case ForWrite => InWrite
    case ForEvent => InEvent
  }

  // FD_SET, for a record that waits on a descriptor.
  ghost function Watched(s: Sched<Thread>, kind: Kind, i: Info): Sched<Thread> {
    match kind
    case ForRead => s.(readfd := s.readfd + {FdOf(i)})
    case ForWrite => s.(writefd := s.writefd + {FdOf(i)})
    case _ => s
  }

  // A record of type typ that is in no container, while all else is in order.
  ghost predicate InFlight(s: Sched<Thread>, m: Memory, t: Thread, typ: ThreadType) {
    NoSharing(s) && Typed(s, m) && Loose(s, t) && t in s.info && t in m && m[t] == Rec(typ, null, null)
  }

  // A record was taken and filled in, and its descriptor set, but it is not in a container yet.
  ghost predicate Obtained(s: Sched<Thread>, kind: Kind, t: Thread, i: Info, s': Sched<Thread>) {
    CanTake(s, t) && s' == Watched(Take(s).(info := s.info[t := i]), kind, i)
  }

  lemma GotRefiled(s: Sched<Thread>, m: Memory, t: Thread, typ: ThreadType, i: Info, s1: Sched<Thread>, m1: Memory)
    requires Got(s, m, t, typ, s1, m1)
    ensures CanTake(s, t) && s1.(info := s1.info[t := i]) == Take(s).(info := s.info[t := i]) && t in m1
    ensures m1[t] == Rec(typ, null, null)
  {
    assert s.info[t := s1.info[t]][t := i] == s.info[t := i];
  }

  lemma ObtainedInFlight(s: Sched<Thread>, m: Memory, kind: Kind, t: Thread, typ: ThreadType, i: Info,
      s1: Sched<Thread>, m1: Memory)
    requires Inv(s) && Typed(s, m) && Got(s, m, t, typ, s1, m1)
    ensures t in s1.info && Loose(s1, t)
    ensures var s2 := Watched(s1.(info := s1.info[t := i]), kind, i);
      Obtained(s, kind, t, i, s2) && InFlight(s2, m1, t, typ)
  {
    hide Typed, NoSharing, Loose, Inv, Contained, Got, Watched, Take, CanTake;
    GotRefiled(s, m, t, typ, i, s1, m1);
    GotIsLoose(s, m, t, typ, s1, m1);
    GotIsTyped(s, m, t, typ, s1, m1);
    RefiledKeeps(s1, m1, t, i, kind);
  }

  lemma QueueingAdds(s: Sched<Thread>, foreground: bool, t: Thread, i: Info, s1: Sched<Thread>)
    requires Obtained(s, if foreground then ForTimer else ForBackground, t, i, s1)
    ensures CanTake(s, t)
    ensures WithQueued(s1, foreground, Queued(s1, foreground) + {t})
      == Add(s, if foreground then ForTimer else ForBackground, t, i)
  {
  }

  lemma ListingAdds(s: Sched<Thread>, kind: Kind, t: Thread, i: Info, s1: Sched<Thread>)
    requires !InHeap(kind) && Obtained(s, kind, t, i, s1)
    ensures WithList(s1, PlaceOf(kind), ListOf(s1, PlaceOf(kind)) + [t]) == Add(s, kind, t, i)
  {
  }

  lemma RefiledKeeps(s: Sched<Thread>, m: Memory, t: Thread, i: Info, kind: Kind)
    requires NoSharing(s) && Typed(s, m) && Loose(s, t) && t in s.info
    ensures var r := Watched(s.(info := s.info[t := i]), kind, i);
      NoSharing(r) && Typed(r, m) && Loose(r, t) && t in r.info
  {
    var r := Watched(s.(info := s.info[t := i]), kind, i);
    forall x | x in r.info ensures Homes(r, x) <= 1 && TypedAt(r, m[x], x) {
      assert Homes(s, x) <= 1 && TypedAt(s, m[x], x);
    }
  }

  // t is in no container.
  ghost predicate Loose(s: Sched<Thread>, t: Thread) {
    && t !in s.read && t !in s.write && t !in s.event && t !in s.ready && t !in s.unuse
    && t !in s.timer && t !in s.background
  }

  lemma GotIsUnshared(s: Sched<Thread>, m: Memory, t: Thread, typ: ThreadType, s': Sched<Thread>, m': Memory)
    requires Inv(s) && Got(s, m, t, typ, s', m')
    ensures NoSharing(s') && Contained(s') && Loose(s', t) && CanTake(s, t)
  {
    hide OneEach, Held;
    TakeFrees(s, t);
    forall x | x in s'.info ensures Homes(s', x) <= 1 {
      assert Homes(s', x) == Homes(Take(s), x);
    }
  }

  lemma GotIsLoose(s: Sched<Thread>, m: Memory, t: Thread, typ: ThreadType, s': Sched<Thread>, m': Memory)
    requires Inv(s) && Got(s, m, t, typ, s', m')
    ensures NoSharing(s') && Loose(s', t) && CanTake(s, t) && t in s'.info && t in m' && m'[t].typ == typ
    ensures m'.Keys == m.Keys + {t} && s'.info.Keys == s.info.Keys + {t} && Contained(s')
  {
    hide NoSharing, Loose, Inv, Contained;
    GotIsUnshared(s, m, t, typ, s', m');
  }

  lemma GotTypedAt(s: Sched<Thread>, m: Memory, t: Thread, typ: ThreadType, s': Sched<Thread>, m': Memory, x: Thread)
    requires Housed(s) && Typed(s, m) && Got(s, m, t, typ, s', m') && x in s'.info && x in m'
    ensures TypedAt(s', m'[x], x)
  {
    TakeFrees(s, t);
    if x != t {
      assert TypedAt(s, m[x], x) && Homes(s, x) == 1;
    }
  }

  lemma GotIsTyped(s: Sched<Thread>, m: Memory, t: Thread, typ: ThreadType, s': Sched<Thread>, m': Memory)
    requires Inv(s) && Typed(s, m) && Got(s, m, t, typ, s', m')
    ensures Typed(s', m')
  {
    hide Got, TypedAt, Homes, NoSharing, Inv, Contained;
    GotIsLoose(s, m, t, typ, s', m');
    InvHoused(s);
    forall x | x in s'.info ensures TypedAt(s', m'[x], x) {
      GotTypedAt(s, m, t, typ, s', m', x);
    }
  }

  lemma EnlistTypedAt(s: Sched<Thread>, m: Memory, p: Place, t: Thread, s': Sched<Thread>, m': Memory, x: Thread)
    requires x in s.info && x in m && Homes(s, x) <= 1 && TypedAt(s, m[x], x)
    requires Loose(s, t) && t in m && m[t].typ == TypeOf(p)
    requires Enlisted(s, m, p, t, s', m')
    ensures TypedAt(s', m'[x], x)
  {
  }

  lemma EnlistTyped(s: Sched<Thread>, m: Memory, p: Place, t: Thread, s': Sched<Thread>, m': Memory)
    requires NoSharing(s) && Typed(s, m) && Loose(s, t) && t in s.info && m[t].typ == TypeOf(p)
    requires Enlisted(s, m, p, t, s', m')
    ensures Typed(s', m')
  {
    hide TypedAt, Homes, Loose;
    forall x | x in s'.info ensures TypedAt(s', m'[x], x) {
      EnlistTypedAt(s, m, p, t, s', m', x);
    }
  }

  lemma EnlistUnshared(s: Sched<Thread>, p: Place, t: Thread)
    requires NoSharing(s) && Loose(s, t) && t in s.info
    ensures NoSharing(WithList(s, p, ListOf(s, p) + [t]))
  {
    var r := WithList(s, p, ListOf(s, p) + [t]);
    forall x | x in r.info ensures Homes(r, x) <= 1 {
      assert Homes(s, x) <= 1;
    }
  }

  // Deleting a position removes just that record from a list without repetitions.
  lemma WithoutMembers(q: seq<Thread>, i: nat)
    requires Distinct(q) && i < |q|
    ensures q[i] !in Without(q, i) && forall x :: x in Without(q, i) ==> x in q
    ensures forall x :: x in q && x != q[i] ==> x in Without(q, i)
  {
    forall x | x in q && x != q[i] ensures x in Without(q, i) {
      var k :| 0 <= k < |q| && q[k] == x;
      assert Without(q, i)[if k < i then k else k - 1] == x;
    }
  }

  lemma DelistAt(s: Sched<Thread>, p: Place, t: Thread, x: Thread)
    requires t in ListOf(s, p) && Distinct(ListOf(s, p)) && Homes(s, x) <= 1 && Homes(s, t) <= 1
    ensures var r := WithList(s, p, Without(ListOf(s, p), IndexOf(ListOf(s, p), t)));
      && Homes(r, x) <= 1 && Loose(r, t)
      && forall q: Place :: x in ListOf(r, q) ==> x in ListOf(s, q) && x != t
  {
    WithoutMembers(ListOf(s, p), IndexOf(ListOf(s, p), t));
  }

  lemma DelistTypedAt(s: Sched<Thread>, m: Memory, p: Place, t: Thread, typ: ThreadType, s': Sched<Thread>,
      m': Memory, x: Thread)
    requires x in s.info && x in m && Homes(s, x) <= 1 && Homes(s, t) <= 1 && TypedAt(s, m[x], x)
      && Distinct(ListOf(s, p))
    requires Delisted(s, m, p, t, s', m')
    ensures Homes(s', x) <= 1 && Loose(s', t) && TypedAt(s', m'[t := m'[t].(typ := typ)][x], x)
  {
    DelistAt(s, p, t, x);
  }

  lemma DelistContained(s: Sched<Thread>, p: Place, t: Thread)
    requires Contained(s) && t in ListOf(s, p) && Distinct(ListOf(s, p))
    ensures Contained(WithList(s, p, Without(ListOf(s, p), IndexOf(ListOf(s, p), t)))) && t in s.info
  {
    WithoutMembers(ListOf(s, p), IndexOf(ListOf(s, p), t));
  }

  lemma DelistInFlight(s: Sched<Thread>, m: Memory, p: Place, t: Thread, typ: ThreadType, s': Sched<Thread>, m': Memory)
    requires NoSharing(s) && Typed(s, m) && Distinct(ListOf(s, p)) && Delisted(s, m, p, t, s', m')
    ensures t in m' && InFlight(s', m'[t := m'[t].(typ := typ)], t, typ)
    ensures m'.Keys == m.Keys && s' == WithList(s, p, Without(ListOf(s, p), IndexOf(ListOf(s, p), t)))
  {
    hide TypedAt, Homes, Loose, Distinct, Contained;
    DelistContained(s, p, t);
    forall x | x in s.info ensures Homes(s', x) <= 1 && Loose(s', t) && TypedAt(s', m'[t := m'[t].(typ := typ)][x], x) {
      DelistTypedAt(s, m, p, t, typ, s', m', x);
    }
  }

  // What moving t from list p to the end of list q does.
  ghost function Moved(s: Sched<Thread>, p: Place, q: Place, t: Thread): Sched<Thread> {
    if t !in ListOf(s, p) then s else
    var r := WithList(s, p, Without(ListOf(s, p), IndexOf(ListOf(s, p), t)));
    WithList(r, q, ListOf(r, q) + [t])
  }

  lemma LooseOffHeaps(s: Sched<Thread>, t: Thread)
    requires Loose(s, t)
    ensures t !in s.timer && t !in s.background
  {
  }

  lemma LooseOnLists(s: Sched<Thread>, t: Thread)
    requires Loose(s, t)
    ensures forall p: Place :: t !in ListOf(s, p)
  {
  }

  function HeapType(foreground: bool): ThreadType {
    if foreground then TIMER else BACKGROUND
  }

  function Queued(s: Sched<Thread>, foreground: bool): set<Thread> {
    if foreground then s.timer else s.background
  }

  function WithQueued(s: Sched<Thread>, foreground: bool, q: set<Thread>): Sched<Thread> {
    if foreground then s.(timer := q) else s.(background := q)
  }

  lemma HeapsApart(s: Sched<Thread>)
    requires NoSharing(s)
    ensures s.timer !! s.background && s.timer <= s.info.Keys && s.background <= s.info.Keys
  {
    forall x | x in s.timer ensures x !in s.background {
      assert Homes(s, x) <= 1;
    }
  }

  lemma EnheapTyped(s: Sched<Thread>, m: Memory, foreground: bool, t: Thread)
    requires InFlight(s, m, t, HeapType(foreground))
    ensures Typed(WithQueued(s, foreground, Queued(s, foreground) + {t}), m)
    ensures NoSharing(s) && t in s.info && t !in s.timer && t !in s.background
  {
    forall x | x in s.info ensures TypedAt(WithQueued(s, foreground, Queued(s, foreground) + {t}), m[x], x) {
      assert TypedAt(s, m[x], x);
    }
  }

  lemma DeheapAt(s: Sched<Thread>, r: Rec, foreground: bool, t: Thread, typ: ThreadType, x: Thread)
    requires Homes(s, x) <= 1 && Homes(s, t) <= 1 && TypedAt(s, r, x) && t in Queued(s, foreground)
    ensures var s' := WithQueued(s, foreground, Queued(s, foreground) - {t});
      Homes(s', x) <= 1 && Loose(s', t) && TypedAt(s', if x == t then r.(typ := typ) else r, x)
  {
  }

  lemma DeheapInFlight(s: Sched<Thread>, m: Memory, foreground: bool, t: Thread, typ: ThreadType)
    requires NoSharing(s) && Typed(s, m) && t in Queued(s, foreground)
    ensures t in m && InFlight(WithQueued(s, foreground, Queued(s, foreground) - {t}), m[t := m[t].(typ := typ)], t,
      typ)
  {
    assert t in s.info && TypedAt(s, m[t], t);
    hide TypedAt, Homes, Loose;
    forall x | x in s.info
      ensures var s' := WithQueued(s, foreground, Queued(s, foreground) - {t});
        Homes(s', x) <= 1 && Loose(s', t) && TypedAt(s', m[t := m[t].(typ := typ)][x], x)
    {
      DeheapAt(s, m[x], foreground, t, typ, x);
    }
  }

  // A record's type tells where it is.
  lemma Located(s: Sched<Thread>, m: Memory, t: Thread)
    requires Inv(s) && Typed(s, m) && t in s.info
    ensures t in m && m[t].typ != EXECUTE
    ensures forall p: Place :: m[t].typ == TypeOf(p) <==> t in ListOf(s, p)
    ensures forall f: bool :: m[t].typ == HeapType(f) <==> t in Queued(s, f)
  {
    assert TypedAt(s, m[t], t) && Homes(s, t) == 1;
  }

  // FD_CLR, for a record that waits on a descriptor.
  ghost function Unwatched(s: Sched<Thread>, p: Place, fd: int): Sched<Thread> {
    match p
    case InRead => s.(readfd := s.readfd - {fd})
    case InWrite => s.(writefd := s.writefd - {fd})
    case _ => s
  }

  lemma UnwatchKeeps(s: Sched<Thread>, m: Memory, p: Place, fd: int)
    requires NoSharing(s) && Typed(s, m)
    ensures var r := Unwatched(s, p, fd);
      NoSharing(r) && Typed(r, m) && forall q: Place :: ListOf(r, q) == ListOf(s, q)
  {
    var r := Unwatched(s, p, fd);
    forall x | x in r.info ensures Homes(r, x) <= 1 && TypedAt(r, m[x], x) {
      assert Homes(s, x) <= 1 && TypedAt(s, m[x], x);
    }
  }

  // Erasing a record leaves the lists it is not on alone.
  lemma EraseElsewhere(s: Sched<Thread>, p: Place, t: Thread, q: Place)
    requires Housed(s) && t in ListOf(s, p) && t in s.info
    ensures Erase(ListOf(s, q), {t}) == if q == p then Without(ListOf(s, p), IndexOf(ListOf(s, p), t)) else ListOf(s, q)
    ensures t !in s.timer && t !in s.background && (q != p ==> t !in ListOf(s, q))
  {
    assert Homes(s, t) == 1;
    if q == p {
      EraseOne(ListOf(s, p), IndexOf(ListOf(s, p), t));
    } else {
      EraseNone(ListOf(s, q), {t});
    }
  }

  lemma CancelOffList(s: Sched<Thread>, p: Place, t: Thread)
    requires Housed(s) && t in ListOf(s, p) && p != InUnuse && t in s.info
    ensures Cancel(s, t) == Moved(Unwatched(s, p, FdOf(s.info[t])), p, InUnuse, t)
  {
    hide Housed, Erase, Without, IndexOf, Homes;
    EraseElsewhere(s, p, t, InRead);
    EraseElsewhere(s, p, t, InWrite);
    EraseElsewhere(s, p, t, InEvent);
    EraseElsewhere(s, p, t, InReady);
    EraseElsewhere(s, p, t, InUnuse);
  }

  lemma CancelOffHeap(s: Sched<Thread>, f: bool, t: Thread)
    requires Housed(s) && t in Queued(s, f) && t in s.info
    ensures Cancel(s, t) == WithList(WithQueued(s, f, Queued(s, f) - {t}), InUnuse, s.unuse + [t])
  {
    assert Homes(s, t) == 1;
    EraseNone(s.read, {t});
    EraseNone(s.write, {t});
    EraseNone(s.event, {t});
    EraseNone(s.ready, {t});
  }

  lemma ListDistinct(s: Sched<Thread>, p: Place)
    requires Housed(s)
    ensures Distinct(ListOf(s, p))
  {
  }

  // List p after its first k records were looked at and those in gone moved to list q.
  ghost function SweptTo(s: Sched<Thread>, p: Place, q: Place, gone: set<Thread>, k: nat): Sched<Thread> {
    var l := ListOf(s, p);
    if |l| < k then s else
    WithList(WithList(s, p, Erase(l[..k], gone) + l[k..]), q, ListOf(s, q) + Keep(l[..k], gone))
  }

  lemma SweepStart(s: Sched<Thread>, p: Place, q: Place, gone: set<Thread>)
    requires p != q
    ensures SweptTo(s, p, q, gone, 0) == s
  {
    var l := ListOf(s, p);
    assert Erase(l[..0], gone) + l[0..] == l && ListOf(s, q) + Keep(l[..0], gone) == ListOf(s, q);
  }

  lemma SweepEnd(s: Sched<Thread>, p: Place, q: Place, gone: set<Thread>)
    requires p != q
    ensures SweptTo(s, p, q, gone, |ListOf(s, p)|)
      == WithList(WithList(s, p, Erase(ListOf(s, p), gone)), q, ListOf(s, q) + Keep(ListOf(s, p), gone))
  {
    var l := ListOf(s, p);
    assert l[..|l|] == l && Erase(l, gone) + l[|l|..] == Erase(l, gone);
  }

  // The record looked at next, and where it stands in what is left of the list.
  lemma KeepNone(l: seq<Thread>, gone: set<Thread>)
    ensures Keep(l[..0], gone) == []
  {
  }

  lemma KeepNext(l: seq<Thread>, k: nat, gone: set<Thread>)
    requires k < |l|
    ensures |Keep(l[..k + 1], gone)| == |Keep(l[..k], gone)| + One(l[k] in gone)
  {
    assert l[..k + 1][..k] == l[..k];
  }

  lemma SweepNext(s: Sched<Thread>, p: Place, q: Place, gone: set<Thread>, k: nat)
    requires p != q && k < |ListOf(s, p)|
    ensures var r, l := ListOf(SweptTo(s, p, q, gone, k), p), ListOf(s, p);
      var i := |Erase(l[..k], gone)|;
      i < |r| && r[i] == l[k] && Nth(r, i + 1) == Nth(l, k + 1)
  {
  }

  lemma SweepMiss(s: Sched<Thread>, p: Place, q: Place, gone: set<Thread>, k: nat)
    requires p != q && k < |ListOf(s, p)| && ListOf(s, p)[k] !in gone
    ensures SweptTo(s, p, q, gone, k + 1) == SweptTo(s, p, q, gone, k)
  {
    var l := ListOf(s, p);
    assert l[..k + 1][..k] == l[..k];
    assert Erase(l[..k + 1], gone) + l[k + 1..] == Erase(l[..k], gone) + l[k..];
  }

  lemma SweptSame(s: Sched<Thread>, p: Place, q: Place, gone: set<Thread>, k: nat)
    requires k <= |ListOf(s, p)|
    ensures SweptTo(s, p, q, gone, k).info == s.info
  {
  }

  lemma UnsharedHas(s: Sched<Thread>, p: Place, t: Thread)
    requires NoSharing(s) && t in ListOf(s, p)
    ensures t in s.info
  {
  }

  lemma HitSeq(l: seq<Thread>, gone: set<Thread>, k: nat)
    requires k < |l| && l[k] in gone && Distinct(Erase(l[..k], gone) + l[k..])
    ensures var r := Erase(l[..k], gone) + l[k..];
      l[k] in r && Without(r, IndexOf(r, l[k])) == Erase(l[..k + 1], gone) + l[k + 1..]
    ensures Keep(l[..k + 1], gone) == Keep(l[..k], gone) + [l[k]]
  {
    var r := Erase(l[..k], gone) + l[k..];
    var i := |Erase(l[..k], gone)|;
    assert r[i] == l[k] && IndexOf(r, l[k]) == i;
    assert l[..k + 1][..k] == l[..k];
    assert Without(r, i) == Erase(l[..k], gone) + l[k + 1..];
  }

  lemma SweepHit(s: Sched<Thread>, p: Place, q: Place, gone: set<Thread>, k: nat)
    requires p != q && k < |ListOf(s, p)| && ListOf(s, p)[k] in gone
    requires Distinct(ListOf(SweptTo(s, p, q, gone, k), p))
    ensures var t := ListOf(s, p)[k];
      t in ListOf(SweptTo(s, p, q, gone, k), p)
      && SweptTo(s, p, q, gone, k + 1) == Moved(SweptTo(s, p, q, gone, k), p, q, t)
  {
    var l := ListOf(s, p);
    hide Erase, Keep, Without;
    assert ListOf(SweptTo(s, p, q, gone, k), p) == Erase(l[..k], gone) + l[k..];
    HitSeq(l, gone, k);
    assert ListOf(s, q) + Keep(l[..k], gone) + [l[k]] == ListOf(s, q) + (Keep(l[..k], gone) + [l[k]]);
  }

  // A sweep, with the descriptors cleared so far.
  ghost function WokenTo(s: Sched<Thread>, reading: bool, gone: set<Thread>, k: nat, cleared: set<int>): Sched<Thread> {
    var r := SweptTo(s, FdPlace(reading), InReady, gone, k);
    if reading then r.(readfd := s.readfd - cleared) else r.(writefd := s.writefd - cleared)
  }

  function FdPlace(reading: bool): Place {
    if reading then InRead else InWrite
  }

  lemma WokenStart(s: Sched<Thread>, reading: bool, gone: set<Thread>)
    ensures WokenTo(s, reading, gone, 0, {}) == s
  {
    SweepStart(s, FdPlace(reading), InReady, gone);
  }

  lemma WokenNext(s: Sched<Thread>, reading: bool, gone: set<Thread>, k: nat, cleared: set<int>)
    requires k < |ListOf(s, FdPlace(reading))|
    ensures var r, l := ListOf(WokenTo(s, reading, gone, k, cleared), FdPlace(reading)), ListOf(s, FdPlace(reading));
      var i := |Erase(l[..k], gone)|;
      i < |r| && r[i] == l[k] && Nth(r, i + 1) == Nth(l, k + 1)
    ensures WokenTo(s, reading, gone, k, cleared).info == s.info
  {
    SweepNext(s, FdPlace(reading), InReady, gone, k);
  }

  lemma WokenMiss(s: Sched<Thread>, reading: bool, gone: set<Thread>, k: nat, cleared: set<int>)
    requires k < |ListOf(s, FdPlace(reading))| && ListOf(s, FdPlace(reading))[k] !in gone
    ensures WokenTo(s, reading, gone, k + 1, cleared) == WokenTo(s, reading, gone, k, cleared)
  {
    SweepMiss(s, FdPlace(reading), InReady, gone, k);
  }

  lemma WokenHit(s: Sched<Thread>, reading: bool, gone: set<Thread>, k: nat, cleared: set<int>, fd: int)
    requires k < |ListOf(s, FdPlace(reading))| && ListOf(s, FdPlace(reading))[k] in gone
    requires Distinct(ListOf(WokenTo(s, reading, gone, k, cleared), FdPlace(reading)))
    ensures var p := FdPlace(reading);
      var r := Unwatched(WokenTo(s, reading, gone, k, cleared), p, fd);
      ListOf(s, p)[k] in ListOf(r, p)
      && WokenTo(s, reading, gone, k + 1, cleared + {fd}) == Moved(r, p, InReady, ListOf(s, p)[k])
  {
    SweepHit(s, FdPlace(reading), InReady, gone, k);
    assert s.readfd - cleared - {fd} == s.readfd - (cleared + {fd});
    assert s.writefd - cleared - {fd} == s.writefd - (cleared + {fd});
  }

  // The descriptors cleared are all the selected ones, for each was waited on.
  lemma WokenEnd(s: Sched<Thread>, reading: bool, fds: set<int>, cleared: set<int>)
    requires Inv(s) && cleared <= fds
    requires var l := ListOf(s, FdPlace(reading));
      forall i :: 0 <= i < |l| && l[i] in OnFd(s, l, fds) ==> FdOf(s.info[l[i]]) in cleared
    ensures var l := ListOf(s, FdPlace(reading));
      WokenTo(s, reading, OnFd(s, l, fds), |l|, cleared) == Wake(s, reading, fds)
  {
    var l := ListOf(s, FdPlace(reading));
    var watched := if reading then s.readfd else s.writefd;
    SweepEnd(s, FdPlace(reading), InReady, OnFd(s, l, fds));
    forall fd | fd in watched && fd in fds ensures fd in cleared {
      var i :| 0 <= i < |l| && FdsOf(s.info, l)[i] == fd;
      FdsOfAt(s.info, l, i);
      assert l[i] in l;
    }
    assert watched - cleared == watched - fds;
  }

  lemma SweepsCancel(s: Sched<Thread>, arg: int)
    ensures var gone := WithArg(s, arg);
      var r := SweptTo(s, InEvent, InUnuse, gone, |s.event|);
      r.ready == s.ready && r.info == s.info
      && SweptTo(r, InReady, InUnuse, gone, |s.ready|) == CancelEvent(s, arg)
  {
    var gone := WithArg(s, arg);
    SweepEnd(s, InEvent, InUnuse, gone);
    SweepEnd(SweptTo(s, InEvent, InUnuse, gone, |s.event|), InReady, InUnuse, gone);
  }

  lemma SweepPromotes(s: Sched<Thread>, gone: set<Thread>)
    requires forall t :: t in s.event ==> t in gone
    ensures SweptTo(s, InEvent, InReady, gone, |s.event|) == Promote(s)
  {
    SweepEnd(s, InEvent, InReady, gone);
    KeepAll(s.event, gone);
  }

  lemma RunMoves(s: Sched<Thread>)
    requires s.ready != [] && Distinct(s.ready)
    ensures s.ready[0] in s.ready && Moved(s, InReady, InUnuse, s.ready[0]) == Run(s)
  {
    WithoutFirst(s.ready);
  }

  lemma UnsharedContained(s: Sched<Thread>)
    requires NoSharing(s)
    ensures Contained(s) && forall f: bool :: Queued(s, f) <= s.info.Keys
  {
  }

  lemma ListContained(s: Sched<Thread>, p: Place)
    requires Contained(s)
    ensures forall t :: t in ListOf(s, p) ==> t in s.info
  {
  }

  // q was popped so far: it is in order, and nothing left in the heap is earlier.
  ghost predicate Popping(s: Sched<Thread>, foreground: bool, q: seq<Thread>, now: Timeval) {
    && Contained(s) && Distinct(q)
    && (forall x :: x in q ==> x in Queued(s, foreground) && x in s.info && Cmp(now, Expiry(s.info[x].u)) >= 0)
    && (forall i, j :: 0 <= i < j < |q| ==> Cmp(Expiry(s.info[q[i]].u), Expiry(s.info[q[j]].u)) <= 0)
    && forall x, y :: x in q && y in Queued(s, foreground) && y !in q ==>
      x in s.info && y in s.info && Cmp(Expiry(s.info[x].u), Expiry(s.info[y].u)) <= 0
  }

  lemma PoppedMore(s: Sched<Thread>, foreground: bool, q: seq<Thread>, now: Timeval, t: Thread)
    requires Popping(s, foreground, q, now) && t in Queued(s, foreground) && t !in q && t in s.info
    requires Cmp(now, Expiry(s.info[t].u)) >= 0
    requires forall y :: y in Queued(s, foreground) && y !in q ==> (
      y in s.info && Cmp(Expiry(s.info[t].u), Expiry(s.info[y].u)) <= 0)
    ensures Popping(s, foreground, q + [t], now)
  {
  }

  lemma PoppedAll(s: Sched<Thread>, foreground: bool, q: seq<Thread>, now: Timeval)
    requires Popping(s, foreground, q, now)
    requires forall y :: y in Queued(s, foreground) && y !in q ==> y in s.info && Cmp(now, Expiry(s.info[y].u)) < 0
    ensures Contained(s) && InExpiryOrder(s, q, Due(s, Queued(s, foreground), now))
  {
  }

  lemma EarlierStill(now: Timeval, a: Timeval, b: Timeval)
    requires Cmp(now, a) < 0 && Cmp(a, b) <= 0
    ensures Cmp(now, b) < 0
  {
  }

  lemma NothingPopped(s: Sched<Thread>, foreground: bool, now: Timeval)
    requires Contained(s)
    ensures Popping(s, foreground, [], now) && Pop(s, foreground, []) == s
  {
    assert Queued(s, foreground) - (set x | x in []) == Queued(s, foreground);
  }

  lemma PoppedQueue(s: Sched<Thread>, foreground: bool, q: seq<Thread>)
    ensures forall y :: y in Queued(Pop(s, foreground, q), foreground) <==> y in Queued(s, foreground) && y !in q
    ensures Pop(s, foreground, q).info == s.info
  {
  }

  lemma PopOne(s: Sched<Thread>, foreground: bool, q: seq<Thread>, t: Thread)
    requires t in Queued(Pop(s, foreground, q), foreground)
    ensures t in Queued(s, foreground) && t !in q
    ensures var r := Pop(s, foreground, q);
      WithList(WithQueued(r, foreground, Queued(r, foreground) - {t}), InReady, r.ready + [t]) == Pop(s, foreground,
        q + [t])
  {
    var gone, more := set x | x in q, set x | x in q + [t];
    assert more == gone + {t};
    assert Queued(s, foreground) - gone - {t} == Queued(s, foreground) - more;
  }

  ghost function WatchedSet(s: Sched<Thread>, reading: bool): set<int> {
    if reading then s.readfd else s.writefd
  }

  // Only descriptors that are waited on matter.
  lemma WakeSelected(s: Sched<Thread>, reading: bool, raw: set<int>)
    requires Inv(s)
    ensures Wake(s, reading, raw * WatchedSet(s, reading)) == Wake(s, reading, raw)
    ensures raw * WatchedSet(s, reading) == {} ==> Wake(s, reading, raw) == s
  {
    var list, watched := ListOf(s, FdPlace(reading)), WatchedSet(s, reading);
    forall t | t in list ensures FdOf(s.info[t]) in watched {
      FdsOfAt(s.info, list, IndexOf(list, t));
    }
    assert OnFd(s, list, raw * watched) == OnFd(s, list, raw);
    assert watched - raw * watched == watched - raw;
    if raw * watched == {} {
      EraseNone(list, OnFd(s, list, raw));
      assert watched - raw == watched;
      assert s.ready + [] == s.ready;
    }
  }

  lemma Reports(s: Sched<Thread>, fg: seq<Thread>)
    ensures var r := Pop(Promote(s), true, fg);
      r.readfd == Promote(s).readfd && r.writefd == Promote(s).writefd
  {
  }

  lemma WokenReports(s: Sched<Thread>, fds: set<int>)
    requires Contained(s)
    ensures Wake(s, true, fds).writefd == s.writefd
  {
  }

  // The parts of a pass, in the order thread_fetch runs them.
  lemma PassParts(s: Sched<Thread>, o: Outcome, fg: seq<Thread>, bg: seq<Thread>, s2: Sched<Thread>,
      s3: Sched<Thread>, s4: Sched<Thread>)
    requires Inv(s) && o.Selected?
    requires InExpiryOrder(Promote(s), fg, Due(Promote(s), Queued(Promote(s), true), o.now))
      && s2 == Pop(Promote(s), true, fg)
    requires Contained(s2) && s3 == Wake(s2, true, o.readable)
    requires Contained(s3) && s4 == Wake(s3, false, o.writable)
    requires InExpiryOrder(s4, bg, Due(s4, Queued(s4, false), o.now))
    ensures Pass(s, o, fg, bg, Pop(s4, false, bg))
  {
  }

  // The loop of thread_fetch went round once for each trip, and now stands at its top in state r.
  ghost predicate Looped(s: Sched<Thread>, env: seq<Outcome>, trips: seq<Trip<Thread>>, r: Sched<Thread>) {
    && |trips| <= |env| && (trips == [] ==> r == s) && (trips != [] ==> trips[0].top == s)
    && (forall i :: 0 <= i < |trips| - 1 ==> Loops(trips[i], env[i], trips[i + 1].top))
    && (trips != [] ==> Loops(trips[|trips| - 1], env[|trips| - 1], r))
  }

  lemma LoopedNone(s: Sched<Thread>, env: seq<Outcome>)
    ensures Looped(s, env, [], s)
  {
  }

  lemma RunHolds(s: Sched<Thread>)
    requires s.ready != [] && Inv(Run(s))
    ensures s.ready[0] in Run(s).info
  {
    assert s.ready[0] == Run(s).unuse[|s.unuse|];
  }

  lemma LoopedMore(s: Sched<Thread>, env: seq<Outcome>, trips: seq<Trip<Thread>>, trip: Trip<Thread>, r: Sched<Thread>)
    requires Looped(s, env, trips, trip.top) && |trips| < |env| && Loops(trip, env[|trips|], r)
    ensures Looped(s, env, trips + [trip], r)
  {
    hide Loops;
  }

  lemma LoopedDone(s: Sched<Thread>, env: seq<Outcome>, trips: seq<Trip<Thread>>, last: Sched<Thread>,
      out: seq<Thread>, r: Sched<Thread>)
    requires Looped(s, env, trips, last)
    requires if last.ready != [] then out == [last.ready[0]] && r == Run(last)
      else out == [] && r == Promote(last) && (|trips| < |env| ==> env[|trips|].Failed?)
    ensures Fetch(s, env, trips + [Trip(last, [], [])], out, r)
  {
    hide Loops;
  }

  lemma HeadsReady(s: Sched<Thread>)
    ensures HeadsOf(s).ready.head == Nth(s.ready, 0)
  {
  }
}
