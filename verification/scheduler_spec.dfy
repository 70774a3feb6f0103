// The scheduler as a state machine over values: what one call does to the
// seven containers, and what every run of such calls keeps.
module SchedulerSpec {
  import opened Sequences
  import opened Timevals

  datatype Payload = Val(val: int) | Fd(fd: int) | At(at: Timeval)
  datatype Info = Info(arg: int, u: Payload)

  // T identifies a thread record; info holds what a waiting record was filed with.
  datatype Sched<T(==)> = Sched(
    read: seq<T>, write: seq<T>, event: seq<T>, ready: seq<T>, unuse: seq<T>,
    timer: set<T>, background: set<T>,
    readfd: set<int>, writefd: set<int>,
    alloc: int, info: map<T, Info>)

  // What select(2) reports, with the clock value read after it.
  datatype Outcome = Interrupted | Failed | Selected(readable: set<int>, writable: set<int>, now: Timeval)

  function FdOf(i: Info): int {
    if i.u.Fd? then i.u.fd else -1
  }

  function Expiry(u: Payload): Timeval {
    if u.At? then u.at else Timeval(0, 0)
  }

  // ---- the invariant ----

  // Every record held is a known one.
  ghost predicate Contained<T>(s: Sched<T>) {
    && (forall t :: t in s.read ==> t in s.info) && (forall t :: t in s.write ==> t in s.info)
    && (forall t :: t in s.event ==> t in s.info) && (forall t :: t in s.ready ==> t in s.info)
    && (forall t :: t in s.unuse ==> t in s.info)
    && s.timer <= s.info.Keys && s.background <= s.info.Keys
  }

  function One(b: bool): nat {
    if b then 1 else 0
  }

  // The number of containers that hold t.
  ghost function Homes<T>(s: Sched<T>, t: T): nat {
    One(t in s.read) + One(t in s.write) + One(t in s.event) + One(t in s.ready) + One(t in s.unuse)
    + One(t in s.timer) + One(t in s.background)
  }

  ghost predicate Housed<T>(s: Sched<T>) {
    && Contained(s)
    && (forall t :: t in s.info ==> Homes(s, t) == 1)
    && Distinct(s.read) && Distinct(s.write) && Distinct(s.event) && Distinct(s.ready) && Distinct(s.unuse)
  }

  function Held<T>(s: Sched<T>): int {
    |s.read| + |s.write| + |s.event| + |s.ready| + |s.unuse| + |s.timer| + |s.background|
  }

  ghost function FdsOf<T>(info: map<T, Info>, list: seq<T>): (r: seq<int>)
    requires forall t :: t in list ==> t in info
    ensures |r| == |list|
  {
    if list == [] then []
    else
      var n := |list| - 1;
      FdsOf(info, list[..n]) + [FdOf(info[list[n]])]
  }

  // The records of list wait on distinct descriptors, and those are exactly fds.
  ghost predicate OneEach<T>(info: map<T, Info>, list: seq<T>, fds: set<int>)
    requires forall t :: t in list ==> t in info
  {
    var l := FdsOf(info, list);
    Distinct(l) && (forall fd :: fd in l ==> fd in fds) && (forall fd :: fd in fds ==> fd in l)
  }

  ghost predicate Inv<T>(s: Sched<T>) {
    && Housed(s) && s.alloc == Held(s)
    && OneEach(s.info, s.read, s.readfd) && OneEach(s.info, s.write, s.writefd)
  }

  function Created<T>(): Sched<T> {
    Sched([], [], [], [], [], {}, {}, {}, {}, 0, map[])
  }

  // ---- adding ----

  // thread_get recycles the head of the unuse list, or allocates a record.
  predicate CanTake<T>(s: Sched<T>, t: T) {
    if s.unuse != [] then t == s.unuse[0] else t !in s.info
  }

  function Take<T>(s: Sched<T>): Sched<T> {
    if s.unuse != [] then s.(unuse := s.unuse[1..]) else s.(alloc := s.alloc + 1)
  }

  datatype Kind = ForRead | ForWrite | ForTimer | ForBackground | ForEvent

  function Add<T>(s: Sched<T>, kind: Kind, t: T, i: Info): Sched<T> {
    var r := Take(s).(info := s.info[t := i]);
    match kind
    case ForRead => r.(read := s.read + [t], readfd := s.readfd + {FdOf(i)})
    case ForWrite => r.(write := s.write + [t], writefd := s.writefd + {FdOf(i)})
    case ForTimer => r.(timer := s.timer + {t})
    case ForBackground => r.(background := s.background + {t})
    case ForEvent => r.(event := s.event + [t])
  }

  predicate CanAdd<T>(s: Sched<T>, kind: Kind, t: T, i: Info) {
    && CanTake(s, t)
    && (kind == ForRead ==> FdOf(i) !in s.readfd) && (kind == ForWrite ==> FdOf(i) !in s.writefd)
  }

  lemma TakeFrees<T>(s: Sched<T>, t: T)
    requires Housed(s) && CanTake(s, t)
    ensures var r := Take(s);
      && Contained(r) && Homes(r, t) == 0 && Distinct(r.unuse) && t !in r.unuse
      && (forall x :: x in s.info && x != t ==> Homes(r, x) == 1)
  {
    if s.unuse != [] {
      assert t in s.unuse && Homes(s, t) == 1;
      forall x | x in s.info && x != t ensures Homes(Take(s), x) == 1 {
        assert Homes(s, x) == 1;
        assert s.unuse == [t] + s.unuse[1..];
      }
    }
  }

  lemma AddContains<T>(s: Sched<T>, kind: Kind, t: T, i: Info)
    requires Housed(s) && CanTake(s, t)
    ensures Contained(Add(s, kind, t, i))
  {
    TakeFrees(s, t);
  }

  lemma AddHomes<T>(s: Sched<T>, kind: Kind, t: T, i: Info, x: T)
    requires Housed(s) && CanTake(s, t) && (x in s.info || x == t)
    ensures Homes(Add(s, kind, t, i), x) == 1
  {
    TakeFrees(s, t);
    assert Homes(Add(s, kind, t, i), x) == Homes(Take(s), x) + One(x == t);
  }

  lemma AddDistinct<T>(s: Sched<T>, kind: Kind, t: T, i: Info)
    requires Housed(s) && CanTake(s, t)
    ensures var r := Add(s, kind, t, i);
      && Distinct(r.read) && Distinct(r.write) && Distinct(r.event) && Distinct(r.ready) && Distinct(r.unuse)
  {
    TakeFrees(s, t);
  }

  lemma AddHouses<T>(s: Sched<T>, kind: Kind, t: T, i: Info)
    requires Housed(s) && CanTake(s, t)
    ensures Housed(Add(s, kind, t, i))
  {
    AddContains(s, kind, t, i);
    AddDistinct(s, kind, t, i);
    forall x | x in Add(s, kind, t, i).info ensures Homes(Add(s, kind, t, i), x) == 1 {
      AddHomes(s, kind, t, i, x);
    }
  }

  // Descriptors depend only on the records listed.
  lemma {:induction false} FdsOfSame<T>(info: map<T, Info>, info': map<T, Info>, list: seq<T>)
    requires forall t :: t in list ==> t in info && t in info' && info'[t] == info[t]
    ensures FdsOf(info', list) == FdsOf(info, list)
  {
    if list != [] {
      FdsOfSame(info, info', list[..|list| - 1]);
    }
  }

  lemma OneMore<T>(info: map<T, Info>, list: seq<T>, fds: set<int>, t: T)
    requires forall x :: x in list + [t] ==> x in info
    requires OneEach(info, list, fds) && FdOf(info[t]) !in fds
    ensures OneEach(info, list + [t], fds + {FdOf(info[t])})
  {
    assert (list + [t])[..|list|] == list;
  }

  lemma TakenIsLoose<T>(s: Sched<T>, t: T)
    requires Housed(s) && CanTake(s, t)
    ensures t !in s.read && t !in s.write && t !in s.event && t !in s.ready && t !in s.timer && t !in s.background
  {
    TakeFrees(s, t);
  }

  lemma AddCounts<T>(s: Sched<T>, kind: Kind, t: T, i: Info)
    requires Housed(s) && CanTake(s, t) && s.alloc == Held(s)
    ensures Add(s, kind, t, i).alloc == Held(Add(s, kind, t, i))
  {
    hide Housed;
    TakenIsLoose(s, t);
  }

  lemma OneEachSame<T>(info: map<T, Info>, info': map<T, Info>, list: seq<T>, fds: set<int>)
    requires forall t :: t in list ==> t in info && t in info' && info'[t] == info[t]
    requires OneEach(info, list, fds)
    ensures OneEach(info', list, fds)
  {
    FdsOfSame(info, info', list);
  }

  lemma AddWatches<T>(s: Sched<T>, kind: Kind, t: T, i: Info)
    requires Inv(s) && CanAdd(s, kind, t, i) && Contained(Add(s, kind, t, i))
    ensures var r := Add(s, kind, t, i);
      OneEach(r.info, r.read, r.readfd) && OneEach(r.info, r.write, r.writefd)
  {
    hide OneEach, FdsOf, Homes;
    TakenIsLoose(s, t);
    var info := s.info[t := i];
    OneEachSame(s.info, info, s.read, s.readfd);
    OneEachSame(s.info, info, s.write, s.writefd);
    if kind == ForRead {
      OneMore(info, s.read, s.readfd, t);
    } else if kind == ForWrite {
      OneMore(info, s.write, s.writefd, t);
    }
  }

  lemma AddKeeps<T>(s: Sched<T>, kind: Kind, t: T, i: Info)
    requires Inv(s) && CanAdd(s, kind, t, i)
    ensures Inv(Add(s, kind, t, i))
  {
    AddHouses(s, kind, t, i);
    AddCounts(s, kind, t, i);
    AddWatches(s, kind, t, i);
  }

  // ---- cancelling ----

  ghost function Cancel<T>(s: Sched<T>, t: T): Sched<T>
    requires t in s.info
  {
    if t in s.unuse then s else
    s.(read := Erase(s.read, {t}), write := Erase(s.write, {t}),
       event := Erase(s.event, {t}), ready := Erase(s.ready, {t}),
       timer := s.timer - {t}, background := s.background - {t},
       readfd := if t in s.read then s.readfd - {FdOf(s.info[t])} else s.readfd,
       writefd := if t in s.write then s.writefd - {FdOf(s.info[t])} else s.writefd,
       unuse := s.unuse + [t])
  }

  ghost function WithArg<T>(s: Sched<T>, arg: int): set<T> {
    set t | t in s.info && s.info[t].arg == arg
  }

  ghost function CancelEvent<T>(s: Sched<T>, arg: int): Sched<T> {
    var gone := WithArg(s, arg);
    s.(event := Erase(s.event, gone), ready := Erase(s.ready, gone),
       unuse := s.unuse + Keep(s.event, gone) + Keep(s.ready, gone))
  }

  // Erasing records erases their descriptors, if they are the ones that wait on fds.
  lemma {:induction false} FdsOfErase<T>(info: map<T, Info>, list: seq<T>, gone: set<T>, fds: set<int>)
    requires forall t :: t in list ==> t in info && (t in gone <==> FdOf(info[t]) in fds)
    ensures forall t :: t in Erase(list, gone) ==> t in info
    ensures FdsOf(info, Erase(list, gone)) == Erase(FdsOf(info, list), fds)
  {
    Parted(list, gone);
    if list != [] {
      var n := |list| - 1;
      FdsOfErase(info, list[..n], gone, fds);
      assert FdsOf(info, list)[..n] == FdsOf(info, list[..n]);
      if list[n] !in gone {
        assert Erase(list, gone)[..|Erase(list[..n], gone)|] == Erase(list[..n], gone);
      }
    }
  }

  lemma OneEachErase<T>(info: map<T, Info>, list: seq<T>, gone: set<T>, watched: set<int>, fds: set<int>)
    requires forall t :: t in list ==> t in info && (t in gone <==> FdOf(info[t]) in fds)
    requires OneEach(info, list, watched)
    ensures forall t :: t in Erase(list, gone) ==> t in info
    ensures OneEach(info, Erase(list, gone), watched - fds)
  {
    FdsOfErase(info, list, gone, fds);
    Parted(FdsOf(info, list), fds);
    PartedDistinct(FdsOf(info, list), fds);
  }

  lemma CancelHomes<T>(s: Sched<T>, t: T, x: T)
    requires Housed(s) && t in s.info && t !in s.unuse && x in s.info
    ensures Homes(Cancel(s, t), x) == 1
  {
    Parted(s.read, {t});
    Parted(s.write, {t});
    Parted(s.event, {t});
    Parted(s.ready, {t});
    assert Homes(s, x) == 1;
  }

  lemma CancelHouses<T>(s: Sched<T>, t: T)
    requires Housed(s) && t in s.info && t !in s.unuse
    ensures Housed(Cancel(s, t))
  {
    Parted(s.read, {t});
    Parted(s.write, {t});
    Parted(s.event, {t});
    Parted(s.ready, {t});
    PartedDistinct(s.read, {t});
    PartedDistinct(s.write, {t});
    PartedDistinct(s.event, {t});
    PartedDistinct(s.ready, {t});
    forall x | x in s.info ensures Homes(Cancel(s, t), x) == 1 {
      CancelHomes(s, t, x);
    }
  }

  lemma CancelCounts<T>(s: Sched<T>, t: T)
    requires Housed(s) && t in s.info && t !in s.unuse
    ensures Held(Cancel(s, t)) == Held(s)
  {
    EraseSingle(s.read, t);
    EraseSingle(s.write, t);
    EraseSingle(s.event, t);
    EraseSingle(s.ready, t);
    assert Homes(s, t) == 1;
  }

  // Cancelling a record on its list clears exactly its descriptor.
  lemma CancelWatch<T>(info: map<T, Info>, list: seq<T>, fds: set<int>, t: T)
    requires forall x :: x in list ==> x in info
    requires t in info && OneEach(info, list, fds)
    ensures forall x :: x in Erase(list, {t}) ==> x in info
    ensures OneEach(info, Erase(list, {t}), if t in list then fds - {FdOf(info[t])} else fds)
  {
    if t in list {
      var i := IndexOf(list, t);
      forall x | x in list ensures x in {t} <==> FdOf(info[x]) in {FdOf(info[t])} {
        FdsOfAt(info, list, IndexOf(list, x));
        FdsOfAt(info, list, i);
      }
      OneEachErase(info, list, {t}, fds, {FdOf(info[t])});
    } else {
      EraseNone(list, {t});
    }
  }

  lemma {:induction false} FdsOfAt<T>(info: map<T, Info>, list: seq<T>, i: nat)
    requires i < |list| && forall t :: t in list ==> t in info
    ensures FdsOf(info, list)[i] == FdOf(info[list[i]])
  {
    if i < |list| - 1 {
      FdsOfAt(info, list[..|list| - 1], i);
    }
  }

  lemma CancelKeeps<T>(s: Sched<T>, t: T)
    requires Inv(s) && t in s.info
    ensures Inv(Cancel(s, t))
  {
    if t !in s.unuse {
      CancelHouses(s, t);
      CancelCounts(s, t);
      CancelWatch(s.info, s.read, s.readfd, t);
      CancelWatch(s.info, s.write, s.writefd, t);
    }
  }

  lemma CancelEventHomes<T>(s: Sched<T>, arg: int, x: T)
    requires Housed(s) && x in s.info
    ensures Homes(CancelEvent(s, arg), x) == 1
  {
    Parted(s.event, WithArg(s, arg));
    Parted(s.ready, WithArg(s, arg));
    assert Homes(s, x) == 1;
  }

  lemma CancelEventDistinct<T>(s: Sched<T>, arg: int)
    requires Housed(s)
    ensures var r := CancelEvent(s, arg); Distinct(r.event) && Distinct(r.ready) && Distinct(r.unuse)
  {
    var gone := WithArg(s, arg);
    Parted(s.event, gone);
    Parted(s.ready, gone);
    PartedDistinct(s.event, gone);
    PartedDistinct(s.ready, gone);
    forall x | x in s.info ensures One(x in s.event) + One(x in s.ready) + One(x in s.unuse) <= 1 {
      assert Homes(s, x) == 1;
    }
    DistinctConcat(s.unuse, Keep(s.event, gone));
    DistinctConcat(s.unuse + Keep(s.event, gone), Keep(s.ready, gone));
  }

  lemma CancelEventKeeps<T>(s: Sched<T>, arg: int)
    requires Inv(s)
    ensures Inv(CancelEvent(s, arg))
  {
    Parted(s.event, WithArg(s, arg));
    Parted(s.ready, WithArg(s, arg));
    CancelEventDistinct(s, arg);
    forall x | x in s.info ensures Homes(CancelEvent(s, arg), x) == 1 {
      CancelEventHomes(s, arg, x);
    }
  }

  // ---- fetching ----

  // thread_run: the head of the ready list is handed out and its record recycled.
  function Run<T>(s: Sched<T>): Sched<T>
    requires s.ready != []
  {
    s.(ready := s.ready[1..], unuse := s.unuse + [s.ready[0]])
  }

  // thread_process on the event list.
  function Promote<T>(s: Sched<T>): Sched<T> {
    s.(event := [], ready := s.ready + s.event)
  }

  ghost function Due<T>(s: Sched<T>, queue: set<T>, now: Timeval): set<T> {
    set t | t in queue && t in s.info && Cmp(now, Expiry(s.info[t].u)) >= 0
  }

  // q lists exactly the records of due, each once, in nondecreasing expiry.
  ghost predicate InExpiryOrder<T>(s: Sched<T>, q: seq<T>, due: set<T>) {
    && due <= s.info.Keys
    && (forall t :: t in q ==> t in due) && (forall t :: t in due ==> t in q) && Distinct(q)
    && forall i, j :: 0 <= i < j < |q| ==> Cmp(Expiry(s.info[q[i]].u), Expiry(s.info[q[j]].u)) <= 0
  }

  // thread_timer_process on the foreground or the background queue.
  ghost function Pop<T>(s: Sched<T>, foreground: bool, q: seq<T>): Sched<T> {
    var gone := set t | t in q;
    if foreground then s.(timer := s.timer - gone, ready := s.ready + q)
    else s.(background := s.background - gone, ready := s.ready + q)
  }

  ghost function OnFd<T>(s: Sched<T>, list: seq<T>, fds: set<int>): set<T> {
    set t | t in list && t in s.info && FdOf(s.info[t]) in fds
  }

  // thread_process_fd on the read or the write list.
  ghost function Wake<T>(s: Sched<T>, reading: bool, fds: set<int>): Sched<T>
    requires Contained(s)
  {
    if reading then
      var on := OnFd(s, s.read, fds);
      s.(read := Erase(s.read, on), readfd := s.readfd - fds, ready := s.ready + Keep(s.read, on))
    else
      var on := OnFd(s, s.write, fds);
      s.(write := Erase(s.write, on), writefd := s.writefd - fds, ready := s.ready + Keep(s.write, on))
  }

  lemma RunKeeps<T>(s: Sched<T>)
    requires Inv(s) && s.ready != []
    ensures Inv(Run(s))
  {
    var r := Run(s);
    assert s.ready == [s.ready[0]] + s.ready[1..];
    forall x | x in s.info ensures Homes(r, x) == 1 {
      assert Homes(s, x) == 1;
    }
    assert Homes(s, s.ready[0]) == 1;
    DistinctConcat(s.unuse, [s.ready[0]]);
  }

  lemma PromoteKeeps<T>(s: Sched<T>)
    requires Inv(s)
    ensures Inv(Promote(s))
  {
    forall x | x in s.info ensures Homes(Promote(s), x) == 1 && !(x in s.ready && x in s.event) {
      assert Homes(s, x) == 1;
    }
    DistinctConcat(s.ready, s.event);
  }

  lemma PopHomes<T>(s: Sched<T>, foreground: bool, q: seq<T>, x: T)
    requires Housed(s) && x in s.info
    requires forall t :: t in q ==> t in if foreground then s.timer else s.background
    ensures Homes(Pop(s, foreground, q), x) == 1 && !(x in s.ready && x in q)
  {
    assert Homes(s, x) == 1;
  }

  lemma PopCounts<T>(s: Sched<T>, foreground: bool, q: seq<T>)
    requires Distinct(q)
    requires forall t :: t in q ==> t in if foreground then s.timer else s.background
    ensures Held(Pop(s, foreground, q)) == Held(s)
  {
    var gone := set t | t in q;
    DistinctSize(q, gone);
    assert gone <= if foreground then s.timer else s.background;
  }

  lemma PopKeeps<T>(s: Sched<T>, foreground: bool, q: seq<T>)
    requires Inv(s) && Distinct(q)
    requires forall t :: t in q ==> t in if foreground then s.timer else s.background
    ensures Inv(Pop(s, foreground, q))
  {
    forall x | x in s.info ensures Homes(Pop(s, foreground, q), x) == 1 && !(x in s.ready && x in q) {
      PopHomes(s, foreground, q, x);
    }
    PopCounts(s, foreground, q);
    DistinctConcat(s.ready, q);
  }

  lemma WakeHouses<T>(s: Sched<T>, reading: bool, fds: set<int>)
    requires Housed(s)
    ensures Housed(Wake(s, reading, fds)) && Held(Wake(s, reading, fds)) == Held(s)
  {
    var list := if reading then s.read else s.write;
    var on := OnFd(s, list, fds);
    Parted(list, on);
    PartedDistinct(list, on);
    forall x | x in s.info ensures Homes(Wake(s, reading, fds), x) == 1 && !(x in s.ready && x in Keep(list, on)) {
      assert Homes(s, x) == 1;
    }
    DistinctConcat(s.ready, Keep(list, on));
  }

  lemma WakeKeeps<T>(s: Sched<T>, reading: bool, fds: set<int>)
    requires Inv(s)
    ensures Inv(Wake(s, reading, fds))
  {
    WakeHouses(s, reading, fds);
    if reading {
      OneEachErase(s.info, s.read, OnFd(s, s.read, fds), s.readfd, fds);
    } else {
      OneEachErase(s.info, s.write, OnFd(s, s.write, fds), s.writefd, fds);
    }
  }

  // One trip round the loop of thread_fetch in which select returned num >= 0.
  ghost predicate Pass<T>(s: Sched<T>, o: Outcome, fg: seq<T>, bg: seq<T>, r: Sched<T>)
    requires o.Selected?
  {
    && Contained(s)
    && InExpiryOrder(s, fg, Due(s, s.timer, o.now))
    && InExpiryOrder(s, bg, Due(s, s.background, o.now))
    && var s2 := Pop(Promote(s), true, fg);
    && Contained(s2)
    && var s3 := Wake(s2, true, o.readable);
    && Contained(s3)
    && r == Pop(Wake(s3, false, o.writable), false, bg)
  }

  lemma PassKeeps<T>(s: Sched<T>, o: Outcome, fg: seq<T>, bg: seq<T>, r: Sched<T>)
    requires Inv(s) && o.Selected? && Pass(s, o, fg, bg, r)
    ensures Inv(r)
  {
    PromoteKeeps(s);
    var s2 := Pop(Promote(s), true, fg);
    PopKeeps(Promote(s), true, fg);
    WakeKeeps(s2, true, o.readable);
    WakeKeeps(Wake(s2, true, o.readable), false, o.writable);
    PopKeeps(Wake(Wake(s2, true, o.readable), false, o.writable), false, bg);
  }

  // The ready list that a pass leaves when it started with nothing ready.
  ghost function Ordered<T>(s: Sched<T>, o: Outcome, fg: seq<T>, bg: seq<T>): seq<T>
    requires Contained(s) && o.Selected?
  {
    s.event + fg + Keep(s.read, OnFd(s, s.read, o.readable)) + Keep(s.write, OnFd(s, s.write, o.writable)) + bg
  }

  // ---- runs ----

  // The state at the top of the loop of thread_fetch, and the timers the trip from there finds due.
  datatype Trip<T(==)> = Trip(top: Sched<T>, fg: seq<T>, bg: seq<T>)

  // A trip round the loop that does not end the call.
  ghost predicate Loops<T>(trip: Trip<T>, o: Outcome, r: Sched<T>) {
    && trip.top.ready == []
    && match o
       case Interrupted => r == Promote(trip.top)
       case Failed => false
       case Selected(_, _, _) => Pass(trip.top, o, trip.fg, trip.bg, r)
  }

  // thread_fetch, given the outcomes of its calls of select: out is the record handed out, if any,
  // and r the final state. Without a record, the last select failed, or the outcomes ran out and
  // the call is still waiting.
  ghost predicate Fetch<T>(s: Sched<T>, env: seq<Outcome>, trips: seq<Trip<T>>, out: seq<T>, r: Sched<T>) {
    && 0 < |trips| <= |env| + 1 && trips[0].top == s
    && (forall i :: 0 <= i < |trips| - 1 ==> Loops(trips[i], env[i], trips[i + 1].top))
    && var n := |trips| - 1;
    var last := trips[n].top;
    if last.ready != [] then out == [last.ready[0]] && r == Run(last)
    else out == [] && r == Promote(last) && (n < |env| ==> env[n].Failed?)
  }

  lemma {:induction false} TripsKeep<T>(s: Sched<T>, env: seq<Outcome>, trips: seq<Trip<T>>, out: seq<T>,
      r: Sched<T>, i: nat)
    requires Inv(s) && Fetch(s, env, trips, out, r) && i < |trips|
    ensures Inv(trips[i].top)
  {
    if i > 0 {
      TripsKeep(s, env, trips, out, r, i - 1);
      var before := trips[i - 1];
      assert Loops(before, env[i - 1], trips[i].top);
      if env[i - 1].Interrupted? {
        PromoteKeeps(before.top);
      } else {
        PassKeeps(before.top, env[i - 1], before.fg, before.bg, trips[i].top);
      }
    }
  }

  lemma PassOrder<T>(s: Sched<T>, o: Outcome, fg: seq<T>, bg: seq<T>, r: Sched<T>)
    requires s.ready == [] && o.Selected? && Pass(s, o, fg, bg, r)
    ensures Contained(s) && r.ready == Ordered(s, o, fg, bg) && r.event == []
  {
    hide Due, InExpiryOrder;
  }

  // What stays in the heaps is not due.
  lemma PassTimers<T>(s: Sched<T>, o: Outcome, fg: seq<T>, bg: seq<T>, r: Sched<T>)
    requires o.Selected? && Pass(s, o, fg, bg, r)
    ensures InExpiryOrder(s, fg, Due(s, s.timer, o.now)) && InExpiryOrder(s, bg, Due(s, s.background, o.now))
    ensures r.timer == s.timer - Due(s, s.timer, o.now) && r.background == s.background - Due(s, s.background, o.now)
  {
    hide Keep, Erase, OnFd;
    LeavesDue(s, fg, Due(s, s.timer, o.now));
    LeavesDue(s, bg, Due(s, s.background, o.now));
  }

  lemma LeavesDue<T>(s: Sched<T>, q: seq<T>, due: set<T>)
    requires InExpiryOrder(s, q, due)
    ensures (set t | t in q) == due
  {
  }

  lemma LaterThan(now: Timeval, t: Timeval)
    requires Cmp(now, t) < 0
    ensures Cmp(t, now) > 0
  {
  }

  // A fetch that hands out a record after a trip in which select reported something: the order of the
  // record and the ready list behind it, and what stays in the heaps.
  lemma FetchOrder<T>(s: Sched<T>, env: seq<Outcome>, trips: seq<Trip<T>>, out: seq<T>, r: Sched<T>)
    requires Fetch(s, env, trips, out, r) && out != [] && |trips| > 1 && env[|trips| - 2].Selected?
    ensures var Trip(top, fg, bg) := trips[|trips| - 2]; var o := env[|trips| - 2];
      && Contained(top) && top.ready == []
      && InExpiryOrder(top, fg, Due(top, top.timer, o.now)) && InExpiryOrder(top, bg, Due(top, top.background, o.now))
      && out + r.ready == Ordered(top, o, fg, bg) && r.event == []
      && r.timer <= top.timer && r.background <= top.background
      && forall t :: t in r.timer + r.background ==> t in top.info && Cmp(Expiry(top.info[t].u), o.now) > 0
  {
    hide Pass, InExpiryOrder, Ordered, Cmp;
    var n := |trips| - 2;
    var Trip(top, fg, bg) := trips[n];
    var o := env[n];
    assert Loops(trips[n], env[n], trips[n + 1].top);
    PassOrder(top, o, fg, bg, trips[n + 1].top);
    PassTimers(top, o, fg, bg, trips[n + 1].top);
    forall t | t in r.timer + r.background ensures t in top.info && Cmp(Expiry(top.info[t].u), o.now) > 0 {
      LaterThan(o.now, Expiry(top.info[t].u));
    }
  }

  datatype Action<T> =
    | Adding(kind: Kind, t: T, info: Info)
    | Refused
    | Cancelling(t: T)
    | CancellingEvent(arg: int)
    | Fetching(env: seq<Outcome>, trips: seq<Trip<T>>, out: seq<T>)

  ghost predicate Step<T>(s: Sched<T>, a: Action<T>, r: Sched<T>) {
    match a
    case Adding(kind, t, i) => CanAdd(s, kind, t, i) && r == Add(s, kind, t, i)
    case Refused => r == s
    case Cancelling(t) => t in s.info && r == Cancel(s, t)
    case CancellingEvent(arg) => r == CancelEvent(s, arg)
    case Fetching(env, trips, out) => Fetch(s, env, trips, out, r)
  }

  lemma StepKeeps<T>(s: Sched<T>, a: Action<T>, r: Sched<T>)
    requires Inv(s) && Step(s, a, r)
    ensures Inv(r)
  {
    match a
    case Adding(kind, t, i) => AddKeeps(s, kind, t, i);
    case Refused =>
    case Cancelling(t) => CancelKeeps(s, t);
    case CancellingEvent(arg) => CancelEventKeeps(s, arg);
    case Fetching(env, trips, out) =>
      TripsKeep(s, env, trips, out, r, |trips| - 1);
      var last := trips[|trips| - 1].top;
      if last.ready != [] {
        RunKeeps(last);
      } else {
        PromoteKeeps(last);
      }
  }

  // states[i] becomes states[i + 1] by actions[i].
  ghost predicate IsRun<T>(states: seq<Sched<T>>, actions: seq<Action<T>>) {
    && |states| == |actions| + 1
    && forall i :: 0 <= i < |actions| ==> Step(states[i], actions[i], states[i + 1])
  }

  // The scheduler invariant holds after every call of every run.
  lemma {:induction false} RunsKeepInvariant<T>(states: seq<Sched<T>>, actions: seq<Action<T>>, i: nat)
    requires IsRun(states, actions) && i < |states| && Inv(states[0])
    ensures Inv(states[i])
  {
    if i > 0 {
      RunsKeepInvariant(states, actions, i - 1);
      StepKeeps(states[i - 1], actions[i - 1], states[i]);
    }
  }
}
