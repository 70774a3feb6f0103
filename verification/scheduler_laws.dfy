// What the steps of the scheduler mean for the records and their times, said without the definitions by which
// the steps are described.
module SchedulerLaws {
  import opened Sequences
  import opened Timevals
  import opened SchedulerSpec

  // ---- the invariant ----

  // Each record is in exactly one place, once, and is counted.
  lemma InvSays<T>(s: Sched<T>)
    requires Inv(s)
    ensures s.alloc == |s.read| + |s.write| + |s.event| + |s.ready| + |s.unuse| + |s.timer| + |s.background|
    ensures var q := s.read + s.write + s.event + s.ready + s.unuse;
      && (forall i, j :: 0 <= i < j < |q| ==> q[i] != q[j])
      && (forall i :: 0 <= i < |q| ==> q[i] in s.info && q[i] !in s.timer && q[i] !in s.background)
      && s.timer !! s.background
      && (forall t :: t in s.info ==> t in q || t in s.timer || t in s.background)
  {
    var q := s.read + s.write + s.event + s.ready + s.unuse;
    forall t | t in s.info ensures Homes(s, t) == 1 {
    }
    DistinctConcat(s.read, s.write);
    DistinctConcat(s.read + s.write, s.event);
    DistinctConcat(s.read + s.write + s.event, s.ready);
    DistinctConcat(s.read + s.write + s.event + s.ready, s.unuse);
    forall i | 0 <= i < |q| ensures q[i] in s.info && q[i] !in s.timer && q[i] !in s.background {
      assert q[i] in q;
      assert Homes(s, q[i]) == 1;
    }
    forall t | t in s.timer ensures t !in s.background {
      assert Homes(s, t) == 1;
    }
  }

  // ---- adding ----

  // Exactly the container asked for gains the record, at its end; a record held in no other is taken for it.
  lemma AddSays<T>(s: Sched<T>, kind: Kind, t: T, i: Info)
    requires Inv(s) && CanAdd(s, kind, t, i)
    ensures var r := Add(s, kind, t, i);
      && r.info == s.info[t := i] && r.ready == s.ready
      && r.read == s.read + (if kind.ForRead? then [t] else [])
      && r.write == s.write + (if kind.ForWrite? then [t] else [])
      && r.event == s.event + (if kind.ForEvent? then [t] else [])
      && r.timer == s.timer + (if kind.ForTimer? then {t} else {})
      && r.background == s.background + (if kind.ForBackground? then {t} else {})
    ensures kind.ForRead? && i.u.Fd? ==> i.u.fd !in s.readfd && Add(s, kind, t, i).readfd == s.readfd + {i.u.fd}
    ensures kind.ForWrite? && i.u.Fd? ==> i.u.fd !in s.writefd && Add(s, kind, t, i).writefd == s.writefd + {i.u.fd}
    ensures !kind.ForRead? ==> Add(s, kind, t, i).readfd == s.readfd
    ensures !kind.ForWrite? ==> Add(s, kind, t, i).writefd == s.writefd
    ensures t !in s.read && t !in s.write && t !in s.event && t !in s.ready && t !in s.timer && t !in s.background
    ensures if s.unuse == [] then t !in s.info && Add(s, kind, t, i).unuse == []
      else s.unuse == [t] + Add(s, kind, t, i).unuse
  {
    hide Inv;
    AddLoose(s, kind, t, i);
    AddFiles(s, kind, t, i);
  }

  lemma AddLoose<T>(s: Sched<T>, kind: Kind, t: T, i: Info)
    requires Inv(s) && CanAdd(s, kind, t, i)
    ensures t !in s.read && t !in s.write && t !in s.event && t !in s.ready && t !in s.timer && t !in s.background
  {
    TakenIsLoose(s, t);
  }

  lemma AddFiles<T>(s: Sched<T>, kind: Kind, t: T, i: Info)
    requires CanAdd(s, kind, t, i)
    ensures var r := Add(s, kind, t, i);
      && r.info == s.info[t := i] && r.ready == s.ready
      && r.read == s.read + (if kind.ForRead? then [t] else [])
      && r.write == s.write + (if kind.ForWrite? then [t] else [])
      && r.event == s.event + (if kind.ForEvent? then [t] else [])
      && r.timer == s.timer + (if kind.ForTimer? then {t} else {})
      && r.background == s.background + (if kind.ForBackground? then {t} else {})
  {
  }

  // ---- cancelling ----

  // The record is unused, and nothing else has moved.
  lemma CancelSays<T>(s: Sched<T>, t: T)
    requires Inv(s) && t in s.info && t !in s.unuse
    ensures var r := Cancel(s, t);
      && r.unuse == s.unuse + [t] && r.info == s.info
      && t !in r.read && t !in r.write && t !in r.event && t !in r.ready && t !in r.timer && t !in r.background
      && forall x :: x != t ==>
        && (x in r.read <==> x in s.read) && (x in r.write <==> x in s.write) && (x in r.event <==> x in s.event)
        && (x in r.ready <==> x in s.ready) && (x in r.timer <==> x in s.timer)
        && (x in r.background <==> x in s.background)
    ensures s.info[t].u.Fd? ==>
      && Cancel(s, t).readfd == (if t in s.read then s.readfd - {s.info[t].u.fd} else s.readfd)
      && Cancel(s, t).writefd == (if t in s.write then s.writefd - {s.info[t].u.fd} else s.writefd)
  {
    Parted(s.read, {t});
    Parted(s.write, {t});
    Parted(s.event, {t});
    Parted(s.ready, {t});
  }

  // No event or ready record keeps the argument, every other one stays where it was, and those taken out are
  // unused.
  lemma CancelEventSays<T>(s: Sched<T>, arg: int)
    requires Inv(s)
    ensures var r := CancelEvent(s, arg);
      && r.info == s.info
      && (forall t :: t in r.event <==> t in s.event && s.info[t].arg != arg)
      && (forall t :: t in r.ready <==> t in s.ready && s.info[t].arg != arg)
      && (forall t :: t in r.unuse <==> t in s.unuse || ((t in s.event || t in s.ready) && s.info[t].arg == arg))
      && r.read == s.read && r.write == s.write && r.timer == s.timer && r.background == s.background
  {
    Parted(s.event, WithArg(s, arg));
    Parted(s.ready, WithArg(s, arg));
  }

  // Keeping and erasing leave the order as it is.
  lemma KeepsOrder<T>(s: seq<T>, chosen: set<T>, i: nat, j: nat)
    requires i < j < |s|
    ensures s[i] in chosen && s[j] in chosen ==>
      exists k, l :: 0 <= k < l < |Keep(s, chosen)| && Keep(s, chosen)[k] == s[i] && Keep(s, chosen)[l] == s[j]
    ensures s[i] !in chosen && s[j] !in chosen ==>
      exists k, l :: 0 <= k < l < |Erase(s, chosen)| && Erase(s, chosen)[k] == s[i] && Erase(s, chosen)[l] == s[j]
  {
    hide Keep, Erase;
    var a, b := s[..j], s[j..];
    assert s == a + b;
    SplitAt(a, b, chosen);
    Parted(a, chosen);
    Parted(b, chosen);
    assert a[i] == s[i] && b[0] == s[j];
    if s[i] in chosen && s[j] in chosen {
      OneEachPart(Keep(a, chosen), Keep(b, chosen), s[i], s[j]);
    }
    if s[i] !in chosen && s[j] !in chosen {
      OneEachPart(Erase(a, chosen), Erase(b, chosen), s[i], s[j]);
    }
  }

  lemma OneEachPart<T>(a: seq<T>, b: seq<T>, x: T, y: T)
    requires x in a && y in b
    ensures exists k, l :: 0 <= k < l < |a + b| && (a + b)[k] == x && (a + b)[l] == y
  {
    var k, l := IndexOf(a, x), IndexOf(b, y) + |a|;
    assert (a + b)[k] == x && (a + b)[l] == y;
  }

  // ---- what records hold ----

  // Records that wait for a descriptor hold one, timers a normal time, and events a value.
  ghost predicate Holding<T>(s: Sched<T>) {
    && (forall t :: t in s.read ==> t in s.info && s.info[t].u.Fd?)
    && (forall t :: t in s.write ==> t in s.info && s.info[t].u.Fd?)
    && (forall t :: t in s.timer + s.background ==>
      t in s.info && s.info[t].u.At? && 0 <= s.info[t].u.at.usec < 1000000)
    && (forall t :: t in s.event ==> t in s.info && s.info[t].u.Val?)
  }

  // The call files what the add calls file.
  predicate Files<T>(a: Action<T>) {
    a.Adding? ==>
      match a.kind
      case ForRead => a.info.u.Fd?
      case ForWrite => a.info.u.Fd?
      case ForEvent => a.info.u.Val?
      case _ => a.info.u.At? && 0 <= a.info.u.at.usec < 1000000
  }

  // What is filed by thread_add_read and thread_add_write, thread_add_event and the timer calls is of that kind,
  // and a new scheduler holds nothing.
  lemma FilesSays<T>(t: T, arg: int, n: int, now: Timeval, wait: Timeval)
    ensures Files(Adding(ForRead, t, Info(arg, Fd(n)))) && Files(Adding(ForWrite, t, Info(arg, Fd(n))))
    ensures Files(Adding(ForEvent, t, Info(arg, Val(n))))
    ensures Files(Adding(ForTimer, t, Info(arg, At(Alarm(now, wait)))))
    ensures Files(Adding(ForBackground, t, Info(arg, At(Alarm(now, wait)))))
    ensures Holding(Created<T>()) && Inv(Created<T>())
  {
    AlarmSpells(now, wait);
  }

  // A trip leaves the rest waiting where it was.
  ghost predicate Fewer<T>(s: Sched<T>, r: Sched<T>) {
    && r.info == s.info && r.timer <= s.timer && r.background <= s.background
    && (forall t :: t in r.read ==> t in s.read) && (forall t :: t in r.write ==> t in s.write)
    && (forall t :: t in r.event ==> t in s.event)
  }

  lemma LoopFewer<T>(trip: Trip<T>, o: Outcome, r: Sched<T>)
    requires Loops(trip, o, r)
    ensures Fewer(trip.top, r)
  {
    var s := trip.top;
    if o.Selected? {
      Parted(s.read, OnFd(s, s.read, o.readable));
      Parted(s.write, OnFd(s, s.write, o.writable));
    }
  }

  lemma {:induction false} TripsFewer<T>(s: Sched<T>, env: seq<Outcome>, trips: seq<Trip<T>>, out: seq<T>,
      r: Sched<T>, i: nat)
    requires Fetch(s, env, trips, out, r) && i < |trips|
    ensures Fewer(s, trips[i].top)
  {
    hide Loops;
    if i > 0 {
      TripsFewer(s, env, trips, out, r, i - 1);
      assert Loops(trips[i - 1], env[i - 1], trips[i].top);
      LoopFewer(trips[i - 1], env[i - 1], trips[i].top);
    }
  }

  lemma FetchFewer<T>(s: Sched<T>, env: seq<Outcome>, trips: seq<Trip<T>>, out: seq<T>, r: Sched<T>)
    requires Fetch(s, env, trips, out, r)
    ensures Fewer(s, r)
  {
    TripsFewer(s, env, trips, out, r, |trips| - 1);
  }

  lemma StepHolds<T>(s: Sched<T>, a: Action<T>, r: Sched<T>)
    requires Inv(s) && Step(s, a, r) && Holding(s) && Files(a)
    ensures Holding(r)
  {
    hide Inv, Fetch, CanAdd, Add, Cancel, CancelEvent;
    match a
    case Adding(kind, t, i) => AddSays(s, kind, t, i);
    case Cancelling(t) =>
      if t !in s.unuse {
        CancelSays(s, t);
      } else {
        CancelUnused(s, t);
      }
    case CancellingEvent(arg) => CancelEventSays(s, arg);
    case Fetching(env, trips, out) => FetchFewer(s, env, trips, out, r);
    case Refused =>
  }

  lemma CancelUnused<T>(s: Sched<T>, t: T)
    requires t in s.info && t in s.unuse
    ensures Cancel(s, t) == s
  {
  }

  // Over every run of calls that file such records.
  lemma {:induction false} RunsHold<T>(states: seq<Sched<T>>, actions: seq<Action<T>>, i: nat)
    requires IsRun(states, actions) && i < |states| && Inv(states[0]) && Holding(states[0])
    requires forall k :: 0 <= k < |actions| ==> Files(actions[k])
    ensures Inv(states[i]) && Holding(states[i])
  {
    hide Inv, Step, Holding, Files;
    if i > 0 {
      RunsHold(states, actions, i - 1);
      StepKeeps(states[i - 1], actions[i - 1], states[i]);
      StepHolds(states[i - 1], actions[i - 1], states[i]);
    }
  }

  // The descriptors watched are those that the records hold, one each.
  lemma WatchedAre<T>(s: Sched<T>)
    requires Inv(s) && Holding(s)
    ensures forall fd :: fd in s.readfd <==> exists t :: t in s.read && s.info[t].u == Fd(fd)
    ensures forall fd :: fd in s.writefd <==> exists t :: t in s.write && s.info[t].u == Fd(fd)
    ensures forall i, j :: 0 <= i < j < |s.read| ==> s.info[s.read[i]].u != s.info[s.read[j]].u
    ensures forall i, j :: 0 <= i < j < |s.write| ==> s.info[s.write[i]].u != s.info[s.write[j]].u
  {
    WatchedList(s.info, s.read, s.readfd);
    WatchedList(s.info, s.write, s.writefd);
  }

  lemma WatchedList<T>(info: map<T, Info>, list: seq<T>, fds: set<int>)
    requires forall t :: t in list ==> t in info && info[t].u.Fd?
    requires OneEach(info, list, fds)
    ensures forall fd :: fd in fds <==> exists t :: t in list && info[t].u == Fd(fd)
    ensures forall i, j :: 0 <= i < j < |list| ==> info[list[i]].u != info[list[j]].u
  {
    var l := FdsOf(info, list);
    forall i | 0 <= i < |list| ensures l[i] == info[list[i]].u.fd {
      FdsOfAt(info, list, i);
    }
    forall fd | fd in fds ensures exists t :: t in list && info[t].u == Fd(fd) {
      var i :| 0 <= i < |l| && l[i] == fd;
      assert list[i] in list && info[list[i]].u == Fd(fd);
    }
    forall t | t in list ensures info[t].u.fd in fds {
      var i := IndexOf(list, t);
      assert l[i] in l;
    }
  }

  // ---- what a fetch hands out ----

  // The same records wait in r, for the same.
  predicate WaitAlike<T>(s: Sched<T>, r: Sched<T>) {
    && r.info == s.info && r.event == s.event && r.read == s.read && r.write == s.write
    && r.timer == s.timer && r.background == s.background
  }

  lemma KeepNothing<T>(s: seq<T>, chosen: set<T>)
    requires Keep(s, chosen) == []
    ensures Erase(s, chosen) == s
  {
    Parted(s, chosen);
    EraseNone(s, chosen);
  }

  // A trip that makes nothing ready moves nothing.
  lemma IdleTrip<T>(trip: Trip<T>, o: Outcome, r: Sched<T>)
    requires Loops(trip, o, r) && r.ready == []
    ensures WaitAlike(trip.top, r)
  {
    var s := trip.top;
    if o.Selected? {
      PassOrder(s, o, trip.fg, trip.bg, r);
      KeepNothing(s.read, OnFd(s, s.read, o.readable));
      KeepNothing(s.write, OnFd(s, s.write, o.writable));
    }
  }

  lemma {:induction false} IdleTrips<T>(s: Sched<T>, env: seq<Outcome>, trips: seq<Trip<T>>, out: seq<T>,
      r: Sched<T>, i: nat)
    requires Fetch(s, env, trips, out, r) && i < |trips| - 1
    ensures WaitAlike(s, trips[i].top) && trips[i].top.ready == []
  {
    hide Loops;
    assert Loops(trips[i], env[i], trips[i + 1].top);
    LoopReady(trips[i], env[i], trips[i + 1].top);
    if i > 0 {
      IdleTrips(s, env, trips, out, r, i - 1);
      assert Loops(trips[i - 1], env[i - 1], trips[i].top);
      IdleTrip(trips[i - 1], env[i - 1], trips[i].top);
    }
  }

  lemma LoopReady<T>(trip: Trip<T>, o: Outcome, r: Sched<T>)
    requires Loops(trip, o, r)
    ensures trip.top.ready == []
  {
  }

  // The call ended on a pass, in which select reported o.
  predicate EndsOnPass<T>(env: seq<Outcome>, trips: seq<Trip<T>>, out: seq<T>, o: Outcome) {
    out != [] && 1 < |trips| <= |env| + 1 && env[|trips| - 2] == o && o.Selected?
  }

  lemma EndsOnPassIf<T>(s: Sched<T>, env: seq<Outcome>, trips: seq<Trip<T>>, out: seq<T>, r: Sched<T>)
    requires Fetch(s, env, trips, out, r) && out != [] && |trips| > 1 && env[|trips| - 2].Selected?
    ensures EndsOnPass(env, trips, out, env[|trips| - 2])
  {
  }

  // What is handed out and left ready, and what is left waiting.
  lemma LastPass<T>(s: Sched<T>, env: seq<Outcome>, trips: seq<Trip<T>>, out: seq<T>, r: Sched<T>, o: Outcome)
      returns (fg: seq<T>, bg: seq<T>)
    requires Inv(s) && Fetch(s, env, trips, out, r) && EndsOnPass(env, trips, out, o)
    ensures InExpiryOrder(s, fg, Due(s, s.timer, o.now)) && InExpiryOrder(s, bg, Due(s, s.background, o.now))
    ensures var woken, flushed := OnFd(s, s.read, o.readable), OnFd(s, s.write, o.writable);
      && out + r.ready == s.event + fg + Keep(s.read, woken) + Keep(s.write, flushed) + bg
      && r.read == Erase(s.read, woken) && r.write == Erase(s.write, flushed) && r.event == []
      && r.timer == s.timer - Due(s, s.timer, o.now) && r.background == s.background - Due(s, s.background, o.now)
  {
    hide Inv, Due, InExpiryOrder, OnFd, Keep, Erase;
    var n := |trips| - 2;
    IdleTrips(s, env, trips, out, r, n);
    var last := trips[n + 1].top;
    assert Loops(trips[n], env[n], last);
    fg, bg := trips[n].fg, trips[n].bg;
    PassSays(trips[n].top, o, fg, bg, last);
    SameWork(s, trips[n].top, fg, bg, o);
    assert last.ready == out + r.ready;
  }

  lemma SameWork<T>(s: Sched<T>, r: Sched<T>, fg: seq<T>, bg: seq<T>, o: Outcome)
    requires WaitAlike(s, r) && o.Selected?
    ensures Due(s, s.timer, o.now) == Due(r, r.timer, o.now)
    ensures Due(s, s.background, o.now) == Due(r, r.background, o.now)
    ensures OnFd(s, s.read, o.readable) == OnFd(r, r.read, o.readable)
    ensures OnFd(s, s.write, o.writable) == OnFd(r, r.write, o.writable)
    ensures InExpiryOrder(s, fg, Due(s, s.timer, o.now)) <==> InExpiryOrder(r, fg, Due(r, r.timer, o.now))
    ensures InExpiryOrder(s, bg, Due(s, s.background, o.now)) <==> InExpiryOrder(r, bg, Due(r, r.background, o.now))
  {
  }

  lemma PassSays<T>(s: Sched<T>, o: Outcome, fg: seq<T>, bg: seq<T>, r: Sched<T>)
    requires s.ready == [] && o.Selected? && Pass(s, o, fg, bg, r)
    ensures InExpiryOrder(s, fg, Due(s, s.timer, o.now)) && InExpiryOrder(s, bg, Due(s, s.background, o.now))
    ensures var woken, flushed := OnFd(s, s.read, o.readable), OnFd(s, s.write, o.writable);
      && r.ready == s.event + fg + Keep(s.read, woken) + Keep(s.write, flushed) + bg
      && r.read == Erase(s.read, woken) && r.write == Erase(s.write, flushed) && r.event == []
      && r.timer == s.timer - Due(s, s.timer, o.now) && r.background == s.background - Due(s, s.background, o.now)
  {
    hide Due, InExpiryOrder;
    PassOrder(s, o, fg, bg, r);
    PassTimers(s, o, fg, bg, r);
  }

  // A fetch that ends on a pass at a normal time: what stays in the heaps is later than that, and what leaves
  // them is not.
  lemma FetchTimers<T>(s: Sched<T>, env: seq<Outcome>, trips: seq<Trip<T>>, out: seq<T>, r: Sched<T>, o: Outcome)
    requires Inv(s) && Holding(s) && Fetch(s, env, trips, out, r) && EndsOnPass(env, trips, out, o)
    requires 0 <= o.now.usec < 1000000
    ensures forall t :: t in s.timer + s.background ==>
      var late := s.info[t].u.at.sec * 1000000 + s.info[t].u.at.usec > o.now.sec * 1000000 + o.now.usec;
      && (t in s.timer ==> (t in r.timer <==> late)) && (t in s.background ==> (t in r.background <==> late))
      && (t in out + r.ready <==> !late)
    ensures r.timer <= s.timer && r.background <= s.background
  {
    hide Inv, Fetch, InExpiryOrder;
    var fg, bg := LastPass(s, env, trips, out, r, o);
    ListsDue(s, fg, Due(s, s.timer, o.now));
    ListsDue(s, bg, Due(s, s.background, o.now));
    forall t | t in s.timer + s.background ensures
      var late := s.info[t].u.at.sec * 1000000 + s.info[t].u.at.usec > o.now.sec * 1000000 + o.now.usec;
      && (t in s.timer ==> (t in r.timer <==> late)) && (t in s.background ==> (t in r.background <==> late))
      && (t in out + r.ready <==> !late)
    {
      CmpOrdersMicros(o.now, s.info[t].u.at);
      TimerAlone(s, t);
      Parted(s.read, OnFd(s, s.read, o.readable));
      Parted(s.write, OnFd(s, s.write, o.writable));
    }
  }

  lemma ListsDue<T>(s: Sched<T>, q: seq<T>, due: set<T>)
    requires InExpiryOrder(s, q, due)
    ensures forall t :: t in q <==> t in due
  {
  }

  lemma TimerAlone<T>(s: Sched<T>, t: T)
    requires Inv(s) && t in s.timer + s.background
    ensures t !in s.event && t !in s.read && t !in s.write && (t in s.timer <==> t !in s.background)
  {
    assert Homes(s, t) == 1;
  }

  // Those of one heap leave it in the order of their times.
  lemma FetchInOrder<T>(s: Sched<T>, env: seq<Outcome>, trips: seq<Trip<T>>, out: seq<T>, r: Sched<T>, o: Outcome)
    requires Inv(s) && Holding(s) && Fetch(s, env, trips, out, r) && EndsOnPass(env, trips, out, o)
    ensures var q := out + r.ready;
      forall i, j :: 0 <= i < j < |q| ==>
        var heap := if q[i] in s.timer then s.timer else s.background;
        q[i] in heap && q[j] in heap ==>
          s.info[q[i]].u.at.sec * 1000000 + s.info[q[i]].u.at.usec
          <= s.info[q[j]].u.at.sec * 1000000 + s.info[q[j]].u.at.usec
  {
    hide Inv, Fetch, InExpiryOrder, Keep, OnFd, Due;
    var fg, bg := LastPass(s, env, trips, out, r, o);
    var q := out + r.ready;
    var woken, flushed := Keep(s.read, OnFd(s, s.read, o.readable)), Keep(s.write, OnFd(s, s.write, o.writable));
    Parted(s.read, OnFd(s, s.read, o.readable));
    Parted(s.write, OnFd(s, s.write, o.writable));
    ListsDue(s, fg, Due(s, s.timer, o.now));
    ListsDue(s, bg, Due(s, s.background, o.now));
    DueTimers(s, o.now);
    forall i, j | 0 <= i < j < |q| && (var heap := if q[i] in s.timer then s.timer else s.background;
      q[i] in heap && q[j] in heap)
      ensures s.info[q[i]].u.at.sec * 1000000 + s.info[q[i]].u.at.usec
        <= s.info[q[j]].u.at.sec * 1000000 + s.info[q[j]].u.at.usec
    {
      TimerAlone(s, q[i]);
      TimerAlone(s, q[j]);
      if q[i] in s.timer {
        InSecond(s.event, fg, woken + flushed + bg, q, i);
        InSecond(s.event, fg, woken + flushed + bg, q, j);
        InTimeOrder(s, fg, Due(s, s.timer, o.now), i - |s.event|, j - |s.event|);
      } else {
        var a := s.event + fg + woken + flushed;
        InSecond(a, bg, [], q, i);
        InSecond(a, bg, [], q, j);
        InTimeOrder(s, bg, Due(s, s.background, o.now), i - |a|, j - |a|);
      }
    }
  }

  lemma DueTimers<T>(s: Sched<T>, now: Timeval)
    requires Holding(s)
    ensures forall t :: t in Due(s, s.timer, now) + Due(s, s.background, now) ==>
      t in s.info && s.info[t].u.At? && 0 <= s.info[t].u.at.usec < 1000000
    ensures Due(s, s.timer, now) <= s.timer && Due(s, s.background, now) <= s.background
  {
  }

  lemma InSecond<T>(a: seq<T>, b: seq<T>, c: seq<T>, q: seq<T>, i: nat)
    requires q == a + b + c && i < |q| && q[i] !in a && q[i] !in c
    ensures |a| <= i < |a| + |b| && q[i] == b[i - |a|]
  {
  }

  lemma InTimeOrder<T>(s: Sched<T>, q: seq<T>, due: set<T>, i: nat, j: nat)
    requires InExpiryOrder(s, q, due) && i < j < |q|
    requires forall t :: t in due ==> t in s.info && s.info[t].u.At? && 0 <= s.info[t].u.at.usec < 1000000
    ensures q[i] in s.info && q[j] in s.info && s.info[q[i]].u.At? && s.info[q[j]].u.At?
    ensures s.info[q[i]].u.at.sec * 1000000 + s.info[q[i]].u.at.usec
      <= s.info[q[j]].u.at.sec * 1000000 + s.info[q[j]].u.at.usec
  {
    CmpOrdersMicros(s.info[q[i]].u.at, s.info[q[j]].u.at);
    CmpOrdersMicros(s.info[q[j]].u.at, s.info[q[i]].u.at);
  }

  // Exactly the records whose descriptor is reported stop waiting for it.
  lemma FetchDescriptors<T>(s: Sched<T>, env: seq<Outcome>, trips: seq<Trip<T>>, out: seq<T>, r: Sched<T>,
      o: Outcome)
    requires Inv(s) && Holding(s) && Fetch(s, env, trips, out, r) && EndsOnPass(env, trips, out, o)
    ensures forall t :: t in s.read ==>
      && (t in r.read <==> s.info[t].u.fd !in o.readable) && (t in out + r.ready <==> s.info[t].u.fd in o.readable)
    ensures forall t :: t in s.write ==>
      && (t in r.write <==> s.info[t].u.fd !in o.writable) && (t in out + r.ready <==> s.info[t].u.fd in o.writable)
  {
    hide Inv, Fetch, InExpiryOrder;
    var fg, bg := LastPass(s, env, trips, out, r, o);
    ListsDue(s, fg, Due(s, s.timer, o.now));
    ListsDue(s, bg, Due(s, s.background, o.now));
    Parted(s.read, OnFd(s, s.read, o.readable));
    Parted(s.write, OnFd(s, s.write, o.writable));
    forall t | t in s.read + s.write ensures t !in s.event && t !in s.timer && t !in s.background
      && (t in s.read <==> t !in s.write)
    {
      DescriptorAlone(s, t);
    }
    assert forall t :: t in s.read ==> t in s.read + s.write;
    assert forall t :: t in s.write ==> t in s.read + s.write;
  }

  lemma DescriptorAlone<T>(s: Sched<T>, t: T)
    requires Inv(s) && t in s.read + s.write
    ensures t !in s.event && t !in s.timer && t !in s.background && (t in s.read <==> t !in s.write)
  {
    assert Homes(s, t) == 1;
  }

  // The kinds of work, most urgent first.
  function Rank<T>(s: Sched<T>, t: T): nat {
    if t in s.event then 0 else if t in s.timer then 1 else if t in s.read then 2 else if t in s.write then 3 else 4
  }

  // Events come first, in their order, then foreground timers, woken, flushed and background timers.
  lemma FetchRanks<T>(s: Sched<T>, env: seq<Outcome>, trips: seq<Trip<T>>, out: seq<T>, r: Sched<T>, o: Outcome)
    requires Inv(s) && Fetch(s, env, trips, out, r) && EndsOnPass(env, trips, out, o)
    ensures var q := out + r.ready;
      && s.event <= q && r.event == []
      && (forall i :: 0 <= i < |q| ==> Rank(s, q[i]) == 4 ==> q[i] in s.background)
      && (forall i, j :: 0 <= i < j < |q| ==> Rank(s, q[i]) <= Rank(s, q[j]))
  {
    hide Inv, Fetch, InExpiryOrder, Rank;
    var fg, bg := LastPass(s, env, trips, out, r, o);
    var q := out + r.ready;
    var woken, flushed := Keep(s.read, OnFd(s, s.read, o.readable)), Keep(s.write, OnFd(s, s.write, o.writable));
    Parted(s.read, OnFd(s, s.read, o.readable));
    Parted(s.write, OnFd(s, s.write, o.writable));
    ListsDue(s, fg, Due(s, s.timer, o.now));
    ListsDue(s, bg, Due(s, s.background, o.now));
    var a, b, c, d := |s.event|, |s.event + fg|, |s.event + fg + woken|, |s.event + fg + woken + flushed|;
    forall i | 0 <= i < |q| ensures Rank(s, q[i])
      == (if i < a then 0 else if i < b then 1 else if i < c then 2 else if i < d then 3 else 4)
      && (i >= d ==> q[i] in s.background)
    {
      assert q[i] == if i < a then s.event[i] else if i < b then fg[i - a] else if i < c then woken[i - b]
        else if i < d then flushed[i - c] else bg[i - d];
      assert i < a ==> s.event[i] in s.event;
      assert a <= i < b ==> fg[i - a] in fg;
      assert b <= i < c ==> woken[i - b] in woken;
      assert c <= i < d ==> flushed[i - c] in flushed;
      assert i >= d ==> bg[i - d] in bg;
      RankIs(s, q[i]);
    }
  }

  lemma RankIs<T>(s: Sched<T>, t: T)
    requires Inv(s)
    ensures t in s.event ==> Rank(s, t) == 0
    ensures t in s.timer ==> Rank(s, t) == 1
    ensures t in s.read ==> Rank(s, t) == 2
    ensures t in s.write ==> Rank(s, t) == 3
    ensures t in s.background ==> Rank(s, t) == 4
  {
    if t in s.info {
      assert Homes(s, t) == 1;
    }
  }
}
