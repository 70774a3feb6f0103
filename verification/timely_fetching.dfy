// No kind of work starves: how many fetches pass before select is asked, and how many more before a timer that
// is due or a descriptor that is reported is served.
module TimelyFetching {
  import opened Sequences
  import opened Timevals
  import opened SchedulerLaws
  import opened SchedulerSpec
  import opened BoundedWaiting

  // In trip j of the fetch, select reported.
  predicate PassesAt<T>(a: Action<T>, j: nat) {
    a.Fetching? && j + 1 < |a.trips| && j < |a.env| && a.env[j].Selected?
  }

  ghost predicate Passes<T>(a: Action<T>) {
    exists j: nat :: PassesAt(a, j)
  }

  // t waits for a clock reading or a descriptor.
  ghost predicate Waits<T>(s: Sched<T>, t: T) {
    t in s.timer || t in s.background || t in s.read || t in s.write
  }

  // t waits in r as it does in s.
  ghost predicate WaitsAlike<T>(s: Sched<T>, r: Sched<T>, t: T) {
    && (t in s.timer <==> t in r.timer) && (t in s.background <==> t in r.background)
    && (t in s.read <==> t in r.read) && (t in s.write <==> t in r.write)
    && t in s.info && t in r.info && s.info[t] == r.info[t]
  }

  // What select reports is what t waits for.
  ghost predicate Called<T>(s: Sched<T>, o: Outcome, t: T) {
    && o.Selected? && t in s.info
    && (t in s.timer + s.background ==> Cmp(o.now, Expiry(s.info[t].u)) >= 0)
    && (t in s.read ==> FdOf(s.info[t]) in o.readable) && (t in s.write ==> FdOf(s.info[t]) in o.writable)
  }

  // For a timer, that its time has come; for a record that waits for a descriptor, that it is reported.
  lemma CalledSays<T>(s: Sched<T>, o: Outcome, t: T)
    requires Inv(s) && Holding(s) && o.Selected? && 0 <= o.now.usec < 1000000
    ensures t in s.timer || t in s.background || t in s.read || t in s.write <==> Waits(s, t)
    ensures t in s.timer || t in s.background ==> (Called(s, o, t) <==>
      s.info[t].u.at.sec * 1000000 + s.info[t].u.at.usec <= o.now.sec * 1000000 + o.now.usec)
    ensures t in s.read ==> (Called(s, o, t) <==> s.info[t].u.fd in o.readable)
    ensures t in s.write ==> (Called(s, o, t) <==> s.info[t].u.fd in o.writable)
  {
    if t in s.timer + s.background {
      TimerAlone(s, t);
      CmpOrdersMicros(o.now, s.info[t].u.at);
    } else if t in s.read + s.write {
      DescriptorAlone(s, t);
    }
  }

  // ---- fetches in which select does not report ----

  lemma {:induction false} InterruptedTrips<T>(s: Sched<T>, a: Action<T>, r: Sched<T>, i: nat)
    requires Step(s, a, r) && a.Fetching? && 0 < i < |a.trips| && forall j: nat :: j < i ==> !PassesAt(a, j)
    ensures s.ready == [] && a.trips[i].top == Promote(s)
  {
    assert Loops(a.trips[i - 1], a.env[i - 1], a.trips[i].top);
    assert !PassesAt(a, i - 1);
    if i > 1 {
      InterruptedTrips(s, a, r, i - 1);
    }
  }

  // Such a fetch hands out the head of the ready list, or makes the events ready.
  lemma FetchInterrupted<T>(s: Sched<T>, a: Action<T>, r: Sched<T>)
    requires Step(s, a, r) && a.Fetching? && !Passes(a)
    ensures |a.out| <= 1 && |a.out| + |r.ready| == if s.ready != [] then |s.ready| else |s.event|
    ensures r.timer == s.timer && r.background == s.background && r.read == s.read && r.write == s.write
    ensures r.info == s.info
  {
    var n := |a.trips| - 1;
    assert forall j: nat :: !PassesAt(a, j);
    if n > 0 {
      InterruptedTrips(s, a, r, n);
    }
  }

  lemma ReadyAfterOther<T>(s: Sched<T>, a: Action<T>, r: Sched<T>)
    requires Step(s, a, r) && !a.Fetching?
    ensures |r.ready| <= |s.ready|
  {
    match a
    case Cancelling(t) => Parted(s.ready, {t});
    case CancellingEvent(arg) => Parted(s.ready, WithArg(s, arg));
    case _ =>
  }

  // The events that a fetch makes ready because its select was interrupted, or failed.
  ghost function Delay<T>(states: seq<Sched<T>>, actions: seq<Action<T>>): nat
    requires |states| == |actions| + 1
  {
    if actions == [] then 0
    else
      var unheard := actions[0].Fetching? && !Passes(actions[0]) && states[0].ready == [];
      (if unheard then |states[0].event| else 0) + Delay(states[1..], actions[1..])
  }

  // There are none where the first select of each fetch reports.
  lemma {:induction false} NoDelay<T>(states: seq<Sched<T>>, actions: seq<Action<T>>)
    requires IsRun(states, actions)
    requires forall i :: 0 <= i < |actions| && actions[i].Fetching? ==>
      actions[i].env != [] && actions[i].env[0].Selected?
    ensures Delay(states, actions) == 0
    decreases |actions|
  {
    hide Passes;
    if actions != [] {
      TailIsRun(states, actions);
      NoDelay(states[1..], actions[1..]);
      if actions[0].Fetching? && states[0].ready == [] {
        FirstSelect(states[0], actions[0], states[1]);
      }
    }
  }

  lemma FirstSelect<T>(s: Sched<T>, a: Action<T>, r: Sched<T>)
    requires Step(s, a, r) && a.Fetching? && s.ready == [] && a.env != [] && a.env[0].Selected?
    ensures Passes(a)
  {
    assert PassesAt(a, 0);
  }

  // As long as no select reports, no more is fetched than was ready or is made ready that way.
  lemma {:induction false} FewUnheard<T>(states: seq<Sched<T>>, actions: seq<Action<T>>)
    requires IsRun(states, actions) && forall i :: 0 <= i < |actions| ==> !Passes(actions[i])
    ensures |Fetched(actions)| + |states[|actions|].ready| <= |states[0].ready| + Delay(states, actions)
    decreases |actions|
  {
    if actions != [] {
      TailIsRun(states, actions);
      FewUnheard(states[1..], actions[1..]);
      if actions[0].Fetching? {
        FetchInterrupted(states[0], actions[0], states[1]);
      } else {
        ReadyAfterOther(states[0], actions[0], states[1]);
      }
    }
  }

  lemma RunUpTo<T>(states: seq<Sched<T>>, actions: seq<Action<T>>, i: nat)
    requires IsRun(states, actions) && i <= |actions|
    ensures IsRun(states[..i + 1], actions[..i]) && IsRun(states[i..], actions[i..])
  {
    forall k | 0 <= k < i ensures Step(states[..i + 1][k], actions[..i][k], states[..i + 1][k + 1]) {
      assert Step(states[k], actions[k], states[k + 1]);
    }
    forall k | 0 <= k < |actions| - i ensures Step(states[i..][k], actions[i..][k], states[i..][k + 1]) {
      assert Step(states[i + k], actions[i + k], states[i + k + 1]);
    }
  }

  // Once more is fetched, select has reported: here in call i for the first time, after no more fetches than that.
  lemma SelectReports<T>(states: seq<Sched<T>>, actions: seq<Action<T>>) returns (i: nat)
    requires IsRun(states, actions) && |Fetched(actions)| > |states[0].ready| + Delay(states, actions)
    ensures i < |actions| && Passes(actions[i]) && forall k :: 0 <= k < i ==> !Passes(actions[k])
    ensures |Fetched(actions[..i])| <= |states[0].ready| + Delay(states[..i + 1], actions[..i])
  {
    if forall k :: 0 <= k < |actions| ==> !Passes(actions[k]) {
      FewUnheard(states, actions);
    }
    i :| 0 <= i < |actions| && Passes(actions[i]);
    while exists k: nat :: k < i && Passes(actions[k])
      invariant i < |actions| && Passes(actions[i])
      decreases i
    {
      var k: nat :| k < i && Passes(actions[k]);
      i := k;
    }
    RunUpTo(states, actions, i);
    FewUnheard(states[..i + 1], actions[..i]);
  }

  // ---- a record that waits until it is called ----

  lemma WaitsThere<T>(s: Sched<T>, t: T)
    requires Inv(s) && Waits(s, t)
    ensures WaitsAlike(s, s, t) && WaitsAlike(s, Promote(s), t)
  {
  }

  lemma StaysWaiting<T>(s: Sched<T>, a: Action<T>, r: Sched<T>, t: T)
    requires Inv(s) && Step(s, a, r) && !Passes(a) && Waits(s, t) && t !in Cancelled(s, a)
    ensures WaitsAlike(s, r, t)
  {
    hide Inv, Fetch, Passes, Add, CanAdd, Cancel, CancelEvent;
    WaitsThere(s, t);
    match a
    case Adding(kind, x, i) => AddSays(s, kind, x, i);
    case Cancelling(x) =>
      if x in s.unuse {
        CancelUnused(s, x);
      } else {
        CancelSays(s, x);
      }
    case CancellingEvent(arg) => CancelEventSays(s, arg);
    case Fetching(_, _, _) => FetchInterrupted(s, a, r);
    case _ =>
  }

  lemma {:induction false} WaitsUntil<T>(states: seq<Sched<T>>, actions: seq<Action<T>>, t: T, i: nat)
    requires IsRun(states, actions) && Inv(states[0]) && Waits(states[0], t) && i <= |actions|
    requires forall k :: 0 <= k < i ==> !Passes(actions[k]) && t !in Cancelled(states[k], actions[k])
    ensures Inv(states[i]) && WaitsAlike(states[0], states[i], t)
  {
    if i > 0 {
      WaitsUntil(states, actions, t, i - 1);
      assert Step(states[i - 1], actions[i - 1], states[i]);
      StepKeeps(states[i - 1], actions[i - 1], states[i]);
      StaysWaiting(states[i - 1], actions[i - 1], states[i], t);
    }
  }

  lemma FirstTop<T>(s: Sched<T>, a: Action<T>, r: Sched<T>)
    requires Step(s, a, r) && a.Fetching?
    ensures |a.trips| > 0 && a.trips[0].top == s
  {
  }

  // The first select that reports in a fetch finds t waiting as before.
  lemma FirstReport<T>(s: Sched<T>, a: Action<T>, r: Sched<T>) returns (j: nat)
    requires Inv(s) && Step(s, a, r) && Passes(a)
    ensures PassesAt(a, j) && Inv(a.trips[j].top) && a.trips[j].top.alloc == s.alloc
    ensures forall t :: Waits(s, t) ==> WaitsAlike(s, a.trips[j].top, t)
  {
    hide Fetch, Inv, WaitsAlike, Waits;
    FirstTop(s, a, r);
    j :| PassesAt(a, j);
    while exists k: nat :: k < j && PassesAt(a, k)
      invariant PassesAt(a, j)
      decreases j
    {
      var k: nat :| k < j && PassesAt(a, k);
      j := k;
    }
    TripsKeep(s, a.env, a.trips, a.out, r, j);
    if j > 0 {
      InterruptedTrips(s, a, r, j);
    }
    forall t | Waits(s, t) ensures WaitsAlike(s, a.trips[j].top, t) {
      WaitsThere(s, t);
    }
  }

  lemma CalledIsOrdered<T>(s: Sched<T>, o: Outcome, fg: seq<T>, bg: seq<T>, r: Sched<T>, t: T)
    requires o.Selected? && Pass(s, o, fg, bg, r) && Waits(s, t) && Called(s, o, t)
    ensures t in Ordered(s, o, fg, bg)
  {
    Parted(s.read, OnFd(s, s.read, o.readable));
    Parted(s.write, OnFd(s, s.write, o.writable));
  }

  lemma SubsetSize<T>(a: set<T>, b: set<T>)
    requires a <= b
    ensures |a| <= |b|
  {
    assert b == a + (b - a);
  }

  // A pass makes no more ready than there are records.
  lemma OrderedSize<T>(s: Sched<T>, o: Outcome, fg: seq<T>, bg: seq<T>, r: Sched<T>)
    requires Inv(s) && o.Selected? && Pass(s, o, fg, bg, r)
    ensures |Ordered(s, o, fg, bg)| <= s.alloc
  {
    Parted(s.read, OnFd(s, s.read, o.readable));
    Parted(s.write, OnFd(s, s.write, o.writable));
    DistinctSize(fg, Due(s, s.timer, o.now));
    DistinctSize(bg, Due(s, s.background, o.now));
    SubsetSize(Due(s, s.timer, o.now), s.timer);
    SubsetSize(Due(s, s.background, o.now), s.background);
  }

  // The fetch in which t is called hands out the first of what the pass makes ready, and leaves the others.
  lemma CalledIsReady<T>(s: Sched<T>, a: Action<T>, r: Sched<T>, j: nat, t: T) returns (place: nat)
    requires Inv(s) && Step(s, a, r) && PassesAt(a, j) && Inv(a.trips[j].top)
    requires Waits(a.trips[j].top, t) && Called(a.trips[j].top, a.env[j], t)
    ensures var q := Ordered(a.trips[j].top, a.env[j], a.trips[j].fg, a.trips[j].bg);
      && place < |q| <= a.trips[j].top.alloc && q[place] == t
      && |a.out| == 1 && a.out + r.ready == q
  {
    hide Pass, Ordered;
    var Trip(top, fg, bg) := a.trips[j];
    var o, next := a.env[j], a.trips[j + 1].top;
    assert Loops(a.trips[j], o, next);
    PassOrder(top, o, fg, bg, next);
    CalledIsOrdered(top, o, fg, bg, next, t);
    OrderedSize(top, o, fg, bg, next);
    place := IndexOf(next.ready, t);
    assert j + 2 < |a.trips| ==> Loops(a.trips[j + 1], a.env[j + 1], a.trips[j + 2].top);
  }

  lemma InFirst<T>(a: seq<T>, b: seq<T>, m: nat, k: nat, t: T)
    requires |a| <= m && |a + b| > m + k && t in b[..Least(k + 1, |b|)]
    ensures t in (a + b)[..m + k + 1]
  {
    var n :| 0 <= n < Least(k + 1, |b|) && b[n] == t;
    assert (a + b)[|a| + n] == t;
  }

  function Least(a: nat, b: nat): nat {
    if a < b then a else b
  }

  lemma StandsAt<T>(s: Sched<T>, place: nat, t: T)
    requires Inv(s) && place < |s.ready| && s.ready[place] == t
    ensures t in Queue(s) && IndexOf(Queue(s), t) == place
  {
    hide Inv;
    QueueDistinct(s);
    assert Queue(s)[place] == t;
    IndexIs(Queue(s), place);
  }

  // From the fetch in which it is called, t waits for those before it in the order of the pass, and no more.
  lemma ServedAfterCall<T>(states: seq<Sched<T>>, actions: seq<Action<T>>, t: T, place: nat)
    requires IsRun(states, actions) && actions != [] && actions[0].Fetching? && Inv(states[0])
    requires forall i :: 0 <= i < |actions| ==> t !in Cancelled(states[i], actions[i])
    requires |actions[0].out| == 1 && place <= |states[1].ready| && (actions[0].out + states[1].ready)[place] == t
    requires |Fetched(actions)| > place
    ensures t in Fetched(actions)[..place + 1]
  {
    hide Inv, Step, Cancelled, Queue;
    TailIsRun(states, actions);
    StepKeeps(states[0], actions[0], states[1]);
    var rest := Fetched(actions[1..]);
    if place == 0 {
      assert Fetched(actions)[0] == t;
    } else {
      StandsAt(states[1], place - 1, t);
      forall i | 0 <= i < |actions| - 1 ensures t !in Cancelled(states[1..][i], actions[1..][i]) {
        assert t !in Cancelled(states[i + 1], actions[i + 1]);
      }
      FetchedInTime(states[1..], actions[1..], t);
      InFirst(actions[0].out, rest, 1, place - 1, t);
    }
  }

  lemma {:induction false} FetchedParts<T>(actions: seq<Action<T>>, i: nat)
    requires i <= |actions|
    ensures Fetched(actions) == Fetched(actions[..i]) + Fetched(actions[i..])
  {
    if i > 0 {
      FetchedParts(actions[1..], i - 1);
      assert actions[1..][..i - 1] == actions[..i][1..] && actions[1..][i - 1..] == actions[i..];
    }
  }

  lemma {:induction false} DelayGrows<T>(states: seq<Sched<T>>, actions: seq<Action<T>>, i: nat)
    requires |states| == |actions| + 1 && i <= |actions|
    ensures Delay(states[..i + 1], actions[..i]) <= Delay(states, actions)
  {
    if i > 0 {
      DelayGrows(states[1..], actions[1..], i - 1);
      assert actions[1..][..i - 1] == actions[..i][1..] && states[1..][..i] == states[..i + 1][1..];
    }
  }

  // Whenever select reports while t waits, it reports what t waits for.
  ghost predicate CalledWhenever<T>(states: seq<Sched<T>>, actions: seq<Action<T>>, t: T)
    requires |states| == |actions| + 1
  {
    forall k: nat, j: nat :: k < |actions| && PassesAt(actions[k], j) ==>
      var top := actions[k].trips[j].top;
      WaitsAlike(states[0], top, t) ==> Called(top, actions[k].env[j], t)
  }

  // A record that waits for a clock reading that has come, or for a descriptor that select reports, and that no
  // call cancels: select reports in call i, after no more fetches than were ready, or were made ready by selects
  // that did not report, and then t is fetched after no more than there are records.
  lemma ServedInTime<T>(states: seq<Sched<T>>, actions: seq<Action<T>>, t: T)
    returns (i: nat, j: nat, place: nat)
    requires IsRun(states, actions) && Inv(states[0]) && Waits(states[0], t) && CalledWhenever(states, actions, t)
    requires forall k :: 0 <= k < |actions| ==> t !in Cancelled(states[k], actions[k])
    requires |Fetched(actions)| > |states[0].ready| + Delay(states, actions)
    ensures i < |actions| && PassesAt(actions[i], j) && place < states[i].alloc
    ensures |Fetched(actions[..i])| <= |states[0].ready| + Delay(states, actions)
    ensures var Trip(top, fg, bg) := actions[i].trips[j];
      && Contained(top) && |actions[i].out| == 1
      && actions[i].out + states[i + 1].ready == Ordered(top, actions[i].env[j], fg, bg)
      && place <= |states[i + 1].ready| && (actions[i].out + states[i + 1].ready)[place] == t
    ensures |Fetched(actions[i..])| > place ==> t in Fetched(actions[i..])[..place + 1]
    ensures var bound := |states[0].ready| + Delay(states, actions) + place;
      |Fetched(actions)| > bound ==> t in Fetched(actions)[..bound + 1]
  {
    hide Inv, Step, Cancelled, Called, Waits, Fetch, Passes, Ordered, Fetched, Delay;
    i := SelectReports(states, actions);
    DelayGrows(states, actions, i);
    WaitsUntil(states, actions, t, i);
    assert Step(states[i], actions[i], states[i + 1]);
    StillWaits(states[0], states[i], t);
    j := FirstReport(states[i], actions[i], states[i + 1]);
    StillWaits(states[i], actions[i].trips[j].top, t);
    ContainedTop(actions[i].trips[j].top);
    place := CalledIsReady(states[i], actions[i], states[i + 1], j, t);
    RunUpTo(states, actions, i);
    forall k | 0 <= k < |actions| - i ensures t !in Cancelled(states[i..][k], actions[i..][k]) {
      assert t !in Cancelled(states[i + k], actions[i + k]);
    }
    FetchedParts(actions, i);
    if |Fetched(actions[i..])| > place {
      ServedAfterCall(states[i..], actions[i..], t, place);
    }
    if |Fetched(actions)| > |states[0].ready| + Delay(states, actions) + place {
      InFirst(Fetched(actions[..i]), Fetched(actions[i..]), |states[0].ready| + Delay(states, actions), place, t);
    }
  }

  lemma ContainedTop<T>(s: Sched<T>)
    requires Inv(s)
    ensures Contained(s)
  {
  }

  lemma StillWaits<T>(s: Sched<T>, r: Sched<T>, t: T)
    requires Waits(s, t) && WaitsAlike(s, r, t)
    ensures Waits(r, t)
  {
  }
}
