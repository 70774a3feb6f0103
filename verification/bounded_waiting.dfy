// Bounded waiting: how many fetches an event or a ready record waits for its turn.
module BoundedWaiting {
  import opened Sequences
  import opened SchedulerSpec

  // The records whose turn is already decided, in order.
  function Queue<T>(s: Sched<T>): seq<T> {
    s.ready + s.event
  }

  lemma IndexIs<T>(s: seq<T>, i: nat)
    requires i < |s| && Distinct(s)
    ensures IndexOf(s, s[i]) == i
  {
  }

  lemma QueueDistinct<T>(s: Sched<T>)
    requires Inv(s)
    ensures Distinct(Queue(s))
  {
    forall x | x in s.info ensures !(x in s.ready && x in s.event) {
      assert Homes(s, x) == 1;
    }
    DistinctConcat(s.ready, s.event);
  }

  // After a first pass, the ready list begins with the events that were waiting.
  lemma FirstTrip<T>(trip: Trip<T>, o: Outcome, next: Sched<T>) returns (extra: seq<T>)
    requires Loops(trip, o, next)
    ensures Queue(next) == Queue(trip.top) + extra && next.event == []
  {
    extra := next.ready[|trip.top.event|..];
  }

  // The last step takes the head of the queue, or leaves it as it is.
  lemma LastTrip<T>(last: Sched<T>, out: seq<T>, r: Sched<T>)
    requires if last.ready != [] then out == [last.ready[0]] && r == Run(last) else out == [] && r == Promote(last)
    ensures Queue(last) == out + Queue(r) && |out| <= 1
  {
  }

  // A fetch takes the head of the queue, or puts later work behind all of it.
  lemma FetchQueue<T>(s: Sched<T>, env: seq<Outcome>, trips: seq<Trip<T>>, out: seq<T>,
      r: Sched<T>) returns (extra: seq<T>)
    requires Fetch(s, env, trips, out, r)
    ensures Queue(s) + extra == out + Queue(r)
    ensures |out| <= 1 && (out == [] ==> extra == [])
  {
    extra := [];
    LastTrip(trips[|trips| - 1].top, out, r);
    if |trips| > 1 {
      LaterTrips(s, env, trips, out, r, |trips| - 1);
      assert Loops(trips[0], env[0], trips[1].top);
      extra := FirstTrip(trips[0], env[0], trips[1].top);
      if |trips| > 2 {
        LaterTrips(s, env, trips, out, r, 1);
        assert Loops(trips[1], env[1], trips[2].top);
        assert Queue(trips[1].top) == [];
        extra := out + Queue(r);
      }
    }
  }

  lemma {:induction false} LaterTrips<T>(s: Sched<T>, env: seq<Outcome>, trips: seq<Trip<T>>, out: seq<T>,
      r: Sched<T>, i: nat)
    requires Fetch(s, env, trips, out, r) && 0 < i < |trips|
    ensures trips[i].top.event == []
  {
    assert Loops(trips[i - 1], env[i - 1], trips[i].top);
  }

  // Erasing others moves a record up by the number of those erased ahead of it.
  lemma EraseMovesUp<T>(q: seq<T>, gone: set<T>, n: nat)
    requires n < |q| && Distinct(q) && q[n] !in gone
    ensures |Keep(q[..n], gone)| <= n
    ensures var m := n - |Keep(q[..n], gone)|; m < |Erase(q, gone)| && Erase(q, gone)[m] == q[n]
  {
    assert q == q[..n] + [q[n]] + q[n + 1..];
    SplitAt(q[..n] + [q[n]], q[n + 1..], gone);
    SplitAt(q[..n], [q[n]], gone);
    Parted(q[..n], gone);
  }

  // The records a call cancels.
  ghost function Cancelled<T>(s: Sched<T>, a: Action<T>): set<T> {
    match a
    case Cancelling(t) => {t}
    case CancellingEvent(arg) => WithArg(s, arg)
    case _ => {}
  }

  lemma AddQueue<T>(s: Sched<T>, kind: Kind, t: T, i: Info)
    ensures Queue(Add(s, kind, t, i)) == Queue(s) + if kind == ForEvent then [t] else []
  {
  }

  lemma CancelQueue<T>(s: Sched<T>, a: Action<T>, r: Sched<T>)
    requires Inv(s) && Step(s, a, r) && (a.Cancelling? || a.CancellingEvent?)
    ensures Queue(r) == Erase(Queue(s), Cancelled(s, a))
  {
    SplitAt(s.ready, s.event, Cancelled(s, a));
    if a.Cancelling? && a.t in s.unuse {
      assert Homes(s, a.t) == 1;
      EraseNone(Queue(s), {a.t});
    }
  }

  lemma StepQueue<T>(s: Sched<T>, a: Action<T>, r: Sched<T>) returns (extra: seq<T>)
    requires Inv(s) && Step(s, a, r) && !a.Fetching?
    ensures Queue(r) == Erase(Queue(s), Cancelled(s, a)) + extra
  {
    extra := [];
    if a.Adding? {
      EraseNone(Queue(s), {});
      AddQueue(s, a.kind, a.t, a.info);
      extra := if a.kind == ForEvent then [a.t] else [];
    } else if a.Refused? {
      EraseNone(Queue(s), {});
    } else {
      CancelQueue(s, a, r);
    }
  }

  // Where a waiting record stands after a call that does not fetch.
  lemma StandsAfter<T>(s: Sched<T>, a: Action<T>, r: Sched<T>, t: T)
    requires Inv(s) && Step(s, a, r) && !a.Fetching? && t in Queue(s) && t !in Cancelled(s, a)
    ensures t in Queue(r)
    ensures var n := IndexOf(Queue(s), t);
      IndexOf(Queue(r), t) == n - |Keep(Queue(s)[..n], Cancelled(s, a))|
  {
    hide Inv, Step, Cancelled, Queue;
    QueueDistinct(s);
    StepKeeps(s, a, r);
    QueueDistinct(r);
    var n := IndexOf(Queue(s), t);
    var extra := StepQueue(s, a, r);
    EraseMovesUp(Queue(s), Cancelled(s, a), n);
    IndexIs(Queue(r), n - |Keep(Queue(s)[..n], Cancelled(s, a))|);
  }

  // Where it stands after a fetch.
  lemma StandsAfterFetch<T>(s: Sched<T>, a: Action<T>, r: Sched<T>, t: T)
    requires Inv(s) && Step(s, a, r) && a.Fetching? && t in Queue(s)
    ensures |a.out| <= 1
    ensures var n := IndexOf(Queue(s), t);
      if n < |a.out| then a.out == [t] && t !in Queue(r)
      else t in Queue(r) && IndexOf(Queue(r), t) == n - |a.out|
  {
    StepKeeps(s, a, r);
    QueueDistinct(r);
    var n := IndexOf(Queue(s), t);
    var extra := FetchQueue(s, a.env, a.trips, a.out, r);
    if n < |a.out| {
      assert a.out[0] == (Queue(s) + extra)[0];
      assert r.unuse[|r.unuse| - 1] == t && Homes(r, t) == 1;
    } else {
      assert Queue(r)[n - |a.out|] == (Queue(s) + extra)[n];
      IndexIs(Queue(r), n - |a.out|);
    }
  }

  lemma TailIsRun<T>(states: seq<Sched<T>>, actions: seq<Action<T>>)
    requires IsRun(states, actions) && actions != []
    ensures Step(states[0], actions[0], states[1]) && IsRun(states[1..], actions[1..])
  {
    forall i | 0 <= i < |actions| - 1 ensures Step(states[1..][i], actions[1..][i], states[1..][i + 1]) {
      assert Step(states[i + 1], actions[i + 1], states[i + 2]);
    }
  }

  // The records fetched, in order.
  function Fetched<T>(actions: seq<Action<T>>): seq<T> {
    if actions == [] then []
    else (if actions[0].Fetching? then actions[0].out else []) + Fetched(actions[1..])
  }

  // How many of the records ahead of t are cancelled before its turn.
  ghost function Skipped<T>(states: seq<Sched<T>>, actions: seq<Action<T>>, t: T): nat
    requires |states| == |actions| + 1
  {
    if actions == [] || t !in Queue(states[0]) then 0
    else
      var q := Queue(states[0]);
      |Keep(q[..IndexOf(q, t)], Cancelled(states[0], actions[0]))| + Skipped(states[1..], actions[1..], t)
  }

  // t is entry k of the records fetched, or is still waiting with the rest of k ahead of it.
  ghost predicate InTurn<T>(k: int, fetched: seq<T>, q: seq<T>, t: T) {
    if k < |fetched| then 0 <= k && fetched[k] == t
    else t in q && IndexOf(q, t) == k - |fetched|
  }

  lemma InTurnAfter<T>(k: int, out: seq<T>, fetched: seq<T>, q: seq<T>, t: T)
    requires InTurn(k, fetched, q, t)
    ensures InTurn(k + |out|, out + fetched, q, t)
  {
    assert 0 <= k < |fetched| ==> (out + fetched)[k + |out|] == fetched[k];
  }

  // Over the run, t takes its turn: the records ahead of it that are not cancelled go before it.
  ghost predicate TakesTurn<T>(states: seq<Sched<T>>, actions: seq<Action<T>>, t: T)
    requires |states| == |actions| + 1 && t in Queue(states[0])
  {
    InTurn(IndexOf(Queue(states[0]), t) - Skipped(states, actions, t),
      Fetched(actions), Queue(states[|actions|]), t)
  }

  lemma SkippedFirst<T>(states: seq<Sched<T>>, actions: seq<Action<T>>, t: T, n: nat)
    requires |states| == |actions| + 1 && actions != []
    requires t in Queue(states[0]) && n == IndexOf(Queue(states[0]), t)
    ensures Skipped(states, actions, t)
      == |Keep(Queue(states[0])[..n], Cancelled(states[0], actions[0]))| + Skipped(states[1..], actions[1..], t)
  {
  }

  lemma TurnAfterFetch<T>(states: seq<Sched<T>>, actions: seq<Action<T>>, t: T)
    requires |states| == |actions| + 1 && actions != [] && Step(states[0], actions[0], states[1])
    requires Inv(states[0]) && t in Queue(states[0]) && actions[0].Fetching?
    requires t in Queue(states[1]) ==> TakesTurn(states[1..], actions[1..], t)
    ensures TakesTurn(states, actions, t)
  {
    var out, n := actions[0].out, IndexOf(Queue(states[0]), t);
    var later := Skipped(states[1..], actions[1..], t);
    SkippedFirst(states, actions, t, n);
    EraseNone(Queue(states[0])[..n], {});
    StandsAfterFetch(states[0], actions[0], states[1], t);
    if n >= |out| {
      InTurnAfter(n - |out| - later, out, Fetched(actions[1..]), Queue(states[|actions|]), t);
    }
  }

  lemma TurnAfterOther<T>(states: seq<Sched<T>>, actions: seq<Action<T>>, t: T)
    requires |states| == |actions| + 1 && actions != [] && Step(states[0], actions[0], states[1])
    requires Inv(states[0]) && t in Queue(states[0]) && !actions[0].Fetching?
    requires t !in Cancelled(states[0], actions[0])
    requires t in Queue(states[1]) ==> TakesTurn(states[1..], actions[1..], t)
    ensures TakesTurn(states, actions, t)
  {
    hide Inv, Step, Queue, Cancelled, Keep;
    SkippedFirst(states, actions, t, IndexOf(Queue(states[0]), t));
    StandsAfter(states[0], actions[0], states[1], t);
    assert [] + Fetched(actions[1..]) == Fetched(actions[1..]);
  }

  // A waiting record that no call cancels is the one fetched after exactly as many others as were
  // ahead of it and were not cancelled; until then it is still waiting, that much nearer the head.
  lemma {:induction false} FetchedInTurn<T>(states: seq<Sched<T>>, actions: seq<Action<T>>, t: T)
    requires IsRun(states, actions) && Inv(states[0]) && t in Queue(states[0])
    requires forall i :: 0 <= i < |actions| ==> t !in Cancelled(states[i], actions[i])
    ensures TakesTurn(states, actions, t)
    decreases |actions|
  {
    if actions != [] {
      TailIsRun(states, actions);
      StepKeeps(states[0], actions[0], states[1]);
      forall i | 0 <= i < |actions| - 1 ensures t !in Cancelled(states[1..][i], actions[1..][i]) {
        assert t !in Cancelled(states[i + 1], actions[i + 1]);
      }
      if t in Queue(states[1]) {
        FetchedInTurn(states[1..], actions[1..], t);
      }
      if actions[0].Fetching? {
        TurnAfterFetch(states, actions, t);
      } else {
        TurnAfterOther(states, actions, t);
      }
    }
  }

  // Hence it is fetched at the latest after all the records ahead of it.
  lemma FetchedInTime<T>(states: seq<Sched<T>>, actions: seq<Action<T>>, t: T)
    requires IsRun(states, actions) && Inv(states[0]) && t in Queue(states[0])
    requires forall i :: 0 <= i < |actions| ==> t !in Cancelled(states[i], actions[i])
    requires |Fetched(actions)| > IndexOf(Queue(states[0]), t)
    ensures t in Fetched(actions)[..IndexOf(Queue(states[0]), t) + 1]
  {
    FetchedInTurn(states, actions, t);
  }

  // An event joins the queue behind everything that is ready and every earlier event.
  lemma EventStandsLast<T>(s: Sched<T>, t: T, i: Info)
    requires Inv(s) && CanAdd(s, ForEvent, t, i)
    ensures var r := Add(s, ForEvent, t, i);
      t in Queue(r) && IndexOf(Queue(r), t) == |s.ready| + |s.event|
  {
    var r := Add(s, ForEvent, t, i);
    AddKeeps(s, ForEvent, t, i);
    QueueDistinct(r);
    AddQueue(s, ForEvent, t, i);
    IndexIs(Queue(r), |Queue(s)|);
  }
}
