/**
 Runs of the scheduler on one hart.

 The kernel runs without preemption between calls of `schedule`, so a run is a sequence of these steps.  A task goes to
 sleep only by itself and then calls the scheduler at once, which makes that one step.  The idle task is entered into
 the ready list at boot although it is the one running; it is the only task that may be in a list twice.
 */
module SchedRuns {
  import opened Sched

  datatype Sys = Sys(q: Queues, cur: Task)

  datatype Event = Spawn(t: Task, prior: nat) | Wake(t: Task) | Kill(t: Task) | Yield | SleepYield

  const IDLE: Task := 0

  function Boot(): (s: Sys)
    ensures Inv(s)
  {
    Sys(Queues([[], [IDLE]], {}, map[IDLE := Init], map[IDLE := 1]), IDLE)
  }

  // ----- the invariant

  /** No task but idle occurs twice. */
  ghost predicate Once(r: seq<Task>) { forall i, j :: 0 <= i < j < |r| && r[i] == r[j] ==> r[i] == IDLE }

  /** A queued task is in the list of its priority and may run. */
  ghost predicate Runnable(q: Queues, i: nat, t: Task)
    requires q.Typed()
  {
    t in q.state && q.prior[t] == i && !q.state[t].Pending? && !q.state[t].Zombie? && t !in q.pending
  }

  /** The lists are in order, whoever runs. */
  ghost predicate Ordered(q: Queues) {
    && q.Typed() && Once(q.ready[0]) && Once(q.ready[1])
    && (forall i, t :: 0 <= i < 2 && t in q.ready[i] ==> Runnable(q, i, t))
    && (forall t :: t in q.pending ==> t in q.state && (q.state[t].Pending? || q.state[t].Zombie?))
    && (forall t :: t in q.state && (q.state[t].Pending? || q.state[t].Zombie?) ==> t in q.pending)
    && IDLE in q.state && q.prior[IDLE] == 1 && !q.state[IDLE].Zombie? && !q.state[IDLE].Pending?
  }

  /** And the task that runs is in no list, unless it is idle. */
  ghost predicate Inv(s: Sys) {
    && Ordered(s.q) && s.cur in s.q.state && !s.q.state[s.cur].Pending?
    && (if s.cur == IDLE then true else IDLE in s.q.ready[1] && s.cur !in s.q.ready[0] && s.cur !in s.q.ready[1])
    && Kept(s.q, s.cur)
  }

  /** No task is lost: whoever neither sleeps nor is dead runs or is in the list of its priority. */
  ghost predicate Kept(q: Queues, cur: Task)
    requires q.Typed()
  {
    forall t :: t in q.state && !q.state[t].Pending? && !q.state[t].Zombie? && t != cur ==> t in q.ready[q.prior[t]]
  }

  // ----- steps

  ghost predicate Possible(s: Sys, e: Event) {
    match e
    case Spawn(t, p) => t !in s.q.state && t !in s.q.pending && p < 2
    case Wake(t) => t in s.q.state
    case Kill(t) => t in s.q.state && t != IDLE
    case Yield => true
    case SleepYield => s.cur in s.q.state && s.cur != IDLE
  }

  /** The scheduler picks the next task. */
  ghost function Picked(q: Queues, prev: Task): Sys
    requires q.Typed() && prev in q.state
  {
    var q' := q.Add(prev);
    if q'.ready[0] != [] || q'.ready[1] != [] then Sys(q'.Front().0, q'.Front().1) else Sys(q', prev)
  }

  ghost function Step(s: Sys, e: Event): Sys
    requires Inv(s) && Possible(s, e)
  {
    match e
    case Spawn(t, p) => s.(q := s.q.Spawn(t, p))
    case Wake(t) => s.(q := s.q.Wakeup(t))
    case Kill(t) => s.(q := s.q.Kill(t))
    case Yield => Picked(s.q, s.cur)
    case SleepYield => Picked(s.q.Sleep(s.cur), s.cur)
  }

  // ----- every step keeps the invariant

  lemma OncePush(r: seq<Task>, t: Task)
    requires Once(r) && (t !in r || t == IDLE)
    ensures Once(r + [t])
  {
  }

  lemma OncePop(r: seq<Task>)
    requires Once(r) && r != []
    ensures Once(r[1..]) && (r[0] in r[1..] ==> r[0] == IDLE)
  {
  }

  lemma {:induction false} OnceRemoved(r: seq<Task>, t: Task)
    requires Once(r)
    ensures Once(Removed(r, t))
  {
    if r != [] {
      OncePop(r);
      OnceRemoved(r[1..], t);
    }
  }

  /** A task joins the list of its priority. */
  lemma AddKeeps(q: Queues, t: Task)
    requires Ordered(q) && t in q.state && (t == IDLE || (t !in q.ready[0] && t !in q.ready[1]))
    ensures Ordered(q.Add(t))
  {
    var p := q.prior[t];
    OncePush(q.ready[p], t);
    var q' := q.Add(t);
    forall i, x | 0 <= i < 2 && x in q'.ready[i] ensures Runnable(q', i, x) {
      assert x in q.ready[i] ==> Runnable(q, i, x);
    }
  }

  lemma SpawnKeeps(s: Sys, t: Task, p: nat)
    requires Inv(s) && Possible(s, Spawn(t, p))
    ensures Inv(Step(s, Spawn(t, p)))
  {
    var q := s.q.(state := s.q.state[t := Init], prior := s.q.prior[t := p]);
    forall i, x | 0 <= i < 2 && x in q.ready[i] ensures x != t && q.Typed() && Runnable(q, i, x) {
      assert Runnable(s.q, i, x);
    }
    AddKeeps(q, t);
  }

  lemma WakeKept(q: Queues, cur: Task, t: Task)
    requires Ordered(q) && t in q.state && Kept(q, cur)
    ensures Kept(q.Wakeup(t), cur)
  {
    hide Once, Runnable;
  }

  lemma WakeKeeps(s: Sys, t: Task)
    requires Inv(s) && Possible(s, Wake(t))
    ensures Inv(Step(s, Wake(t)))
  {
    WakeKept(s.q, s.cur, t);
    hide Kept;
    if s.q.state[t].Pending? {
      var q := s.q.(pending := s.q.pending - {t}, state := s.q.state[t := State.Ready]);
      forall i, x | 0 <= i < 2 && x in q.ready[i] ensures x != t && q.Typed() && Runnable(q, i, x) {
        assert Runnable(s.q, i, x);
      }
      AddKeeps(q, t);
    }
  }

  /** Taking a task out of its list and setting it aside. */
  function Aside(q: Queues, t: Task, st: State): Queues
    requires q.Typed() && t in q.state
  {
    q.(state := q.state[t := st], ready := q.ready[q.prior[t] := Removed(q.ready[q.prior[t]], t)],
      pending := q.pending + {t})
  }

  lemma AsideLists(q: Queues, t: Task, st: State)
    requires Ordered(q) && t in q.state
    ensures var q' := Aside(q, t, st);
            && q'.Typed() && Once(q'.ready[0]) && Once(q'.ready[1])
            && (forall j, x :: 0 <= j < 2 && x in q'.ready[j] ==> x in q.ready[j] && x != t)
  {
    OnceRemoved(q.ready[q.prior[t]], t);
    assert forall j :: 0 <= j < 2 && t in q.ready[j] ==> Runnable(q, j, t);
  }

  lemma AsideKeeps(q: Queues, t: Task, st: State)
    requires Ordered(q) && t in q.state && t != IDLE && (st.Pending? || st.Zombie?)
    ensures Ordered(Aside(q, t, st))
  {
    AsideLists(q, t, st);
    var q' := Aside(q, t, st);
    hide Removed, Once;
    forall j, x | 0 <= j < 2 && x in q'.ready[j] ensures Runnable(q', j, x) {
      assert Runnable(q, j, x);
    }
  }

  lemma KillKeeps(s: Sys, t: Task)
    requires Inv(s) && Possible(s, Kill(t))
    ensures Inv(Step(s, Kill(t)))
  {
    AsideKeeps(s.q, t, Zombie);
  }

  /** With nobody running, whoever may run is in the lists. */
  ghost predicate AllKept(q: Queues)
    requires q.Typed()
  {
    forall t :: t in q.state && !q.state[t].Pending? && !q.state[t].Zombie? ==> t in q.ready[q.prior[t]]
  }

  /** Popping the front of the lists, when nobody runs. */
  lemma PopKeeps(q: Queues)
    requires Ordered(q) && IDLE in q.ready[1] && AllKept(q)
    ensures Inv(Sys(q.Front().0, q.Front().1))
  {
    var i := if q.ready[0] != [] then 0 else 1;
    OncePop(q.ready[i]);
    var (q', t) := q.Front();
    assert Runnable(q, i, t);
    forall j, x | 0 <= j < 2 && x in q'.ready[j] ensures Runnable(q', j, x) && (x == t ==> t == IDLE) {
      assert x in q.ready[j] && Runnable(q, j, x);
    }
  }

  lemma YieldKeeps(s: Sys)
    requires Inv(s)
    ensures Inv(Step(s, Yield))
  {
    AddKeeps(s.q, s.cur);
    PopKeeps(s.q.Add(s.cur));
  }

  lemma SleepKeeps(s: Sys)
    requires Inv(s) && Possible(s, SleepYield)
    ensures Inv(Step(s, SleepYield))
  {
    AsideKeeps(s.q, s.cur, Pending);
    PopKeeps(s.q.Sleep(s.cur));
  }

  lemma StepKeeps(s: Sys, e: Event)
    requires Inv(s) && Possible(s, e)
    ensures Inv(Step(s, e))
  {
    hide Inv, Step;
    match e
    case Spawn(t, p) => SpawnKeeps(s, t, p);
    case Wake(t) => WakeKeeps(s, t);
    case Kill(t) => KillKeeps(s, t);
    case Yield => YieldKeeps(s);
    case SleepYield => SleepKeeps(s);
  }

  // ----- whole runs

  ghost predicate Run(s: Sys, es: seq<Event>)
    requires Inv(s)
    decreases |es|
  {
    es == [] || (Possible(s, es[0]) && (StepKeeps(s, es[0]); Run(Step(s, es[0]), es[1..])))
  }

  /** The state after the first k steps. */
  ghost function After(s: Sys, es: seq<Event>, k: nat): (r: Sys)
    requires Inv(s) && Run(s, es) && k <= |es|
    ensures Inv(r)
    decreases k
  {
    if k == 0 then s else StepKeeps(s, es[0]); After(Step(s, es[0]), es[1..], k - 1)
  }

  /**
   In every reachable state a task other than idle is queued at most once, and neither while it runs nor while it
   sleeps; and the task the scheduler has just picked is neither dead nor asleep.
   */
  lemma QueuedOnce(es: seq<Event>, k: nat, t: Task)
    requires Run(Boot(), es) && k <= |es| && t != IDLE
    ensures var s := After(Boot(), es, k);
            && multiset(s.q.ready[0] + s.q.ready[1])[t] <= 1
            && (t == s.cur || t in s.q.pending ==> multiset(s.q.ready[0] + s.q.ready[1])[t] == 0)
            && (k > 0 && Picks(es[k - 1]) ==>
                  s.cur in s.q.state && !s.q.state[s.cur].Zombie? && !s.q.state[s.cur].Pending?)
  {
    hide Run, Step, After, Possible, Boot;
    if k > 0 && Picks(es[k - 1]) {
      AfterNext(Boot(), es, k - 1);
      PickedAlive(After(Boot(), es, k - 1), es[k - 1]);
    }
    OnceQueued(After(Boot(), es, k), t);
  }

  /** No task is ever lost: in every reachable state whoever neither sleeps nor is dead runs or is queued. */
  lemma NoTaskLost(es: seq<Event>, k: nat, t: Task)
    requires Run(Boot(), es) && k <= |es|
    ensures var s := After(Boot(), es, k);
            t in s.q.state && !s.q.state[t].Pending? && !s.q.state[t].Zombie? ==>
              t == s.cur || t in s.q.ready[0] || t in s.q.ready[1]
  {
    hide Run, Step, After, Possible, Boot;
    var s := After(Boot(), es, k);
    assert Kept(s.q, s.cur);
  }

  /** The lists when a step asks for the next task: the running one is queued last unless it sleeps or is dead. */
  ghost function Asked(s: Sys, e: Event): seq<seq<Task>>
    requires Inv(s)
  {
    var r, t := s.q.ready, s.cur;
    if e.Yield? && !s.q.state[t].Zombie? then r[s.q.prior[t] := r[s.q.prior[t]] + [t]] else r
  }

  /** The next task is the first of the more urgent list, or, if that is empty, of the other; the rest stay in order. */
  lemma PickIs(s: Sys, e: Event)
    requires Inv(s) && Possible(s, e) && Picks(e)
    ensures var r, u := Asked(s, e), Step(s, e);
            var i := if r[0] != [] then 0 else 1;
            |r| == 2 && r[i] != [] && [u.cur] + u.q.ready[i] == r[i] && u.q.ready[1 - i] == r[1 - i]
  {
    hide Once, Runnable, Kept;
    if e.SleepYield? {
      RemovedAbsent(s.q.ready[s.q.prior[s.cur]], s.cur);
    }
  }

  lemma {:induction false} RemovedAbsent(r: seq<Task>, t: Task)
    requires t !in r
    ensures Removed(r, t) == r
  {
    if r != [] {
      RemovedAbsent(r[1..], t);
      assert r == [r[0]] + r[1..];
    }
  }

  /** A new task and one that is woken are queued last in the list of their priority. */
  lemma JoinsLast(s: Sys, e: Event)
    requires Inv(s) && Possible(s, e) && (e.Spawn? || (e.Wake? && s.q.state[e.t].Pending?))
    ensures var u, p := Step(s, e), if e.Spawn? then e.prior else s.q.prior[e.t];
            p < 2 && u.q.ready == s.q.ready[p := s.q.ready[p] + [e.t]] && u.cur == s.cur
  {
  }

  lemma OnceQueued(s: Sys, t: Task)
    requires Inv(s) && t != IDLE
    ensures multiset(s.q.ready[0] + s.q.ready[1])[t] <= 1
    ensures t == s.cur || t in s.q.pending ==> multiset(s.q.ready[0] + s.q.ready[1])[t] == 0
  {
    OnceCount(s.q.ready[0], t);
    OnceCount(s.q.ready[1], t);
    assert t in s.q.ready[0] ==> Runnable(s.q, 0, t);
    assert t in s.q.ready[1] ==> Runnable(s.q, 1, t);
    assert multiset(s.q.ready[0] + s.q.ready[1]) == multiset(s.q.ready[0]) + multiset(s.q.ready[1]);
  }

  lemma {:induction false} OnceCount(r: seq<Task>, t: Task)
    requires Once(r) && t != IDLE
    ensures multiset(r)[t] == if t in r then 1 else 0
  {
    if r != [] {
      OncePop(r);
      OnceCount(r[1..], t);
      assert r == [r[0]] + r[1..];
    }
  }

  // ----- a killed task never runs again

  /** The step calls the scheduler. */
  predicate Picks(e: Event) { e.Yield? || e.SleepYield? }

  /** The task goes to sleep although it has been killed: it still runs, and the scheduler does not look. */
  predicate Revives(s: Sys, e: Event, t: Task) { e.SleepYield? && s.cur == t }

  lemma StillZombie(s: Sys, e: Event, t: Task)
    requires Inv(s) && Possible(s, e) && t in s.q.state && s.q.state[t].Zombie?
    ensures var u := Step(s, e);
            t in u.q.state && (u.q.state[t].Zombie? <==> !Revives(s, e, t)) && (Picks(e) ==> u.cur != t)
  {
    hide Inv, Step, Possible;
    StateAfter(s, e, t);
    if Picks(e) {
      PickedAlive(s, e);
    }
  }

  lemma StateAfter(s: Sys, e: Event, t: Task)
    requires Inv(s) && Possible(s, e) && t in s.q.state && s.q.state[t].Zombie?
    ensures var u := Step(s, e);
            t in u.q.state && (if Revives(s, e, t) then u.q.state[t].Pending? else u.q.state[t].Zombie?)
  {
    hide Once, Runnable, Removed, Kept;
  }

  /** The task the scheduler picks may run. */
  lemma PickedAlive(s: Sys, e: Event)
    requires Inv(s) && Possible(s, e) && Picks(e)
    ensures var u := Step(s, e); u.cur in u.q.state && !u.q.state[u.cur].Zombie? && !u.q.state[u.cur].Pending?
  {
    StepKeeps(s, e);
    if e.Yield? {
      AddKeeps(s.q, s.cur);
      PickedRunnable(s.q.Add(s.cur));
    } else {
      AsideKeeps(s.q, s.cur, Pending);
      PickedRunnable(s.q.Sleep(s.cur));
    }
  }

  lemma PickedRunnable(q: Queues)
    requires Ordered(q) && IDLE in q.ready[1]
    ensures var t := q.Front().1; t in q.state && !q.state[t].Zombie? && !q.state[t].Pending?
  {
    var i := if q.ready[0] != [] then 0 else 1;
    assert Runnable(q, i, q.Front().1);
  }

  /** The task is dead in each of the first k + 1 states. */
  ghost predicate DeadUpTo(s: Sys, es: seq<Event>, k: nat, t: Task)
    requires Inv(s) && Run(s, es) && k <= |es|
  {
    forall i :: 0 <= i <= k ==> Dead(After(s, es, i), t)
  }

  ghost predicate Dead(s: Sys, t: Task) { t in s.q.state && s.q.state[t].Zombie? }

  lemma {:induction false} AfterNext(s: Sys, es: seq<Event>, k: nat)
    requires Inv(s) && Run(s, es) && k < |es|
    ensures Possible(After(s, es, k), es[k]) && After(s, es, k + 1) == Step(After(s, es, k), es[k])
    decreases k
  {
    StepKeeps(s, es[0]);
    if k > 0 {
      AfterNext(Step(s, es[0]), es[1..], k - 1);
    } else {
      assert After(Step(s, es[0]), es[1..], 0) == Step(s, es[0]);
    }
  }

  /**
   A killed task stays dead exactly as long as it does not go to sleep itself, and then the scheduler never picks it.
   */
  lemma {:induction false} ZombieStays(s: Sys, es: seq<Event>, k: nat, t: Task)
    requires Inv(s) && Run(s, es) && k <= |es| && Dead(s, t)
    ensures DeadUpTo(s, es, k, t) <==> forall i :: 0 <= i < k ==> !Revives(After(s, es, i), es[i], t)
    ensures DeadUpTo(s, es, k, t) ==> forall i :: 0 <= i < k && Picks(es[i]) ==> After(s, es, i + 1).cur != t
  {
    hide Inv, Step, Run, After, Possible;
    if k == 0 {
      AfterNone(s, es);
    } else {
      ZombieStays(s, es, k - 1, t);
      AfterNext(s, es, k - 1);
      assert DeadUpTo(s, es, k, t) <==> DeadUpTo(s, es, k - 1, t) && Dead(After(s, es, k), t);
      if DeadUpTo(s, es, k - 1, t) {
        assert Dead(After(s, es, k - 1), t);
        StillZombie(After(s, es, k - 1), es[k - 1], t);
      }
    }
  }

  lemma AfterNone(s: Sys, es: seq<Event>)
    requires Inv(s) && Run(s, es)
    ensures After(s, es, 0) == s
  {
  }

  /** A task that is killed while it runs, sleeps, and is woken is ready to run again. */
  lemma ZombieRevived(s: Sys) returns (u: Sys)
    requires Inv(s) && s.cur != IDLE
    ensures Possible(s, Kill(s.cur)) && Dead(Step(s, Kill(s.cur)), s.cur)
    ensures Inv(Step(s, Kill(s.cur))) && Possible(Step(s, Kill(s.cur)), SleepYield)
    ensures var s2 := Step(Step(s, Kill(s.cur)), SleepYield);
            Inv(s2) && Possible(s2, Wake(s.cur)) && u == Step(s2, Wake(s.cur)) && u.q.Typed()
    ensures s.cur in u.q.state && u.q.state[s.cur] == State.Ready && s.cur in u.q.ready[u.q.prior[s.cur]]
  {
    hide Inv, Step;
    InvCur(s);
    KilledRuns(s);
    var s1 := Step(s, Kill(s.cur));
    SleepsPending(s1);
    u := WakesReady(Step(s1, SleepYield), s.cur);
  }

  lemma InvCur(s: Sys)
    requires Inv(s)
    ensures s.cur in s.q.state
  {
  }

  lemma KilledRuns(s: Sys)
    requires Inv(s) && s.cur != IDLE
    ensures var s1 := Step(s, Kill(s.cur)); Inv(s1) && s1.cur == s.cur && Dead(s1, s.cur)
  {
    StepKeeps(s, Kill(s.cur));
  }

  lemma SleepsPending(s: Sys)
    requires Inv(s) && s.cur != IDLE
    ensures var s1 := Step(s, SleepYield); Inv(s1) && s.cur in s1.q.state && s1.q.state[s.cur].Pending?
  {
    StepKeeps(s, SleepYield);
  }

  lemma WakesReady(s: Sys, t: Task) returns (u: Sys)
    requires Inv(s) && t in s.q.state && s.q.state[t].Pending?
    ensures u == Step(s, Wake(t)) && u.q.Typed()
    ensures t in u.q.state && u.q.state[t] == State.Ready && t in u.q.ready[u.q.prior[t]]
  {
    StepKeeps(s, Wake(t));
    u := Step(s, Wake(t));
  }

  // ----- a queued task gets its turn

  /** t is at place k of a list, or before. */
  ghost predicate Within(r: seq<Task>, t: Task, k: int) { exists i :: 0 <= i <= k && i < |r| && r[i] == t }

  lemma WithinPush(r: seq<Task>, x: Task, t: Task, k: int)
    requires Within(r, t, k)
    ensures Within(r + [x], t, k)
  {
    var i :| 0 <= i <= k && i < |r| && r[i] == t;
    assert (r + [x])[i] == t;
  }

  lemma {:induction false} WithinRemoved(r: seq<Task>, x: Task, t: Task, k: int)
    requires Within(r, t, k) && x != t
    ensures Within(Removed(r, x), t, k)
  {
    var i :| 0 <= i <= k && i < |r| && r[i] == t;
    if i == 0 {
      assert Removed(r, x)[0] == t;
    } else {
      assert r[1..][i - 1] == t;
      WithinRemoved(r[1..], x, t, k - 1);
      var j :| 0 <= j <= k - 1 && j < |Removed(r[1..], x)| && Removed(r[1..], x)[j] == t;
      assert Removed(r, x)[if r[0] == x then j else j + 1] == t;
    }
  }

  lemma WithinPop(r: seq<Task>, t: Task, k: int)
    requires Within(r, t, k)
    ensures r != [] && (r[0] == t || Within(r[1..], t, k - 1))
  {
    var i :| 0 <= i <= k && i < |r| && r[i] == t;
    assert i > 0 ==> r[1..][i - 1] == t;
  }

  /** One step brings a queued task forward, or at least not back. */
  lemma StepServes(s: Sys, e: Event, t: Task, k: nat)
    requires Inv(s) && Possible(s, e) && Within(s.q.ready[0], t, k) && e != Kill(t)
    ensures var u := Step(s, e);
            u.q.Typed() && if Picks(e) then u.cur == t || Within(u.q.ready[0], t, k - 1) else Within(u.q.ready[0], t, k)
  {
    hide Once, Runnable, Kept;
    var r := s.q.ready[0];
    var u := Step(s, e);
    match e
    case Spawn(x, p) => WithinPush(r, x, t, k);
    case Wake(x) => WithinPush(r, x, t, k);
    case Kill(x) => WithinRemoved(r, x, t, k);
    case Yield =>
      WithinPush(r, s.cur, t, k);
      WithinPop(s.q.Add(s.cur).ready[0], t, k);
    case SleepYield =>
      QueuedNotCur(s, t);
      WithinRemoved(r, s.cur, t, k);
      WithinPop(s.q.Sleep(s.cur).ready[0], t, k);
  }

  lemma QueuedNotCur(s: Sys, t: Task)
    requires Inv(s) && t in s.q.ready[0]
    ensures t != s.cur
  {
    assert Runnable(s.q, 0, t);
  }

  /** How often the scheduler is called. */
  function Turns(es: seq<Event>): nat { if es == [] then 0 else (if Picks(es[0]) then 1 else 0) + Turns(es[1..]) }

  /**
   A task at place k of the first list, or before, is running after at most k + 1 calls of the scheduler, unless it is
   killed first.
   */
  lemma {:induction false} Served(s: Sys, es: seq<Event>, t: Task, k: nat) returns (j: nat)
    requires Inv(s) && Run(s, es) && Within(s.q.ready[0], t, k) && Kill(t) !in es && Turns(es) >= k + 1
    ensures 0 < j <= |es| && Turns(es[..j]) <= k + 1 && After(s, es, j).cur == t
    decreases |es|
  {
    hide Step, Ordered, Possible;
    var e, u := es[0], Step(s, es[0]);
    StepKeeps(s, e);
    StepServes(s, e, t, k);
    if Picks(e) && u.cur == t {
      j := 1;
      assert es[..1] == [e] && After(s, es, 1) == u;
      assert Turns([e]) == 1 + Turns([e][1..]);
    } else {
      var i := Served(u, es[1..], t, if Picks(e) then k - 1 else k);
      j := i + 1;
      assert es[..j][1..] == es[1..][..i];
    }
  }
}
