/**
 The scheduler: one ready list per priority, and a set of tasks that are not to run.

 A task's state and priority are fields of the task; here they are maps from tasks.  `Queues` is the value of the
 scheduler, and the class below it is proved against the functions on that value.
 */
module Sched {
  import opened Basics

  type Task = nat
  datatype State = Init | Ready | Running | Pending | Zombie

  /** The ready lists of priorities 0 and 1, the tasks set aside, and the fields of the tasks. */
  datatype Queues = Queues(ready: seq<seq<Task>>, pending: set<Task>, state: map<Task, State>, prior: map<Task, nat>) {

    ghost predicate Typed() {
      && |ready| == 2 && state.Keys == prior.Keys
      && (forall t :: t in prior ==> prior[t] < 2)
      && (forall i, t :: 0 <= i < 2 && t in ready[i] ==> t in state)
    }

    function Add(t: Task): (r: Queues)
      requires Typed() && t in state
      ensures r.Typed() && r.state.Keys == state.Keys && r.prior == prior
    {
      if state[t].Zombie? || state[t].Pending? then this
      else this.(ready := ready[prior[t] := ready[prior[t]] + [t]])
    }

    function Sleep(t: Task): (r: Queues)
      requires Typed() && t in state
      ensures r.Typed() && r.state.Keys == state.Keys && r.prior == prior
    {
      this.(state := state[t := Pending], ready := ready[prior[t] := Removed(ready[prior[t]], t)],
        pending := pending + {t})
    }

    function Wakeup(t: Task): (r: Queues)
      requires Typed() && t in state
      ensures r.Typed() && r.state.Keys == state.Keys && r.prior == prior
    {
      if !state[t].Pending? then this
      else this.(pending := pending - {t}, state := state[t := State.Ready]).Add(t)
    }

    function Remove(t: Task): (r: Queues)
      requires Typed() && t in state
      ensures r.Typed() && r.state.Keys == state.Keys && r.prior == prior
    {
      this.(pending := pending + {t}, ready := ready[prior[t] := Removed(ready[prior[t]], t)])
    }

    function Spawn(t: Task, p: nat): (r: Queues)
      requires Typed() && t !in state && p < 2
      ensures r.Typed() && r.state.Keys == state.Keys + {t} && t in r.state
    {
      this.(state := state[t := Init], prior := prior[t := p]).Add(t)
    }

    function Kill(t: Task): (r: Queues)
      requires Typed() && t in state
      ensures r.Typed() && r.state.Keys == state.Keys && r.prior == prior
    {
      this.(state := state[t := Zombie]).Remove(t)
    }

    /** The first of the first list that is not empty. */
    function Front(): (r: (Queues, Task))
      requires Typed() && (ready[0] != [] || ready[1] != [])
      ensures r.0.Typed() && r.1 in state
    {
      if ready[0] != [] then (this.(ready := ready[0 := ready[0][1..]]), ready[0][0])
      else (this.(ready := ready[1 := ready[1][1..]]), ready[1][0])
    }
  }

  lemma RemovedNone(t: Task)
    ensures Removed([], t) == []
  {
  }

  lemma RemovedStep(q: seq<Task>, k: nat, t: Task, done: seq<Task>)
    requires k < |q| && done + Removed(q[k..], t) == Removed(q, t)
    ensures (if q[k] != t then done + [q[k]] else done) + Removed(q[k + 1..], t) == Removed(q, t)
  {
    assert q[k..][1..] == q[k + 1..] && q[k..][0] == q[k];
    var rest := Removed(q[k + 1..], t);
    assert Removed(q[k..], t) == (if q[k] == t then [] else [q[k]]) + rest;
    hide Removed;
    assert done + ([q[k]] + rest) == done + [q[k]] + rest;
    assert done + ([] + rest) == done + rest;
  }

  /** A list without the occurrences of t. */
  function Removed(q: seq<Task>, t: Task): (r: seq<Task>)
    ensures t !in r && forall x :: x in r <==> x in q && x != t
    ensures |r| <= |q|
  {
    if q == [] then [] else (if q[0] == t then [] else [q[0]]) + Removed(q[1..], t)
  }

  class Scheduler {
    var ready: seq<seq<Task>>
    var pending: set<Task>
    var state: map<Task, State>
    var prior: map<Task, nat>

    ghost function View(): Queues
      reads this
    {
      Queues(ready, pending, state, prior)
    }

    constructor ()
      ensures View() == Queues([[], []], {}, map[], map[]) && View().Typed()
    {
      ready, pending, state, prior := [[], []], {}, map[], map[];
    }

    method Add(t: Task)
      requires View().Typed() && t in state
      modifies `ready
      ensures View() == old(View()).Add(t)
    {
      if state[t].Zombie? || state[t].Pending? {
        return;
      }
      ready := ready[prior[t] := ready[prior[t]] + [t]];
    }

    /** The next task to run, after the one that ran, if any, has been queued again. */
    method Next(prev: Option<Task>) returns (r: Option<Task>)
      requires View().Typed() && (prev.Some? ==> prev.value in state)
      modifies `ready
      ensures var q := if prev.Some? then old(View()).Add(prev.value) else old(View());
              && (r.Some? <==> q.ready[0] != [] || q.ready[1] != [])
              && (r.Some? ==> (View(), r.value) == q.Front()) && (r.None? ==> View() == q)
    {
      if prev.Some? {
        Add(prev.value);
      }
      ghost var q := View();
      var i := 0;
      while i <= 1
        invariant 0 <= i <= 2 && View() == q && forall j :: 0 <= j < i ==> ready[j] == []
      {
        if ready[i] != [] {
          r := Some(ready[i][0]);
          ready := ready[i := ready[i][1..]];
          return;
        }
        i := i + 1;
      }
      r := None;
    }

    /** The list operation that drops every occurrence of a task. */
    method RemoveFrom(i: nat, t: Task)
      requires View().Typed() && i < 2
      modifies `ready
      ensures ready == old(ready)[i := Removed(old(ready[i]), t)]
    {
      hide Removed;
      var q, k, all := [], 0, ready[i];
      assert all[0..] == all;
      while k < |all|
        invariant 0 <= k <= |all| && ready == old(ready) && q + Removed(all[k..], t) == Removed(all, t)
      {
        RemovedStep(all, k, t, q);
        if all[k] != t {
          q := q + [all[k]];
        }
        k := k + 1;
      }
      RemovedNone(t);
      assert all[k..] == [] && q + [] == q;
      ready := ready[i := q];
    }

    method Sleep(t: Task)
      requires View().Typed() && t in state && !state[t].Pending?
      modifies `ready, `pending, `state
      ensures View() == old(View()).Sleep(t)
    {
      state := state[t := Pending];
      RemoveFrom(prior[t], t);
      pending := pending + {t};
    }

    method Wakeup(t: Task)
      requires View().Typed() && t in state
      modifies `ready, `pending, `state
      ensures View() == old(View()).Wakeup(t)
    {
      if !state[t].Pending? {
        return;
      }
      pending := pending - {t};
      state := state[t := State.Ready];
      Add(t);
    }

    method Remove(t: Task)
      requires View().Typed() && t in state
      modifies `ready, `pending
      ensures View() == old(View()).Remove(t)
    {
      pending := pending + {t};
      RemoveFrom(prior[t], t);
    }
  }
}
