/**
 Pipes over whole runs: any number of readers and writers, any interleaving of their steps, wakeups of waiting tasks
 that come from elsewhere, as from the end of a child process, and the death of tasks while they wait.

 Both leave the tasks on their waiting lists.  A task woken from elsewhere that waits again is on its list twice, and a
 notification can be spent on an entry nobody sleeps at, or on a dead task's.  A task can also die after it has been
 woken, and does not pass the wakeup on.  `NoLostWakeupIff` says exactly when a run loses a wakeup in one of these ways.
 */
module PipeRuns {
  import opened Basics
  import opened Pipe

  /** A read or write that has waited at least once and not returned yet.  A waiting read has got nothing so far. */
  datatype Op = Writing(bytes: seq<Byte>, off: nat) | Reading(len: nat)

  /** `accepted` and `delivered` record what all writes put into the pipe and what all reads took out. */
  datatype State = State(sh: Shared, ops: map<Task, Op>, accepted: seq<Byte>, delivered: seq<Byte>)

  datatype Event =
    | BeginWrite(t: Task, bytes: seq<Byte>)
    | BeginRead(t: Task, len: nat)
    | Resume(t: Task)
    | Outside(t: Task)
    | Die(ts: set<Task>)
    | ReaderComes | ReaderGoes | WriterComes | WriterGoes

  predicate Possible(s: State, e: Event) {
    match e
    case BeginWrite(t, _) => t !in s.ops
    case BeginRead(t, _) => t !in s.ops
    case Resume(t) => t in s.sh.woken && t in s.ops
    case ReaderGoes => s.sh.rcnt > 0
    case WriterGoes => s.sh.wcnt > 0
    case _ => true
  }

  /** The step runs a read or write. */
  predicate Acts(e: Event) { e.BeginWrite? || e.BeginRead? || e.Resume? }

  function RunWrite(s: State, t: Task, bytes: seq<Byte>, off: nat): State
    requires |s.sh.ring| <= BUF_SIZE && off <= |bytes|
  {
    var (sh, n, outcome) := WriteStep(s.sh, t, bytes[off..]);
    State(sh, if outcome.Waits? then s.ops[t := Writing(bytes, off + n)] else s.ops,
          s.accepted + bytes[off..][..n], s.delivered)
  }

  function RunRead(s: State, t: Task, len: nat): State {
    var (sh, n, outcome) := ReadStep(s.sh, t, 0, len);
    State(sh, if outcome.Waits? then s.ops[t := Reading(len)] else s.ops, s.accepted, s.delivered + s.sh.ring[..n])
  }

  function RunOp(s: State, t: Task, op: Op): State
    requires Sane(s) && (op.Writing? ==> op.off <= |op.bytes|)
  {
    match op
    case Writing(bytes, off) => RunWrite(s, t, bytes, off)
    case Reading(len) => RunRead(s, t, len)
  }

  /** A woken task runs again. */
  function Leaving(s: State, t: Task): State { s.(sh := s.sh.(woken := s.sh.woken - {t}), ops := s.ops - {t}) }

  /**
   Some tasks die together, as the tasks of a process do.  Their reads and writes never go on, but the lists stay as
   they are.  A dead task's number may be used again.
   */
  function Died(s: State, ts: set<Task>): State {
    s.(sh := s.sh.(asleep := s.sh.asleep - ts, woken := s.sh.woken - ts), ops := s.ops - ts)
  }

  /** The state, task and operation a step starts from. */
  function Started(s: State, e: Event): (State, Task, Op)
    requires Possible(s, e) && Acts(e)
  {
    match e
    case BeginWrite(t, bytes) => (s, t, Writing(bytes, 0))
    case BeginRead(t, len) => (s, t, Reading(len))
    case Resume(t) => (Leaving(s, t), t, s.ops[t])
  }

  function Next(s: State, e: Event): State
    requires Possible(s, e) && Sane(s)
  {
    if Acts(e) then
      var (s0, t, op) := Started(s, e);
      RunOp(s0, t, op)
    else match e
      case Outside(t) => s.(sh := s.sh.Wakeup(t))
      case Die(ts) => Died(s, ts)
      case ReaderComes => s.(sh := s.sh.AddReader())
      case ReaderGoes => s.(sh := s.sh.DecReader())
      case WriterComes => s.(sh := s.sh.AddWriter())
      case WriterGoes => s.(sh := s.sh.DecWriter())
  }

  const START := State(Shared([], [], [], 0, 0, {}, {}), map[], [], [])

  // ----- what always holds

  predicate Sane(s: State) {
    && |s.sh.ring| <= BUF_SIZE
    && (forall t :: t in s.ops && s.ops[t].Writing? ==> s.ops[t].off < |s.ops[t].bytes|)
    && (forall t :: t in s.ops && s.ops[t].Reading? ==> s.ops[t].len > 0)
  }

  predicate Reader(s: State, t: Task) { t in s.ops && s.ops[t].Reading? }
  predicate Writer(s: State, t: Task) { t in s.ops && s.ops[t].Writing? }

  /** Unfinished operations are those of tasks asleep or woken, and whoever sleeps is on the right list. */
  ghost predicate Listed(s: State) {
    && s.sh.asleep !! s.sh.woken && s.ops.Keys == s.sh.asleep + s.sh.woken
    && (forall t :: t in s.sh.asleep && Reader(s, t) ==> t in s.sh.canr)
    && (forall t :: t in s.sh.asleep && Writer(s, t) ==> t in s.sh.canw)
  }

  ghost predicate ReaderSleeps(s: State) { exists t :: t in s.sh.asleep && Reader(s, t) }
  ghost predicate WriterSleeps(s: State) { exists t :: t in s.sh.asleep && Writer(s, t) }
  ghost predicate ReaderComing(s: State) { exists t :: t in s.sh.woken && Reader(s, t) }
  ghost predicate WriterComing(s: State) { exists t :: t in s.sh.woken && Writer(s, t) }

  /** Nobody sleeps at a pipe without the other side. */
  ghost predicate Peopled(s: State) {
    (ReaderSleeps(s) ==> s.sh.wcnt > 0) && (WriterSleeps(s) ==> s.sh.rcnt > 0)
  }

  ghost predicate Fifo(s: State) { s.accepted == s.delivered + s.sh.ring }

  ghost predicate Inv(s: State) { Sane(s) && Listed(s) && Peopled(s) && Fifo(s) }

  /** Whoever sleeps in vain has a woken colleague who will pass the wakeup on. */
  ghost predicate Covered(s: State) {
    && (ReaderSleeps(s) && s.sh.ring != [] ==> ReaderComing(s))
    && (WriterSleeps(s) && |s.sh.ring| < BUF_SIZE ==> WriterComing(s))
  }

  // ----- notifications

  /** The tasks the notifications at the end of a step go to. */
  function Heads(sh: Shared): set<Task> {
    (if sh.ring != [] && sh.canr != [] then {sh.canr[0]} else {}) +
    (if |sh.ring| != BUF_SIZE && sh.canw != [] then {sh.canw[0]} else {})
  }

  /**
   If somebody sleeps who could go on, and none of its kind is on the way, then somebody of its kind sleeps at the head
   of a list that is notified.
   */
  ghost predicate HeadsServe(s: State) {
    && (ReaderSleeps(s) && s.sh.ring != [] && !ReaderComing(s) ==>
          exists t :: t in Heads(s.sh) && t in s.sh.asleep && Reader(s, t))
    && (WriterSleeps(s) && |s.sh.ring| < BUF_SIZE && !WriterComing(s) ==>
          exists t :: t in Heads(s.sh) && t in s.sh.asleep && Writer(s, t))
  }

  /** Every entry of the lists is a sleeping task's, and its only one. */
  ghost predicate Fresh(s: State) {
    && (forall i, j :: 0 <= i < j < |s.sh.canr| ==> s.sh.canr[i] != s.sh.canr[j])
    && (forall i, j :: 0 <= i < j < |s.sh.canw| ==> s.sh.canw[i] != s.sh.canw[j])
    && (forall t :: t in s.sh.canr ==> t in s.sh.asleep && Reader(s, t))
    && (forall t :: t in s.sh.canw ==> t in s.sh.asleep && Writer(s, t))
  }

  lemma TryWakeupIs(sh: Shared)
    ensures var r, h := sh.TryWakeup(), Heads(sh);
            && r.asleep == sh.asleep - h && r.woken == sh.woken + (sh.asleep * h)
            && r == sh.(canr := r.canr, canw := r.canw, asleep := r.asleep, woken := r.woken)
            && r.canr == (if sh.ring != [] && sh.canr != [] then sh.canr[1..] else sh.canr)
            && r.canw == (if |sh.ring| != BUF_SIZE && sh.canw != [] then sh.canw[1..] else sh.canw)
  {
  }

  ghost function Notified(s: State): State { s.(sh := s.sh.TryWakeup()) }

  lemma NotifiedListed(s: State)
    requires Listed(s)
    ensures Listed(Notified(s)) && (Peopled(s) ==> Peopled(Notified(s)))
  {
    TryWakeupIs(s.sh);
    hide Shared.TryWakeup;
    assert forall t :: t in s.sh.canr && s.sh.canr != [] ==> t == s.sh.canr[0] || t in s.sh.canr[1..];
    assert forall t :: t in s.sh.canw && s.sh.canw != [] ==> t == s.sh.canw[0] || t in s.sh.canw[1..];
  }

  lemma NotifiedFresh(s: State)
    requires Fresh(s)
    ensures Fresh(Notified(s))
  {
    TryWakeupIs(s.sh);
    hide Shared.TryWakeup;
    var s' := Notified(s);
    forall t | t in s'.sh.canr ensures t in s'.sh.asleep && Reader(s', t) {
      assert t in s.sh.canr && (s.sh.canw != [] ==> s.sh.canw[0] in s.sh.canw);
    }
    forall t | t in s'.sh.canw ensures t in s'.sh.asleep && Writer(s', t) {
      assert t in s.sh.canw && (s.sh.canr != [] ==> s.sh.canr[0] in s.sh.canr);
    }
  }

  /** The notifications leave nobody uncovered exactly if the heads of the lists serve. */
  lemma NotifiedExact(s: State)
    requires Listed(s)
    ensures Covered(Notified(s)) <==> HeadsServe(s)
  {
    TryWakeupIs(s.sh);
    hide Shared.TryWakeup, Heads;
    var s', h := Notified(s), Heads(s.sh);
    NotifiedReaders(s, s', h);
    NotifiedWriters(s, s', h);
  }

  lemma NotifiedReaders(s: State, s': State, h: set<Task>)
    requires Listed(s) && s'.ops == s.ops && s'.sh.asleep == s.sh.asleep - h &&
             s'.sh.woken == s.sh.woken + (s.sh.asleep * h)
    ensures (ReaderSleeps(s') ==> ReaderComing(s')) <==>
            (ReaderSleeps(s) && !ReaderComing(s) ==> exists t :: t in h && t in s.sh.asleep && Reader(s, t))
  {
    if x :| x in s.sh.asleep && Reader(s, x) {
      assert if x in h then x in s'.sh.woken && Reader(s', x) else x in s'.sh.asleep && Reader(s', x);
    }
    if x :| x in s.sh.woken && Reader(s, x) {
      assert x in s'.sh.woken && Reader(s', x);
    }
    if x :| x in h && x in s.sh.asleep && Reader(s, x) {
      assert x in s'.sh.woken && Reader(s', x);
    }
  }

  lemma NotifiedWriters(s: State, s': State, h: set<Task>)
    requires Listed(s) && s'.ops == s.ops && s'.sh.asleep == s.sh.asleep - h &&
             s'.sh.woken == s.sh.woken + (s.sh.asleep * h)
    ensures (WriterSleeps(s') ==> WriterComing(s')) <==>
            (WriterSleeps(s) && !WriterComing(s) ==> exists t :: t in h && t in s.sh.asleep && Writer(s, t))
  {
    if x :| x in s.sh.asleep && Writer(s, x) {
      assert if x in h then x in s'.sh.woken && Writer(s', x) else x in s'.sh.asleep && Writer(s', x);
    }
    if x :| x in s.sh.woken && Writer(s, x) {
      assert x in s'.sh.woken && Writer(s', x);
    }
    if x :| x in h && x in s.sh.asleep && Writer(s, x) {
      assert x in s'.sh.woken && Writer(s', x);
    }
  }

  lemma FreshServes(s: State)
    requires Listed(s) && Fresh(s)
    ensures HeadsServe(s)
  {
    if ReaderSleeps(s) && s.sh.ring != [] {
      var t := s.sh.canr[0];
      assert t in s.sh.canr && t in Heads(s.sh);
    }
    if WriterSleeps(s) && |s.sh.ring| < BUF_SIZE {
      var t := s.sh.canw[0];
      assert t in s.sh.canw && t in Heads(s.sh);
    }
  }

  // ----- the parts of a step

  /** The bytes have been copied and the notifications are next. */
  function Copied(s: State, op: Op): State
    requires Sane(s) && (op.Writing? ==> op.off <= |op.bytes|)
  {
    match op
    case Writing(bytes, off) =>
      var rest := bytes[off..];
      var n := Min(|rest|, BUF_SIZE - |s.sh.ring|);
      s.(sh := s.sh.(ring := s.sh.ring + rest[..n]), accepted := s.accepted + rest[..n])
    case Reading(len) =>
      var n := Min(len, |s.sh.ring|);
      s.(sh := s.sh.(ring := s.sh.ring[n..]), delivered := s.delivered + s.sh.ring[..n])
  }

  /** The task goes to sleep in an operation that cannot go on. */
  ghost function Slept(s: State, t: Task, op: Op): State {
    s.(sh := if op.Writing? then s.sh.WaitW(t) else s.sh.WaitR(t), ops := s.ops[t := op])
  }

  ghost predicate Stuck(s: State, op: Op) {
    match op
    case Writing(bytes, off) => off < |bytes| && s.sh.Full() && s.sh.rcnt > 0
    case Reading(len) => len > 0 && s.sh.Empty() && s.sh.wcnt > 0
  }

  /** A step copies, notifies, and returns or sleeps; on both ways the notifications are the same. */
  lemma RunOpIs(s: State, t: Task, op: Op) returns (waits: bool, op': Op)
    requires Sane(s) && (op.Writing? ==> op.off <= |op.bytes|)
    ensures var s2 := Notified(Copied(s, op));
            && (waits ==> Stuck(s2, op') && op'.Writing? == op.Writing?)
            && RunOp(s, t, op) == if waits then Slept(s2, t, op') else s2
  {
    hide Shared.NotifyR, Shared.NotifyW;
    var s1 := Copied(s, op);
    NotifyKeeps(s1.sh);
    match op
    case Writing(bytes, off) =>
      var n := Min(|bytes[off..]|, BUF_SIZE - |s.sh.ring|);
      waits, op' := n < |bytes[off..]| && s.sh.rcnt > 0, Writing(bytes, off + n);
    case Reading(len) =>
      waits, op' := Min(len, |s.sh.ring|) == 0 < len && s.sh.wcnt > 0, op;
  }

  lemma NotifyKeeps(sh: Shared)
    ensures sh.NotifyR().ring == sh.ring == sh.NotifyW().ring == sh.TryWakeup().ring
    ensures sh.NotifyR().rcnt == sh.rcnt == sh.NotifyW().rcnt == sh.TryWakeup().rcnt
    ensures sh.NotifyR().wcnt == sh.wcnt == sh.NotifyW().wcnt == sh.TryWakeup().wcnt
  {
  }

  lemma CopiedInv(s: State, op: Op)
    requires Inv(s) && (op.Writing? ==> op.off <= |op.bytes|)
    ensures Inv(Copied(s, op)) && Copied(s, op).ops == s.ops && (Fresh(s) ==> Fresh(Copied(s, op)))
  {
    var s1 := Copied(s, op);
    if op.Reading? {
      assert s1.delivered + s1.sh.ring == s.delivered + s.sh.ring;
    }
    hide Copied;
    assert ReaderSleeps(s1) ==> ReaderSleeps(s);
    assert WriterSleeps(s1) ==> WriterSleeps(s);
  }

  lemma SleptInv(s: State, t: Task, op: Op)
    requires Inv(s) && t !in s.ops && Stuck(s, op)
    ensures Inv(Slept(s, t, op))
  {
    var s' := Slept(s, t, op);
    assert forall u :: u in s.ops ==> s'.ops[u] == s.ops[u];
    if x :| x in s'.sh.asleep && Reader(s', x) && x != t {
      assert x in s.sh.asleep && Reader(s, x);
    }
    if x :| x in s'.sh.asleep && Writer(s', x) && x != t {
      assert x in s.sh.asleep && Writer(s, x);
    }
  }

  lemma SleptFresh(s: State, t: Task, op: Op)
    requires Listed(s) && Fresh(s) && t !in s.ops
    ensures Fresh(Slept(s, t, op))
  {
    var s' := Slept(s, t, op);
    assert t !in s.sh.canr && t !in s.sh.canw;
  }

  /** Going to sleep with nothing to be done changes nothing for the others. */
  lemma SleptCovered(s: State, t: Task, op: Op)
    requires Listed(s) && t !in s.ops && Stuck(s, op)
    ensures Covered(Slept(s, t, op)) <==> Covered(s)
  {
    var s' := Slept(s, t, op);
    SleptSame(s, t, op);
    hide Slept, Reader, Writer;
    if op.Writing? {
      assert ReaderSleeps(s') <==> ReaderSleeps(s) by {
        if x :| x in s.sh.asleep && Reader(s, x) { assert x in s'.sh.asleep && Reader(s', x); }
      }
      assert ReaderComing(s') <==> ReaderComing(s) by {
        if x :| x in s.sh.woken && Reader(s, x) { assert x in s'.sh.woken && Reader(s', x); }
      }
    } else {
      assert WriterSleeps(s') <==> WriterSleeps(s) by {
        if x :| x in s.sh.asleep && Writer(s, x) { assert x in s'.sh.asleep && Writer(s', x); }
      }
      assert WriterComing(s') <==> WriterComing(s) by {
        if x :| x in s.sh.woken && Writer(s, x) { assert x in s'.sh.woken && Writer(s', x); }
      }
    }
  }

  lemma SleptSame(s: State, t: Task, op: Op)
    requires Listed(s) && t !in s.ops
    ensures var s' := Slept(s, t, op);
            && s'.sh.ring == s.sh.ring && s'.sh.woken == s.sh.woken && s'.sh.asleep == s.sh.asleep + {t} &&
               t !in s.sh.woken
            && (forall x :: x != t ==> Reader(s', x) == Reader(s, x) && Writer(s', x) == Writer(s, x))
            && Reader(s', t) == op.Reading? && Writer(s', t) == op.Writing?
  {
  }

  lemma NotifiedInv(s: State)
    requires Inv(s)
    ensures Inv(Notified(s)) && (Fresh(s) ==> Fresh(Notified(s)))
  {
    NotifiedListed(s);
    TryWakeupIs(s.sh);
    hide Shared.TryWakeup, Listed, Peopled, Fresh;
    if Fresh(s) {
      NotifiedFresh(s);
    }
  }

  // ----- every step

  lemma StartedInv(s: State, e: Event)
    requires Inv(s) && Possible(s, e) && Acts(e)
    ensures var (s0, t, op) := Started(s, e);
            && Inv(s0) && t !in s0.ops && (op.Writing? ==> op.off <= |op.bytes|) && (Fresh(s) ==> Fresh(s0))
  {
    if e.Resume? {
      LeavingInv(s, e.t);
    }
  }

  lemma LeavingInv(s: State, t: Task)
    requires Inv(s) && t in s.sh.woken && t in s.ops
    ensures Inv(Leaving(s, t)) && (Fresh(s) ==> Fresh(Leaving(s, t)))
  {
    var s' := Leaving(s, t);
    assert forall x :: x in s.sh.asleep ==> Reader(s', x) == Reader(s, x) && Writer(s', x) == Writer(s, x);
    assert ReaderSleeps(s') ==> ReaderSleeps(s);
    assert WriterSleeps(s') ==> WriterSleeps(s);
  }

  /** The state in which a step makes its notifications. */
  ghost function Before(s: State, e: Event): State
    requires Inv(s) && Possible(s, e) && Acts(e)
  {
    StartedInv(s, e);
    var (s0, _, op) := Started(s, e);
    Copied(s0, op)
  }

  /** A read or write keeps the invariant, and leaves nobody uncovered exactly if the heads of the lists serve. */
  lemma ActExact(s: State, e: Event)
    requires Inv(s) && Possible(s, e) && Acts(e)
    ensures Inv(Next(s, e)) && (Covered(Next(s, e)) <==> HeadsServe(Before(s, e)))
    ensures Fresh(s) ==> Fresh(Next(s, e)) && HeadsServe(Before(s, e))
  {
    StartedInv(s, e);
    var (s0, t, op) := Started(s, e);
    hide Inv, Covered, HeadsServe, Fresh, Slept, Copied, RunOp, Stuck;
    InvListed(s0);
    CopiedInv(s0, op);
    var s1 := Copied(s0, op);
    InvListed(s1);
    NotifiedInv(s1);
    NotifiedExact(s1);
    if Fresh(s1) {
      FreshServes(s1);
    }
    var waits, op' := RunOpIs(s0, t, op);
    if waits {
      InvListed(Notified(s1));
      SleptInv(Notified(s1), t, op');
      if Fresh(s) {
        SleptFresh(Notified(s1), t, op');
      }
      SleptCovered(Notified(s1), t, op');
    }
  }

  lemma InvListed(s: State)
    requires Inv(s)
    ensures Listed(s) && Sane(s)
  {
  }

  // ----- other events

  /** Some tasks have been woken, by name or as everyone on a list that is emptied. */
  ghost predicate Woke(s: State, s': State, up: set<Task>) {
    && s' == s.(sh := s'.sh) && s'.sh.ring == s.sh.ring
    && s'.sh.asleep == s.sh.asleep - up && up <= s.sh.asleep && s'.sh.woken == s.sh.woken + up
    && (s'.sh.canr == s.sh.canr || (s'.sh.canr == [] && forall t :: t in s.sh.asleep && t in s.sh.canr ==> t in up))
    && (s'.sh.canw == s.sh.canw || (s'.sh.canw == [] && forall t :: t in s.sh.asleep && t in s.sh.canw ==> t in up))
    && (s'.sh.wcnt > 0 || s'.sh.wcnt == s.sh.wcnt || s'.sh.canr == [])
    && (s'.sh.rcnt > 0 || s'.sh.rcnt == s.sh.rcnt || s'.sh.canw == [])
  }

  lemma ComesWoke(s: State)
    ensures Woke(s, s.(sh := s.sh.AddReader()), {}) && Woke(s, s.(sh := s.sh.AddWriter()), {})
    ensures Fresh(s) ==> Fresh(s.(sh := s.sh.AddReader())) && Fresh(s.(sh := s.sh.AddWriter()))
  {
  }

  lemma OutsideWoke(s: State, t: Task) returns (up: set<Task>)
    ensures Woke(s, s.(sh := s.sh.Wakeup(t)), up)
  {
    up := if t in s.sh.asleep then {t} else {};
  }

  lemma ReaderGoesWoke(s: State) returns (up: set<Task>)
    requires s.sh.rcnt > 0
    ensures var s' := s.(sh := s.sh.DecReader()); Woke(s, s', up) && (Fresh(s) ==> Fresh(s'))
  {
    up := if s.sh.rcnt == 1 then set t | t in s.sh.asleep && t in s.sh.canw else {};
  }

  lemma WriterGoesWoke(s: State) returns (up: set<Task>)
    requires s.sh.wcnt > 0
    ensures var s' := s.(sh := s.sh.DecWriter()); Woke(s, s', up) && (Fresh(s) ==> Fresh(s'))
  {
    up := if s.sh.wcnt == 1 then set t | t in s.sh.asleep && t in s.sh.canr else {};
  }

  lemma WokeKeeps(s: State, s': State, up: set<Task>)
    requires Inv(s) && Woke(s, s', up)
    ensures Inv(s') && (Covered(s) ==> Covered(s'))
  {
    FewerAsleep(s, s');
  }

  lemma FewerAsleep(s: State, s': State)
    requires s'.ops == s.ops && s'.sh.asleep <= s.sh.asleep && s.sh.woken <= s'.sh.woken
    ensures (ReaderSleeps(s') ==> ReaderSleeps(s)) && (WriterSleeps(s') ==> WriterSleeps(s))
    ensures (ReaderComing(s) ==> ReaderComing(s')) && (WriterComing(s) ==> WriterComing(s'))
  {
    if x :| x in s.sh.woken && Reader(s, x) {
      assert x in s'.sh.woken && Reader(s', x);
    }
    if x :| x in s.sh.woken && Writer(s, x) {
      assert x in s'.sh.woken && Writer(s', x);
    }
  }

  /**
   If one of the dead had been woken, and another of its kind sleeps who could go on, then one of its kind who lives is
   on the way.
   */
  ghost predicate DeathServes(s: State, ts: set<Task>) {
    && ((exists t :: t in ts && t in s.sh.woken && Reader(s, t)) && s.sh.ring != [] &&
        (exists t :: t !in ts && t in s.sh.asleep && Reader(s, t)) ==>
          exists t :: t !in ts && t in s.sh.woken && Reader(s, t))
    && ((exists t :: t in ts && t in s.sh.woken && Writer(s, t)) && |s.sh.ring| < BUF_SIZE &&
        (exists t :: t !in ts && t in s.sh.asleep && Writer(s, t)) ==>
          exists t :: t !in ts && t in s.sh.woken && Writer(s, t))
  }

  lemma DiedSame(s: State, ts: set<Task>)
    ensures var s' := Died(s, ts);
            forall t :: t !in ts ==> Reader(s', t) == Reader(s, t) && Writer(s', t) == Writer(s, t)
  {
  }

  lemma DiedInv(s: State, ts: set<Task>)
    requires Inv(s)
    ensures Inv(Died(s, ts))
  {
    var s' := Died(s, ts);
    DiedSame(s, ts);
    hide Reader, Writer;
    assert s'.ops.Keys == s.ops.Keys - ts;
    assert ReaderSleeps(s') ==> ReaderSleeps(s);
    assert WriterSleeps(s') ==> WriterSleeps(s);
  }

  /** Entries of the dead are the only ones that go stale, and all of those asleep do. */
  lemma DiedFresh(s: State, ts: set<Task>)
    requires Listed(s) && Fresh(s)
    ensures Fresh(Died(s, ts)) <==> ts !! s.sh.asleep
  {
    var s' := Died(s, ts);
    DiedSame(s, ts);
    if t :| t in ts && t in s.sh.asleep {
      assert t in s.sh.canr || t in s.sh.canw;
    }
  }

  /** Deaths leave nobody uncovered exactly if somebody else passes the wakeups of the dead on. */
  lemma DiedExact(s: State, ts: set<Task>)
    requires Listed(s) && Covered(s)
    ensures Covered(Died(s, ts)) <==> DeathServes(s, ts)
  {
    DiedReaders(s, ts);
    DiedWriters(s, ts);
    hide Reader, Writer, ReaderSleeps, ReaderComing, WriterSleeps, WriterComing;
  }

  lemma DiedReaders(s: State, ts: set<Task>)
    ensures ReaderSleeps(Died(s, ts)) <==> exists t :: t !in ts && t in s.sh.asleep && Reader(s, t)
    ensures ReaderComing(Died(s, ts)) <==> exists t :: t !in ts && t in s.sh.woken && Reader(s, t)
    ensures ReaderSleeps(Died(s, ts)) ==> ReaderSleeps(s)
    ensures ReaderComing(s) <==> ReaderComing(Died(s, ts)) || exists t :: t in ts && t in s.sh.woken && Reader(s, t)
  {
    var s' := Died(s, ts);
    DiedSame(s, ts);
    hide Reader;
    if x :| x !in ts && x in s.sh.asleep && Reader(s, x) {
      assert x in s'.sh.asleep && Reader(s', x);
    }
    if x :| x !in ts && x in s.sh.woken && Reader(s, x) {
      assert x in s'.sh.woken && Reader(s', x);
    }
  }

  lemma DiedWriters(s: State, ts: set<Task>)
    ensures WriterSleeps(Died(s, ts)) <==> exists t :: t !in ts && t in s.sh.asleep && Writer(s, t)
    ensures WriterComing(Died(s, ts)) <==> exists t :: t !in ts && t in s.sh.woken && Writer(s, t)
    ensures WriterSleeps(Died(s, ts)) ==> WriterSleeps(s)
    ensures WriterComing(s) <==> WriterComing(Died(s, ts)) || exists t :: t in ts && t in s.sh.woken && Writer(s, t)
  {
    var s' := Died(s, ts);
    DiedSame(s, ts);
    hide Writer;
    if x :| x !in ts && x in s.sh.asleep && Writer(s, x) {
      assert x in s'.sh.asleep && Writer(s', x);
    }
    if x :| x !in ts && x in s.sh.woken && Writer(s, x) {
      assert x in s'.sh.woken && Writer(s', x);
    }
  }

  /** Whoever stops sleeping has been notified. */
  predicate Steady(s: State, e: Event) {
    match e
    case Outside(t) => t !in s.sh.asleep
    case Die(ts) => ts !! s.sh.asleep
    case _ => true
  }

  /** A wakeup from elsewhere, or a change in the number of readers or writers. */
  lemma OtherKeeps(s: State, e: Event)
    requires Inv(s) && Possible(s, e) && !Acts(e) && !e.Die?
    ensures Inv(Next(s, e)) && (Covered(s) ==> Covered(Next(s, e)))
    ensures Fresh(s) && Steady(s, e) ==> Fresh(Next(s, e))
  {
    var up: set<Task> := {};
    match e {
      case Outside(t) => up := OutsideWoke(s, t);
      case ReaderGoes => up := ReaderGoesWoke(s);
      case WriterGoes => up := WriterGoesWoke(s);
      case _ => ComesWoke(s);
    }
    hide Fresh, Covered, Inv, Woke, Shared.DecReader, Shared.DecWriter;
    WokeKeeps(s, Next(s, e), up);
  }

  lemma NextKeeps(s: State, e: Event)
    requires Inv(s) && Possible(s, e)
    ensures Inv(Next(s, e))
    ensures if Acts(e) then Covered(Next(s, e)) <==> HeadsServe(Before(s, e))
            else Covered(s) ==> (Covered(Next(s, e)) <==> (e.Die? ==> DeathServes(s, e.ts)))
    ensures Fresh(s) ==> (Acts(e) ==> HeadsServe(Before(s, e))) && (Steady(s, e) ==> Fresh(Next(s, e)))
  {
    hide Inv, Covered, Fresh, HeadsServe, DeathServes, RunOp, Before, Started, Died;
    if Acts(e) {
      ActExact(s, e);
    } else if e.Die? {
      InvListed(s);
      DiedInv(s, e.ts);
      if Covered(s) {
        DiedExact(s, e.ts);
      }
      if Fresh(s) {
        DiedFresh(s, e.ts);
      }
    } else {
      OtherKeeps(s, e);
    }
  }

  // ----- runs

  /** A run from an idle pipe: the states it goes through and the events between them. */
  ghost predicate Run(ss: seq<State>, es: seq<Event>) {
    && |ss| == |es| + 1 && ss[0] == START
    && forall k :: 0 <= k < |es| ==> Follows(ss[k], es[k], ss[k + 1])
  }

  ghost predicate Follows(s: State, e: Event, s': State) { Sane(s) && Possible(s, e) && s' == Next(s, e) }

  lemma StartFine()
    ensures Inv(START) && Fresh(START) && Covered(START)
  {
  }

  lemma FollowsKeeps(s: State, e: Event, s': State)
    requires Inv(s) && Follows(s, e, s')
    ensures Inv(s') && (Fresh(s) && Steady(s, e) ==> Fresh(s')) && (Covered(s) ==> (Covered(s') <==> Serves(s, e)))
  {
    hide Inv, Covered, Fresh, HeadsServe, DeathServes, Next, Before;
    NextKeeps(s, e);
  }

  lemma {:induction false} RunKeeps(ss: seq<State>, es: seq<Event>, k: nat)
    requires Run(ss, es) && k <= |es|
    ensures Inv(ss[k])
  {
    hide Inv, Follows, Fresh, Covered, Serves;
    StartFine();
    if k > 0 {
      RunKeeps(ss, es, k - 1);
      FollowsKeeps(ss[k - 1], es[k - 1], ss[k]);
    }
  }

  /** In a read or write the heads of the lists serve, and wakeups of the dead are passed on by others. */
  ghost predicate Serves(s: State, e: Event) {
    Inv(s) && Possible(s, e) && (Acts(e) ==> HeadsServe(Before(s, e))) && (e.Die? ==> DeathServes(s, e.ts))
  }

  /** A run leaves nobody uncovered at any time exactly if each of its steps serves. */
  lemma NoLostWakeupIff(ss: seq<State>, es: seq<Event>)
    requires Run(ss, es)
    ensures (forall k :: 0 <= k <= |es| ==> Covered(ss[k])) <==> (forall k :: 0 <= k < |es| ==> Serves(ss[k], es[k]))
  {
    hide Inv, Covered, Follows, Fresh, Serves;
    if forall k :: 0 <= k < |es| ==> Serves(ss[k], es[k]) {
      forall k | 0 <= k <= |es| ensures Covered(ss[k]) {
        ServedUpTo(ss, es, k);
      }
    }
    if forall k :: 0 <= k <= |es| ==> Covered(ss[k]) {
      forall k | 0 <= k < |es| ensures Serves(ss[k], es[k]) {
        RunKeeps(ss, es, k);
        assert Follows(ss[k], es[k], ss[k + 1]) && Covered(ss[k + 1]);
        FollowsKeeps(ss[k], es[k], ss[k + 1]);
      }
    }
  }

  lemma {:induction false} ServedUpTo(ss: seq<State>, es: seq<Event>, k: nat)
    requires Run(ss, es) && k <= |es| && forall i :: 0 <= i < k ==> Serves(ss[i], es[i])
    ensures Covered(ss[k])
  {
    hide Inv, Follows, Fresh, Covered, Serves;
    StartFine();
    if k > 0 {
      ServedUpTo(ss, es, k - 1);
      RunKeeps(ss, es, k - 1);
      FollowsKeeps(ss[k - 1], es[k - 1], ss[k]);
    }
  }

  lemma {:induction false} FreshUpTo(ss: seq<State>, es: seq<Event>, k: nat)
    requires Run(ss, es) && k <= |es| && forall i :: 0 <= i < k ==> Steady(ss[i], es[i])
    ensures Fresh(ss[k])
  {
    hide Inv, Follows, Fresh, Covered, Serves;
    StartFine();
    if k > 0 {
      FreshUpTo(ss, es, k - 1);
      RunKeeps(ss, es, k - 1);
      FollowsKeeps(ss[k - 1], es[k - 1], ss[k]);
    }
  }

  /** Once nobody woken is left to run, those still waiting have reason to, and only one side waits. */
  ghost predicate Settled(s: State) {
    s.sh.woken == {} ==>
      && (ReaderSleeps(s) ==> s.sh.ring == [] && s.sh.wcnt > 0)
      && (WriterSleeps(s) ==> |s.sh.ring| == BUF_SIZE && s.sh.rcnt > 0)
      && !(ReaderSleeps(s) && WriterSleeps(s))
      && (forall t :: t in s.ops ==> t in s.sh.asleep && t in if s.ops[t].Reading? then s.sh.canr else s.sh.canw)
  }

  /**
   No wakeup is lost on a run on which, whenever a read or write begins or goes on, no task is on a list twice or while
   it is not asleep there, and whenever tasks die, others pass their wakeups on.
   */
  lemma NoLostWakeup(ss: seq<State>, es: seq<Event>, k: nat)
    requires Run(ss, es) && k <= |es|
    requires forall i :: 0 <= i < k ==> (Acts(es[i]) ==> Fresh(ss[i])) && (es[i].Die? ==> DeathServes(ss[i], es[i].ts))
    ensures Covered(ss[k]) && Settled(ss[k])
  {
    forall i | 0 <= i < k ensures Serves(ss[i], es[i]) {
      RunKeeps(ss, es, i);
      assert Follows(ss[i], es[i], ss[i + 1]);
      FreshStep(ss[i], es[i]);
    }
    hide Serves, Follows;
    ServedUpTo(ss, es, k);
    RunKeeps(ss, es, k);
  }

  lemma FreshStep(s: State, e: Event)
    requires Inv(s) && Possible(s, e) && (Acts(e) ==> Fresh(s)) && (e.Die? ==> DeathServes(s, e.ts))
    ensures Serves(s, e)
  {
    hide Inv, Covered, Fresh, HeadsServe, DeathServes, Next, Before;
    NextKeeps(s, e);
  }

  /** The step neither wakes nor kills a task that waits at the pipe or has been woken there. */
  predicate Inside(s: State, e: Event) {
    match e
    case Outside(t) => t !in s.ops
    case Die(ts) => ts !! s.ops.Keys
    case _ => true
  }

  /** That is so on every run on which no task at the pipe is woken from elsewhere or killed. */
  lemma NoLostWakeupInside(ss: seq<State>, es: seq<Event>, k: nat)
    requires Run(ss, es) && k <= |es| && forall i :: 0 <= i < k ==> Inside(ss[i], es[i])
    ensures Fresh(ss[k]) && Covered(ss[k]) && Settled(ss[k])
  {
    hide Inv, Covered, Fresh, Settled, DeathServes, Follows;
    forall i | 0 <= i < k ensures Steady(ss[i], es[i]) && (es[i].Die? ==> DeathServes(ss[i], es[i].ts)) {
      RunKeeps(ss, es, i);
      InsideStep(ss[i], es[i]);
    }
    forall i | 0 <= i <= k ensures Fresh(ss[i]) {
      FreshUpTo(ss, es, i);
    }
    NoLostWakeup(ss, es, k);
  }

  lemma InsideStep(s: State, e: Event)
    requires Inv(s) && Inside(s, e)
    ensures Steady(s, e) && (e.Die? ==> DeathServes(s, e.ts))
  {
  }

  /** A pipe is first in, first out on every run: what writes put in has been delivered, in order, or is in the ring. */
  lemma FirstInFirstOut(ss: seq<State>, es: seq<Event>, k: nat)
    requires Run(ss, es) && k <= |es|
    ensures ss[k].accepted == ss[k].delivered + ss[k].sh.ring && |ss[k].sh.ring| <= BUF_SIZE
  {
    RunKeeps(ss, es, k);
  }

  // ----- who is there

  /** How often an event happened. */
  function Times(es: seq<Event>, e: Event): (n: nat)
    ensures n <= |es|
  {
    if es == [] then 0 else Times(es[..|es| - 1], e) + if es[|es| - 1] == e then 1 else 0
  }

  /** The counts are those of the readers and writers that have come and not gone. */
  lemma {:induction false} CountsUpTo(ss: seq<State>, es: seq<Event>, k: nat)
    requires Run(ss, es) && k <= |es|
    ensures ss[k].sh.rcnt == Times(es[..k], ReaderComes) - Times(es[..k], ReaderGoes)
    ensures ss[k].sh.wcnt == Times(es[..k], WriterComes) - Times(es[..k], WriterGoes)
  {
    if k > 0 {
      CountsUpTo(ss, es, k - 1);
      assert es[..k][..k - 1] == es[..k - 1];
      assert Follows(ss[k - 1], es[k - 1], ss[k]);
      hide Follows;
      CountsStep(ss[k - 1], es[k - 1], ss[k]);
    }
  }

  lemma CountsStep(s: State, e: Event, s': State)
    requires Follows(s, e, s')
    ensures s'.sh.rcnt == s.sh.rcnt + (if e == ReaderComes then 1 else 0) - (if e == ReaderGoes then 1 else 0)
    ensures s'.sh.wcnt == s.sh.wcnt + (if e == WriterComes then 1 else 0) - (if e == WriterGoes then 1 else 0)
  {
    if Acts(e) {
      var (s0, t, op) := Started(s, e);
      ActCounts(s0, t, op);
    }
  }

  lemma ActCounts(s: State, t: Task, op: Op)
    requires Sane(s) && (op.Writing? ==> op.off <= |op.bytes|)
    ensures RunOp(s, t, op).sh.rcnt == s.sh.rcnt && RunOp(s, t, op).sh.wcnt == s.sh.wcnt
  {
    NotifyKeeps(Copied(s, op).sh);
    var _, _ := RunOpIs(s, t, op);
  }

  /** Once every reader has gone no writer sleeps, and once every writer has gone no reader does. */
  lemma AllGone(ss: seq<State>, es: seq<Event>, k: nat)
    requires Run(ss, es) && k <= |es|
    ensures Times(es[..k], ReaderComes) == Times(es[..k], ReaderGoes) ==> !WriterSleeps(ss[k])
    ensures Times(es[..k], WriterComes) == Times(es[..k], WriterGoes) ==> !ReaderSleeps(ss[k])
  {
    hide Run, Times;
    CountsUpTo(ss, es, k);
    RunKeeps(ss, es, k);
  }

  // ----- a lost wakeup

  /**
   Reader 1 waits, is woken by the end of a child, finds nothing and waits again; reader 2 waits.  The first byte wakes
   reader 1; the notification for the second is spent on its other entry, and reader 2 sleeps on beside the byte.
   */
  lemma LostWakeup() returns (ss: seq<State>, es: seq<Event>)
    ensures Run(ss, es) && es == [WriterComes, ReaderComes, BeginRead(1, 1), Outside(1), Resume(1), BeginRead(2, 1),
                                  BeginWrite(3, [7]), Resume(1), BeginWrite(3, [8])]
    ensures var s := ss[|es|]; s.sh.woken == {} && s.sh.canr == [2] && s.sh.ring == [8] && Reader(s, 2) && s.sh.wcnt > 0
    ensures !Covered(ss[|es|]) && !Settled(ss[|es|])
  {
    hide Follows, Next, Covered, Settled;
    es := [WriterComes, ReaderComes, BeginRead(1, 1), Outside(1), Resume(1), BeginRead(2, 1),
           BeginWrite(3, [7]), Resume(1), BeginWrite(3, [8])];
    var s1, s2, s3 := FirstWait();
    var s4, s5 := TwiceListed(s3);
    var s6, s7 := FirstByte(s5);
    var s8, s9 := SecondByte(s7);
    ss := [START, s1, s2, s3, s4, s5, s6, s7, s8, s9];
    SleepsOn(s9);
  }

  lemma SleepsOn(s: State)
    requires 2 in s.sh.asleep && Reader(s, 2) && s.sh.ring != [] && s.sh.woken == {}
    ensures !Covered(s) && !Settled(s)
  {
    assert ReaderSleeps(s);
  }

  lemma FirstWait() returns (s1: State, s2: State, s3: State)
    ensures Follows(START, WriterComes, s1) && Follows(s1, ReaderComes, s2) && Follows(s2, BeginRead(1, 1), s3)
    ensures s3 == State(Shared([], [1], [], 1, 1, {1}, {}), map[1 := Reading(1)], [], [])
  {
    s1 := START.(sh := START.sh.(wcnt := 1));
    s2 := s1.(sh := s1.sh.(rcnt := 1));
    s3 := s2.(sh := s2.sh.(canr := [1], asleep := {1}), ops := map[1 := Reading(1)]);
    assert Next(s2, BeginRead(1, 1)) == s3;
  }

  /** Reader 1 gets on the list twice. */
  lemma TwiceListed(s3: State) returns (s4: State, s5: State)
    requires s3 == State(Shared([], [1], [], 1, 1, {1}, {}), map[1 := Reading(1)], [], [])
    ensures Follows(s3, Outside(1), s4) && Follows(s4, Resume(1), s5)
    ensures s5 == State(Shared([], [1, 1], [], 1, 1, {1}, {}), map[1 := Reading(1)], [], [])
  {
    s4 := s3.(sh := s3.sh.(asleep := {}, woken := {1}));
    s5 := s3.(sh := s3.sh.(canr := [1, 1]));
    assert Next(s4, Resume(1)) == s5;
  }

  /** Reader 2 waits as well, and the first byte goes to reader 1. */
  lemma FirstByte(s5: State) returns (s6: State, s7: State)
    requires s5 == State(Shared([], [1, 1], [], 1, 1, {1}, {}), map[1 := Reading(1)], [], [])
    ensures Follows(s5, BeginRead(2, 1), s6) && Follows(s6, BeginWrite(3, [7]), s7)
    ensures s7 == State(Shared([7], [1, 2], [], 1, 1, {2}, {1}), map[1 := Reading(1), 2 := Reading(1)], [7], [])
  {
    s6 := s5.(sh := s5.sh.(canr := [1, 1, 2], asleep := {1, 2}), ops := map[1 := Reading(1), 2 := Reading(1)]);
    assert Next(s5, BeginRead(2, 1)) == s6;
    s7 := s6.(sh := s6.sh.(ring := [7], canr := [1, 2], asleep := {2}, woken := {1}), accepted := [7]);
    assert Next(s6, BeginWrite(3, [7])) == s7;
  }

  /** The second byte's notification finds reader 1 awake. */
  lemma SecondByte(s7: State) returns (s8: State, s9: State)
    requires s7 == State(Shared([7], [1, 2], [], 1, 1, {2}, {1}), map[1 := Reading(1), 2 := Reading(1)], [7], [])
    ensures Follows(s7, Resume(1), s8) && Follows(s8, BeginWrite(3, [8]), s9)
    ensures s9 == State(Shared([8], [2], [], 1, 1, {2}, {}), map[2 := Reading(1)], [7, 8], [7])
  {
    s8 := s7.(sh := s7.sh.(ring := [], woken := {}), ops := map[2 := Reading(1)], delivered := [7]);
    assert Next(s7, Resume(1)) == s8;
    s9 := s8.(sh := s8.sh.(ring := [8], canr := [2]), accepted := [7, 8]);
    assert Next(s8, BeginWrite(3, [8])) == s9;
  }

  /**
   Readers 1 and 2 wait, a byte wakes reader 1, and reader 1 dies before it runs.  Every notification went to a task
   asleep at the head of its list, and yet reader 2 sleeps on beside the byte.
   */
  lemma LostToWoken() returns (ss: seq<State>, es: seq<Event>)
    ensures Run(ss, es)
    ensures es == [WriterComes, ReaderComes, BeginRead(1, 1), BeginRead(2, 1), BeginWrite(3, [7]), Die({1})]
    ensures var s := ss[|es|]; s.sh.woken == {} && s.sh.canr == [2] && s.sh.ring == [7] && Reader(s, 2) && s.sh.wcnt > 0
    ensures !Covered(ss[|es|]) && !Settled(ss[|es|])
    ensures forall k :: 0 <= k < |es| ==> Steady(ss[k], es[k])
  {
    hide Follows, Next, Covered, Settled;
    es := [WriterComes, ReaderComes, BeginRead(1, 1), BeginRead(2, 1), BeginWrite(3, [7]), Die({1})];
    var s1, s2, s3 := FirstWait();
    var s4, s5, s6 := WokenDies(s3);
    ss := [START, s1, s2, s3, s4, s5, s6];
    SleepsOn(s6);
  }

  lemma WokenDies(s3: State) returns (s4: State, s5: State, s6: State)
    requires s3 == State(Shared([], [1], [], 1, 1, {1}, {}), map[1 := Reading(1)], [], [])
    ensures Follows(s3, BeginRead(2, 1), s4) && Follows(s4, BeginWrite(3, [7]), s5) && Follows(s5, Die({1}), s6)
    ensures Steady(s5, Die({1}))
    ensures s6 == State(Shared([7], [2], [], 1, 1, {2}, {}), map[2 := Reading(1)], [7], [])
  {
    s4 := s3.(sh := s3.sh.(canr := [1, 2], asleep := {1, 2}), ops := map[1 := Reading(1), 2 := Reading(1)]);
    assert Next(s3, BeginRead(2, 1)) == s4;
    s5 := s4.(sh := s4.sh.(ring := [7], canr := [2], asleep := {2}, woken := {1}), accepted := [7]);
    assert Next(s4, BeginWrite(3, [7])) == s5;
    s6 := s5.(sh := s5.sh.(woken := {}), ops := map[2 := Reading(1)]);
    assert Next(s5, Die({1})) == s6;
  }

  /** Reader 1 waits and dies, reader 2 waits; the notification for a byte is spent on the dead reader's entry. */
  lemma LostToDead() returns (ss: seq<State>, es: seq<Event>)
    ensures Run(ss, es)
    ensures es == [WriterComes, ReaderComes, BeginRead(1, 1), Die({1}), BeginRead(2, 1), BeginWrite(3, [7])]
    ensures var s := ss[|es|]; s.sh.woken == {} && s.sh.canr == [2] && s.sh.ring == [7] && Reader(s, 2) && s.sh.wcnt > 0
    ensures !Covered(ss[|es|]) && !Settled(ss[|es|])
  {
    hide Follows, Next, Covered, Settled;
    es := [WriterComes, ReaderComes, BeginRead(1, 1), Die({1}), BeginRead(2, 1), BeginWrite(3, [7])];
    var s1, s2, s3 := FirstWait();
    var s4, s5, s6 := SleeperDies(s3);
    ss := [START, s1, s2, s3, s4, s5, s6];
    SleepsOn(s6);
  }

  lemma SleeperDies(s3: State) returns (s4: State, s5: State, s6: State)
    requires s3 == State(Shared([], [1], [], 1, 1, {1}, {}), map[1 := Reading(1)], [], [])
    ensures Follows(s3, Die({1}), s4) && Follows(s4, BeginRead(2, 1), s5) && Follows(s5, BeginWrite(3, [7]), s6)
    ensures s6 == State(Shared([7], [2], [], 1, 1, {2}, {}), map[2 := Reading(1)], [7], [])
  {
    s4 := s3.(sh := s3.sh.(asleep := {}), ops := map[]);
    assert Next(s3, Die({1})) == s4;
    s5 := s4.(sh := s4.sh.(canr := [1, 2], asleep := {2}), ops := map[2 := Reading(1)]);
    assert Next(s4, BeginRead(2, 1)) == s5;
    s6 := s5.(sh := s5.sh.(ring := [7], canr := [2]), accepted := [7]);
    assert Next(s5, BeginWrite(3, [7])) == s6;
  }

  /** A read for something returns nothing only at the end of the pipe; a write returns short only without readers. */
  lemma ShortReturns(s: Shared, t: Task, want: nat, rest: seq<Byte>)
    requires |s.ring| <= BUF_SIZE && want > 0
    ensures ReadStep(s, t, 0, want).1 == 0 && ReadStep(s, t, 0, want).2.Returns? <==> s.ring == [] && s.wcnt == 0
    ensures WriteStep(s, t, rest).1 < |rest| && WriteStep(s, t, rest).2.Returns? <==>
            |s.ring| + |rest| > BUF_SIZE && s.rcnt == 0
  {
  }

  /** A read takes all it wants or all there is, a write leaves nothing over or fills the ring. */
  lemma Greedy(s: Shared, t: Task, want: nat, rest: seq<Byte>)
    requires |s.ring| <= BUF_SIZE
    ensures var (s', n, _) := ReadStep(s, t, 0, want); n <= want && (n < want ==> s'.ring == [])
    ensures var (s', n, _) := WriteStep(s, t, rest); n <= |rest| && (n < |rest| ==> |s'.ring| == BUF_SIZE)
    ensures ReadStep(s, t, 0, want).2.Waits? <==> want > 0 && s.ring == [] && s.wcnt > 0
    ensures WriteStep(s, t, rest).2.Waits? <==> |s.ring| + |rest| > BUF_SIZE && s.rcnt > 0
  {
    hide Shared.NotifyR, Shared.NotifyW, Shared.TryWakeup;
    var n, m := Min(want, |s.ring|), Min(|rest|, BUF_SIZE - |s.ring|);
    NotifyKeeps(s.(ring := s.ring[n..]));
    NotifyKeeps(s.(ring := s.ring + rest[..m]));
  }

  /** The list after its head has been notified, if it is. */
  function Shorter(ts: seq<Task>, notified: bool): seq<Task> { if notified && ts != [] then ts[1..] else ts }

  /** A reader that waits is last on its list, and a notification goes to whoever has been on a list longest. */
  lemma ReadInTurn(s: Shared, t: Task, want: nat)
    requires |s.ring| <= BUF_SIZE
    ensures var (r, _, o) := ReadStep(s, t, 0, want);
            && r.canr == (if o.Waits? then s.canr + [t] else Shorter(s.canr, r.ring != []))
            && r.canw == Shorter(s.canw, |r.ring| < BUF_SIZE)
            && (|r.ring| < BUF_SIZE && s.canw != [] && s.canw[0] != t ==> s.canw[0] !in r.asleep)
  {
    var s1 := s.(ring := s.ring[Min(want, |s.ring|)..]);
    TryWakeupIs(s1);
    hide Shared.TryWakeup;
  }

  lemma WriteInTurn(s: Shared, t: Task, rest: seq<Byte>)
    requires |s.ring| <= BUF_SIZE
    ensures var (w, _, o) := WriteStep(s, t, rest);
            && w.canw == (if o.Waits? then s.canw + [t] else Shorter(s.canw, |w.ring| < BUF_SIZE))
            && w.canr == Shorter(s.canr, w.ring != [])
            && (w.ring != [] && s.canr != [] && s.canr[0] != t ==> s.canr[0] !in w.asleep)
  {
    var s1 := s.(ring := s.ring + rest[..Min(|rest|, BUF_SIZE - |s.ring|)]);
    TryWakeupIs(s1);
    hide Shared.TryWakeup;
  }

  /** An interrupted write goes on where it stopped: what has been accepted of it is what it has got past. */
  lemma WriteGoesOn(s: State, t: Task, bytes: seq<Byte>, off: nat)
    requires Sane(s) && off <= |bytes| && t !in s.ops
    ensures var s' := RunOp(s, t, Writing(bytes, off));
            var end := if t in s'.ops then s'.ops[t].off else |bytes|;
            && (t in s'.ops ==> s'.ops[t] == Writing(bytes, end))
            && s'.ops - {t} == s.ops && s'.delivered == s.delivered
            && (t in s'.ops || s.sh.rcnt > 0 ==> off <= end <= |bytes| && s'.accepted == s.accepted + bytes[off..end])
  {
    var n := Min(|bytes[off..]|, BUF_SIZE - |s.sh.ring|);
    assert bytes[off..][..n] == bytes[off..off + n];
  }
}
