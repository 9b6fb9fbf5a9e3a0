/**
 Pipes: a ring of 64 bytes shared by readers and writers that wait on two condition variables.

 Kernel code is not preempted, so what a task does between two waits is one step.  `Shared` is what such steps see
 and change; the class runs them on the ring itself.
 */
module Pipe {
  import opened Basics

  const BUF_SIZE: nat := 64
  type Task = nat

  /**
   `asleep` are the tasks asleep in a read or write of this pipe, `woken` those that were and have been made ready but
   have not run since.  Waking a task that is not asleep does nothing.
   */
  datatype Shared = Shared(ring: seq<Byte>, canr: seq<Task>, canw: seq<Task>, rcnt: nat, wcnt: nat,
                           asleep: set<Task>, woken: set<Task>) {
    predicate Full() { |ring| == BUF_SIZE }
    predicate Empty() { ring == [] }

    function Wakeup(t: Task): Shared {
      if t in asleep then this.(asleep := asleep - {t}, woken := woken + {t}) else this
    }

    function WakeupAll(ts: seq<Task>): Shared {
      var up := set t | t in asleep && t in ts;
      this.(asleep := asleep - up, woken := woken + up)
    }

    function NotifyR(): Shared {
      if canr == [] then this else this.(canr := canr[1..]).Wakeup(canr[0])
    }

    function NotifyW(): Shared {
      if canw == [] then this else this.(canw := canw[1..]).Wakeup(canw[0])
    }

    function WaitR(t: Task): Shared { this.(canr := canr + [t], asleep := asleep + {t}) }
    function WaitW(t: Task): Shared { this.(canw := canw + [t], asleep := asleep + {t}) }

    /** A reader or a writer comes or goes; the last to go wakes everyone on the other side. */
    function AddReader(): Shared { this.(rcnt := rcnt + 1) }
    function AddWriter(): Shared { this.(wcnt := wcnt + 1) }

    function DecReader(): Shared
      requires rcnt > 0
    {
      if rcnt == 1 then this.(rcnt := 0, canw := []).WakeupAll(canw) else this.(rcnt := rcnt - 1)
    }

    function DecWriter(): Shared
      requires wcnt > 0
    {
      if wcnt == 1 then this.(wcnt := 0, canr := []).WakeupAll(canr) else this.(wcnt := wcnt - 1)
    }

    function TryWakeup(): Shared {
      var s := if Empty() then this else NotifyR();
      if s.Full() then s else s.NotifyW()
    }
  }

  lemma WakeupNone(s: Shared)
    ensures s.WakeupAll([]) == s
  {
    assert (set t | t in s.asleep && t in []) == {};
  }

  lemma WakeupMore(s: Shared, ts: seq<Task>, i: nat)
    requires i < |ts|
    ensures s.WakeupAll(ts[..i + 1]) == s.WakeupAll(ts[..i]).Wakeup(ts[i])
  {
    var a, b := set t | t in s.asleep && t in ts[..i], set t | t in s.asleep && t in ts[..i + 1];
    assert ts[..i + 1] == ts[..i] + [ts[i]];
    assert b == if ts[i] in s.asleep then a + {ts[i]} else a;
    var x, y := s.WakeupAll(ts[..i]).Wakeup(ts[i]), s.WakeupAll(ts[..i + 1]);
    assert x.asleep == y.asleep && x.woken == y.woken;
  }

  /** How a step of a read or write ends: waiting for the other side, or with a result. */
  datatype Outcome = Waits | Returns

  function Min(a: int, b: int): int { if a < b then a else b }

  /** A writer with `rest` left to write runs until it waits or returns; n bytes go into the ring. */
  function WriteStep(s: Shared, t: Task, rest: seq<Byte>): (r: (Shared, nat, Outcome))
    requires |s.ring| <= BUF_SIZE
  {
    var n := Min(|rest|, BUF_SIZE - |s.ring|);
    var s1 := s.(ring := s.ring + rest[..n]);
    if n < |rest| && s.rcnt > 0 then
      (s1.NotifyR().WaitW(t), n, Waits)
    else (s1.TryWakeup(), n, Returns)
  }

  /** A reader that has `got` bytes and wants `want` more runs until it waits or returns; n bytes leave the ring. */
  function ReadStep(s: Shared, t: Task, got: nat, want: nat): (r: (Shared, nat, Outcome))
  {
    var n := Min(want, |s.ring|);
    var s1 := s.(ring := s.ring[n..]);
    if n < want && s.wcnt > 0 && got + n == 0 then
      (s1.NotifyW().WaitR(t), n, Waits)
    else (s1.TryWakeup(), n, Returns)
  }

  class Pipe {
    const buf: array<Byte>
    var head: nat
    var tail: nat
    var canr: seq<Task>
    var canw: seq<Task>
    var wcnt: nat
    var rcnt: nat
    var asleep: set<Task>
    var woken: set<Task>

    ghost predicate Valid()
      reads this`head, this`tail
    {
      buf.Length == BUF_SIZE && head <= tail <= head + BUF_SIZE
    }

    /** The bytes in the ring, oldest first. */
    ghost function Contents(): (c: seq<Byte>)
      requires Valid()
      reads this`head, this`tail, buf
      ensures |c| == tail - head
    {
      var h, n := head, tail - head;
      seq(n, i requires 0 <= i < n && buf.Length == BUF_SIZE reads buf => buf[(h + i) % BUF_SIZE])
    }

    ghost function View(): Shared
      requires Valid()
      reads this, buf
    {
      Shared(Contents(), canr, canw, rcnt, wcnt, asleep, woken)
    }

    constructor ()
      ensures Valid() && fresh(buf) && View() == Shared([], [], [], 0, 0, {}, {})
    {
      buf := new Byte[BUF_SIZE](_ => 0);
      head, tail, canr, canw, wcnt, rcnt, asleep, woken := 0, 0, [], [], 0, 0, {}, {};
    }

    /** The scheduler makes a task ready again; a task that is not asleep is left alone. */
    method Wakeup(t: Task)
      requires Valid()
      modifies this`asleep, this`woken
      ensures Valid() && View() == old(View()).Wakeup(t)
    {
      if t in asleep {
        asleep, woken := asleep - {t}, woken + {t};
      }
    }

    method NotifyR()
      requires Valid()
      modifies this`canr, this`asleep, this`woken
      ensures Valid() && View() == old(View()).NotifyR()
    {
      if canr != [] {
        var t := canr[0];
        canr := canr[1..];
        Wakeup(t);
      }
    }

    method NotifyW()
      requires Valid()
      modifies this`canw, this`asleep, this`woken
      ensures Valid() && View() == old(View()).NotifyW()
    {
      if canw != [] {
        var t := canw[0];
        canw := canw[1..];
        Wakeup(t);
      }
    }

    method TryWakeup()
      requires Valid()
      modifies this`canr, this`canw, this`asleep, this`woken
      ensures Valid() && View() == old(View()).TryWakeup()
    {
      if head != tail {
        NotifyR();
      }
      if tail != head + BUF_SIZE {
        NotifyW();
      }
    }

    method AddReader()
      requires Valid()
      modifies this`rcnt
      ensures Valid() && View() == old(View()).AddReader()
    {
      rcnt := rcnt + 1;
    }

    method AddWriter()
      requires Valid()
      modifies this`wcnt
      ensures Valid() && View() == old(View()).AddWriter()
    {
      wcnt := wcnt + 1;
    }

    method DecReader()
      requires Valid() && rcnt > 0
      modifies this`rcnt, this`canw, this`asleep, this`woken
      ensures Valid() && View() == old(View()).DecReader()
    {
      rcnt := rcnt - 1;
      if rcnt == 0 {
        NotifyAllW();
      }
    }

    method DecWriter()
      requires Valid() && wcnt > 0
      modifies this`wcnt, this`canr, this`asleep, this`woken
      ensures Valid() && View() == old(View()).DecWriter()
    {
      wcnt := wcnt - 1;
      if wcnt == 0 {
        NotifyAllR();
      }
    }

    method NotifyAllW()
      requires Valid()
      modifies this`canw, this`asleep, this`woken
      ensures Valid() && View() == old(View().(canw := []).WakeupAll(canw))
    {
      hide Contents;
      ghost var v := View();
      WakeupNone(v);
      for i := 0 to |canw|
        invariant canw == old(canw) && View() == v.WakeupAll(canw[..i])
      {
        WakeupMore(v, canw, i);
        Wakeup(canw[i]);
      }
      assert canw[..|canw|] == canw;
      canw := [];
    }

    method NotifyAllR()
      requires Valid()
      modifies this`canr, this`asleep, this`woken
      ensures Valid() && View() == old(View().(canr := []).WakeupAll(canr))
    {
      hide Contents;
      ghost var v := View();
      WakeupNone(v);
      for i := 0 to |canr|
        invariant canr == old(canr) && View() == v.WakeupAll(canr[..i])
      {
        WakeupMore(v, canr, i);
        Wakeup(canr[i]);
      }
      assert canr[..|canr|] == canr;
      canr := [];
    }

    /** Copy bytes[off..off + n] to the free end of the ring, which must not wrap for them. */
    method Append(bytes: seq<Byte>, off: nat, n: nat)
      requires Valid() && off + n <= |bytes|
      requires n <= head + BUF_SIZE - tail && n <= BUF_SIZE - tail % BUF_SIZE
      modifies buf, this`tail
      ensures Valid() && Contents() == old(Contents()) + bytes[off..off + n]
    {
      var w := tail % BUF_SIZE;
      forall i | 0 <= i < n {
        buf[w + i] := bytes[off + i];
      }
      tail := tail + n;
      forall i | 0 <= i < tail - head
        ensures Contents()[i] == (old(Contents()) + bytes[off..off + n])[i]
      {
        RingSlot(old(tail), head, i, n);
      }
      assert |Contents()| == |old(Contents()) + bytes[off..off + n]|;
    }

    /** Take the first n bytes, which must not wrap. */
    method Take(n: nat) returns (bytes: seq<Byte>)
      requires Valid() && n <= tail - head && n <= BUF_SIZE - head % BUF_SIZE
      modifies this`head
      ensures Valid() && bytes == old(Contents())[..n] && Contents() == old(Contents())[n..]
    {
      var r := head % BUF_SIZE;
      bytes := buf[r..r + n];
      head := head + n;
    }

    /** A write, from its start or from a wakeup on, up to its next wait or its return. */
    method Write(t: Task, bytes: seq<Byte>, start: nat) returns (off: nat, outcome: Outcome)
      requires Valid() && start <= |bytes|
      modifies this`tail, this`canr, this`canw, this`asleep, this`woken, buf
      ensures Valid() && start <= off <= |bytes|
      ensures (View(), off - start, outcome) == WriteStep(old(View()), t, bytes[start..])
    {
      hide Contents, Shared.NotifyR, Shared.TryWakeup;
      off := start;
      while off < |bytes|
        invariant Valid() && start <= off <= |bytes|
        invariant canr == old(canr) && canw == old(canw) && asleep == old(asleep) && woken == old(woken)
        invariant Contents() == old(Contents()) + bytes[start..off]
        decreases |bytes| - off
      {
        var wlen := Min(Min(head + BUF_SIZE - tail, BUF_SIZE - tail % BUF_SIZE), |bytes| - off);
        Stretch(head + BUF_SIZE - tail, tail, |bytes| - off);
        if wlen == 0 {
          if rcnt == 0 {
            break;
          }
          assert bytes[start..][..off - start] == bytes[start..off];
          assert off - start == BUF_SIZE - |old(Contents())|;
          assert View() == old(View()).(ring := old(Contents()) + bytes[start..][..off - start]);
          NotifyR();
          ghost var v := View();
          canw, asleep := canw + [t], asleep + {t};
          assert View() == v.WaitW(t);
          return off, Waits;
        }
        ghost var c := Contents();
        Append(bytes, off, wlen);
        assert bytes[start..off + wlen] == bytes[start..off] + bytes[off..off + wlen];
        off := off + wlen;
      }
      assert bytes[start..][..off - start] == bytes[start..off];
      TryWakeup();
      outcome := Returns;
    }

    /** A read, from its start or from a wakeup on, up to its next wait or its return. */
    method Read(t: Task, len: nat, got: nat) returns (bytes: seq<Byte>, outcome: Outcome)
      requires Valid() && got <= len
      modifies this`head, this`canr, this`canw, this`asleep, this`woken
      ensures Valid() && got + |bytes| <= len
      ensures (View(), |bytes|, outcome) == ReadStep(old(View()), t, got, len - got)
      ensures bytes == old(Contents())[..|bytes|]
    {
      hide Contents, Shared.NotifyW, Shared.TryWakeup;
      var off := got;
      bytes := [];
      while off < len
        invariant Valid() && got <= off <= len
        invariant canr == old(canr) && canw == old(canw) && asleep == old(asleep) && woken == old(woken)
        invariant off - got == |bytes| <= |old(Contents())|
        invariant bytes == old(Contents())[..off - got] && Contents() == old(Contents())[off - got..]
        decreases len - off
      {
        var rlen := Min(Min(tail - head, BUF_SIZE - head % BUF_SIZE), len - off);
        Stretch(tail - head, head, len - off);
        if rlen == 0 {
          if wcnt == 0 || off > 0 {
            break;
          }
          NotifyW();
          canr, asleep := canr + [t], asleep + {t};
          return bytes, Waits;
        }
        var more := Take(rlen);
        bytes := bytes + more;
        off := off + rlen;
      }
      TryWakeup();
      outcome := Returns;
    }
  }

  /** How far a copy goes: not past what there is, the end of the array, or what is wanted. */
  lemma Stretch(there: nat, at: nat, want: nat)
    requires want > 0
    ensures var n := Min(Min(there, BUF_SIZE - at % BUF_SIZE), want);
            0 <= n <= there && n <= BUF_SIZE - at % BUF_SIZE && n <= want && (n == 0 <==> there == 0)
  {
  }

  /** Positions of the ring after appending n bytes at tail. */
  lemma RingSlot(tail: nat, head: nat, i: nat, n: nat)
    requires head <= tail <= head + BUF_SIZE && n <= head + BUF_SIZE - tail && n <= BUF_SIZE - tail % BUF_SIZE
    requires i < tail + n - head
    ensures i < tail - head ==> !(tail % BUF_SIZE <= (head + i) % BUF_SIZE < tail % BUF_SIZE + n)
    ensures i >= tail - head ==> (head + i) % BUF_SIZE == tail % BUF_SIZE + (i - (tail - head))
  {
  }
}
