/**
 The kernel thread scheduler of processor 0: a run queue linked through the threads, a timer tick that wakes
 sleepers and switches to the head of the queue.
 */
module Threads {
  import opened Words

  const MAX_THREADS: nat := 32

  datatype Status = Runnable | Running | Sleeping | Dead

  datatype Thread = Thread(cpu: nat, status: Status, wake: nat)

  /** The threads in order of creation, the run queue, and the current thread; None is the boot thread. */
  datatype Sched = Sched(ts: seq<Thread>, queue: seq<nat>, cur: Option<nat>)

  // ----- the transitions -----

  predicate Due(t: Thread, now: nat) { t.cpu == 0 && t.status.Sleeping? && t.wake <= now }

  /** wake_sleepers from thread i on: those that are due join the queue in order. */
  function WakeFrom(s: Sched, i: nat, now: nat): Sched
    decreases |s.ts| - i
  {
    if i >= |s.ts| then s
    else WakeFrom(if Due(s.ts[i], now) then s.(ts := s.ts[i := s.ts[i].(status := Runnable)], queue := s.queue + [i])
      else s, i + 1, now)
  }

  /** The current thread gives up the processor; if it was running it joins the queue. */
  function Park(s: Sched): Sched {
    if s.cur.Some? && s.cur.value < |s.ts| && s.ts[s.cur.value].status.Running? then
      s.(ts := s.ts[s.cur.value := s.ts[s.cur.value].(status := Runnable)], queue := s.queue + [s.cur.value])
    else s
  }

  /** The head of the queue takes over. */
  function Switch(w: Sched): Sched
    requires w.queue != []
  {
    var next := w.queue[0];
    var p := Park(w.(queue := w.queue[1..]));
    if next < |p.ts| then p.(ts := p.ts[next := p.ts[next].(status := Running)], cur := Some(next)) else p
  }

  /** scheduler_tick: with an empty queue the current thread goes on, whatever its state. */
  function TickStep(s: Sched, now: nat): Sched {
    var w := WakeFrom(s, 0, now);
    if w.queue == [] then w else Switch(w)
  }

  function CreateStep(s: Sched, cpu: nat): Sched {
    if |s.ts| >= MAX_THREADS then s
    else Sched(s.ts + [Thread(cpu, Runnable, 0)], if cpu == 0 then s.queue + [|s.ts|] else s.queue, s.cur)
  }

  function SleepStep(s: Sched, wake: nat): Sched {
    if s.cur.Some? && s.cur.value < |s.ts| then s.(ts :=
      s.ts[s.cur.value := s.ts[s.cur.value].(wake := wake, status := Sleeping)]) else s
  }

  function ExitStep(s: Sched): Sched {
    if s.cur.Some? && s.cur.value < |s.ts| then s.(ts := s.ts[s.cur.value := s.ts[s.cur.value].(status := Dead)]) else s
  }

  datatype Event = Tick(now: nat) | Create(cpu: nat) | Sleep(wake: nat) | Exit

  function Step(s: Sched, e: Event): Sched {
    match e
    case Tick(now) => TickStep(s, now)
    case Create(cpu) => CreateStep(s, cpu)
    case Sleep(wake) => SleepStep(s, wake)
    case Exit => ExitStep(s)
  }

  function Run(s: Sched, es: seq<Event>): Sched
    decreases |es|
  {
    if es == [] then s else Run(Step(s, es[0]), es[1..])
  }

  // ----- the invariant -----

  predicate Waiting(s: Sched, t: nat) { t < |s.ts| && s.ts[t].cpu == 0 && s.ts[t].status.Runnable? }

  /** The queue holds exactly the runnable threads of processor 0, each once; at most the current one runs. */
  ghost predicate Inv(s: Sched) {
    && (forall t: nat :: t in s.queue <==> Waiting(s, t))
    && (forall i, j :: 0 <= i < j < |s.queue| ==> s.queue[i] != s.queue[j])
    && (s.cur.Some? ==> s.cur.value < |s.ts| && s.ts[s.cur.value].cpu == 0 && s.cur.value !in s.queue)
    && (forall t :: 0 <= t < |s.ts| && s.ts[t].cpu == 0 && s.ts[t].status.Running? ==> s.cur == Some(t))
  }

  /** While sleepers wake, the current thread may be among them. */
  ghost predicate Half(s: Sched) {
    && (forall t: nat :: t in s.queue <==> Waiting(s, t))
    && (forall i, j :: 0 <= i < j < |s.queue| ==> s.queue[i] != s.queue[j])
    && (s.cur.Some? ==> s.cur.value < |s.ts| && s.ts[s.cur.value].cpu == 0)
    && (forall t :: 0 <= t < |s.ts| && s.ts[t].cpu == 0 && s.ts[t].status.Running? ==> s.cur == Some(t))
  }

  lemma {:induction false} WakeHalf(s: Sched, i: nat, now: nat)
    requires Half(s)
    ensures var w := WakeFrom(s, i, now);
      && Half(w) && |w.ts| == |s.ts| && w.cur == s.cur && s.queue <= w.queue
      && (forall t :: 0 <= t < |s.ts| ==>
         w.ts[t] == if i <= t && Due(s.ts[t], now) then s.ts[t].(status := Runnable) else s.ts[t])
    decreases |s.ts| - i
  {
    if i < |s.ts| {
      var s1 := if Due(s.ts[i], now) then s.(ts := s.ts[i := s.ts[i].(status := Runnable)], queue := s.queue + [i])
        else s;
      if Due(s.ts[i], now) {
        assert i !in s.queue;
        forall t: nat ensures t in s1.queue <==> Waiting(s1, t) {
          assert t in s1.queue <==> t in s.queue || t == i;
          assert t in s.queue <==> Waiting(s, t);
        }
      }
      WakeHalf(s1, i + 1, now);
    }
  }

  /** Taking the head off the queue and making it the running thread. */
  lemma TickInv(s: Sched, now: nat)
    requires Inv(s)
    ensures Inv(TickStep(s, now))
  {
    hide WakeFrom;
    WakeHalf(s, 0, now);
    var w := WakeFrom(s, 0, now);
    if w.queue == [] {
      assert w.cur.Some? ==> w.cur.value !in w.queue;
    } else {
      SwitchInv(w);
    }
  }

  /** The queue holds the runnable threads but one. */
  ghost predicate Without(s: Sched, next: nat) {
    && Waiting(s, next) && (forall t: nat :: t in s.queue <==> Waiting(s, t) && t != next)
    && (forall i, j :: 0 <= i < j < |s.queue| ==> s.queue[i] != s.queue[j])
  }

  lemma HeadOff(w: Sched)
    requires Half(w) && w.queue != []
    ensures Without(w.(queue := w.queue[1..]), w.queue[0])
  {
    var next, q := w.queue[0], w.queue[1..];
    assert next in w.queue && Waiting(w, next);
    forall t: nat ensures t in q <==> Waiting(w, t) && t != next {
      assert t in w.queue <==> Waiting(w, t);
      assert t in w.queue <==> t == next || t in q;
      if t in q { var i :| 0 <= i < |q| && q[i] == t; assert w.queue[i + 1] == t; }
    }
  }

  lemma ParkOk(q: Sched, next: nat)
    requires Without(q, next) && (q.cur.Some? ==> q.cur.value < |q.ts| && q.ts[q.cur.value].cpu == 0)
    requires forall t :: 0 <= t < |q.ts| && q.ts[t].cpu == 0 && q.ts[t].status.Running? ==> q.cur == Some(t)
    ensures Without(Park(q), next) && |Park(q).ts| == |q.ts|
    ensures forall t :: 0 <= t < |q.ts| && Park(q).ts[t].cpu == 0 ==> !Park(q).ts[t].status.Running?
  {
    var p := Park(q);
    forall t: nat ensures t in p.queue <==> Waiting(p, t) && t != next {
      assert t in q.queue <==> Waiting(q, t) && t != next;
      assert p.queue != q.queue ==> (t in p.queue <==> t in q.queue || q.cur == Some(t));
    }
    if p != q { assert q.cur.value !in q.queue; }
  }

  lemma SwitchInv(w: Sched)
    requires Half(w) && w.queue != []
    ensures Inv(Switch(w))
  {
    hide Park;
    var next := w.queue[0];
    HeadOff(w);
    ParkOk(w.(queue := w.queue[1..]), next);
    var p, s := Park(w.(queue := w.queue[1..])), Switch(w);
    forall t: nat ensures t in s.queue <==> Waiting(s, t) {
      assert t in p.queue <==> Waiting(p, t) && t != next;
    }
  }

  lemma CreateInv(s: Sched, cpu: nat)
    requires Inv(s)
    ensures Inv(CreateStep(s, cpu))
  {
    var r := CreateStep(s, cpu);
    assert |s.ts| !in s.queue by { assert !Waiting(s, |s.ts|); }
    forall t: nat ensures t in r.queue <==> Waiting(r, t) {
      assert t in s.queue <==> Waiting(s, t);
      assert r.queue != s.queue ==> (t in r.queue <==> t in s.queue || t == |s.ts|);
    }
  }

  lemma StopInv(s: Sched, wake: nat)
    requires Inv(s)
    ensures Inv(SleepStep(s, wake)) && Inv(ExitStep(s))
  {
    forall t: nat ensures (t in s.queue <==> Waiting(SleepStep(s, wake), t))
      && (t in s.queue <==> Waiting(ExitStep(s), t)) {
      assert t in s.queue <==> Waiting(s, t);
    }
  }

  lemma StepInv(s: Sched, e: Event)
    requires Inv(s)
    ensures Inv(Step(s, e))
  {
    match e
    case Tick(now) => TickInv(s, now);
    case Create(cpu) => CreateInv(s, cpu);
    case Sleep(wake) => StopInv(s, wake);
    case Exit => StopInv(s, 0);
  }

  lemma {:induction false} RunInv(s: Sched, es: seq<Event>)
    requires Inv(s)
    ensures Inv(Run(s, es))
    decreases |es|
  {
    if es != [] {
      StepInv(s, es[0]);
      RunInv(Step(s, es[0]), es[1..]);
    }
  }

  // ----- how long a thread waits -----

  /** Every event but a tick leaves the queue as a prefix; a tick takes its head. */
  lemma QueueStep(s: Sched, e: Event)
    requires Inv(s)
    ensures !e.Tick? ==> s.queue <= Step(s, e).queue && Step(s, e).cur == s.cur
    ensures e.Tick? && s.queue != [] ==> s.queue[1..] <= Step(s, e).queue && Step(s, e).cur == Some(s.queue[0])
  {
    if e.Tick? {
      hide WakeFrom;
      WakeHalf(s, 0, e.now);
      if s.queue != [] {
        var w := WakeFrom(s, 0, e.now);
        assert w.queue[0] == s.queue[0] && w.queue[0] in w.queue && Waiting(w, w.queue[0]);
        assert s.queue[1..] <= w.queue[1..];
      }
    }
  }

  function Ticks(es: seq<Event>): nat {
    if es == [] then 0 else (if es[0].Tick? then 1 else 0) + Ticks(es[1..])
  }

  /**
   The thread at position k of the queue is dispatched by exactly the (k + 1)-st tick, whatever happens in between.
   */
  lemma {:induction false} BoundedWait(s: Sched, es: seq<Event>, now: nat, k: nat)
    requires Inv(s) && k < |s.queue| && Ticks(es) == k
    ensures var t := s.queue[k]; var r := Run(s, es);
      r.queue != [] && r.queue[0] == t && Step(r, Tick(now)).cur == Some(t)
    decreases |es|
  {
    if es == [] {
      QueueStep(s, Tick(now));
    } else {
      StepInv(s, es[0]);
      QueueStep(s, es[0]);
      var s1 := Step(s, es[0]);
      if es[0].Tick? {
        assert s1.queue[k - 1] == s.queue[1..][k - 1];
        BoundedWait(s1, es[1..], now, k - 1);
      } else {
        BoundedWait(s1, es[1..], now, k);
      }
    }
  }

  /** A sleeper that is not current stays asleep until a tick at or after its wake time, and that tick wakes it. */
  lemma SleeperStep(s: Sched, e: Event, t: nat)
    requires Inv(s) && t < |s.ts| && s.ts[t].cpu == 0 && s.ts[t].status.Sleeping? && s.cur != Some(t)
    ensures t < |Step(s, e).ts|
    ensures e.Tick? && s.ts[t].wake <= e.now ==> Step(s, e).ts[t].status.Runnable? || Step(s, e).cur == Some(t)
    ensures !(e.Tick? && s.ts[t].wake <= e.now) ==> Step(s, e).ts[t] == s.ts[t] && Step(s, e).cur != Some(t)
  {
    if e.Tick? {
      hide WakeFrom;
      WakeHalf(s, 0, e.now);
      var w := WakeFrom(s, 0, e.now);
      assert t in w.queue <==> Waiting(w, t);
      if w.queue != [] { assert Waiting(w, w.queue[0]) by { assert w.queue[0] in w.queue; } }
    }
  }

  /** Until its wake time nothing happens to a sleeping thread that it does not do itself. */
  ghost predicate Quiet(s: Sched, es: seq<Event>, t: nat, wake: nat)
    decreases |es|
  {
    es == [] || ((es[0].Tick? ==> es[0].now < wake) && (s.cur == Some(t) ==> !es[0].Sleep? && !es[0].Exit?)
                 && Quiet(Step(s, es[0]), es[1..], t, wake))
  }

  lemma SleeperStays(s: Sched, e: Event, t: nat)
    requires Inv(s) && t < |s.ts| && s.ts[t].cpu == 0 && s.ts[t].status.Sleeping?
    requires (e.Tick? ==> e.now < s.ts[t].wake) && (s.cur == Some(t) ==> !e.Sleep? && !e.Exit?)
    ensures t < |Step(s, e).ts| && Step(s, e).ts[t] == s.ts[t] && (s.cur != Some(t) ==> Step(s, e).cur != Some(t))
  {
    if e.Tick? {
      hide WakeFrom;
      WakeHalf(s, 0, e.now);
      var w := WakeFrom(s, 0, e.now);
      if w.queue != [] { assert Waiting(w, w.queue[0]) by { assert w.queue[0] in w.queue; } }
    }
  }

  /**
   No run makes a sleeping thread runnable before its wake tick, and one that has been switched away from does not
   run before it either; the first tick at or after it makes the thread runnable or runs it.
   */
  lemma {:induction false} SleepsUntil(s: Sched, es: seq<Event>, t: nat, now: nat)
    requires Inv(s) && t < |s.ts| && s.ts[t].cpu == 0 && s.ts[t].status.Sleeping? && Quiet(s, es, t, s.ts[t].wake)
    ensures var r := Run(s, es);
      && t < |r.ts| && r.ts[t] == s.ts[t] && t !in r.queue && (s.cur != Some(t) ==> r.cur != Some(t))
      && (s.cur != Some(t) && s.ts[t].wake <= now ==>
         Step(r, Tick(now)).cur == Some(t) || t in Step(r, Tick(now)).queue)
    decreases |es|
  {
    hide Step;
    if es == [] {
      assert t in s.queue <==> Waiting(s, t);
      if s.cur != Some(t) {
        SleeperStep(s, Tick(now), t);
        StepInv(s, Tick(now));
        SleeperCpu(s, Tick(now), t);
        assert t in Step(s, Tick(now)).queue <==> Waiting(Step(s, Tick(now)), t);
      }
    } else {
      SleeperStays(s, es[0], t);
      StepInv(s, es[0]);
      SleepsUntil(Step(s, es[0]), es[1..], t, now);
    }
  }

  lemma SleeperCpu(s: Sched, e: Event, t: nat)
    requires Inv(s) && t < |s.ts| && e.Tick?
    ensures t < |Step(s, e).ts| && Step(s, e).ts[t].cpu == s.ts[t].cpu
  {
    hide WakeFrom;
    WakeHalf(s, 0, e.now);
  }

  /** A sleep returns at once, without a switch, exactly when no thread is waiting and none is due. */
  lemma SleepWithoutSwitch(s: Sched, wake: nat, now: nat)
    requires Inv(s) && s.cur.Some? && wake > now
    ensures var r := Step(Step(s, Sleep(wake)), Tick(now));
      r.cur == s.cur <==> s.queue == [] && forall t :: 0 <= t < |s.ts| && t != s.cur.value ==> !Due(s.ts[t], now)
  {
    hide WakeFrom;
    StopInv(s, wake);
    var z := Step(s, Sleep(wake));
    WakeHalf(z, 0, now);
    var w := WakeFrom(z, 0, now);
    if w.queue != [] {
      assert Waiting(w, w.queue[0]) by { assert w.queue[0] in w.queue; }
      if w.queue[0] !in s.queue { assert Due(z.ts[w.queue[0]], now); }
    } else {
      forall t | 0 <= t < |s.ts| && t != s.cur.value ensures !Due(s.ts[t], now) {
        assert t !in w.queue && !Waiting(w, t);
      }
    }
  }

  /**
   From the call on: a thread that goes to sleep until a tick and is switched away from is neither queued nor run by
   any run without that tick, and the first tick at or after it queues or runs it.
   */
  lemma SleepHolds(s: Sched, wake: nat, first: nat, es: seq<Event>, now: nat)
    requires Inv(s) && s.cur.Some? && first < wake && Step(Step(s, Sleep(wake)), Tick(first)).cur != s.cur
    requires Quiet(Step(Step(s, Sleep(wake)), Tick(first)), es, s.cur.value, wake)
    ensures var t := s.cur.value; var r := Run(Step(Step(s, Sleep(wake)), Tick(first)), es);
      && t !in r.queue && r.cur != Some(t)
      && (now >= wake ==> Step(r, Tick(now)).cur == Some(t) || t in Step(r, Tick(now)).queue)
  {
    hide TickStep, WakeFrom;
    var t, z := s.cur.value, Step(s, Sleep(wake));
    StopInv(s, wake);
    SleeperStays(z, Tick(first), t);
    StepInv(z, Tick(first));
    SleepsUntil(Step(z, Tick(first)), es, t, now);
  }

  lemma DeadStep(s: Sched, e: Event, t: nat)
    requires Inv(s) && t < |s.ts| && s.ts[t].status.Dead? && s.cur != Some(t)
    ensures t < |Step(s, e).ts| && Step(s, e).ts[t].status.Dead? && Step(s, e).cur != Some(t)
  {
    if e.Tick? {
      hide WakeFrom;
      WakeHalf(s, 0, e.now);
      var w := WakeFrom(s, 0, e.now);
      if w.queue != [] { assert Waiting(w, w.queue[0]) by { assert w.queue[0] in w.queue; } }
    }
  }

  lemma {:induction false} DeadRun(s: Sched, es: seq<Event>, t: nat)
    requires Inv(s) && t < |s.ts| && s.ts[t].status.Dead? && s.cur != Some(t)
    ensures var r := Run(s, es); t < |r.ts| && r.ts[t].status.Dead? && t !in r.queue && r.cur != Some(t)
    decreases |es|
  {
    hide Step;
    if es == [] {
      assert t in s.queue <==> Waiting(s, t);
    } else {
      DeadStep(s, es[0], t);
      StepInv(s, es[0]);
      DeadRun(Step(s, es[0]), es[1..], t);
    }
  }

  /**
   The tick after a thread's end switches away from it exactly when another thread is waiting or due, and from then on
   no run ever queues or runs it again.
   */
  lemma ExitFinal(s: Sched, now: nat, es: seq<Event>)
    requires Inv(s) && s.cur.Some?
    ensures var t := s.cur.value; var z := Step(Step(s, Exit), Tick(now)); var r := Run(z, es);
      && (z.cur != s.cur <==> s.queue != [] || exists i :: 0 <= i < |s.ts| && i != t && Due(s.ts[i], now))
      && (z.cur != s.cur ==> t < |r.ts| && r.ts[t].status.Dead? && t !in r.queue && r.cur != Some(t))
  {
    hide WakeFrom;
    var t, d := s.cur.value, Step(s, Exit);
    StopInv(s, 0);
    WakeHalf(d, 0, now);
    var w := WakeFrom(d, 0, now);
    if w.queue != [] {
      assert Waiting(w, w.queue[0]) by { assert w.queue[0] in w.queue; }
      if w.queue[0] !in s.queue { assert Due(d.ts[w.queue[0]], now); }
    } else {
      forall i | 0 <= i < |s.ts| && i != t ensures !Due(s.ts[i], now) { assert i !in w.queue && !Waiting(w, i); }
    }
    if Step(d, Tick(now)).cur != s.cur {
      StepInv(d, Tick(now));
      DeadAfter(d, now, t);
      DeadRun(Step(d, Tick(now)), es, t);
    }
  }

  lemma DeadAfter(d: Sched, now: nat, t: nat)
    requires Inv(d) && t < |d.ts| && d.ts[t].status.Dead? && Step(d, Tick(now)).cur != Some(t)
    ensures t < |Step(d, Tick(now)).ts| && Step(d, Tick(now)).ts[t].status.Dead?
  {
    hide WakeFrom;
    WakeHalf(d, 0, now);
    var w := WakeFrom(d, 0, now);
    if w.queue != [] { assert Waiting(w, w.queue[0]) by { assert w.queue[0] in w.queue; } }
  }

  // ----- the run queue in place -----

  /** Thread numbers in links are one higher than indices; 0 ends the queue. */
  function LinkOf(q: seq<nat>, i: nat): nat { if i < |q| then q[i] + 1 else 0 }

  predicate LinkAt(next: seq<nat>, q: seq<nat>, i: nat)
    requires i < |q|
  {
    q[i] < |next| && next[q[i]] == LinkOf(q, i + 1)
  }

  /** The links, followed from head, are the queue. */
  ghost predicate Chain(next: seq<nat>, head: nat, q: seq<nat>) {
    && head == LinkOf(q, 0) && (forall i :: 0 <= i < |q| ==> LinkAt(next, q, i))
    && forall i, j :: 0 <= i < j < |q| ==> q[i] != q[j]
  }

  lemma AppendLink(next: seq<nat>, head: nat, q: seq<nat>, t: nat)
    requires Chain(next, head, q) && t < |next| && t !in q && q != []
    ensures LinkAt(next, q, |q| - 1) && Chain(next[t := 0][q[|q| - 1] := t + 1], head, q + [t])
  {
    var n := |q| - 1;
    assert LinkAt(next, q, n);
    var next' := next[t := 0][q[n] := t + 1];
    forall i | 0 <= i <= n + 1 ensures LinkAt(next', q + [t], i) {
      if i <= n { assert LinkAt(next, q, i) && q[i] in q; }
    }
  }

  class Scheduler {
    var ts: seq<Thread>
    var next: seq<nat>
    var head: nat
    var cur: Option<nat>
    ghost var queue: seq<nat>

    ghost function Now(): Sched
      reads this
    {
      Sched(ts, queue, cur)
    }

    ghost predicate Linked()
      reads this
    {
      |next| == |ts| && Chain(next, head, queue)
    }

    constructor ()
      ensures Now() == Sched([], [], None) && Linked() && Inv(Now())
    {
      ts, next, head, cur, queue := [], [], 0, None, [];
    }

    /** enqueue_thread: walk to the tail and link the thread there. */
    method Enqueue(t: nat)
      requires Linked() && t < |next| && t !in queue
      modifies this`next, this`head, this`queue
      ensures Linked() && queue == old(queue) + [t]
    {
      var was := next;
      next := next[t := 0];
      if head == 0 {
        head := t + 1;
        queue := queue + [t];
        return;
      }
      var tail := head - 1; ghost var k := 0;
      assert LinkAt(was, queue, 0);
      while next[tail] != 0
        invariant k < |queue| && tail == queue[k] && tail < |next| && |next| == |ts| && next == was[t := 0]
          && queue == old(queue) && head == old(head)
        invariant LinkAt(was, queue, k)
        decreases |queue| - k
      {
        assert queue[k] in queue;
        assert LinkAt(was, queue, k + 1);
        tail, k := next[tail] - 1, k + 1;
      }
      assert queue[k] in queue;
      AppendLink(was, head, queue, t);
      next := next[tail := t + 1];
      queue := queue + [t];
    }

    /** dequeue_thread */
    method Dequeue() returns (t: Option<nat>)
      requires Linked()
      modifies this`next, this`head, this`queue
      ensures Linked()
      ensures old(queue) == [] ==> t.None? && queue == []
      ensures old(queue) != [] ==> t == Some(old(queue)[0]) && queue == old(queue)[1..]
    {
      if head == 0 { return None; }
      assert LinkAt(next, queue, 0);
      t := Some(head - 1);
      head := next[head - 1];
      next := next[t.value := 0];
      forall i | 0 <= i < |queue| - 1 ensures LinkAt(next, queue[1..], i) {
        assert LinkAt(old(next), queue, i + 1);
      }
      queue := queue[1..];
    }

    method WakeSleepers(now: nat)
      requires Linked() && Half(Now())
      modifies this`ts, this`next, this`head, this`queue
      ensures Linked() && Now() == WakeFrom(old(Now()), 0, now)
    {
      for i := 0 to |ts|
        invariant |ts| == |old(ts)| && Linked() && Half(Now())
          && WakeFrom(Now(), i, now) == WakeFrom(old(Now()), 0, now)
      {
        WakeHalf(Now(), i, now);
        if ts[i].cpu == 0 && ts[i].status.Sleeping? && ts[i].wake <= now {
          assert i !in queue by { assert !Waiting(Now(), i); }
          WakeOne(Now(), i, now);
          ts := ts[i := ts[i].(status := Runnable)];
          Enqueue(i);
        }
      }
    }

    /** scheduler_tick on processor 0; the result is the thread switched to. */
    method TickCall(now: nat) returns (r: Option<nat>)
      requires Linked() && Inv(Now())
      modifies this
      ensures Linked() && Inv(Now()) && Now() == Step(old(Now()), Tick(now))
      ensures r.Some? ==> cur == r
    {
      hide WakeFrom;
      StepInv(Now(), Tick(now));
      WakeHalf(Now(), 0, now);
      WakeSleepers(now);
      ghost var w := Now();
      if w.queue != [] { HeadOff(w); }
      r := Dequeue();
      if r.None? { return; }
      var t := r.value;
      if cur.Some? && ts[cur.value].status.Running? {
        assert cur.value !in queue by { assert !Waiting(w, cur.value); }
        ts := ts[cur.value := ts[cur.value].(status := Runnable)];
        Enqueue(cur.value);
      }
      ts := ts[t := ts[t].(status := Running)];
      cur := Some(t);
    }

    /** thread_sleep before its yield; the boot thread does not sleep. The wake tick is a 64-bit sum. */
    method SleepCall(now: u64, ticks: u64)
      requires Linked() && Inv(Now())
      modifies this`ts
      ensures Linked() && Inv(Now()) && Now() == Step(old(Now()), Sleep(U(now + ticks)))
    {
      var wake := U(now + ticks);
      StepInv(Now(), Sleep(wake));
      if cur.Some? { ts := ts[cur.value := ts[cur.value].(wake := wake, status := Sleeping)]; }
    }

    /** The end of thread_bootstrap before its yield. */
    method ExitCall()
      requires Linked() && Inv(Now())
      modifies this`ts
      ensures Linked() && Inv(Now()) && Now() == Step(old(Now()), Exit)
    {
      StepInv(Now(), Exit);
      if cur.Some? { ts := ts[cur.value := ts[cur.value].(status := Dead)]; }
    }

    method CreateCall(cpu: nat) returns (ok: bool)
      requires Linked() && Inv(Now())
      modifies this
      ensures Linked() && Inv(Now()) && Now() == Step(old(Now()), Create(cpu)) && ok == (|old(ts)| < MAX_THREADS)
    {
      StepInv(Now(), Create(cpu));
      if |ts| >= MAX_THREADS { return false; }
      var t := |ts|;
      assert t !in queue by { assert !Waiting(Now(), t); }
      ts := ts + [Thread(cpu, Runnable, 0)];
      forall i | 0 <= i < |queue| ensures LinkAt(next + [0], queue, i) { assert LinkAt(next, queue, i); }
      next := next + [0];
      if cpu == 0 { Enqueue(t); }
      return true;
    }
  }

  /** One round of the waking loop. */
  lemma WakeOne(s: Sched, i: nat, now: nat)
    requires Half(s) && i < |s.ts| && Due(s.ts[i], now)
    ensures var r := s.(ts := s.ts[i := s.ts[i].(status := Runnable)], queue := s.queue + [i]);
      Half(r) && WakeFrom(s, i, now) == WakeFrom(r, i + 1, now)
  {
    var r := s.(ts := s.ts[i := s.ts[i].(status := Runnable)], queue := s.queue + [i]);
    assert i !in s.queue;
    forall t: nat ensures t in r.queue <==> Waiting(r, t) {
      assert t in r.queue <==> t in s.queue || t == i;
      assert t in s.queue <==> Waiting(s, t);
    }
  }
}
