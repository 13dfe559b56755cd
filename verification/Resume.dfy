/** Where a process goes on after a yield, an interrupt or its creation, whoever gives it the processor. */
module Resume {
  import opened Words
  import opened Processes

  /** A ready process that is not given the processor stays as it is. */
  lemma ReadyStays(s: Sys, e: Event, j: nat)
    requires Inv(s) && !s.halted && 1 <= j < |s.ps| && s.ps[j].status.Ready? && s.cur != j && Step(s, e).0.cur != j
    ensures var t := Step(s, e).0; !t.halted && j < |t.ps| && t.ps[j] == s.ps[j]
  {
    hide NextReady;
    assert WaitOk(s.ps, j);
    NextReadyIs(s.ps, s.cur);
    if e.Exit? {
      var ps := Release(MarkExited(s.ps, s.cur, e.code), s.cur);
      NextReadyIs(ps, s.cur);
      ghost var ready := Candidate(ps, s.cur, j);
    }
  }

  /** Process j is not given the processor during the events. */
  ghost predicate Passed(s: Sys, es: seq<Event>, j: nat)
    requires s.cur < |s.ps|
    decreases |es|
  {
    es == [] || (var t := Step(s, es[0]).0; t.cur < |t.ps| && t.cur != j && Passed(t, es[1..], j))
  }

  lemma {:induction false} ReadyRun(s: Sys, es: seq<Event>, j: nat)
    requires Inv(s) && !s.halted && 1 <= j < |s.ps| && s.ps[j].status.Ready? && s.cur != j && Passed(s, es, j)
    ensures var t := Run(s, es); Inv(t) && !t.halted && t.cur != j && j < |t.ps| && t.ps[j] == s.ps[j]
    decreases |es|
  {
    hide Step, WaitOk;
    if es != [] {
      StepInv(s, es[0]);
      ReadyStays(s, es[0], j);
      ReadyRun(Step(s, es[0]).0, es[1..], j);
    }
  }

  /** The event that gives a ready process the processor: the timer uses its frame, everything else what it saved. */
  lemma Entered(s: Sys, e: Event, j: nat)
    requires Inv(s) && !s.halted && 1 <= j < |s.ps| && s.ps[j].status.Ready? && s.cur != j && Step(s, e).0.cur == j
    ensures var p := s.ps[j];
      Step(s, e).1 == if e.Tick? then Enter(j, TickTarget(p).0, TickTarget(p).1, 0)
        else Enter(j, SavedRip(p), SavedRsp(p), 0)
  {
    hide NextReady;
    assert WaitOk(s.ps, j);
    NextReadyIs(s.ps, s.cur);
    if e.Exit? { NextReadyIs(Release(MarkExited(s.ps, s.cur, e.code), s.cur), s.cur); }
  }

  /** The current process yields to another one. */
  lemma AfterYield(s: Sys, rip: u64, rsp: u64)
    requires Inv(s) && !s.halted && NextReady(s.ps, s.cur).Some?
    ensures var t := Step(s, Yield(rip, rsp)).0; var me := s.ps[s.cur];
      && Inv(t) && !t.halted && t.cur != s.cur && |t.ps| == |s.ps|
      && t.ps[s.cur] == me.(savedRip := rip, savedRsp := rsp, status := Ready)
  {
    hide NextReady;
    StepInv(s, Yield(rip, rsp));
    NextReadyIs(s.ps, s.cur);
  }

  /**
   A process that yields at (rip, rsp) goes on there, whatever happens until it gets the processor back, if and only
   if it gets it back from a system call, or had no interrupt frame when it yielded, or one for that very place.
   */
  lemma ResumesAt(s: Sys, rip: u64, rsp: u64, es: seq<Event>, e: Event)
    requires Inv(s) && !s.halted && NextReady(s.ps, s.cur).Some? && rip != 0 && rsp != 0
    requires var t := Step(s, Yield(rip, rsp)).0; t.cur < |t.ps| && Passed(t, es, s.cur)
    requires var t := Run(Step(s, Yield(rip, rsp)).0, es); t.cur < |t.ps| && Step(t, e).0.cur == s.cur
    ensures var t := Run(Step(s, Yield(rip, rsp)).0, es); var frame := s.ps[s.cur].frame;
      Step(t, e).1 == Enter(s.cur, rip, rsp, 0) <==> !e.Tick? || frame.None? || frame == Some((rip, rsp))
  {
    hide Step, NextReady, WaitOk;
    AfterYield(s, rip, rsp);
    var t := Step(s, Yield(rip, rsp)).0;
    ReadyRun(t, es, s.cur);
    Entered(Run(t, es), e, s.cur);
  }

  /** The timer takes the processor from the current process. */
  lemma AfterTick(s: Sys, rip: u64, rsp: u64)
    requires Inv(s) && !s.halted && s.cur != 1 && NextReady(s.ps, s.cur).Some?
    ensures var t := Step(s, Tick(true, rip, rsp)).0; var me := s.ps[s.cur];
      && Inv(t) && !t.halted && t.cur != s.cur && |t.ps| == |s.ps|
      && t.ps[s.cur] == me.(frame := Some((rip, rsp)), savedRip := rip, savedRsp := rsp, status := Ready)
  {
    hide NextReady;
    StepInv(s, Tick(true, rip, rsp));
    NextReadyIs(s.ps, s.cur);
  }

  /**
   A process that the timer interrupts at (rip, rsp) goes on exactly there, whatever happens until it gets the
   processor back and whoever gives it back; a system call takes a zero for the entry or the first stack.
   */
  lemma PreemptedAt(s: Sys, rip: u64, rsp: u64, es: seq<Event>, e: Event)
    requires Inv(s) && !s.halted && s.cur != 1 && NextReady(s.ps, s.cur).Some?
    requires var t := Step(s, Tick(true, rip, rsp)).0; t.cur < |t.ps| && Passed(t, es, s.cur)
    requires var t := Run(Step(s, Tick(true, rip, rsp)).0, es); t.cur < |t.ps| && Step(t, e).0.cur == s.cur
    ensures var t := Run(Step(s, Tick(true, rip, rsp)).0, es); var me := s.ps[s.cur];
      && (e.Tick? || (rip != 0 && rsp != 0) ==> Step(t, e).1 == Enter(s.cur, rip, rsp, 0))
      && (!e.Tick? ==>
           Step(t, e).1 == Enter(s.cur, if rip != 0 then rip else me.entry, if rsp != 0 then rsp else me.stack, 0))
  {
    hide Step, NextReady, WaitOk;
    AfterTick(s, rip, rsp);
    var t := Step(s, Tick(true, rip, rsp)).0;
    ReadyRun(t, es, s.cur);
    Entered(Run(t, es), e, s.cur);
  }

  /**
   A spawn answers with the number of the new process, which is a child of the caller; whenever that process first
   gets the processor, it starts at the entry and the stack of its image.
   */
  lemma SpawnedAt(s: Sys, entry: u64, stack: u64, es: seq<Event>, e: Event)
    requires Inv(s) && !s.halted && |s.ps| < MAX_PROCESSES
    requires var t := Step(s, Spawn(Loaded(entry, stack))).0; t.cur < |t.ps| && Passed(t, es, |s.ps|)
    requires var t := Run(Step(s, Spawn(Loaded(entry, stack))).0, es); t.cur < |t.ps| && Step(t, e).0.cur == |s.ps|
    ensures var (t, turn) := Step(s, Spawn(Loaded(entry, stack))); var n := |s.ps|;
      && turn == Stay(n) && |t.ps| == n + 1 && t.ps[n].parent == s.cur && t.cur == s.cur && t.ps[..n] == s.ps
      && Step(Run(t, es), e).1 == Enter(n, entry, stack, 0)
  {
    hide NextReady, WaitOk;
    StepInv(s, Spawn(Loaded(entry, stack)));
    var t := Step(s, Spawn(Loaded(entry, stack))).0;
    ReadyRun(t, es, |s.ps|);
    Entered(Run(t, es), e, |s.ps|);
  }

  /** An exec is a spawn and a wait for the new process. */
  lemma ExecWaits(s: Sys, entry: u64, stack: u64, rip: u64, rsp: u64)
    requires Inv(s) && !s.halted && |s.ps| < MAX_PROCESSES
    ensures var t := Step(s, Spawn(Loaded(entry, stack))).0;
      t.cur < |t.ps| && Step(s, Exec(Loaded(entry, stack), rip, rsp)) == Step(t, Wait(|s.ps|, rip, rsp))
    ensures Step(s, Exec(Loaded(entry, stack), rip, rsp)).1 == Enter(|s.ps|, entry, stack, 0)
  {
  }

  /** The parent of the current process waits for a child. */
  predicate ParentWaits(s: Sys)
    requires s.cur < |s.ps|
  {
    var up := s.ps[s.cur].parent;
    up != 0 && up < |s.ps| && Waits(s.ps[up])
  }

  /** Calls that are refused, and ticks that change nothing. */
  lemma Refused(s: Sys, target: u64, image: Load, rip: u64, rsp: u64, user: bool)
    requires Inv(s) && !s.halted
    ensures var i := target % 0x1_0000_0000;
      (i >= |s.ps| || i == s.cur || s.ps[i].parent != s.cur) ==> Step(s, Wait(target, rip, rsp)) == (s, Stay(-22))
    ensures |s.ps| == MAX_PROCESSES ==>
      Step(s, Spawn(image)) == (s, Stay(-22)) && Step(s, Exec(image, rip, rsp)) == (s, Stay(-12))
    ensures |s.ps| < MAX_PROCESSES && image.Failed? ==>
      Step(s, Spawn(image)).1 == Stay(image.error) && Step(s, Exec(image, rip, rsp)).1 == Stay(image.error)
    ensures !user || s.cur == 1 || NextReady(s.ps, s.cur).None? ==> Step(s, Tick(user, rip, rsp)) == (s, Stay(0))
    ensures NextReady(s.ps, s.cur).None? ==> Step(s, Yield(rip, rsp)) == (s, Stay(0))
  {
    hide NextReady;
  }

  /** A switch of a yield, a tick or an exit that no parent waits for goes to the cyclically next ready process. */
  lemma PicksNearest(s: Sys, e: Event, i: nat)
    requires Inv(s) && !s.halted && Step(s, e).1.Enter?
    requires e.Yield? || e.Tick? || (e.Exit? && !ParentWaits(s))
    requires i < |Step(s, e).0.ps| && i != s.cur && 1 <= i && Step(s, e).0.ps[i].status.Ready?
    ensures var j := Step(s, e).1.pid; Distance(|s.ps|, s.cur, j) <= Distance(|s.ps|, s.cur, i)
  {
    hide NextReady, Distance;
    assert WaitOk(s.ps, s.cur);
    VisitAll(|s.ps|, s.cur, i);
    var ps := if e.Exit? then Release(MarkExited(s.ps, s.cur, e.code), s.cur) else s.ps;
    NextReadyIs(ps, s.cur);
    assert Candidate(ps, s.cur, i);
  }

  /**
   Process 3 is started by the timer, yields at y, and is restarted by the timer at its entry: the yield's place
   is lost.
   */
  lemma Restarted(entry: u64, at: u64, y: u64)
    requires entry != 0 && at != 0 && y != 0 && y != entry
    ensures var image := Loaded(entry, at);
      var es := [Spawn(image), Spawn(image), Yield(at, at), Tick(true, at, at), Yield(y, at), Yield(at, at)];
      var s := Run(BOOT, es); s.cur < |s.ps| && Step(s, Tick(true, at, at)).1 == Enter(3, entry, at, 0)
  {
    var image := Loaded(entry, at);
    var s1 := Step(BOOT, Spawn(image)).0;
    var s2 := Step(s1, Spawn(image)).0;
    assert Visit(4, 1, 1) == 2 && NextReady(s2.ps, 1) == Some(2);
    var s3 := Step(s2, Yield(at, at)).0;
    assert Visit(4, 2, 1) == 3 && NextReady(s3.ps, 2) == Some(3);
    var s4 := Step(s3, Tick(true, at, at)).0;
    assert Visit(4, 3, 1) == 1 && NextReady(s4.ps, 3) == Some(1);
    var s5 := Step(s4, Yield(y, at)).0;
    assert NextReady(s5.ps, 1) == Some(2);
    var s6 := Step(s5, Yield(at, at)).0;
    assert s6.cur == 2 && |s6.ps| == 4 && NextReady(s6.ps, 2) == Some(3);
    SixSteps(BOOT, [Spawn(image), Spawn(image), Yield(at, at), Tick(true, at, at), Yield(y, at), Yield(at, at)],
             s1, s2, s3, s4, s5, s6);
  }

  lemma SixSteps(s: Sys, es: seq<Event>, s1: Sys, s2: Sys, s3: Sys, s4: Sys, s5: Sys, s6: Sys)
    requires |es| == 6 && s.cur < |s.ps| && Step(s, es[0]).0 == s1 && s1.cur < |s1.ps| && Step(s1, es[1]).0 == s2
    requires s2.cur < |s2.ps| && Step(s2, es[2]).0 == s3 && s3.cur < |s3.ps| && Step(s3, es[3]).0 == s4
    requires s4.cur < |s4.ps| && Step(s4, es[4]).0 == s5 && s5.cur < |s5.ps| && Step(s5, es[5]).0 == s6
      && s6.cur < |s6.ps|
    ensures Run(s, es) == s6
  {
    hide Step;
    OneMore(s, es, 0, s1);
    OneMore(s1, es, 1, s2);
    OneMore(s2, es, 2, s3);
    OneMore(s3, es, 3, s4);
    OneMore(s4, es, 4, s5);
    OneMore(s5, es, 5, s6);
    assert es[0..] == es && es[6..] == [];
  }

  lemma OneMore(s: Sys, es: seq<Event>, i: nat, t: Sys)
    requires i < |es| && s.cur < |s.ps| && Step(s, es[i]).0 == t && t.cur < |t.ps|
    ensures Run(s, es[i..]) == Run(t, es[i + 1..])
  {
    hide Step;
    assert es[i..][1..] == es[i + 1..];
  }
}
