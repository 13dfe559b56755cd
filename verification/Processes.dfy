/**
 The user process machine: one process runs at a time; exit, yield, wait, spawn, exec and the timer tick move
 the processor between processes. Process 0 is the kernel and is never chosen.
 */
module Processes {
  import opened Words

  const MAX_PROCESSES: nat := 32

  datatype Status = Ready | Running | Exited | Blocked

  datatype Proc = Proc(
    status: Status, parent: nat, waitingFor: nat, waitRip: u64, waitRsp: u64,
    savedRip: u64, savedRsp: u64, frame: Option<(u64, u64)>, entry: u64, stack: u64, exitCode: int)

  /** The process table (index is the process number), the current process, and whether the machine has halted. */
  datatype Sys = Sys(ps: seq<Proc>, cur: nat, halted: bool)

  /** What a system call or tick does to the processor. */
  datatype Turn = Stay(value: int) | Enter(pid: nat, rip: u64, rsp: u64, value: int) | Halt

  // ----- the ready scan -----

  /** The k-th index visited by the scan that starts behind a process. */
  function Visit(n: nat, exclude: nat, k: nat): nat
    requires 1 <= k < n
  {
    var start := if exclude + 1 >= n then 1 else exclude + 1;
    var i := start + k - 1;
    if i >= n then 1 + (i - n) else i
  }

  function Scan(ps: seq<Proc>, exclude: nat, k: nat): Option<nat>
    requires 1 <= k
    decreases |ps| - k
  {
    if k >= |ps| then None
    else
      var i := Visit(|ps|, exclude, k);
      if 0 <= i < |ps| && i != exclude && ps[i].status.Ready? then Some(i) else Scan(ps, exclude, k + 1)
  }

  /** next_ready_process */
  function NextReady(ps: seq<Proc>, exclude: nat): Option<nat> { Scan(ps, exclude, 1) }

  /** How many steps of the scan behind a process it takes to get to index i. */
  function Distance(n: nat, from: nat, i: nat): int { if i > from then i - from else i + (n - 1) - from }

  /** The scan visits every index from 1 up exactly once, in cyclic order. */
  lemma VisitAll(n: nat, exclude: nat, i: nat)
    requires 1 <= exclude < n && 1 <= i < n
    ensures 1 <= Distance(n, exclude, i) <= n - 1
    ensures forall k :: 1 <= k < n ==> (Visit(n, exclude, k) == i <==> k == Distance(n, exclude, i))
  {
  }

  ghost predicate Candidate(ps: seq<Proc>, exclude: nat, i: nat) {
    1 <= i < |ps| && i != exclude && ps[i].status.Ready?
  }

  /** i is the first candidate at distance k or more. */
  ghost predicate Nearest(ps: seq<Proc>, exclude: nat, k: nat, i: nat) {
    && Candidate(ps, exclude, i) && k <= Distance(|ps|, exclude, i)
    && forall j :: Candidate(ps, exclude, j) && k <= Distance(|ps|, exclude, j) ==>
       Distance(|ps|, exclude, i) <= Distance(|ps|, exclude, j)
  }

  lemma {:induction false} ScanFrom(ps: seq<Proc>, exclude: nat, k: nat)
    requires 1 <= exclude < |ps| && 1 <= k <= |ps|
    ensures Scan(ps, exclude, k).None? ==> forall i :: Candidate(ps, exclude, i) ==> Distance(|ps|, exclude, i) < k
    ensures Scan(ps, exclude, k).Some? ==> Nearest(ps, exclude, k, Scan(ps, exclude, k).value)
    decreases |ps| - k
  {
    hide Distance, Visit;
    forall i | 1 <= i < |ps|
      ensures 1 <= Distance(|ps|, exclude, i) <= |ps| - 1
      ensures forall q :: 1 <= q < |ps| ==> (Visit(|ps|, exclude, q) == i <==> q == Distance(|ps|, exclude, i))
    {
      VisitAll(|ps|, exclude, i);
    }
    if k < |ps| {
      VisitRange(|ps|, exclude, k);
      ScanFrom(ps, exclude, k + 1);
    }
  }

  lemma VisitRange(n: nat, exclude: nat, k: nat)
    requires 1 <= exclude < n && 1 <= k < n
    ensures 1 <= Visit(n, exclude, k) < n
  {
  }

  /** The scan finds the cyclically next ready process, if and only if there is a ready process. */
  lemma NextReadyIs(ps: seq<Proc>, exclude: nat)
    requires 1 <= exclude < |ps|
    ensures NextReady(ps, exclude).None? <==> forall i :: !Candidate(ps, exclude, i)
    ensures NextReady(ps, exclude).Some? ==> Nearest(ps, exclude, 1, NextReady(ps, exclude).value)
  {
    ScanFrom(ps, exclude, 1);
    forall i | Candidate(ps, exclude, i) ensures 1 <= Distance(|ps|, exclude, i) {
      VisitAll(|ps|, exclude, i);
    }
  }

  /** Bounded bypass: a ready process that is passed over gets strictly closer to the processor. */
  lemma Closer(ps: seq<Proc>, from: nat, j: nat)
    requires 1 <= from < |ps| && Candidate(ps, from, j)
    ensures var next := NextReady(ps, from);
      next.Some? && (next.value == j || Distance(|ps|, next.value, j) < Distance(|ps|, from, j))
  {
    NextReadyIs(ps, from);
    VisitAll(|ps|, from, j);
  }

  // ----- the transitions -----

  function Int32(x: u64): int {
    var w := x % 0x1_0000_0000;
    if w < 0x8000_0000 then w else w - 0x1_0000_0000
  }

  predicate Waits(p: Proc) { p.waitRip != 0 && p.waitRsp != 0 }

  /** Where a process goes on after a system call let another one run. */
  function SavedRip(p: Proc): u64 { if p.savedRip != 0 then p.savedRip else p.entry }

  function SavedRsp(p: Proc): u64 { if p.savedRsp != 0 then p.savedRsp else p.stack }

  /** enter_process_from_syscall */
  function EnterSaved(s: Sys, i: nat, value: int): (Sys, Turn)
    requires i < |s.ps|
  {
    (s.(ps := s.ps[i := s.ps[i].(status := Running)], cur := i), Enter(i, SavedRip(s.ps[i]), SavedRsp(s.ps[i]), value))
  }

  function MarkExited(ps: seq<Proc>, me: nat, code: u64): (r: seq<Proc>)
    requires me < |ps|
    ensures |r| == |ps|
  {
    ps[me := ps[me].(status := Exited, exitCode := Int32(code), savedRip := 0, savedRsp := 0)]
  }

  /** A parent that is blocked on process me, without a place to return to, becomes ready. */
  function Release(ps: seq<Proc>, me: nat): (r: seq<Proc>)
    requires me < |ps|
    ensures |r| == |ps|
  {
    var up := ps[me].parent;
    if up != 0 && up < |ps| && ps[up].status.Blocked? && ps[up].waitingFor == me
    then ps[up := ps[up].(status := Ready, waitingFor := 0)] else ps
  }

  /** Exit: the parent goes on if it waits -- for whichever child -- else the next ready process, else nothing ever. */
  function ExitStep(s: Sys, code: u64): (Sys, Turn)
    requires s.cur < |s.ps|
  {
    var me, ps := s.cur, MarkExited(s.ps, s.cur, code);
    var up := ps[me].parent;
    if up != 0 && up < |ps| && Waits(ps[up]) then
      (Sys(ps[up := ps[up].(status := Running, waitRip := 0, waitRsp := 0, waitingFor := 0)], up, s.halted),
       Enter(up, ps[up].waitRip, ps[up].waitRsp, code % 0x1_0000_0000))
    else
      match NextReady(Release(ps, me), me)
      case Some(next) => if next < |ps| then EnterSaved(s.(ps := Release(ps, me)), next, 0) else (s, Halt)
      case None => (Sys(Release(ps, me), me, true), Halt)
  }

  function YieldStep(s: Sys, rip: u64, rsp: u64): (Sys, Turn)
    requires s.cur < |s.ps|
  {
    match NextReady(s.ps, s.cur)
    case None => (s, Stay(0))
    case Some(next) =>
      if next >= |s.ps| then (s, Stay(0))
      else
        var me := s.ps[s.cur];
        var ps := if me.status.Running? then s.ps[s.cur := me.(savedRip := rip, savedRsp := rsp, status := Ready)]
          else s.ps;
        EnterSaved(s.(ps := ps), next, 0)
  }

  /** The current process blocks until a child exits, and the child at index i runs. */
  function BlockOn(s: Sys, i: nat, rip: u64, rsp: u64): (Sys, Turn)
    requires s.cur < |s.ps| && i < |s.ps|
  {
    var me := s.ps[s.cur].(waitRip := rip, waitRsp := rsp, waitingFor := i, status := Blocked);
    EnterSaved(s.(ps := s.ps[s.cur := me]), i, 0)
  }

  function WaitStep(s: Sys, target: u64, rip: u64, rsp: u64): (Sys, Turn)
    requires s.cur < |s.ps|
  {
    var i := target % 0x1_0000_0000;
    if i >= |s.ps| || i == s.cur || s.ps[i].parent != s.cur then (s, Stay(-22))
    else if s.ps[i].status.Ready? then BlockOn(s, i, rip, rsp)
    else (s, Stay(s.ps[i].exitCode))
  }

  /** A process as the table creates it. */
  const BLANK := Proc(Ready, 0, 0, 0, 0, 0, 0, None, 0, 0, 0)

  /** What loading an image gives: entry and stack, or an error. */
  datatype Load = Loaded(entry: u64, stack: u64) | Failed(error: int)

  /** Spawn. A failed load leaves a process without parent behind. */
  function SpawnStep(s: Sys, image: Load): (Sys, Turn) {
    if |s.ps| >= MAX_PROCESSES then (s, Stay(-22))
    else match image
      case Failed(error) => (s.(ps := s.ps + [BLANK]), Stay(error))
      case Loaded(e, sp) =>
        (s.(ps := s.ps + [BLANK.(parent := s.cur, entry := e, stack := sp, savedRip := e, savedRsp := sp)]),
          Stay(|s.ps|))
  }

  /** Run an image as a child and wait for it. */
  function ExecStep(s: Sys, image: Load, rip: u64, rsp: u64): (Sys, Turn)
    requires s.cur < |s.ps|
  {
    if |s.ps| >= MAX_PROCESSES then (s, Stay(-12))
    else if image.Failed? then SpawnStep(s, image)
    else BlockOn(SpawnStep(s, image).0, |s.ps|, rip, rsp)
  }

  /** The timer interrupted user code; process 1 keeps the processor. */
  function TickStep(s: Sys, user: bool, rip: u64, rsp: u64): (Sys, Turn)
    requires s.cur < |s.ps|
  {
    if !user || !s.ps[s.cur].status.Running? || s.cur == 1 then (s, Stay(0))
    else match NextReady(s.ps, s.cur)
      case None => (s, Stay(0))
      case Some(next) =>
        if next >= |s.ps| then (s, Stay(0))
        else
          var me := s.ps[s.cur].(frame := Some((rip, rsp)), savedRip := rip, savedRsp := rsp, status := Ready);
          var to := TickTarget(s.ps[next]);
          (s.(ps := s.ps[s.cur := me][next := s.ps[next].(frame := Some(to), status := Running)], cur := next),
            Enter(next, to.0, to.1, 0))
  }

  /** Where the tick lets a process go on: at its interrupt frame if it ever had one. */
  function TickTarget(p: Proc): (u64, u64) {
    if p.frame.Some? then p.frame.value else (SavedRip(p), SavedRsp(p))
  }

  datatype Event =
    | Exit(code: u64) | Yield(rip: u64, rsp: u64) | Wait(target: u64, rip: u64, rsp: u64)
    | Spawn(image: Load) | Exec(image: Load, rip: u64, rsp: u64) | Tick(user: bool, rip: u64, rsp: u64)

  function Step(s: Sys, e: Event): (Sys, Turn)
    requires s.cur < |s.ps|
  {
    if s.halted then (s, Halt)
    else match e
      case Exit(code) => ExitStep(s, code)
      case Yield(rip, rsp) => YieldStep(s, rip, rsp)
      case Wait(target, rip, rsp) => WaitStep(s, target, rip, rsp)
      case Spawn(image) => SpawnStep(s, image)
      case Exec(image, rip, rsp) => ExecStep(s, image, rip, rsp)
      case Tick(user, rip, rsp) => TickStep(s, user, rip, rsp)
  }

  // ----- the invariant -----

  /** One user process runs, and it is the current one; after the halt all have exited. */
  ghost predicate OneRuns(s: Sys) {
    && 1 <= s.cur < |s.ps| <= MAX_PROCESSES && s.ps[0].parent == 0
    && (!s.halted ==> s.ps[s.cur].status.Running? && forall i :: 1 <= i < |s.ps| && s.ps[i].status.Running? ==>
       i == s.cur)
    && (s.halted ==> forall i :: 1 <= i < |s.ps| ==> s.ps[i].status.Exited?)
  }

  /** A blocked process waits for a child of its own that is younger and has not exited. */
  ghost predicate WaitOk(ps: seq<Proc>, i: nat)
    requires i < |ps|
  {
    && (ps[i].status.Blocked? <==> ps[i].waitingFor != 0)
    && (ps[i].status.Blocked? ==>
       i < ps[i].waitingFor < |ps| && ps[ps[i].waitingFor].parent == i && !ps[ps[i].waitingFor].status.Exited?)
    && (Waits(ps[i]) ==> ps[i].status.Blocked?)
    && (ps[i].parent == 0 || ps[i].parent < i)
  }

  ghost predicate Inv(s: Sys) { OneRuns(s) && forall i :: 1 <= i < |s.ps| ==> WaitOk(s.ps, i) }

  lemma EnterInv(s: Sys, i: nat, value: int)
    requires !s.halted && 1 <= i < |s.ps| <= MAX_PROCESSES && s.ps[i].status.Ready? && s.ps[0].parent == 0
    requires forall j :: 1 <= j < |s.ps| ==> WaitOk(s.ps, j) && !s.ps[j].status.Running?
    ensures Inv(EnterSaved(s, i, value).0)
  {
    var t := EnterSaved(s, i, value).0;
    forall j | 1 <= j < |t.ps| ensures WaitOk(t.ps, j) {
      assert WaitOk(s.ps, j);
    }
  }

  lemma YieldInv(s: Sys, rip: u64, rsp: u64)
    requires Inv(s) && !s.halted
    ensures Inv(YieldStep(s, rip, rsp).0)
  {
    NextReadyIs(s.ps, s.cur);
    var next := NextReady(s.ps, s.cur);
    if next.Some? {
      var ps := s.ps[s.cur := s.ps[s.cur].(savedRip := rip, savedRsp := rsp, status := Ready)];
      forall j | 1 <= j < |ps| ensures WaitOk(ps, j) {
        assert WaitOk(s.ps, j);
      }
      EnterInv(s.(ps := ps), next.value, 0);
    }
  }

  lemma BlockInv(s: Sys, i: nat, rip: u64, rsp: u64)
    requires Inv(s) && !s.halted && s.cur < i < |s.ps| && s.ps[i].status.Ready? && s.ps[i].parent == s.cur
    ensures Inv(BlockOn(s, i, rip, rsp).0)
  {
    var me := s.ps[s.cur].(waitRip := rip, waitRsp := rsp, waitingFor := i, status := Blocked);
    var ps := s.ps[s.cur := me];
    forall j | 1 <= j < |ps| ensures WaitOk(ps, j) {
      assert WaitOk(s.ps, j);
    }
    EnterInv(s.(ps := ps), i, 0);
  }

  lemma WaitInv(s: Sys, target: u64, rip: u64, rsp: u64)
    requires Inv(s) && !s.halted
    ensures Inv(WaitStep(s, target, rip, rsp).0)
  {
    var i := target % 0x1_0000_0000;
    if i < |s.ps| && i != s.cur && s.ps[i].parent == s.cur && s.ps[i].status.Ready? {
      if i != 0 { assert WaitOk(s.ps, i); }
      BlockInv(s, i, rip, rsp);
    }
  }

  lemma SpawnInv(s: Sys, image: Load)
    requires Inv(s) && !s.halted
    ensures Inv(SpawnStep(s, image).0)
  {
    var t := SpawnStep(s, image).0;
    forall j | 1 <= j < |t.ps| ensures WaitOk(t.ps, j) {
      if j < |s.ps| { assert WaitOk(s.ps, j); }
    }
  }

  lemma ExecInv(s: Sys, image: Load, rip: u64, rsp: u64)
    requires Inv(s) && !s.halted
    ensures Inv(ExecStep(s, image, rip, rsp).0)
  {
    SpawnInv(s, image);
    if |s.ps| < MAX_PROCESSES && image.Loaded? {
      BlockInv(SpawnStep(s, image).0, |s.ps|, rip, rsp);
    }
  }

  lemma TickInv(s: Sys, user: bool, rip: u64, rsp: u64)
    requires Inv(s) && !s.halted
    ensures Inv(TickStep(s, user, rip, rsp).0)
  {
    NextReadyIs(s.ps, s.cur);
    var t := TickStep(s, user, rip, rsp).0;
    forall j | 1 <= j < |t.ps| ensures WaitOk(t.ps, j) {
      assert WaitOk(s.ps, j);
    }
  }

  /** The chain of waits from i leads to j. */
  ghost predicate OnChain(ps: seq<Proc>, i: nat, j: nat)
    requires i < |ps|
    decreases |ps| - i
  {
    i == j || (ps[i].status.Blocked? && i < ps[i].waitingFor < |ps| && OnChain(ps, ps[i].waitingFor, j))
  }

  /** A chain of waits goes to ever younger processes, so it ends in one that can run. */
  lemma {:induction false} ChainEnds(ps: seq<Proc>, i: nat) returns (j: nat)
    requires (forall k :: 1 <= k < |ps| ==> WaitOk(ps, k)) && 1 <= i < |ps| && !ps[i].status.Exited?
    ensures i <= j < |ps| && OnChain(ps, i, j) && (ps[j].status.Ready? || ps[j].status.Running?)
    decreases |ps| - i
  {
    if ps[i].status.Blocked? {
      assert WaitOk(ps, i);
      j := ChainEnds(ps, ps[i].waitingFor);
    } else {
      j := i;
    }
  }

  /** Once the exited process has been waited for, the table is in order again and nobody runs. */
  lemma ReleaseOk(s: Sys, code: u64)
    requires Inv(s) && !s.halted
    requires var ps := MarkExited(s.ps, s.cur, code); var up := ps[s.cur].parent; up != 0 && up < |ps| ==>
      !Waits(ps[up])
    ensures var ps := Release(MarkExited(s.ps, s.cur, code), s.cur);
      ps[0].parent == 0 && forall j :: 1 <= j < |ps| ==> WaitOk(ps, j) && !ps[j].status.Running?
  {
    var ps := Release(MarkExited(s.ps, s.cur, code), s.cur);
    forall j | 1 <= j < |ps| ensures WaitOk(ps, j) && !ps[j].status.Running? {
      assert WaitOk(s.ps, j);
    }
  }

  /** The machine halts only when every user process has exited. */
  lemma ExitInv(s: Sys, code: u64)
    requires Inv(s) && !s.halted
    ensures Inv(ExitStep(s, code).0)
  {
    var me, ps := s.cur, MarkExited(s.ps, s.cur, code);
    var up := ps[me].parent;
    if up != 0 && up < |ps| && Waits(ps[up]) {
      var t := ExitStep(s, code).0;
      forall j | 1 <= j < |t.ps| ensures WaitOk(t.ps, j) {
        assert WaitOk(s.ps, j);
      }
      assert WaitOk(s.ps, up);
    } else {
      ReleaseOk(s, code);
      var ps1 := Release(ps, me);
      NextReadyIs(ps1, me);
      var next := NextReady(ps1, me);
      if next.Some? {
        EnterInv(s.(ps := ps1), next.value, 0);
      } else {
        forall j | 1 <= j < |ps1| ensures ps1[j].status.Exited? {
          if !ps1[j].status.Exited? {
            var k := ChainEnds(ps1, j);
            ghost var ready := Candidate(ps1, me, k);
            assert false;
          }
        }
      }
    }
  }

  /** Every event keeps the invariant. */
  lemma StepInv(s: Sys, e: Event)
    requires Inv(s)
    ensures Inv(Step(s, e).0)
  {
    if !s.halted {
      match e
      case Exit(code) => ExitInv(s, code);
      case Yield(rip, rsp) => YieldInv(s, rip, rsp);
      case Wait(target, rip, rsp) => WaitInv(s, target, rip, rsp);
      case Spawn(image) => SpawnInv(s, image);
      case Exec(image, rip, rsp) => ExecInv(s, image, rip, rsp);
      case Tick(user, rip, rsp) => TickInv(s, user, rip, rsp);
    }
  }

  // ----- whole runs -----

  function Run(s: Sys, es: seq<Event>): Sys
    requires s.cur < |s.ps|
    decreases |es|
  {
    if es == [] then s
    else
      var t := Step(s, es[0]).0;
      if t.cur < |t.ps| then Run(t, es[1..]) else t
  }

  /** In every reachable state one process runs, waits are in order, and a halt means that all have exited. */
  lemma {:induction false} RunInv(s: Sys, es: seq<Event>)
    requires Inv(s)
    ensures Inv(Run(s, es))
    decreases |es|
  {
    if es != [] {
      StepInv(s, es[0]);
      RunInv(Step(s, es[0]).0, es[1..]);
    }
  }

  /** The state in which the first user process starts. */
  const BOOT := Sys([BLANK.(status := Running), BLANK.(status := Running)], 1, false)

  lemma BootInv()
    ensures Inv(BOOT)
  {
  }

  /** An exited process stays exited, with its code. */
  lemma ExitedStays(s: Sys, e: Event, i: nat)
    requires Inv(s) && 1 <= i < |s.ps| && s.ps[i].status.Exited?
    ensures var t := Step(s, e).0; i < |t.ps| && t.ps[i].status.Exited? && t.ps[i].exitCode == s.ps[i].exitCode
  {
    assert WaitOk(s.ps, i);
    if !s.halted {
      NextReadyIs(s.ps, s.cur);
      if e.Exit? {
        var ps := MarkExited(s.ps, s.cur, e.code);
        NextReadyIs(Release(ps, s.cur), s.cur);
      }
    }
  }

  /** A blocked process is left alone until one of its own children exits. */
  lemma BlockedStays(s: Sys, e: Event, i: nat)
    requires Inv(s) && 1 <= i < |s.ps| && s.ps[i].status.Blocked? && !s.halted
    requires e.Exit? ==> s.ps[s.cur].parent != i
    ensures var t := Step(s, e).0; i < |t.ps| && t.ps[i] == s.ps[i]
  {
    NextReadyIs(s.ps, s.cur);
    if e.Exit? {
      NextReadyIs(Release(MarkExited(s.ps, s.cur, e.code), s.cur), s.cur);
    }
  }

  /** Then it goes on where it waited, with the code of the child that exited -- awaited or not. */
  lemma ChildExits(s: Sys, code: u64, i: nat)
    requires Inv(s) && !s.halted && 1 <= i < |s.ps| && Waits(s.ps[i]) && s.ps[s.cur].parent == i
    ensures var (t, turn) := Step(s, Exit(code));
      turn == Enter(i, s.ps[i].waitRip, s.ps[i].waitRsp, code % 0x1_0000_0000) && t.cur == i && !Waits(t.ps[i])
  {
    assert WaitOk(s.ps, i);
  }

  /** The events of programs that wait with a nonzero instruction and stack pointer. */
  predicate Careful(e: Event) { (e.Wait? || e.Exec?) ==> e.rip != 0 && e.rsp != 0 }

  /** Blocked holds exactly when the place to return to is set. */
  ghost predicate Pairs(s: Sys) { forall i :: 1 <= i < |s.ps| ==> (s.ps[i].status.Blocked? <==> Waits(s.ps[i])) }

  lemma ExitPairs(s: Sys, code: u64)
    requires Inv(s) && Pairs(s) && !s.halted
    ensures Pairs(ExitStep(s, code).0)
  {
    hide NextReady, WaitOk;
    var ps := MarkExited(s.ps, s.cur, code);
    NextReadyIs(Release(ps, s.cur), s.cur);
  }

  lemma YieldPairs(s: Sys, rip: u64, rsp: u64, user: bool)
    requires Inv(s) && Pairs(s) && !s.halted
    ensures Pairs(YieldStep(s, rip, rsp).0) && Pairs(TickStep(s, user, rip, rsp).0)
  {
    hide NextReady, WaitOk;
    NextReadyIs(s.ps, s.cur);
  }

  lemma BlockPairs(s: Sys, i: nat, rip: u64, rsp: u64)
    requires Inv(s) && Pairs(s) && !s.halted && i < |s.ps| && s.ps[i].status.Ready? && i != s.cur
    ensures Pairs(BlockOn(s, i, rip, rsp).0) <==> rip != 0 && rsp != 0
  {
    hide WaitOk;
    var t := BlockOn(s, i, rip, rsp).0;
    assert t.ps[s.cur].status.Blocked? && (Waits(t.ps[s.cur]) <==> rip != 0 && rsp != 0);
  }

  lemma StepPairs(s: Sys, e: Event)
    requires Inv(s) && Pairs(s) && Careful(e)
    ensures Pairs(Step(s, e).0)
  {
    hide NextReady, WaitOk, ExitStep, YieldStep, TickStep, BlockOn;
    if !s.halted {
      match e
      case Exit(code) => ExitPairs(s, code);
      case Yield(rip, rsp) => YieldPairs(s, rip, rsp, true);
      case Wait(target, rip, rsp) =>
        var i := target % 0x1_0000_0000;
        if i < |s.ps| && i != s.cur && s.ps[i].status.Ready? { BlockPairs(s, i, rip, rsp); }
      case Spawn(image) =>
      case Exec(image, rip, rsp) =>
        SpawnInv(s, image);
        if |s.ps| < MAX_PROCESSES && image.Loaded? { BlockPairs(SpawnStep(s, image).0, |s.ps|, rip, rsp); }
      case Tick(user, rip, rsp) => YieldPairs(s, rip, rsp, user);
    }
  }

  lemma {:induction false} RunPairs(s: Sys, es: seq<Event>)
    requires Inv(s) && Pairs(s) && forall e :: e in es ==> Careful(e)
    ensures Pairs(Run(s, es))
    decreases |es|
  {
    if es != [] {
      StepInv(s, es[0]);
      StepPairs(s, es[0]);
      RunPairs(Step(s, es[0]).0, es[1..]);
    }
  }

  /** A wait for this process blocks the caller. */
  predicate ReadyChild(s: Sys, target: u64) {
    var i := target % 0x1_0000_0000;
    i < |s.ps| && i != s.cur && s.ps[i].parent == s.cur && s.ps[i].status.Ready?
  }

  /**
   A zero pointer blocks the caller without a place to return to: a wait does so exactly for a ready child, an
   exec exactly when the image is loaded.
   */
  lemma CareNeeded(s: Sys, target: u64, image: Load, rip: u64, rsp: u64)
    requires Inv(s) && Pairs(s) && !s.halted
    ensures Pairs(Step(s, Wait(target, rip, rsp)).0) <==> !ReadyChild(s, target) || (rip != 0 && rsp != 0)
    ensures Pairs(Step(s, Exec(image, rip, rsp)).0)
            <==> |s.ps| >= MAX_PROCESSES || image.Failed? || (rip != 0 && rsp != 0)
  {
    hide BlockOn, WaitOk;
    if ReadyChild(s, target) { BlockPairs(s, target % 0x1_0000_0000, rip, rsp); }
    if |s.ps| < MAX_PROCESSES && image.Loaded? {
      SpawnInv(s, image);
      BlockPairs(SpawnStep(s, image).0, |s.ps|, rip, rsp);
    }
  }

  /** From any state that has not halted, every process that has not exited waits for one that can run. */
  lemma NoDeadlock(s: Sys, es: seq<Event>, i: nat) returns (j: nat)
    requires Inv(s) && 1 <= i < |Run(s, es).ps| && !Run(s, es).ps[i].status.Exited?
    ensures var t := Run(s, es);
      !t.halted && i <= j < |t.ps| && OnChain(t.ps, i, j) && (t.ps[j].status.Ready? || t.ps[j].status.Running?)
  {
    RunInv(s, es);
    j := ChainEnds(Run(s, es).ps, i);
  }

  lemma YieldShape(s: Sys, rip: u64, rsp: u64, j: nat)
    requires Inv(s) && !s.halted && Candidate(s.ps, s.cur, j)
    ensures var t := YieldStep(s, rip, rsp).0;
      !t.halted && |t.ps| == |s.ps| && NextReady(s.ps, s.cur) == Some(t.cur)
        && (t.cur == j || Candidate(t.ps, t.cur, j))
  {
    NextReadyIs(s.ps, s.cur);
  }

  /** A ready process is reached within as many yields as its distance from the current one. */
  lemma {:induction false} YieldsReach(s: Sys, es: seq<Event>, j: nat) returns (k: nat)
    requires Inv(s) && !s.halted && Candidate(s.ps, s.cur, j) && (forall e :: e in es ==> e.Yield?)
    requires Distance(|s.ps|, s.cur, j) <= |es|
    ensures k <= |es| && Run(s, es[..k]).cur == j
    decreases |es|
  {
    hide NextReady, WaitOk, Distance, YieldStep;
    Closer(s.ps, s.cur, j);
    VisitAll(|s.ps|, s.cur, j);
    StepInv(s, es[0]);
    YieldShape(s, es[0].rip, es[0].rsp, j);
    var t := Step(s, es[0]).0;
    if t.cur == j {
      k := 1;
      assert es[..1][1..] == [];
    } else {
      var k1 := YieldsReach(t, es[1..], j);
      k := k1 + 1;
      assert es[..k][1..] == es[1..][..k1];
    }
  }

  /**
   An exit code that was handed to a waiting parent is handed out again by a later wait, once as 32 bits and once
   as a signed number: the two agree if and only if the code is not negative.
   */
  lemma CodeTwoWays(s: Sys, code: u64, p: nat, rip: u64, rsp: u64)
    requires Inv(s) && !s.halted && 1 <= p < |s.ps| && Waits(s.ps[p]) && s.ps[s.cur].parent == p
    ensures var (t, woken) := Step(s, Exit(code)); var again := Step(t, Wait(s.cur, rip, rsp)).1;
      woken.Enter? && again.Stay? && (woken.value == again.value <==> 0 <= Int32(code))
  {
    ChildExits(s, code, p);
    assert WaitOk(s.ps, p);
    assert WaitOk(s.ps, s.cur);
  }

  /**
   A wait for process 2 that process 3 ends: the parent gets the code of process 3 while process 2 has not
   exited. When the code of the awaited process does come back is said in WaitResult.
   */
  lemma AnyChildWakes(entry: u64, at: u64)
    requires entry != 0 && at != 0
    ensures var image := Loaded(entry, at);
      var s := Run(BOOT, [Spawn(image), Spawn(image), Wait(2, at, at), Yield(at, at)]);
      && s.cur == 3 && |s.ps| == 4 && s.ps[1].waitingFor == 2
      && var (t, turn) := Step(s, Exit(7)); turn == Enter(1, at, at, 7) && |t.ps| == 4 && t.ps[2].status.Ready?
  {
    var image := Loaded(entry, at);
    var s1 := Step(BOOT, Spawn(image)).0;
    var s2 := Step(s1, Spawn(image)).0;
    var s3 := Step(s2, Wait(2, at, at)).0;
    assert s3.cur == 2 && |s3.ps| == 4 && s3.ps[3].status.Ready?;
    assert Visit(4, 2, 1) == 3 && NextReady(s3.ps, 2) == Some(3);
    var s4 := Step(s3, Yield(at, at)).0;
    var es := [Spawn(image), Spawn(image), Wait(2, at, at), Yield(at, at)];
    assert es[1..] == [Spawn(image), Wait(2, at, at), Yield(at, at)];
    assert es[1..][1..] == [Wait(2, at, at), Yield(at, at)];
    assert es[1..][1..][1..] == [Yield(at, at)];
    assert es[1..][1..][1..][1..] == [];
    assert Run(s4, []) == s4;
    assert Run(s3, es[1..][1..][1..]) == s4;
    assert Run(s2, es[1..][1..]) == s4;
    assert Run(s1, es[1..]) == s4;
  }

  // ----- the process table in place -----

  class Table {
    var ps: seq<Proc>
    var cur: nat
    var halted: bool

    function Now(): Sys
      reads this
    {
      Sys(ps, cur, halted)
    }

    constructor ()
      ensures Now() == BOOT
    {
      ps, cur, halted := BOOT.ps, BOOT.cur, false;
    }

    /** next_ready_process */
    method FindReady(exclude: nat) returns (r: Option<nat>)
      requires exclude < |ps|
      ensures r == NextReady(ps, exclude)
    {
      if |ps| <= 1 { return None; }
      var start := exclude + 1;
      if start >= |ps| { start := 1; }
      for scanned := 1 to |ps|
        invariant NextReady(ps, exclude) == Scan(ps, exclude, scanned)
      {
        var i := start + scanned - 1;
        if i >= |ps| { i := 1 + (i - |ps|); }
        if i < |ps| && i != exclude && ps[i].status.Ready? { return Some(i); }
      }
      return None;
    }

    /** process_set_current and the return override of a system call. */
    method EnterProcess(i: nat) returns (turn: Turn)
      requires i < |ps|
      modifies this`ps, this`cur
      ensures (Now(), turn) == EnterSaved(old(Now()), i, 0)
    {
      turn := Enter(i, SavedRip(ps[i]), SavedRsp(ps[i]), 0);
      cur := i;
      ps := ps[i := ps[i].(status := Running)];
    }

    method ExitCall(code: u64) returns (turn: Turn)
      requires Inv(Now()) && !halted
      modifies this
      ensures (Now(), turn) == Step(old(Now()), Exit(code)) && Inv(Now())
      ensures turn.Halt? ==> forall i :: 1 <= i < |ps| ==> ps[i].status.Exited?
    {
      hide NextReady, WaitOk;
      StepInv(Now(), Exit(code));
      NextReadyIs(Release(MarkExited(ps, cur, code), cur), cur);
      var me := cur;
      ps := ps[me := ps[me].(status := Exited, exitCode := Int32(code), savedRip := 0, savedRsp := 0)];
      ghost var gone := MarkExited(old(ps), me, code);
      assert ps == gone;
      var up := ps[me].parent;
      if up != 0 && up < |ps| {
        if ps[up].waitRip != 0 && ps[up].waitRsp != 0 {
          turn := Enter(up, ps[up].waitRip, ps[up].waitRsp, code % 0x1_0000_0000);
          cur := up;
          ps := ps[up := ps[up].(status := Running)];
          ps := ps[up := ps[up].(waitRip := 0, waitRsp := 0, waitingFor := 0)];
          assert ps == gone[up := gone[up].(status := Running, waitRip := 0, waitRsp := 0, waitingFor := 0)];
          return;
        }
        if ps[up].status.Blocked? && ps[up].waitingFor == me {
          ps := ps[up := ps[up].(waitingFor := 0)];
          ps := ps[up := ps[up].(status := Ready)];
        }
      }
      assert ps == Release(gone, me);
      var next := FindReady(me);
      if next.Some? {
        turn := EnterProcess(next.value);
      } else {
        halted, turn := true, Halt;
      }
    }

    method YieldCall(rip: u64, rsp: u64) returns (turn: Turn)
      requires Inv(Now()) && !halted
      modifies this
      ensures (Now(), turn) == Step(old(Now()), Yield(rip, rsp)) && Inv(Now())
    {
      StepInv(Now(), Yield(rip, rsp));
      NextReadyIs(ps, cur);
      var next := FindReady(cur);
      if next.None? { return Stay(0); }
      if ps[cur].status.Running? {
        ps := ps[cur := ps[cur].(savedRip := rip, savedRsp := rsp, status := Ready)];
      }
      turn := EnterProcess(next.value);
    }

    method WaitCall(target: u64, rip: u64, rsp: u64) returns (turn: Turn)
      requires Inv(Now()) && !halted
      modifies this
      ensures (Now(), turn) == Step(old(Now()), Wait(target, rip, rsp)) && Inv(Now())
    {
      StepInv(Now(), Wait(target, rip, rsp));
      var child := target % 0x1_0000_0000;
      if child >= |ps| || child == cur { return Stay(-22); }
      if ps[child].parent != cur { return Stay(-22); }
      if ps[child].status.Ready? {
        ps := ps[cur := ps[cur].(waitRip := rip, waitRsp := rsp, waitingFor := child, status := Blocked)];
        turn := EnterProcess(child);
        return;
      }
      return Stay(ps[child].exitCode);
    }

    /** Spawn, or exec when the caller is to wait. */
    method SpawnCall(image: Load) returns (turn: Turn)
      requires Inv(Now()) && !halted
      modifies this
      ensures (Now(), turn) == Step(old(Now()), Spawn(image)) && Inv(Now())
    {
      StepInv(Now(), Spawn(image));
      if |ps| >= MAX_PROCESSES { return Stay(-22); }
      var child := |ps|;
      ps := ps + [BLANK];
      if image.Failed? { return Stay(image.error); }
      var p := ps[child].(entry := image.entry, stack := image.stack, savedRip := image.entry, savedRsp := image.stack);
      ps := ps[child := p];
      ps := ps[child := ps[child].(parent := cur)];
      assert ps == old(ps) + [p.(parent := cur)];
      return Stay(child);
    }

    method ExecCall(image: Load, rip: u64, rsp: u64) returns (turn: Turn)
      requires Inv(Now()) && !halted
      modifies this
      ensures (Now(), turn) == Step(old(Now()), Exec(image, rip, rsp)) && Inv(Now())
    {
      StepInv(Now(), Exec(image, rip, rsp));
      if |ps| >= MAX_PROCESSES { return Stay(-12); }
      var child := |ps|;
      turn := SpawnCall(image);
      if image.Failed? { return; }
      ps := ps[cur := ps[cur].(waitRip := rip, waitRsp := rsp, waitingFor := child, status := Blocked)];
      turn := EnterProcess(child);
    }

    /** process_schedule_user_tick */
    method TickCall(user: bool, rip: u64, rsp: u64) returns (turn: Turn)
      requires Inv(Now()) && !halted
      modifies this
      ensures (Now(), turn) == Step(old(Now()), Tick(user, rip, rsp)) && Inv(Now())
    {
      StepInv(Now(), Tick(user, rip, rsp));
      NextReadyIs(ps, cur);
      if !user || !ps[cur].status.Running? || cur == 1 { return Stay(0); }
      var next := FindReady(cur);
      if next.None? { return Stay(0); }
      var i := next.value;
      ps := ps[cur := ps[cur].(frame := Some((rip, rsp)), savedRip := rip, savedRsp := rsp)];
      ps := ps[cur := ps[cur].(status := Ready)];
      var to := TickTarget(ps[i]);
      ps := ps[i := ps[i].(frame := Some(to))];
      cur := i;
      ps := ps[i := ps[i].(status := Running)];
      assert ps == TickStep(old(Now()), user, rip, rsp).0.ps;
      return Enter(i, to.0, to.1, 0);
    }
  }
}
