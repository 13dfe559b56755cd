/** What a wait returns: over every continuation, whose exit code reaches the waiting parent. */
module WaitResult {
  import opened Words
  import opened Processes

  /** No child of p exits during the events. */
  ghost predicate Sleeps(s: Sys, es: seq<Event>, p: nat)
    requires s.cur < |s.ps|
    decreases |es|
  {
    es == [] || (!(es[0].Exit? && s.ps[s.cur].parent == p)
                 && var t := Step(s, es[0]).0; t.cur < |t.ps| && Sleeps(t, es[1..], p))
  }

  /** Every other child of p has exited. */
  ghost predicate NoOther(s: Sys, p: nat, i: nat) {
    forall c :: 1 <= c < |s.ps| && c != i && s.ps[c].parent == p ==> s.ps[c].status.Exited?
  }

  /** If the running process is a child of p, it is i, and its exit takes p back to where it waited, with the code. */
  ghost predicate Wakes(t: Sys, p: nat, i: nat, rip: u64, rsp: u64) {
    t.cur < |t.ps| && (t.ps[t.cur].parent == p ==>
      t.cur == i && forall code: u64 :: Step(t, Exit(code)).1 == Enter(p, rip, rsp, code % 0x1_0000_0000))
  }

  /** A wait for child i gives the exit code of child i: at once if it has exited, else whatever happens until then. */
  ghost predicate Delivers(s: Sys, i: nat, rip: u64, rsp: u64)
    requires s.cur < |s.ps| && i < 0x1_0000_0000
  {
    match Step(s, Wait(i, rip, rsp)).1
    case Stay(value) => i < |s.ps| && s.ps[i].status.Exited? && value == s.ps[i].exitCode
    case Enter(_, _, _, _) =>
      var t := Step(s, Wait(i, rip, rsp)).0;
      t.cur < |t.ps| && forall es :: Sleeps(t, es, s.cur) ==> Wakes(Run(t, es), s.cur, i, rip, rsp)
    case Halt => false
  }

  // ----- a blocked parent with one child left -----

  /** Process p waits at rip and rsp for i, its only child that has not exited. */
  ghost predicate OneLeft(s: Sys, p: nat, i: nat, rip: u64, rsp: u64) {
    && Inv(s) && !s.halted && 1 <= p < |s.ps| && s.ps[p].status.Blocked? && s.ps[p].waitRip == rip
       && s.ps[p].waitRsp == rsp
    && NoOther(s, p, i)
  }

  /** Processes keep their parents; only the running process gets children. */
  lemma ParentsStay(s: Sys, e: Event, c: nat)
    requires Inv(s) && !s.halted && c < |Step(s, e).0.ps|
    ensures |s.ps| <= |Step(s, e).0.ps|
    ensures if c < |s.ps| then Step(s, e).0.ps[c].parent == s.ps[c].parent
      else Step(s, e).0.ps[c].parent == 0 || Step(s, e).0.ps[c].parent == s.cur
  {
    hide WaitOk, NextReady;
    NextReadyIs(s.ps, s.cur);
    if e.Exit? { NextReadyIs(Release(MarkExited(s.ps, s.cur, e.code), s.cur), s.cur); }
  }

  lemma OneLeftStep(s: Sys, e: Event, p: nat, i: nat, rip: u64, rsp: u64)
    requires OneLeft(s, p, i, rip, rsp) && !(e.Exit? && s.ps[s.cur].parent == p)
    ensures OneLeft(Step(s, e).0, p, i, rip, rsp)
  {
    hide Step, WaitOk;
    StepInv(s, e);
    BlockedStays(s, e, p);
    var t := Step(s, e).0;
    assert !t.halted by { StillRuns(t, p); }
    forall c | 1 <= c < |t.ps| && c != i && t.ps[c].parent == p ensures t.ps[c].status.Exited? {
      ParentsStay(s, e, c);
      if c < |s.ps| { ExitedStays(s, e, c); }
    }
  }

  lemma StillRuns(t: Sys, p: nat)
    requires Inv(t) && 1 <= p < |t.ps| && t.ps[p].status.Blocked?
    ensures !t.halted
  {
  }

  lemma {:induction false} OneLeftRun(s: Sys, es: seq<Event>, p: nat, i: nat, rip: u64, rsp: u64)
    requires OneLeft(s, p, i, rip, rsp) && Sleeps(s, es, p)
    ensures OneLeft(Run(s, es), p, i, rip, rsp)
    decreases |es|
  {
    hide Step, WaitOk;
    if es != [] {
      OneLeftStep(s, es[0], p, i, rip, rsp);
      OneLeftRun(Step(s, es[0]).0, es[1..], p, i, rip, rsp);
    }
  }

  lemma OneLeftWakes(t: Sys, p: nat, i: nat, rip: u64, rsp: u64)
    requires OneLeft(t, p, i, rip, rsp) && rip != 0 && rsp != 0
    ensures Wakes(t, p, i, rip, rsp)
  {
    if t.ps[t.cur].parent == p {
      forall code: u64 ensures Step(t, Exit(code)).1 == Enter(p, rip, rsp, code % 0x1_0000_0000) {
        ChildExits(t, code, p);
      }
    }
  }

  // ----- waking the parent by another child -----

  lemma {:induction false} RunAppend(s: Sys, a: seq<Event>, b: seq<Event>, p: nat)
    requires s.cur < |s.ps| && Sleeps(s, a, p) && Run(s, a).cur < |Run(s, a).ps|
    ensures Run(s, a + b) == Run(Run(s, a), b) && (Sleeps(Run(s, a), b, p) ==> Sleeps(s, a + b, p))
    decreases |a|
  {
    hide Step;
    if a == [] {
      assert a + b == b;
    } else {
      assert (a + b)[1..] == a[1..] + b;
      RunAppend(Step(s, a[0]).0, a[1..], b, p);
    }
  }

  /** One link back. */
  lemma {:induction false} ChainParent(ps: seq<Proc>, c: nat, j: nat)
    requires (forall k :: 1 <= k < |ps| ==> WaitOk(ps, k)) && 1 <= c < j < |ps| && OnChain(ps, c, j)
    ensures var k := ps[j].parent; c <= k < j && OnChain(ps, c, k) && ps[k].status.Blocked? && ps[k].waitingFor == j
    decreases |ps| - c
  {
    assert WaitOk(ps, c);
    if ps[c].waitingFor != j {
      ChainBound(ps, ps[c].waitingFor, j);
      ChainParent(ps, ps[c].waitingFor, j);
    } else {
      assert OnChain(ps, c, c);
    }
  }

  lemma {:induction false} ChainBound(ps: seq<Proc>, c: nat, j: nat)
    requires c < |ps| && OnChain(ps, c, j)
    ensures c <= j < |ps|
    decreases |ps| - c
  {
    if c != j { ChainBound(ps, ps[c].waitingFor, j); }
  }

  /** A chain to j depends on the blocked processes before j only. */
  lemma {:induction false} ChainKept(ps: seq<Proc>, ps': seq<Proc>, c: nat, j: nat)
    requires 1 <= c < |ps| <= |ps'| && OnChain(ps, c, j)
    requires forall x :: 1 <= x < |ps| && x < j && ps[x].status.Blocked? ==>
      ps'[x].status.Blocked? && ps'[x].waitingFor == ps[x].waitingFor
    ensures OnChain(ps', c, j)
    decreases |ps| - c
  {
    ChainBound(ps, c, j);
    if c != j {
      ChainBound(ps, ps[c].waitingFor, j);
      ChainKept(ps, ps', ps[c].waitingFor, j);
    }
  }

  /** Blocked processes and parents stay as they are. */
  ghost predicate SameWaits(s: Sys, t: Sys) {
    && |s.ps| == |t.ps| && !t.halted
    && forall x :: 0 <= x < |s.ps| ==>
       t.ps[x].parent == s.ps[x].parent && (1 <= x && s.ps[x].status.Blocked? ==> t.ps[x] == s.ps[x])
  }

  lemma YieldWaits(s: Sys, rip: u64, rsp: u64)
    requires Inv(s) && !s.halted
    ensures SameWaits(s, Step(s, Yield(rip, rsp)).0)
  {
    NextReadyIs(s.ps, s.cur);
  }

  lemma {:induction false} YieldsSleep(s: Sys, es: seq<Event>, p: nat)
    requires Inv(s) && !s.halted && forall e :: e in es ==> e.Yield?
    ensures Inv(Run(s, es)) && Sleeps(s, es, p) && SameWaits(s, Run(s, es))
    decreases |es|
  {
    hide Step, WaitOk;
    if es != [] {
      assert es[0] in es;
      StepInv(s, es[0]);
      YieldWaits(s, es[0].rip, es[0].rsp);
      YieldsSleep(Step(s, es[0]).0, es[1..], p);
    }
  }

  function Yields(n: nat): (r: seq<Event>)
    ensures |r| == n && forall e :: e in r ==> e.Yield?
  {
    seq(n, i => Yield(0, 0))
  }

  /** A process that can run gets the processor while p sleeps on. */
  lemma Reach(s: Sys, j: nat, p: nat) returns (es: seq<Event>)
    requires Inv(s) && !s.halted && 1 <= j < |s.ps| && (s.ps[j].status.Ready? || s.ps[j].status.Running?)
    ensures Inv(Run(s, es)) && Sleeps(s, es, p) && SameWaits(s, Run(s, es)) && Run(s, es).cur == j
  {
    if j == s.cur {
      es := [];
    } else {
      VisitAll(|s.ps|, s.cur, j);
      var ys := Yields(Distance(|s.ps|, s.cur, j));
      var k := YieldsReach(s, ys, j);
      es := ys[..k];
      YieldsSleep(s, es, p);
    }
  }

  /** When the end of a chain exits, the chain ends one link earlier, in a process that can run. */
  lemma ChainExit(s: Sys, c: nat, p: nat)
    requires Inv(s) && !s.halted && 1 <= p < c < s.cur && OnChain(s.ps, c, s.cur) && s.ps[p].status.Blocked?
    ensures var t := Step(s, Exit(0)).0; var k := s.ps[s.cur].parent;
      && Inv(t) && !t.halted && |t.ps| == |s.ps| && c <= k < s.cur && k != p && t.ps[p] == s.ps[p]
         && OnChain(t.ps, c, k)
      && t.ps[c].parent == s.ps[c].parent && (t.ps[k].status.Ready? || t.ps[k].status.Running?)
  {
    var k := s.ps[s.cur].parent;
    ChainParent(s.ps, c, s.cur);
    StepInv(s, Exit(0));
    BlockedStays(s, Exit(0), p);
    ParentsStay(s, Exit(0), c);
    var t := Step(s, Exit(0)).0;
    StillRuns(t, p);
    ExitKeeps(s, k);
    ChainKept(s.ps, t.ps, c, k);
  }

  lemma ExitKeeps(s: Sys, k: nat)
    requires Inv(s) && !s.halted && 1 <= k < |s.ps| && s.ps[s.cur].parent == k && s.ps[k].status.Blocked?
      && s.ps[k].waitingFor == s.cur
    ensures var t := Step(s, Exit(0)).0;
      && |t.ps| == |s.ps| && (t.ps[k].status.Ready? || t.ps[k].status.Running?)
      && forall x :: 0 <= x < |s.ps| && x < k && s.ps[x].status.Blocked? ==>
         t.ps[x].status.Blocked? && t.ps[x].waitingFor == s.ps[x].waitingFor
  {
    NextReadyIs(Release(MarkExited(s.ps, s.cur, 0), s.cur), s.cur);
  }

  /** Any child of a blocked parent can come to run, whatever it waits for itself. */
  lemma {:induction false} ChildRuns(s: Sys, c: nat, j: nat, p: nat) returns (es: seq<Event>)
    requires Inv(s) && !s.halted && 1 <= p < c <= j < |s.ps| && s.ps[c].parent == p && s.ps[p].status.Blocked?
    requires OnChain(s.ps, c, j) && (s.ps[j].status.Ready? || s.ps[j].status.Running?)
    ensures Sleeps(s, es, p) && var t := Run(s, es); t.cur == c < |t.ps| && t.ps[c].parent == p
    decreases j - c
  {
    hide Step, WaitOk;
    var pre := Reach(s, j, p);
    var t := Run(s, pre);
    ChainKept(s.ps, t.ps, c, j);
    es := pre;
    if j != c {
      ChainExit(t, c, p);
      var k, t1 := t.ps[j].parent, Step(t, Exit(0)).0;
      var rest := ChildRuns(t1, c, k, p);
      var more := [Exit(0)] + rest;
      assert more[1..] == rest && Run(t, more) == Run(t1, rest) && Sleeps(t, more, p);
      RunAppend(s, pre, more, p);
      es := pre + more;
    }
  }

  // ----- the result of a wait -----

  /**
   A wait for a child gives that child's exit code if and only if the child has exited already, or it is ready,
   the caller has a place to return to, and every other child of the caller has exited.
   */
  lemma WaitDelivers(s: Sys, i: nat, rip: u64, rsp: u64)
    requires Inv(s) && !s.halted && i < |s.ps| && i != s.cur && s.ps[i].parent == s.cur
    ensures Delivers(s, i, rip, rsp) <==>
              s.ps[i].status.Exited? || (s.ps[i].status.Ready? && rip != 0 && rsp != 0 && NoOther(s, s.cur, i))
  {
    if s.ps[i].status.Ready? {
      if rip == 0 || rsp == 0 {
        NoPlace(s, i, rip, rsp);
      } else if NoOther(s, s.cur, i) {
        OnlyChild(s, i, rip, rsp);
      } else {
        OtherChild(s, i, rip, rsp);
      }
    }
  }

  lemma AfterWait(s: Sys, i: nat, rip: u64, rsp: u64)
    requires Inv(s) && !s.halted && i < |s.ps| && i != s.cur && s.ps[i].parent == s.cur && s.ps[i].status.Ready?
    ensures var (t, turn) := Step(s, Wait(i, rip, rsp));
      && Inv(t) && !t.halted && t.cur == i && turn.Enter? && |t.ps| == |s.ps| && 1 <= s.cur < i
      && t.ps[s.cur].status.Blocked? && t.ps[s.cur].waitRip == rip && t.ps[s.cur].waitRsp == rsp
         && t.ps[s.cur].waitingFor == i
      && forall x :: 0 <= x < |s.ps| ==>
         t.ps[x].parent == s.ps[x].parent && (x != i && x != s.cur ==> t.ps[x] == s.ps[x])
  {
    StepInv(s, Wait(i, rip, rsp));
    if i != 0 { assert WaitOk(s.ps, i); }
  }

  lemma NoPlace(s: Sys, i: nat, rip: u64, rsp: u64)
    requires Inv(s) && !s.halted && i < |s.ps| && i != s.cur && s.ps[i].parent == s.cur && s.ps[i].status.Ready?
      && (rip == 0 || rsp == 0)
    ensures !Delivers(s, i, rip, rsp)
  {
    AfterWait(s, i, rip, rsp);
    var t := Step(s, Wait(i, rip, rsp)).0;
    assert Sleeps(t, [], s.cur) && Run(t, []) == t;
    var turn := Step(t, Exit(7)).1;
    assert turn != Enter(s.cur, rip, rsp, 7);
  }

  lemma OnlyChild(s: Sys, i: nat, rip: u64, rsp: u64)
    requires Inv(s) && !s.halted && i < |s.ps| && i != s.cur && s.ps[i].parent == s.cur && s.ps[i].status.Ready?
    requires rip != 0 && rsp != 0 && NoOther(s, s.cur, i)
    ensures Delivers(s, i, rip, rsp)
  {
    hide Step, WaitOk;
    AfterWait(s, i, rip, rsp);
    var t := Step(s, Wait(i, rip, rsp)).0;
    forall es | Sleeps(t, es, s.cur) ensures Wakes(Run(t, es), s.cur, i, rip, rsp) {
      OneLeftRun(t, es, s.cur, i, rip, rsp);
      OneLeftWakes(Run(t, es), s.cur, i, rip, rsp);
    }
  }

  lemma OtherChild(s: Sys, i: nat, rip: u64, rsp: u64)
    requires Inv(s) && !s.halted && i < |s.ps| && i != s.cur && s.ps[i].parent == s.cur && s.ps[i].status.Ready?
    requires !NoOther(s, s.cur, i)
    ensures !Delivers(s, i, rip, rsp)
  {
    hide Step;
    var c :| 1 <= c < |s.ps| && c != i && s.ps[c].parent == s.cur && !s.ps[c].status.Exited?;
    AfterWait(s, i, rip, rsp);
    var t := Step(s, Wait(i, rip, rsp)).0;
    assert WaitOk(s.ps, c);
    var j := ChainEnds(t.ps, c);
    var es := ChildRuns(t, c, j, s.cur);
    assert !Wakes(Run(t, es), s.cur, i, rip, rsp);
  }
}
