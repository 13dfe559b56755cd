/**
 The whole program: a linked text, entered at its first byte, behaves as the source program does --
 in both directions, and without ever faulting in any other way.
 */
module Whole {
  import opened Words
  import opened X86
  import opened Machine
  import opened OreLang
  import opened Codegen
  import opened Frames
  import opened SimExpr
  import opened Simulation

  /** What a program does within a clock, started with whatever the argument registers hold. */
  function Behaviour(p: Program, main: nat, dataBase: u64, regs: seq<i64>, depth: nat, clock: nat): Why
    requires main < |p| && p[main].isMain && p[main].argc <= |p[main].sizes| && |regs| == p[main].argc
  {
    Finish(p[main], ExecStmt(p, dataBase, p[main].body, Bind(regs, p[main].sizes), depth, clock)).why
  }

  /** The argument registers as the program finds them. */
  function InitialArgs(m: State, n: nat): (r: seq<i64>)
    ensures |r| == n
  {
    seq(n, i requires 0 <= i < n => S(Get(m, ArgReg(i))))
  }

  /** p is compiled and linked at the start of w's text, and m is about to enter it. */
  ghost predicate Booted(w: World, main: nat, m: State, depth: nat) {
    && w.Base() && WfP(w.p, w.dataLen) && (forall f :: f in w.p ==> Need(f) <= w.room)
    && w.k.addrs == Addrs(START_SIZE, w.p) && Has(w.c.text, 0, CodeP(UserImage(main), w.p, w.k))
    && main < |w.p| && w.p[main].isMain
    && m.rip == w.c.base && m.rsp % 8 == 0 && m.rsp <= w.c.high
    && w.c.low + Reserve(w.room, depth) + w.room <= m.rsp
  }

  lemma {:induction false} PlacedFrom(start: nat, p: Program, k: Links, text: seq<byte>, i: nat, j: nat)
    requires i <= j < |p| && Has(text, Addr(start, p, i), CodeFrom(start, p, i, k))
    ensures Has(text, Addr(start, p, j), CodeF(p[j], Addr(start, p, j), k))
    decreases j - i
  {
    hide Has, CodeF, SizeF;
    LenF(p[i], Addr(start, p, i), k);
    HasSplit(text, Addr(start, p, i), CodeF(p[i], Addr(start, p, i), k), CodeFrom(start, p, i + 1, k));
    if i < j {
      PlacedFrom(start, p, k, text, i + 1, j);
    }
  }

  /** Every function of a linked program stands at its address. */
  lemma BootedOk(w: World, main: nat, m: State, depth: nat)
    requires Booted(w, main, m, depth)
    ensures w.Ok() && Has(w.c.text, 0, StartCode(UserImage(main), w.k))
  {
    hide Has, CodeF, CodeFrom, WfF, Need, StartCode;
    HasSplit(w.c.text, 0, StartCode(UserImage(main), w.k), CodeFrom(START_SIZE, w.p, 0, w.k));
    forall i | 0 <= i < |w.p|
      ensures w.Placed(i)
    {
      PlacedFrom(START_SIZE, w.p, w.k, w.c.text, 0, i);
      assert w.p[i] in w.p;
    }
  }

  lemma RegsLoaded(m: State, n: nat)
    requires n <= MAX_PARAMS
    ensures Loaded(m, InitialArgs(m, n))
  {
    hide Get, ArgReg;
    forall i | 0 <= i < n
      ensures Get(m, ArgReg(i)) == U(InitialArgs(m, n)[i])
    {
      UnsignedRoundTrip(Get(m, ArgReg(i)));
    }
  }

  /** The first instruction calls main with the argument registers as they are. */
  lemma StartCall(w: World, main: nat, m: State) returns (m1: State)
    requires w.Base() && main < |w.p| && w.k.addrs[main] <= |w.c.text|
      && Has(w.c.text, 0, StartCode(UserImage(main), w.k))
    requires m.rip == w.c.base && m.rsp % 8 == 0 && w.c.low + 8 <= m.rsp <= w.c.high && w.p[main].argc <= MAX_PARAMS
    ensures Reach(w.c, m, 1, m1, 0) && m1.rip == w.c.base + w.k.addrs[main] && m1.rsp == m.rsp - 8 && m1.rsp % 8 == 0
    ensures Loaded(m1, InitialArgs(m, w.p[main].argc))
  {
    hide Run, Has, Encode, Bytes, Loaded, InitialArgs, Get, ArgReg, Exec;
    RegsLoaded(m, w.p[main].argc);
    var rel := CallRel(w.k, main, 1);
    HasSplit(w.c.text, 0, Encode(CallNear(rel)), Bytes(ExitRax()));
    var m0 := m.(rip := m.rip + 5);
    m1 := Put(m0, m.rsp - 8, m0.rip).(rsp := m.rsp - 8, rip := w.c.base + w.k.addrs[main]);
    CallExec(w.c, m0, rel, w.c.base + w.k.addrs[main]);
    OneStep(w.c, m, CallNear(rel), 0, m1);
    ReachAnyTime(w.c, m, 1, m1);
    SameArgs(m, m1, InitialArgs(m, w.p[main].argc));
  }

  lemma MainRun(w: World, main: nat, m: State, depth: nat, clock: nat) returns (n: nat)
    requires w.Ok() && main < |w.p| && w.p[main].isMain && WfF(w.p, w.dataLen, w.p[main]) && 8 <= w.room
    requires w.k.addrs[main] <= |w.c.text| && Has(w.c.text, 0, StartCode(UserImage(main), w.k)) && m.rip == w.c.base
    requires m.rsp % 8 == 0 && m.rsp <= w.c.high && w.c.low + Reserve(w.room, depth) + w.room <= m.rsp
    ensures Stops(w.c, m, n, Behaviour(w.p, main, w.DataBase(), InitialArgs(m, w.p[main].argc), depth, clock), clock)
  {
    hide Run, Has, World.Ok, Reserve, Loaded, WfS, ExecStmt, Bind, InitialArgs, StartCode, Finish;
    WorldValid(w);
    var f, regs := w.p[main], InitialArgs(m, w.p[main].argc);
    var m1 := StartCall(w, main, m);
    var n1, m2 := SimF(w, main, regs, m1, depth, clock);
    var r := ExecStmt(w.p, w.DataBase(), f.body, Bind(regs, f.sizes), depth, clock);
    MainStops(f, r);
    StopsAdd(w.c, m, 1, m1, n1, Finish(f, r).why, clock, clock);
    n := 1 + n1;
  }

  /** One run, one clock. */
  lemma BootRun(w: World, main: nat, m: State, depth: nat, clock: nat) returns (n: nat)
    requires Booted(w, main, m, depth)
    ensures WfF(w.p, w.dataLen, w.p[main])
    ensures Stops(w.c, m, n, Behaviour(w.p, main, w.DataBase(), InitialArgs(m, w.p[main].argc), depth, clock), clock)
  {
    hide Run, Has, World.Ok, Reserve, WfS, InitialArgs, StartCode, CodeP, WfP, Addrs, Need, Behaviour, Stops;
    BootedOk(w, main, m, depth);
    PlacedFn(w, main);
    n := MainRun(w, main, m, depth, clock);
  }

  lemma MainStops(f: Func, r: Res<Flow>)
    requires f.isMain
    ensures Finish(f, r).Stop?
  {
  }

  lemma ReachAnyTime(c: Config, m: State, n: nat, m': State)
    requires Reach(c, m, n, m', 1)
    ensures Reach(c, m, n, m', 0)
  {
  }

  /** A machine that has not stopped after n steps had not stopped before. */
  lemma {:induction false} GoPrefix(c: Config, m: State, k: nat, n: nat)
    requires k <= n && Run(c, m, n).Go?
    ensures Run(c, m, k).Go?
  {
    hide Run;
    RunAdd(c, m, k, n - k);
  }

  /** A machine that has stopped stays stopped. */
  lemma StopStays(c: Config, m: State, k: nat, n: nat)
    requires k <= n && !Run(c, m, k).Go?
    ensures Run(c, m, n) == Run(c, m, k)
  {
    hide Run;
    RunAdd(c, m, k, n - k);
  }

  /** What the machine shows for each way a program ends. */
  function Shown(why: Why): Outcome
    requires why.Exit? || why.DivTrap?
  {
    if why.Exit? then Exited(U(why.code)) else DivideError
  }

  /** The program neither reads an unset variable nor nests deeper than its stack allows, at any time. */
  ghost predicate Sound(w: World, main: nat, regs: seq<i64>, depth: nat)
    requires w.Base() && main < |w.p| && w.p[main].isMain
    requires w.p[main].argc <= |w.p[main].sizes| && |regs| == w.p[main].argc
  {
    forall clock :: var b := Behaviour(w.p, main, w.DataBase(), regs, depth, clock); b != Unset && b != TooDeep
  }

  /** The machine's outcome after enough steps for a program that ends. */
  lemma EndsAs(w: World, main: nat, m: State, depth: nat, clock: nat) returns (n: nat)
    requires Booted(w, main, m, depth) && WfF(w.p, w.dataLen, w.p[main])
    requires var b := Behaviour(w.p, main, w.DataBase(), InitialArgs(m, w.p[main].argc), depth, clock);
             b.Exit? || b.DivTrap?
    ensures Run(w.c, m, n) == Shown(Behaviour(w.p, main, w.DataBase(), InitialArgs(m, w.p[main].argc), depth, clock))
  {
    hide Run, Behaviour, World.Ok, WfS, CodeP, WfP, Addrs, Need, Has, InitialArgs;
    n := BootRun(w, main, m, depth, clock);
  }

  /**
   The machine stops with an outcome exactly when the source program ends with it, it runs forever exactly
   when the source does, and it never page faults, never leaves the decodable code and never makes another
   system call.
   */
  ghost predicate Preserved(w: World, main: nat, m: State, depth: nat)
    requires w.Base() && main < |w.p| && w.p[main].isMain && w.p[main].argc <= |w.p[main].sizes|
  {
    var regs, db := InitialArgs(m, w.p[main].argc), w.DataBase();
    && (forall n :: var o := Run(w.c, m, n); o.Go? || o.Exited? || o.DivideError?)
    && (forall x :: (exists n :: Run(w.c, m, n) == Exited(x))
               <==> (exists clock :: Behaviour(w.p, main, db, regs, depth, clock) == Exit(S(x))))
    && ((exists n :: Run(w.c, m, n) == DivideError)
        <==> (exists clock :: Behaviour(w.p, main, db, regs, depth, clock) == DivTrap))
    && ((forall n :: Run(w.c, m, n).Go?)
        <==> (forall clock :: Behaviour(w.p, main, db, regs, depth, clock) == Timeout))
  }

  /** Semantic preservation, for every sound program. */
  lemma SemanticPreservation(w: World, main: nat, m: State, depth: nat)
    requires Booted(w, main, m, depth) && WfF(w.p, w.dataLen, w.p[main])
    requires Sound(w, main, InitialArgs(m, w.p[main].argc), depth)
    ensures Preserved(w, main, m, depth)
  {
    hide Run, Behaviour, World.Ok, InitialArgs, WfS, CodeP, WfP, Addrs, Need, Has;
    var regs, db := InitialArgs(m, w.p[main].argc), w.DataBase();
    forall clock
      ensures Behaviour(w.p, main, db, regs, depth, clock) != Bad
    {
      NeverBad(w.p, w.dataLen, main, db, regs, depth, clock);
    }
    if clock :| Behaviour(w.p, main, db, regs, depth, clock) != Timeout {
      var why := Behaviour(w.p, main, db, regs, depth, clock);
      var n0 := EndsAs(w, main, m, depth, clock);
      forall n | !Run(w.c, m, n).Go?
        ensures Run(w.c, m, n) == Shown(why)
      {
        if n <= n0 { StopStays(w.c, m, n, n0); } else { StopStays(w.c, m, n0, n); }
      }
      forall t | Behaviour(w.p, main, db, regs, depth, t) != Timeout
        ensures Behaviour(w.p, main, db, regs, depth, t) == why
      {
        var n1 := EndsAs(w, main, m, depth, t);
        SameShown(Behaviour(w.p, main, db, regs, depth, t), why);
      }
      if why.Exit? { SignedRoundTrip(why.code); }
      forall x: u64 ensures U(S(x)) == x { UnsignedRoundTrip(x); }
    } else {
      forall n: nat
        ensures Run(w.c, m, n).Go?
      {
        assert Behaviour(w.p, main, db, regs, depth, n) == Timeout;
        var n1 := BootRun(w, main, m, depth, n);
        GoPrefix(w.c, m, n, n1);
      }
    }
  }

  lemma SameShown(a: Why, b: Why)
    requires (a.Exit? || a.DivTrap?) && (b.Exit? || b.DivTrap?) && Shown(a) == Shown(b)
    ensures a == b
  {
    if a.Exit? && b.Exit? {
      SignedRoundTrip(a.code);
      SignedRoundTrip(b.code);
    }
  }

  // ----- well-formed programs do not go wrong -----

  lemma {:induction false} SafeE(p: Program, d: nat, sizes: seq<Size>, e: Expr, db: u64, st: Env, depth: nat,
      clock: nat)
    requires WfP(p, d) && WfE(p, d, sizes, e)
    ensures Eval(p, db, e, st, depth, clock) != Stop(Bad)
    decreases clock, e, 1
  {
    hide EvalBin, EvalUn, WfP, Bind;
    match e
    case Un(_, a) => SafeE(p, d, sizes, a, db, st, depth, clock);
    case Bin(_, a, b) =>
      SafeE(p, d, sizes, a, db, st, depth, clock);
      var r := Eval(p, db, a, st, depth, clock);
      if r.Ok? { SafeE(p, d, sizes, b, db, st, depth, r.clock); }
    case Call(fn, args) =>
      SafeA(p, d, sizes, args, db, st, depth, clock);
      WfAt(p, d, fn);
      var r := EvalArgs(p, db, args, st, depth, clock);
      if r.Ok? && depth > 0 && r.clock > 0 {
        SafeS(p, d, p[fn].sizes, p[fn].body, false, db, Bind(r.val, p[fn].sizes), depth - 1, r.clock - 1);
      }
    case _ =>
  }

  lemma NeverBad(p: Program, d: nat, main: nat, db: u64, regs: seq<i64>, depth: nat, clock: nat)
    requires WfP(p, d) && main < |p| && p[main].isMain && WfF(p, d, p[main]) && |regs| == p[main].argc
    ensures Behaviour(p, main, db, regs, depth, clock) != Bad
  {
    hide ExecStmt, WfP, Bind;
    SafeS(p, d, p[main].sizes, p[main].body, false, db, Bind(regs, p[main].sizes), depth, clock);
  }

  lemma WfAt(p: Program, d: nat, fn: nat)
    requires WfP(p, d) && fn < |p|
    ensures WfF(p, d, p[fn])
  {
  }

  lemma {:induction false} SafeA(p: Program, d: nat, sizes: seq<Size>, args: Args, db: u64, st: Env, depth: nat,
      clock: nat)
    requires WfP(p, d) && WfA(p, d, sizes, args)
    ensures EvalArgs(p, db, args, st, depth, clock) != Stop(Bad)
    decreases clock, args, 1
  {
    hide Eval, WfP;
    if args.Arg? {
      SafeE(p, d, sizes, args.hd, db, st, depth, clock);
      var r := Eval(p, db, args.hd, st, depth, clock);
      if r.Ok? { SafeA(p, d, sizes, args.tl, db, st, depth, r.clock); }
    }
  }

  /** No bad call ever, and a break only leaves a statement that stands in a loop. */
  lemma {:induction false} SafeS(p: Program, d: nat, sizes: seq<Size>, s: Stmt, inLoop: bool, db: u64, st: Env,
      depth: nat, clock: nat)
    requires WfP(p, d) && WfS(p, d, sizes, s, inLoop)
    ensures var r := ExecStmt(p, db, s, st, depth, clock); r != Stop(Bad) && (r.Ok? && r.val.Brk? ==> inLoop)
    decreases clock, s, 1
  {
    hide Eval, WfP, WfE;
    match s
    case Seq(a, b) =>
      SafeS(p, d, sizes, a, inLoop, db, st, depth, clock);
      var r := ExecStmt(p, db, a, st, depth, clock);
      if r.Ok? && r.val.Norm? { SafeS(p, d, sizes, b, inLoop, db, r.val.st, depth, r.clock); }
    case Assign(_, _, e) => SafeE(p, d, sizes, e, db, st, depth, clock);
    case If(c, t) =>
      SafeE(p, d, sizes, c, db, st, depth, clock);
      var r := Eval(p, db, c, st, depth, clock);
      if r.Ok? { SafeS(p, d, sizes, t, inLoop, db, st, depth, r.clock); }
    case IfElse(c, t, e) =>
      SafeE(p, d, sizes, c, db, st, depth, clock);
      var r := Eval(p, db, c, st, depth, clock);
      if r.Ok? {
        SafeS(p, d, sizes, t, inLoop, db, st, depth, r.clock);
        SafeS(p, d, sizes, e, inLoop, db, st, depth, r.clock);
      }
    case While(c, b) =>
      SafeE(p, d, sizes, c, db, st, depth, clock);
      var r := Eval(p, db, c, st, depth, clock);
      if r.Ok? {
        SafeS(p, d, sizes, b, true, db, st, depth, r.clock);
        var q := ExecStmt(p, db, b, st, depth, r.clock);
        if q.Ok? && q.val.Norm? && q.clock > 0 {
          SafeS(p, d, sizes, s, inLoop, db, q.val.st, depth, q.clock - 1);
        }
      }
    case Return(e) => SafeE(p, d, sizes, e, db, st, depth, clock);
    case Do(e) => SafeE(p, d, sizes, e, db, st, depth, clock);
    case _ =>
  }
}
