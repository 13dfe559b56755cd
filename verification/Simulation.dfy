/**
 The emitted bytes simulate the source: every expression, argument list, call and statement, for
 every outcome -- a value, a jump, an exit, a division trap, or running on forever.
 */
module Simulation {
  import opened Words
  import opened X86
  import opened Machine
  import opened OreLang
  import opened Codegen
  import opened Straight
  import opened Frames
  import opened SimExpr
  import opened SimFrame
  import opened Unfold

  /** Argument lists end up on the stack, the last one on top. */
  ghost predicate PostA(w: World, m: State, n: nat, m': State, end: int, r: Res<seq<i64>>, clock: nat) {
    match r
    case Ok(vals, left) =>
      && Reach(w.c, m, n, m', clock - left) && m'.rip == w.c.base + end
      && m'.rbp == m.rbp && m'.rsp == m.rsp - 8 * |vals| && Pushed(w.c, m', vals) && Kept(m, m', m.rsp)
    case Stop(why) => Stops(w.c, m, n, why, clock)
  }

  /** From a function's entry to its return: rsp, rbp and rbx are as the caller had them. */
  ghost predicate PostCall(w: World, m: State, n: nat, m': State, r: Res<i64>, clock: nat) {
    match r
    case Ok(v, left) =>
      && Reach(w.c, m, n, m', clock - left) && m'.rip == Cell(m.mem, m.rsp) && m'.rax == U(v)
      && m'.rsp == m.rsp + 8 && m'.rbp == m.rbp && m'.rbx == m.rbx && Kept(m, m', m.rsp + 8)
    case Stop(why) => Stops(w.c, m, n, why, clock)
  }

  /** Leaving the frame of m with result v. */
  ghost predicate Left(m: State, m': State, v: i64) {
    && m'.rip == Cell(m.mem, m.rbp + 8) && m'.rsp == m.rbp + 16 && m'.rbp == Cell(m.mem, m.rbp)
    && m'.rbx == Cell(m.mem, m.rbp - 8) && m'.rax == U(v) && Kept(m, m', m.rbp + 16)
  }

  /** Statements: fall through to end, jump to brk, or leave the function. */
  ghost predicate PostS(w: World, f: Func, m: State, n: nat, m': State, end: int, brk: int, r: Res<Flow>, clock: nat) {
    match r
    case Stop(why) => Stops(w.c, m, n, why, clock)
    case Ok(Norm(st), left) =>
      Reach(w.c, m, n, m', clock - left) && m'.rip == w.c.base + end && SameFrame(m, m') && Rel(w, f, m', st)
    case Ok(Brk(st), left) =>
      Reach(w.c, m, n, m', clock - left) && m'.rip == w.c.base + brk && SameFrame(m, m') && Rel(w, f, m', st)
    case Ok(Ret(v), left) =>
      if f.isMain then Run(w.c, m, n) == Exited(U(v))
      else Reach(w.c, m, n, m', clock - left) && Left(m, m', v)
  }

  // ----- what the expression lemmas need -----

  ghost predicate PreE(w: World, f: Func, m: State, at: int, st: Env, temps: nat, depth: nat) {
    && w.Ok() && |f.sizes| <= MAX_VARS && m.rip == w.c.base + at && Rel(w, f, m, st) && Room(w, m, temps, depth)
  }

  lemma {:induction false} SimE(w: World, f: Func, e: Expr, at: nat, m: State, st: Env, depth: nat, clock: nat)
    returns (n: nat, m': State)
    requires PreE(w, f, m, at, st, TempsE(e), depth) && WfE(w.p, w.dataLen, f.sizes, e)
    requires Has(w.c.text, at, CodeE(e, at, w.k))
    ensures PostE(w, m, n, m', at + SizeE(e), Eval(w.p, w.DataBase(), e, st, depth, clock), clock)
    decreases clock, e, 2
  {
    hide CodeE, Eval, PostE, SizeE, Has, Rel, Room, WfE, TempsE;
    match e
    case Un(op, a) => n, m' := SimUn(w, f, op, a, at, m, st, depth, clock);
    case Bin(op, a, b) => n, m' := SimBin(w, f, op, a, b, at, m, st, depth, clock);
    case Call(fn, args) => n, m' := SimCall(w, f, fn, args, at, m, st, depth, clock);
    case _ => n, m' := SimLeaf(w, f, e, at, m, st, depth, clock);
  }

  lemma {:induction false} SimUn(w: World, f: Func, op: UnOp, a: Expr, at: nat, m: State, st: Env, depth: nat,
      clock: nat)
    returns (n: nat, m': State)
    requires PreE(w, f, m, at, st, TempsE(Un(op, a)), depth) && WfE(w.p, w.dataLen, f.sizes, Un(op, a))
    requires Has(w.c.text, at, CodeE(Un(op, a), at, w.k))
    ensures PostE(w, m, n, m', at + SizeE(Un(op, a)), Eval(w.p, w.DataBase(), Un(op, a), st, depth, clock), clock)
    decreases clock, Un(op, a), 1
  {
    hide Bytes, AsmLen, UnAsm, Run, EvalUn, Has, Rel, Room, World.Ok, Reserve;
    HasSplit(w.c.text, at, CodeE(a, at, w.k), Bytes(UnAsm(op)));
    LenE(a, at, w.k);
    n, m' := SimE(w, f, a, at, m, st, depth, clock);
    var r := Eval(w.p, w.DataBase(), a, st, depth, clock);
    if r.Ok? {
      WorldValid(w);
      var n1, m1 := UnTail(w.c, op, m', at + SizeE(a), r.val);
      ReachAdd(w.c, m, n, m', clock - r.clock, n1, m1, 0);
      n, m' := n + n1, m1;
    }
  }

  lemma WorldValid(w: World)
    requires w.Ok()
    ensures w.c.Valid() && w.Base()
  {
  }

  lemma {:induction false} SimBin(w: World, f: Func, op: BinOp, a: Expr, b: Expr, at: nat, m: State, st: Env,
      depth: nat, clock: nat)
    returns (n: nat, m': State)
    requires PreE(w, f, m, at, st, TempsE(Bin(op, a, b)), depth) && WfE(w.p, w.dataLen, f.sizes, Bin(op, a, b))
    requires Has(w.c.text, at, CodeE(Bin(op, a, b), at, w.k))
    ensures PostE(w, m, n, m', at + SizeE(Bin(op, a, b)),
                  Eval(w.p, w.DataBase(), Bin(op, a, b), st, depth, clock), clock)
    decreases clock, Bin(op, a, b), 1
  {
    hide Bytes, AsmLen, BinAsm, Run, EvalBin, Has, Encode, Vars, World.Ok, Reserve, Eval, CodeE, SizeE, TempsE, WfE;
    WorldValid(w);
    UnfoldBin(w, f, op, a, b, at);
    UnfoldEvalBin(w.p, w.DataBase(), op, a, b, st, depth, clock);
    var at1 := at + SizeE(a);
    var at2 := at1 + 1 + SizeE(b);
    LenE(a, at, w.k);
    LenE(b, at1 + 1, w.k);
    SplitPushed(w.c.text, at, CodeE(a, at, w.k), CodeE(b, at1 + 1, w.k) + Bytes(BinAsm(op)));
    HasSplit(w.c.text, at1 + 1, CodeE(b, at1 + 1, w.k), Bytes(BinAsm(op)));
    n, m' := SimE(w, f, a, at, m, st, depth, clock);
    var r := Eval(w.p, w.DataBase(), a, st, depth, clock);
    if r.Ok? {
      var m1 := m';
      var m2 := PushRax(w.c, m1, at1);
      ReachAdd(w.c, m, n, m1, clock - r.clock, 1, m2, 1);
      RelSame(w, f, m, m2, st);
      var n3, m3 := SimE(w, f, b, at1 + 1, m2, st, depth, r.clock);
      var q := Eval(w.p, w.DataBase(), b, st, depth, r.clock);
      if q.Ok? {
        n, m' := BinJoin(w, op, m, n + 1, m2, n3, m3, at2, r.val, q.val, clock, r.clock, q.clock);
      } else {
        StopsAdd(w.c, m, n + 1, m2, n3, q.why, clock, r.clock);
        n := n + 1 + n3;
      }
    }
  }

  /** Code, push rax, more code. */
  lemma SplitPushed(text: seq<byte>, at: int, a: seq<byte>, b: seq<byte>)
    requires Has(text, at, a + (Encode(Push(RAX)) + b))
    ensures Has(text, at, a) && Has(text, at + |a|, Encode(Push(RAX))) && Has(text, at + |a| + 1, b)
  {
    HasSplit(text, at, a, Encode(Push(RAX)) + b);
    HasSplit(text, at + |a|, Encode(Push(RAX)), b);
  }

  /** Both operands are evaluated, the left one is on the stack of m2: finish the operator. */
  lemma {:induction false} BinJoin(w: World, op: BinOp, m: State, n2: nat, m2: State, n3: nat, m3: State, at: int,
      x: i64, y: i64,
                clock: nat, left: nat, left': nat)
    returns (n: nat, m': State)
    requires w.Base() && Has(w.c.text, at, Bytes(BinAsm(op))) && m3.rip == w.c.base + at
    requires Reach(w.c, m, n2, m2, clock - left) && m2.rbp == m.rbp && m2.rsp == m.rsp - 8 && Kept(m, m2, m.rsp)
    requires Reach(w.c, m2, n3, m3, left - left') && m3.rax == U(y) && Same(m2, m3)
    requires Cell(m2.mem, m2.rsp) == U(x) && w.c.Mapped(m2.rsp)
    ensures PostE(w, m, n, m', at + AsmLen(BinAsm(op)),
                  var v := EvalBin(op, x, y); if v.Some? then Ok(v.value, left') else Stop(DivTrap), clock)
  {
    hide Bytes, AsmLen, BinAsm, Run, EvalBin, Has;
    ReachAdd(w.c, m, n2, m2, clock - left, n3, m3, left - left');
    var n4, m4 := BinTail(w.c, op, m3, at, x, y);
    if EvalBin(op, x, y).Some? {
      ReachAdd(w.c, m, n2 + n3, m3, clock - left', n4, m4, 0);
    } else {
      var o := Run(w.c, m3, n4);
      RunAdd(w.c, m, n2 + n3, n4);
    }
    n, m' := n2 + n3 + n4, m4;
  }

  lemma SimA(w: World, f: Func, args: Args, at: nat, m: State, st: Env, depth: nat, clock: nat)
    returns (n: nat, m': State)
    requires PreE(w, f, m, at, st, TempsA(args), depth) && WfA(w.p, w.dataLen, f.sizes, args)
    requires Has(w.c.text, at, CodeA(args, at, w.k))
    ensures PostA(w, m, n, m', at + SizeA(args), EvalArgs(w.p, w.DataBase(), args, st, depth, clock), clock)
    decreases clock, args, 2
  {
    hide Run, Has, Encode, Vars, World.Ok, Reserve, CodeE, SizeE, TempsE, WfE, Eval;
    n, m' := 0, m;
    if args.NoArgs? {
      RunZero(w.c, m);
    } else {
      n, m' := SimArg(w, f, args.hd, args.tl, at, m, st, depth, clock);
    }
  }

  lemma SimArg(w: World, f: Func, e: Expr, tl: Args, at: nat, m: State, st: Env, depth: nat, clock: nat)
    returns (n: nat, m': State)
    requires PreE(w, f, m, at, st, TempsA(Arg(e, tl)), depth) && WfA(w.p, w.dataLen, f.sizes, Arg(e, tl))
    requires Has(w.c.text, at, CodeA(Arg(e, tl), at, w.k))
    ensures PostA(w, m, n, m', at + SizeA(Arg(e, tl)),
                  EvalArgs(w.p, w.DataBase(), Arg(e, tl), st, depth, clock), clock)
    decreases clock, Arg(e, tl), 1
  {
      hide Run, Has, Encode, Vars, World.Ok, Reserve, CodeE, SizeE, TempsE, WfE, Eval, CodeA, SizeA, TempsA, WfA,
           EvalArgs, Pushed;
      WorldValid(w);
      UnfoldArg(w, f, e, tl, at);
      UnfoldEvalArg(w.p, w.DataBase(), e, tl, st, depth, clock);
      var at1 := at + SizeE(e);
      LenE(e, at, w.k);
      SplitPushed(w.c.text, at, CodeE(e, at, w.k), CodeA(tl, at1 + 1, w.k));
      WorldValid(w);
      n, m' := SimE(w, f, e, at, m, st, depth, clock);
      var r := Eval(w.p, w.DataBase(), e, st, depth, clock);
      if r.Ok? {
        var m1 := m';
        var m2 := PushRax(w.c, m1, at1);
        ReachAdd(w.c, m, n, m1, clock - r.clock, 1, m2, 1);
        RelSame(w, f, m, m2, st);
        var n3, m3 := SimA(w, f, tl, at1 + 1, m2, st, depth, r.clock);
        var q := EvalArgs(w.p, w.DataBase(), tl, st, depth, r.clock);
        if q.Ok? {
          ReachAdd(w.c, m, n + 1, m2, clock - r.clock, n3, m3, r.clock - q.clock);
          PushedMore(w.c, m2, m3, r.val, q.val);
          m' := m3;
        } else {
          StopsAdd(w.c, m, n + 1, m2, n3, q.why, clock, r.clock);
        }
        n := n + 1 + n3;
      }
  }

  lemma RunZero(c: Config, m: State)
    ensures Run(c, m, 0) == Go(m)
  {
  }

  /** The first argument lies under the later ones. */
  lemma PushedMore(c: Config, m2: State, m3: State, v: i64, vals: seq<i64>)
    requires Cell(m2.mem, m2.rsp) == U(v) && Kept(m2, m3, m2.rsp) && m2.rsp + 8 <= c.high
    requires m3.rsp == m2.rsp - 8 * |vals| && Pushed(c, m3, vals)
    ensures Pushed(c, m3, [v] + vals)
  {
    var all := [v] + vals;
    forall i | 0 <= i < |all|
      ensures Cell(m3.mem, m3.rsp + 8 * (|all| - 1 - i)) == U(all[i])
    {
      if i > 0 {
        assert Cell(m3.mem, m3.rsp + 8 * (|vals| - 1 - (i - 1))) == U(vals[i - 1]);
      } else {
        assert m3.rsp + 8 * (|all| - 1 - i) == m2.rsp;
      }
    }
  }

  /** Pops and call: the callee is entered with its arguments loaded and the return address on the stack. */
  lemma CallSequence(w: World, fn: nat, vals: seq<i64>, at: int, m: State) returns (n: nat, m': State)
    requires w.Base() && fn < |w.p| && |vals| <= MAX_PARAMS && Pushed(w.c, m, vals) && m.rip == w.c.base + at
    requires Has(w.c.text, at, Bytes(PopArgs(|vals|)))
    requires var at1 := at + AsmLen(PopArgs(|vals|));
             Has(w.c.text, at1, Encode(CallNear(CallRel(w.k, fn, at1 + 1))))
    requires w.k.addrs[fn] <= |w.c.text| && w.c.low + 8 <= m.rsp + 8 * |vals|
    ensures var at1 := at + AsmLen(PopArgs(|vals|));
            && Reach(w.c, m, n, m', 1) && m'.rip == w.c.base + w.k.addrs[fn] && Loaded(m', vals)
            && m'.rsp == m.rsp + 8 * |vals| - 8 && m'.rbp == m.rbp && m'.rbx == m.rbx
            && Cell(m'.mem, m'.rsp) == w.c.base + at1 + 5 && Kept(m, m', m.rsp + 8 * |vals|)
  {
    hide Bytes, AsmLen, PopArgs, Effect, Run, Encode, AllPlain, Get, ArgReg;
    var at1 := at + AsmLen(PopArgs(|vals|));
    PopArgsPlain(|vals|);
    PopArgsEffect(w.c, m, vals);
    var n1, m1 := RunThrough(w.c, m, PopArgs(|vals|), at);
    var rel := CallRel(w.k, fn, at1 + 1);
    var m0 := m1.(rip := m1.rip + 5);
    m' := Put(m0, m1.rsp - 8, m0.rip).(rsp := m1.rsp - 8, rip := w.c.base + w.k.addrs[fn]);
    CallExec(w.c, m0, rel, w.c.base + w.k.addrs[fn]);
    OneStep(w.c, m1, CallNear(rel), at1, m');
    ReachAdd(w.c, m, n1, m1, 0, 1, m', 1);
    n := n1 + 1;
    SameArgs(Effect(w.c, PopArgs(|vals|), m).s, m', vals);
  }

  lemma CallExec(c: Config, m: State, rel: int, target: u64)
    requires c.Mapped(m.rsp - 8) && m.rsp >= 8 && m.rip + rel == target
    ensures Exec(c, CallNear(rel), m) == Go(Put(m, m.rsp - 8, m.rip).(rsp := m.rsp - 8, rip := target))
  {
  }

  lemma SameArgs(s: State, m: State, vals: seq<i64>)
    requires Loaded(s, vals)
    requires m.rdi == s.rdi && m.rsi == s.rsi && m.rdx == s.rdx && m.rcx == s.rcx && m.r8 == s.r8 && m.r9 == s.r9
    ensures Loaded(m, vals)
  {
    forall i | 0 <= i < |vals|
      ensures Get(m, ArgReg(i)) == Get(s, ArgReg(i))
    {
    }
  }

  lemma {:induction false} SimCall(w: World, f: Func, fn: nat, args: Args, at: nat, m: State, st: Env, depth: nat,
      clock: nat)
    returns (n: nat, m': State)
    requires PreE(w, f, m, at, st, TempsE(Call(fn, args)), depth) && WfE(w.p, w.dataLen, f.sizes, Call(fn, args))
    requires Has(w.c.text, at, CodeE(Call(fn, args), at, w.k))
    ensures PostE(w, m, n, m', at + SizeE(Call(fn, args)),
                  Eval(w.p, w.DataBase(), Call(fn, args), st, depth, clock), clock)
    decreases clock, Call(fn, args), 1
  {
    hide Run, Has, Encode, Vars, World.Ok, Reserve, Bytes, AsmLen, PopArgs, CodeA, EvalArgs, Finish, Loaded, CodeE,
         SizeE, SizeA, TempsE, TempsA, WfE, Eval, ExecStmt, Bind, WfS;
    UnfoldCall(w, f, fn, args, at);
    PlacedFn(w, fn);
    UnfoldEvalCall(w.p, w.DataBase(), fn, args, st, depth, clock);
    var pops := PopArgs(ArgCount(args));
    var at1 := at + SizeA(args);
    var at2 := at1 + AsmLen(pops);
    LenA(args, at, w.k);
    HasSplit(w.c.text, at, CodeA(args, at, w.k), Bytes(pops) + Encode(CallNear(CallRel(w.k, fn, at2 + 1))));
    HasSplit(w.c.text, at1, Bytes(pops), Encode(CallNear(CallRel(w.k, fn, at2 + 1))));
    WorldValid(w);
    n, m' := SimA(w, f, args, at, m, st, depth, clock);
    var r := EvalArgs(w.p, w.DataBase(), args, st, depth, clock);
    if r.Ok? {
      if depth == 0 {
      } else if r.clock == 0 {
      } else {
        ReserveStep(w.room, depth);
        var m1 := m';
        var n2, m2 := CallSequence(w, fn, r.val, at1, m1);
        ReachAdd(w.c, m, n, m1, clock - r.clock, n2, m2, 1);
        var n3, m3 := SimF(w, fn, r.val, m2, depth - 1, r.clock - 1);
        var q := Finish(w.p[fn], ExecStmt(w.p, w.DataBase(), w.p[fn].body, Bind(r.val, w.p[fn].sizes), depth - 1,
          r.clock - 1));
        if q.Ok? {
          ReachAdd(w.c, m, n + n2, m2, clock - (r.clock - 1), n3, m3, r.clock - 1 - q.clock);
          m' := m3;
        } else {
          StopsAdd(w.c, m, n + n2, m2, n3, q.why, clock, r.clock - 1);
        }
        n := n + n2 + n3;
      }
    }
  }

  lemma ReserveStep(room: nat, depth: nat)
    requires depth > 0
    ensures Reserve(room, depth) == room + Reserve(room, depth - 1)
  {
  }

  lemma PlacedFn(w: World, fn: nat)
    requires w.Ok() && fn < |w.p|
    ensures w.Base() && WfF(w.p, w.dataLen, w.p[fn]) && Need(w.p[fn]) <= w.room
    ensures w.k.addrs[fn] <= |w.c.text| && Has(w.c.text, w.k.addrs[fn], CodeF(w.p[fn], w.k.addrs[fn], w.k))
  {
    hide WfF, Need;
    assert w.Placed(fn);
  }

  lemma {:induction false} SimF(w: World, fn: nat, vals: seq<i64>, m: State, depth: nat, clock: nat)
    returns (n: nat, m': State)
    requires w.Ok() && fn < |w.p| && |vals| == w.p[fn].argc && Loaded(m, vals)
    requires m.rip == w.c.base + w.k.addrs[fn] && m.rsp % 8 == 0 && m.rsp + 8 <= w.c.high
    requires w.c.low + Reserve(w.room, depth) + w.room <= m.rsp + 8
    ensures w.p[fn].argc <= |w.p[fn].sizes|
    ensures var f := w.p[fn];
            PostCall(w, m, n, m',
                     Finish(f, ExecStmt(w.p, w.DataBase(), f.body, Bind(vals, f.sizes), depth, clock)), clock)
    decreases clock, w.p[fn].body, 3
  {
    hide Run, Has, Vars, World.Ok, Reserve, Bytes, AsmLen, FallOff, HeadF, HeadSize, WfS, CodeS, ExecStmt, SizeS, Bind,
         Loaded;
    PlacedFn(w, fn);
    var f, at := w.p[fn], w.k.addrs[fn];
    var at1 := at + HeadSize(f);
    var ctx := Ctx(-1, f.isMain, w.k);
    var body := CodeS(f.body, at1, ctx);
    HasSplit(w.c.text, at, HeadF(f), body + Bytes(FallOff(f.isMain)));
    HasSplit(w.c.text, at1, body, Bytes(FallOff(f.isMain)));
    LenS(f.body, at1, ctx);
    var n1, m1 := Enter(w, f, at, m, vals);
    var st := Bind(vals, f.sizes);
    var n2, m2 := SimS(w, f, f.body, at1, -1, m1, st, depth, clock);
    var r := ExecStmt(w.p, w.DataBase(), f.body, st, depth, clock);
    n, m' := FinishRun(w, f, m, n1, m1, n2, m2, at1 + SizeS(f.body, f.isMain), r, clock);
  }

  /** From the end of the body back to the caller. */
  lemma {:induction false} FinishRun(w: World, f: Func, m: State, n1: nat, m1: State, n2: nat, m2: State, end: int,
      r: Res<Flow>, clock: nat)
    returns (n: nat, m': State)
    requires w.Base() && Has(w.c.text, end, Bytes(FallOff(f.isMain)))
    requires Reach(w.c, m, n1, m1, 0) && PostS(w, f, m1, n2, m2, end, -1, r, clock)
    requires m1.rbp == m.rsp - 8 && InFrame(w.c, |f.sizes|, m1) && Kept(m, m1, m.rsp)
    requires Cell(m1.mem, m1.rbp) == m.rbp && Cell(m1.mem, m1.rbp - 8) == m.rbx
    requires r.Ok? ==> r.clock <= clock
    ensures PostCall(w, m, n, m', Finish(f, r), clock)
  {
    hide Run, Has, Bytes, FallOff, Rel;
    n, m' := n1 + n2, m2;
    if r.Stop? {
      ReachWeaken(w.c, m, n1, m1);
      StopsAdd(w.c, m, n1, m1, n2, r.why, clock, clock);
    } else if r.val.Norm? {
      ReachAdd(w.c, m, n1, m1, 0, n2, m2, clock - r.clock);
      if f.isMain {
        var n3 := FallOffMain(w.c, m2, end);
        StopsAdd(w.c, m, n1 + n2, m2, n3, Exit(0), clock, r.clock);
        n := n1 + n2 + n3;
      } else {
        var n3, m3 := FallOffReturn(w.c, m2, end);
        ReachAdd(w.c, m, n1 + n2, m2, clock - r.clock, n3, m3, 0);
        n, m' := n1 + n2 + n3, m3;
      }
    } else if r.val.Ret? {
      if f.isMain {
        ReachWeaken(w.c, m, n1, m1);
        StopsAdd(w.c, m, n1, m1, n2, Exit(r.val.v), clock, clock);
      } else {
        ReachAdd(w.c, m, n1, m1, 0, n2, m2, clock - r.clock);
      }
    }
  }

  lemma ReachWeaken(c: Config, m: State, n: nat, m': State)
    requires Reach(c, m, n, m', 0)
    ensures forall t :: t <= 0 ==> Reach(c, m, n, m', t)
  {
    hide Run;
  }

  // ----- statements -----

  ghost predicate PreS(w: World, f: Func, s: Stmt, at: nat, brk: int, m: State, st: Env, depth: nat) {
    && PreE(w, f, m, at, st, TempsS(s), depth) && WfS(w.p, w.dataLen, f.sizes, s, brk >= 0)
    && Has(w.c.text, at, CodeS(s, at, Ctx(brk, f.isMain, w.k))) && -1 <= brk <= |w.c.text|
  }

  lemma {:induction false} SimS(w: World, f: Func, s: Stmt, at: nat, brk: int, m: State, st: Env, depth: nat,
      clock: nat)
    returns (n: nat, m': State)
    requires PreS(w, f, s, at, brk, m, st, depth)
    ensures PostS(w, f, m, n, m', at + SizeS(s, f.isMain), brk,
                  ExecStmt(w.p, w.DataBase(), s, st, depth, clock), clock)
    decreases clock, s, 2
  {
    hide PreS, PostS, CodeS, ExecStmt, SizeS;
    match s
    case Skip => n, m' := 0, m; SimSkip(w, f, at, brk, m, st, depth, clock);
    case Seq(a, b) => n, m' := SimSeq(w, f, a, b, at, brk, m, st, depth, clock);
    case Assign(_, _, _) => n, m' := SimAssign(w, f, s, at, brk, m, st, depth, clock);
    case Zero(_) => n, m' := SimZero(w, f, s, at, brk, m, st, depth, clock);
    case If(c, t) => n, m' := SimIf(w, f, c, t, at, brk, m, st, depth, clock);
    case IfElse(c, t, e) => n, m' := SimIfElse(w, f, c, t, e, at, brk, m, st, depth, clock);
    case While(c, b) => n, m' := SimWhile(w, f, c, b, at, brk, m, st, depth, clock);
    case Break => n := 1; m' := SimBreak(w, f, at, brk, m, st, depth, clock);
    case Return(e) => n, m' := SimReturn(w, f, e, at, brk, m, st, depth, clock);
    case Do(e) => n, m' := SimDo(w, f, e, at, brk, m, st, depth, clock);
  }

  lemma {:induction false} SimSkip(w: World, f: Func, at: nat, brk: int, m: State, st: Env, depth: nat, clock: nat)
    requires PreS(w, f, Skip, at, brk, m, st, depth)
    ensures PostS(w, f, m, 0, m, at + SizeS(Skip, f.isMain), brk,
                  ExecStmt(w.p, w.DataBase(), Skip, st, depth, clock), clock)
  {
    hide Run, Rel, World.Ok, Reserve, Has;
    RunZero(w.c, m);
  }

  lemma {:induction false} SimSeq(w: World, f: Func, a: Stmt, b: Stmt, at: nat, brk: int, m: State, st: Env,
      depth: nat, clock: nat)
    returns (n: nat, m': State)
    requires PreS(w, f, Seq(a, b), at, brk, m, st, depth)
    ensures PostS(w, f, m, n, m', at + SizeS(Seq(a, b), f.isMain), brk,
                  ExecStmt(w.p, w.DataBase(), Seq(a, b), st, depth, clock), clock)
    decreases clock, Seq(a, b), 1
  {
    hide Run, Has, World.Ok, Reserve, Rel, CodeS, SizeS, TempsS, WfS, ExecStmt;
    var ctx := Ctx(brk, f.isMain, w.k);
    WorldValid(w);
    UnfoldSeq(w, f, a, b, at, ctx, brk >= 0);
    UnfoldExecSeq(w.p, w.DataBase(), a, b, st, depth, clock);
    var at1 := at + SizeS(a, f.isMain);
    LenS(a, at, ctx);
    HasSplit(w.c.text, at, CodeS(a, at, ctx), CodeS(b, at1, ctx));
    n, m' := SimS(w, f, a, at, brk, m, st, depth, clock);
    var r := ExecStmt(w.p, w.DataBase(), a, st, depth, clock);
    if r.Ok? && r.val.Norm? {
      var m1 := m';
      var n2, m2 := SimS(w, f, b, at1, brk, m1, r.val.st, depth, r.clock);
      var q := ExecStmt(w.p, w.DataBase(), b, r.val.st, depth, r.clock);
      PostChain(w, f, m, n, m1, n2, m2, at + SizeS(Seq(a, b), f.isMain), brk, q, clock, r.clock);
      n, m' := n + n2, m2;
    }
  }

  /** A statement run after reaching m1 in the same frame counts from m. */
  lemma {:induction false} PostChain(w: World, f: Func, m: State, n: nat, m1: State, n2: nat, m2: State, end: int,
      brk: int,
                  q: Res<Flow>, clock: nat, left: nat)
    requires Reach(w.c, m, n, m1, clock - left) && SameFrame(m, m1) && PostS(w, f, m1, n2, m2, end, brk, q, left)
    requires left <= clock && (q.Ok? ==> q.clock <= left)
    ensures PostS(w, f, m, n + n2, m2, end, brk, q, clock)
  {
    hide Run, Rel;
    if q.Stop? {
      StopsAdd(w.c, m, n, m1, n2, q.why, clock, left);
    } else if q.val.Ret? && f.isMain {
      StopsAdd(w.c, m, n, m1, n2, Exit(q.val.v), clock, left);
    } else {
      ReachAdd(w.c, m, n, m1, clock - left, n2, m2, left - q.clock);
    }
  }

  /** Storing rax in a slot. */
  lemma StoreSlot(w: World, f: Func, slot: nat, at: nat, m: State, st: Env, v: i64) returns (m': State)
    requires w.Base() && slot < |f.sizes| <= MAX_VARS && Rel(w, f, m, st) && m.rip == w.c.base + at
    requires Has(w.c.text, at, Encode(StoreVar(slot, f.sizes[slot]))) && m.rax == U(v)
    ensures Reach(w.c, m, 1, m', 1) && m'.rip == m.rip + Len(StoreVar(slot, f.sizes[slot]))
    ensures SameFrame(m, m') && Rel(w, f, m', st[slot := Trunc(v, f.sizes[slot])])
  {
    hide Encode, Run, Trunc, Vars;
    var size := f.sizes[slot];
    var i := StoreVar(slot, size);
    var a := m.rbp + SlotDisp(slot);
    assert w.c.Mapped(a);
    var x := Merge(Cell(m.mem, a), m.rax, size);
    m' := Put(m, a, x).(rip := m.rip + Len(i));
    StoreVarExec(w.c, m.(rip := m.rip + Len(i)), slot, size);
    assert Encodable(i);
    OneStep(w.c, m, i, at, m') by { hide Exec, Encodable; }
    MergeLow(Cell(m.mem, a), m.rax, size);
    TruncLow(v, size);
    VarsUpdate(f.sizes, m, m', st, slot, Trunc(v, size));
  }

  /** The slot after a store of the given size. */
  function Merge(was: u64, v: u64, size: Size): u64 {
    match size
    case B1 => was - was % 0x100 + v % 0x100
    case B4 => was - was % 0x1_0000_0000 + v % 0x1_0000_0000
    case B8 => v
  }

  lemma MergeLow(was: u64, v: u64, size: Size)
    ensures LowPart(Merge(was, v, size), size) == LowPart(v, size)
  {
  }

  lemma StoreVarExec(c: Config, m: State, slot: nat, size: Size)
    requires c.Mapped(m.rbp + SlotDisp(slot))
    ensures var a := m.rbp + SlotDisp(slot);
            Exec(c, StoreVar(slot, size), m) == Go(Put(m, a, Merge(Cell(m.mem, a), m.rax, size)))
  {
  }

  lemma VarsUpdate(sizes: seq<Size>, m: State, m': State, st: Env, slot: nat, v: i64)
    requires Vars(sizes, m, st) && slot < |sizes| && m'.rbp == m.rbp
    requires forall x :: x != m.rbp + SlotDisp(slot) ==> Cell(m'.mem, x) == Cell(m.mem, x)
    requires LowPart(Cell(m'.mem, m.rbp + SlotDisp(slot)), sizes[slot]) == U(v)
    ensures Vars(sizes, m', st[slot := v])
  {
    hide LowPart;
    var st' := st[slot := v];
    forall x | x in st'
      ensures x < |sizes| && LowPart(Cell(m'.mem, m'.rbp + SlotDisp(x)), sizes[x]) == U(st'[x])
    {
      if x != slot {
        assert m.rbp + SlotDisp(x) != m.rbp + SlotDisp(slot);
      }
    }
  }

  lemma {:induction false} SimAssign(w: World, f: Func, s: Stmt, at: nat, brk: int, m: State, st: Env, depth: nat,
      clock: nat)
    returns (n: nat, m': State)
    requires s.Assign? && PreS(w, f, s, at, brk, m, st, depth)
    ensures PostS(w, f, m, n, m', at + SizeS(s, f.isMain), brk,
                  ExecStmt(w.p, w.DataBase(), s, st, depth, clock), clock)
    decreases clock, s, 1
  {
    hide Run, Has, World.Ok, Reserve, Vars, Encode, StoreVar, Len, CodeE, SizeE, Eval, WfE, TempsE, Trunc;
    LenE(s.e, at, w.k);
    var at1 := at + SizeE(s.e);
    HasSplit(w.c.text, at, CodeE(s.e, at, w.k), Encode(StoreVar(s.slot, s.size)));
    WorldValid(w);
    n, m' := SimE(w, f, s.e, at, m, st, depth, clock);
    var r := Eval(w.p, w.DataBase(), s.e, st, depth, clock);
    if r.Ok? {
      var m1 := m';
      RelSame(w, f, m, m1, st);
      m' := StoreSlot(w, f, s.slot, at1, m1, st, r.val);
      ReachAdd(w.c, m, n, m1, clock - r.clock, 1, m', 1);
      n := n + 1;
    }
  }

  lemma {:induction false} SimZero(w: World, f: Func, s: Stmt, at: nat, brk: int, m: State, st: Env, depth: nat,
      clock: nat)
    returns (n: nat, m': State)
    requires s.Zero? && PreS(w, f, s, at, brk, m, st, depth)
    ensures PostS(w, f, m, n, m', at + SizeS(s, f.isMain), brk,
                  ExecStmt(w.p, w.DataBase(), s, st, depth, clock), clock)
  {
    hide Run, Has, World.Ok, Reserve, Vars, Encode, ZeroCode, Exec;
    WorldValid(w);
    var a := m.rbp + SlotDisp(s.slot);
    assert w.c.Mapped(a);
    m' := ZeroSteps(w.c, m, s.slot, at);
    n := 2;
    ZeroVars(f.sizes, m, m', st, s.slot);
  }

  /** The two instructions that zero a slot. */
  lemma ZeroSteps(c: Config, m: State, slot: nat, at: nat) returns (m': State)
    requires c.Valid() && Has(c.text, at, ZeroCode(slot)) && m.rip == c.base + at && slot < MAX_VARS
      && c.Mapped(m.rbp + SlotDisp(slot))
    ensures m' == Put(m.(rax := 0), m.rbp + SlotDisp(slot), 0).(rip := m'.rip) && m'.rip == m.rip + 17
      && Reach(c, m, 2, m', 2)
  {
    hide Run, Has, Encode;
    var i := Store(RAX, SlotDisp(slot));
    HasSplit(c.text, at, Encode(MovImm(RAX, 0)), Encode(i));
    var m1 := m.(rax := 0, rip := m.rip + 10);
    ZeroExec(c, m.(rip := m.rip + 10));
    OneStep(c, m, MovImm(RAX, 0), at, m1) by { hide Exec; }
    m' := Put(m1, m.rbp + SlotDisp(slot), 0).(rip := m.rip + 17);
    StoreExec(c, m1.(rip := m1.rip + 7), RAX, SlotDisp(slot));
    OneStep(c, m1, i, at + 10, m') by { hide Exec; }
    ReachAdd(c, m, 1, m1, 1, 1, m', 1);
  }

  lemma ZeroVars(sizes: seq<Size>, m: State, m': State, st: Env, slot: nat)
    requires Vars(sizes, m, st) && slot < |sizes| && m' == Put(m.(rax := 0), m.rbp + SlotDisp(slot), 0).(rip := m'.rip)
    ensures Vars(sizes, m', st[slot := 0])
  {
    VarsUpdate(sizes, m, m', st, slot, 0);
  }

  lemma ZeroExec(c: Config, m: State)
    ensures Exec(c, MovImm(RAX, 0), m) == Go(m.(rax := 0))
  {
  }

  // ----- jumps and tests -----

  /** cmp rax, 0; je rel: skip rel bytes exactly when the condition is zero. */
  lemma TestRun(c: Config, m: State, at: nat, rel: nat, v: i64) returns (m': State)
    requires c.Valid() && Has(c.text, at, TestCode(rel)) && m.rip == c.base + at && m.rax == U(v)
    requires at + 10 + rel <= |c.text|
    ensures Reach(c, m, 2, m', 0) && Same(m, m')
    ensures m'.rip == c.base + at + 10 + (if v == 0 then rel else 0)
  {
    hide Run, Encode;
    HasSplit(c.text, at, Encode(CmpRaxZero), Encode(Je(rel)));
    var m1 := m.(flags := Compare(m.rax, 0), rip := m.rip + 4);
    TestExec(c, m.(rip := m.rip + 4), rel);
    OneStep(c, m, CmpRaxZero, at, m1) by { hide Exec; }
    m' := m1.(rip := m.rip + 10 + (if v == 0 then rel else 0));
    TestExec(c, m1.(rip := m.rip + 10), rel);
    OneStep(c, m1, Je(rel), at + 4, m') by { hide Exec; }
    ReachAdd(c, m, 1, m1, 1, 1, m', 1);
  }

  lemma TestExec(c: Config, m: State, rel: nat)
    ensures Exec(c, CmpRaxZero, m) == Go(m.(flags := Compare(m.rax, 0)))
    ensures m.flags.Some? && m.rip + rel < 0x1_0000_0000_0000_0000 ==>
              Exec(c, Je(rel), m) == Go(if m.flags.value.zf then m.(rip := m.rip + rel) else m)
  {
  }

  lemma JmpRun(c: Config, m: State, at: nat, rel: int) returns (m': State)
    requires c.Valid() && Has(c.text, at, JmpCode(rel)) && m.rip == c.base + at
    requires 0 <= at + 5 + rel <= |c.text|
    ensures Reach(c, m, 1, m', 1) && Same(m, m') && m'.rip == c.base + at + 5 + rel
  {
    hide Run, Encode;
    m' := m.(rip := m.rip + 5 + rel);
    OneStep(c, m, Jmp(rel), at, m');
  }

  lemma {:induction false} SimBreak(w: World, f: Func, at: nat, brk: int, m: State, st: Env, depth: nat, clock: nat)
    returns (m': State)
    requires PreS(w, f, Break, at, brk, m, st, depth)
    ensures PostS(w, f, m, 1, m', at + SizeS(Break, f.isMain), brk,
                  ExecStmt(w.p, w.DataBase(), Break, st, depth, clock), clock)
  {
    hide Run, Has, World.Ok, Reserve, Vars, JmpCode;
    WorldValid(w);
    m' := JmpRun(w.c, m, at, BreakRel(brk, at + 1));
    RelSame(w, f, m, m', st);
  }

  lemma {:induction false} SimReturn(w: World, f: Func, e: Expr, at: nat, brk: int, m: State, st: Env, depth: nat,
      clock: nat)
    returns (n: nat, m': State)
    requires PreS(w, f, Return(e), at, brk, m, st, depth)
    ensures PostS(w, f, m, n, m', at + SizeS(Return(e), f.isMain), brk,
                  ExecStmt(w.p, w.DataBase(), Return(e), st, depth, clock), clock)
    decreases clock, Return(e), 1
  {
    hide Run, Has, World.Ok, Reserve, Vars, Bytes, AsmLen, CodeE, SizeE, Eval, WfE, TempsE, Epilogue, ExitRax;
    LenE(e, at, w.k);
    var at1 := at + SizeE(e);
    HasSplit(w.c.text, at, CodeE(e, at, w.k), Bytes(ReturnRax(f.isMain)));
    WorldValid(w);
    n, m' := SimE(w, f, e, at, m, st, depth, clock);
    var r := Eval(w.p, w.DataBase(), e, st, depth, clock);
    if r.Ok? {
      var m1 := m';
      if f.isMain {
        var n2 := ExitRun(w.c, m1, at1);
        StopsAdd(w.c, m, n, m1, n2, Exit(r.val), clock, r.clock);
        n := n + n2;
      } else {
        var n2, m2 := Leave(w.c, m1, at1);
        ReachAdd(w.c, m, n, m1, clock - r.clock, n2, m2, 0);
        n, m' := n + n2, m2;
      }
    }
  }

  lemma {:induction false} SimDo(w: World, f: Func, e: Expr, at: nat, brk: int, m: State, st: Env, depth: nat,
      clock: nat)
    returns (n: nat, m': State)
    requires PreS(w, f, Do(e), at, brk, m, st, depth)
    ensures PostS(w, f, m, n, m', at + SizeS(Do(e), f.isMain), brk,
                  ExecStmt(w.p, w.DataBase(), Do(e), st, depth, clock), clock)
    decreases clock, Do(e), 1
  {
    hide Run, Has, World.Ok, Reserve, Vars, CodeE, SizeE, Eval, WfE, TempsE;
    n, m' := SimE(w, f, e, at, m, st, depth, clock);
    if Eval(w.p, w.DataBase(), e, st, depth, clock).Ok? {
      RelSame(w, f, m, m', st);
    }
  }

  /** A condition and its test: at the branch taken, or rel bytes further when the condition is zero. */
  ghost predicate PostTest(w: World, f: Func, m: State, n: nat, m': State, end: int, rel: nat, st: Env, r: Res<i64>,
      clock: nat) {
    match r
    case Stop(why) => Stops(w.c, m, n, why, clock)
    case Ok(v, left) =>
      && Reach(w.c, m, n, m', clock - left) && SameFrame(m, m') && Rel(w, f, m', st)
      && m'.rip == w.c.base + end + (if v == 0 then rel else 0)
  }

  lemma {:induction false} SimTest(w: World, f: Func, e: Expr, at: nat, rel: nat, m: State, st: Env, depth: nat,
      clock: nat)
    returns (n: nat, m': State)
    requires PreE(w, f, m, at, st, TempsE(e), depth) && WfE(w.p, w.dataLen, f.sizes, e)
    requires Has(w.c.text, at, CodeE(e, at, w.k)) && Has(w.c.text, at + SizeE(e), TestCode(rel))
    requires at + SizeE(e) + 10 + rel <= |w.c.text|
    ensures PostTest(w, f, m, n, m', at + SizeE(e) + 10, rel, st, Eval(w.p, w.DataBase(), e, st, depth, clock), clock)
    decreases clock, e, 3
  {
    hide Run, Has, World.Ok, Reserve, Vars, CodeE, SizeE, Eval, WfE, TempsE, TestCode;
    WorldValid(w);
    n, m' := SimE(w, f, e, at, m, st, depth, clock);
    var r := Eval(w.p, w.DataBase(), e, st, depth, clock);
    if r.Ok? {
      var m1 := m';
      m' := TestRun(w.c, m1, at + SizeE(e), rel, r.val);
      ReachAdd(w.c, m, n, m1, clock - r.clock, 2, m', 0);
      n := n + 2;
      RelSame(w, f, m, m', st);
    }
  }

  lemma {:induction false} SimIf(w: World, f: Func, e: Expr, t: Stmt, at: nat, brk: int, m: State, st: Env,
      depth: nat, clock: nat)
    returns (n: nat, m': State)
    requires PreS(w, f, If(e, t), at, brk, m, st, depth)
    ensures PostS(w, f, m, n, m', at + SizeS(If(e, t), f.isMain), brk,
                  ExecStmt(w.p, w.DataBase(), If(e, t), st, depth, clock), clock)
    decreases clock, If(e, t), 1
  {
    hide Run, Has, World.Ok, Reserve, Rel, CodeE, SizeE, Eval, WfE, TempsE, TestCode, CodeS, SizeS, TempsS, WfS,
         ExecStmt;
    WorldValid(w);
    UnfoldIf(w, f, e, t, at, Ctx(brk, f.isMain, w.k), brk >= 0);
    UnfoldExecIf(w.p, w.DataBase(), e, t, st, depth, clock);
    var ctx := Ctx(brk, f.isMain, w.k);
    var at1 := at + SizeE(e) + 10;
    var ct := CodeS(t, at1, ctx);
    LenE(e, at, w.k);
    LenS(t, at1, ctx);
    SplitIf(w.c.text, at, CodeE(e, at, w.k), ct);
    n, m' := SimTest(w, f, e, at, |ct|, m, st, depth, clock);
    var r := Eval(w.p, w.DataBase(), e, st, depth, clock);
    if r.Ok? && r.val != 0 {
      var m1 := m';
      var n2, m2 := SimS(w, f, t, at1, brk, m1, st, depth, r.clock);
      PostChain(w, f, m, n, m1, n2, m2, at + SizeS(If(e, t), f.isMain), brk,
                ExecStmt(w.p, w.DataBase(), t, st, depth, r.clock), clock, r.clock);
      n, m' := n + n2, m2;
    }
  }

  lemma SplitIf(text: seq<byte>, at: int, ce: seq<byte>, ct: seq<byte>)
    requires Has(text, at, IfCode(ce, ct))
    ensures Has(text, at, ce) && Has(text, at + |ce|, TestCode(|ct|)) && Has(text, at + |ce| + 10, ct)
    ensures at + |ce| + 10 + |ct| <= |text|
  {
    hide Has, TestCode, JmpCode;
    HasSplit(text, at, ce, TestCode(|ct|) + ct);
    HasSplit(text, at + |ce|, TestCode(|ct|), ct);
  }

  lemma SplitIfElse(text: seq<byte>, at: int, ce: seq<byte>, ct: seq<byte>, cf: seq<byte>)
    requires Has(text, at, IfElseCode(ce, ct, cf))
    ensures Has(text, at, ce) && Has(text, at + |ce|, TestCode(|ct| + 5)) && Has(text, at + |ce| + 10, ct)
    ensures Has(text, at + |ce| + 10 + |ct|, JmpCode(|cf|)) && Has(text, at + |ce| + 15 + |ct|, cf)
    ensures at + |ce| + 15 + |ct| + |cf| <= |text|
  {
    hide Has, TestCode, JmpCode;
    HasSplit(text, at, ce, TestCode(|ct| + 5) + (ct + (JmpCode(|cf|) + cf)));
    HasSplit(text, at + |ce|, TestCode(|ct| + 5), ct + (JmpCode(|cf|) + cf));
    HasSplit(text, at + |ce| + 10, ct, JmpCode(|cf|) + cf);
    HasSplit(text, at + |ce| + 10 + |ct|, JmpCode(|cf|), cf);
  }

  lemma SplitWhile(text: seq<byte>, at: int, ce: seq<byte>, cb: seq<byte>)
    requires Has(text, at, WhileCode(ce, cb))
    ensures Has(text, at, ce) && Has(text, at + |ce|, TestCode(|cb| + 5)) && Has(text, at + |ce| + 10, cb)
    ensures Has(text, at + |ce| + 10 + |cb|, JmpCode(-15 - |ce| - |cb|))
    ensures at + |ce| + 15 + |cb| <= |text|
  {
    hide Has, TestCode, JmpCode;
    HasSplit(text, at, ce, TestCode(|cb| + 5) + (cb + JmpCode(-15 - |ce| - |cb|)));
    HasSplit(text, at + |ce|, TestCode(|cb| + 5), cb + JmpCode(-15 - |ce| - |cb|));
    HasSplit(text, at + |ce| + 10, cb, JmpCode(-15 - |ce| - |cb|));
  }

  lemma {:induction false} SimIfElse(w: World, f: Func, e: Expr, t: Stmt, u: Stmt, at: nat, brk: int, m: State,
      st: Env, depth: nat, clock: nat)
    returns (n: nat, m': State)
    requires PreS(w, f, IfElse(e, t, u), at, brk, m, st, depth)
    ensures PostS(w, f, m, n, m', at + SizeS(IfElse(e, t, u), f.isMain), brk,
                  ExecStmt(w.p, w.DataBase(), IfElse(e, t, u), st, depth, clock), clock)
    decreases clock, IfElse(e, t, u), 1
  {
    hide Run, Has, World.Ok, Reserve, Rel, CodeE, SizeE, Eval, WfE, TempsE, TestCode, JmpCode, CodeS, SizeS, TempsS,
         WfS, ExecStmt;
    var ctx := Ctx(brk, f.isMain, w.k);
    WorldValid(w);
    UnfoldIfElse(w, f, e, t, u, at, ctx, brk >= 0);
    UnfoldExecIfElse(w.p, w.DataBase(), e, t, u, st, depth, clock);
    var at1 := at + SizeE(e) + 10;
    var ct := CodeS(t, at1, ctx);
    var at2 := at1 + SizeS(t, f.isMain) + 5;
    var cf := CodeS(u, at2, ctx);
    var end := at + SizeS(IfElse(e, t, u), f.isMain);
    LenE(e, at, w.k);
    LenS(t, at1, ctx);
    LenS(u, at2, ctx);
    SplitIfElse(w.c.text, at, CodeE(e, at, w.k), ct, cf);
    n, m' := SimTest(w, f, e, at, |ct| + 5, m, st, depth, clock);
    var r := Eval(w.p, w.DataBase(), e, st, depth, clock);
    if r.Ok? {
      var m1 := m';
      if r.val != 0 {
        var n2, m2 := SimS(w, f, t, at1, brk, m1, st, depth, r.clock);
        var q := ExecStmt(w.p, w.DataBase(), t, st, depth, r.clock);
        var n3, m3 := SkipElse(w, f, m1, n2, m2, at2 - 5, |cf|, brk, q, r.clock);
        PostChain(w, f, m, n, m1, n3, m3, end, brk, q, clock, r.clock);
        n, m' := n + n3, m3;
      } else {
        var n2, m2 := SimS(w, f, u, at2, brk, m1, st, depth, r.clock);
        PostChain(w, f, m, n, m1, n2, m2, end, brk,
                  ExecStmt(w.p, w.DataBase(), u, st, depth, r.clock), clock, r.clock);
        n, m' := n + n2, m2;
      }
    }
  }

  /** The jump over the else branch. */
  lemma {:induction false} SkipElse(w: World, f: Func, m: State, n: nat, m1: State, at: nat, rel: nat, brk: int,
      q: Res<Flow>, clock: nat)
    returns (n': nat, m': State)
    requires w.Ok() && Has(w.c.text, at, JmpCode(rel)) && at + 5 + rel <= |w.c.text|
    requires PostS(w, f, m, n, m1, at, brk, q, clock)
    ensures PostS(w, f, m, n', m', at + 5 + rel, brk, q, clock)
  {
    hide Run, Has, World.Ok, Reserve, Vars, JmpCode;
    n', m' := n, m1;
    if q.Ok? && q.val.Norm? {
      WorldValid(w);
      m' := JmpRun(w.c, m1, at, rel);
      ReachAdd(w.c, m, n, m1, clock - q.clock, 1, m', 1);
      RelSame(w, f, m1, m', q.val.st);
      n' := n + 1;
    }
  }

  lemma {:induction false} SimWhile(w: World, f: Func, e: Expr, b: Stmt, at: nat, brk: int, m: State, st: Env,
      depth: nat, clock: nat)
    returns (n: nat, m': State)
    requires PreS(w, f, While(e, b), at, brk, m, st, depth)
    ensures PostS(w, f, m, n, m', at + SizeS(While(e, b), f.isMain), brk,
                  ExecStmt(w.p, w.DataBase(), While(e, b), st, depth, clock), clock)
    decreases clock, While(e, b), 1
  {
    hide Run, Has, World.Ok, Reserve, Vars, CodeE, SizeE, Eval, WfE, TempsE, TestCode, JmpCode, CodeS, SizeS, TempsS,
         WfS, ExecStmt;
    WorldValid(w);
    UnfoldWhile(w, f, e, b, at, Ctx(brk, f.isMain, w.k), brk >= 0);
    UnfoldExecWhile(w.p, w.DataBase(), e, b, st, depth, clock);
    var end := at + SizeS(While(e, b), f.isMain);
    var ctx := Ctx(end, f.isMain, w.k);
    var at1 := at + SizeE(e) + 10;
    var cb := CodeS(b, at1, ctx);
    LenE(e, at, w.k);
    LenS(b, at1, ctx);
    SplitWhile(w.c.text, at, CodeE(e, at, w.k), cb);
    n, m' := SimTest(w, f, e, at, |cb| + 5, m, st, depth, clock);
    var r := Eval(w.p, w.DataBase(), e, st, depth, clock);
    if r.Ok? && r.val != 0 {
      var m1 := m';
      var n2, m2 := SimS(w, f, b, at1, end, m1, st, depth, r.clock);
      var q := ExecStmt(w.p, w.DataBase(), b, st, depth, r.clock);
      PostChain(w, f, m, n, m1, n2, m2, end - 5, end, q, clock, r.clock);
      n, m' := n + n2, m2;
      if q.Ok? && q.val.Norm? {
        WorldValid(w);
        var m3 := JmpRun(w.c, m2, end - 5, at - end);
        ReachAdd(w.c, m, n, m2, clock - q.clock, 1, m3, 1);
        RelSame(w, f, m2, m3, q.val.st);
        n, m' := n + 1, m3;
        if q.clock > 0 {
          var n4, m4 := SimS(w, f, While(e, b), at, brk, m3, q.val.st, depth, q.clock - 1);
          PostChain(w, f, m, n, m3, n4, m4, end, brk,
                    ExecStmt(w.p, w.DataBase(), While(e, b), q.val.st, depth, q.clock - 1), clock, q.clock - 1);
          n, m' := n + n4, m4;
        }
      }
    }
  }
}
