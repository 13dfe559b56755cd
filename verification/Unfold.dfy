/** One-step unfoldings of the recursive definitions, so that the simulation need not unfold them itself. */
module Unfold {
  import opened Words
  import opened X86
  import opened OreLang
  import opened Codegen
  import opened Frames

  lemma UnfoldBin(w: World, f: Func, op: BinOp, a: Expr, b: Expr, at: nat)
    ensures CodeE(Bin(op, a, b), at, w.k) ==
            CodeE(a, at, w.k) + (Encode(Push(RAX)) + (CodeE(b, at + SizeE(a) + 1, w.k) + Bytes(BinAsm(op))))
    ensures SizeE(Bin(op, a, b)) == SizeE(a) + 1 + SizeE(b) + AsmLen(BinAsm(op))
    ensures TempsE(Bin(op, a, b)) == Max(TempsE(a), 1 + TempsE(b))
    ensures WfE(w.p, w.dataLen, f.sizes, Bin(op, a, b))
        <==> WfE(w.p, w.dataLen, f.sizes, a) && WfE(w.p, w.dataLen, f.sizes, b)
  {
    hide Encode, Bytes, BinAsm, AsmLen;
  }

  lemma UnfoldCall(w: World, f: Func, fn: nat, args: Args, at: nat)
    ensures var pops := PopArgs(ArgCount(args));
            && CodeE(Call(fn, args), at, w.k)
               == CodeA(args, at, w.k)
                  + (Bytes(pops) + Encode(CallNear(CallRel(w.k, fn, at + SizeA(args) + AsmLen(pops) + 1))))
            && SizeE(Call(fn, args)) == SizeA(args) + AsmLen(pops) + 5
    ensures TempsE(Call(fn, args)) == TempsA(args)
    ensures WfE(w.p, w.dataLen, f.sizes, Call(fn, args))
        <==> fn < |w.p| && ArgCount(args) == w.p[fn].argc && WfA(w.p, w.dataLen, f.sizes, args)
  {
    hide Encode, Bytes, PopArgs, AsmLen;
  }

  lemma UnfoldArg(w: World, f: Func, e: Expr, tl: Args, at: nat)
    ensures CodeA(Arg(e, tl), at, w.k) ==
            CodeE(e, at, w.k) + (Encode(Push(RAX)) + CodeA(tl, at + SizeE(e) + 1, w.k))
    ensures SizeA(Arg(e, tl)) == SizeE(e) + 1 + SizeA(tl)
    ensures TempsA(Arg(e, tl)) == Max(TempsE(e), 1 + TempsA(tl))
    ensures WfA(w.p, w.dataLen, f.sizes, Arg(e, tl))
        <==> WfE(w.p, w.dataLen, f.sizes, e) && WfA(w.p, w.dataLen, f.sizes, tl)
  {
    ArgCode(e, tl, at, w.k);
    ArgNeeds(w.p, w.dataLen, f.sizes, e, tl);
    hide *;
  }

  lemma ArgCode(e: Expr, tl: Args, at: nat, k: Links)
    ensures CodeA(Arg(e, tl), at, k) == CodeE(e, at, k) + (Encode(Push(RAX)) + CodeA(tl, at + SizeE(e) + 1, k))
    ensures SizeA(Arg(e, tl)) == SizeE(e) + 1 + SizeA(tl)
  {
    hide Encode, CodeE, SizeE;
  }

  lemma ArgNeeds(p: Program, dataLen: nat, sizes: seq<Size>, e: Expr, tl: Args)
    ensures TempsA(Arg(e, tl)) == Max(TempsE(e), 1 + TempsA(tl))
    ensures WfA(p, dataLen, sizes, Arg(e, tl)) <==> WfE(p, dataLen, sizes, e) && WfA(p, dataLen, sizes, tl)
  {
    hide TempsE, WfE;
  }

  lemma UnfoldSeq(w: World, f: Func, a: Stmt, b: Stmt, at: nat, c: Ctx, inLoop: bool)
    ensures CodeS(Seq(a, b), at, c) == CodeS(a, at, c) + CodeS(b, at + SizeS(a, c.main), c)
    ensures SizeS(Seq(a, b), c.main) == SizeS(a, c.main) + SizeS(b, c.main)
    ensures TempsS(Seq(a, b)) == Max(TempsS(a), TempsS(b))
    ensures WfS(w.p, w.dataLen, f.sizes, Seq(a, b), inLoop)
        <==> WfS(w.p, w.dataLen, f.sizes, a, inLoop) && WfS(w.p, w.dataLen, f.sizes, b, inLoop)
  {
    SeqBytes(a, b, at, c);
    SeqSize(a, b, c.main);
    SeqNeeds(w.p, w.dataLen, f.sizes, a, b, inLoop);
    hide *;
  }

  lemma UnfoldIf(w: World, f: Func, e: Expr, t: Stmt, at: nat, c: Ctx, inLoop: bool)
    ensures CodeS(If(e, t), at, c) == IfCode(CodeE(e, at, c.k), CodeS(t, at + SizeE(e) + 10, c))
    ensures SizeS(If(e, t), c.main) == SizeE(e) + 10 + SizeS(t, c.main)
    ensures TempsS(If(e, t)) == Max(TempsE(e), TempsS(t))
    ensures WfS(w.p, w.dataLen, f.sizes, If(e, t), inLoop)
        <==> WfE(w.p, w.dataLen, f.sizes, e) && WfS(w.p, w.dataLen, f.sizes, t, inLoop)
  {
    IfBytes(e, t, at, c);
    IfSize(e, t, c.main);
    IfNeeds(w.p, w.dataLen, f.sizes, e, t, inLoop);
    hide *;
  }

  lemma UnfoldIfElse(w: World, f: Func, e: Expr, t: Stmt, u: Stmt, at: nat, c: Ctx, inLoop: bool)
    ensures var t0 := at + SizeE(e) + 10;
            CodeS(IfElse(e, t, u), at, c) ==
            IfElseCode(CodeE(e, at, c.k), CodeS(t, t0, c), CodeS(u, t0 + SizeS(t, c.main) + 5, c))
    ensures SizeS(IfElse(e, t, u), c.main) == SizeE(e) + 10 + SizeS(t, c.main) + 5 + SizeS(u, c.main)
    ensures TempsS(IfElse(e, t, u)) == Max(TempsE(e), Max(TempsS(t), TempsS(u)))
    ensures WfS(w.p, w.dataLen, f.sizes, IfElse(e, t, u), inLoop)
        <==> WfE(w.p, w.dataLen, f.sizes, e)
             && WfS(w.p, w.dataLen, f.sizes, t, inLoop) && WfS(w.p, w.dataLen, f.sizes, u, inLoop)
  {
    IfElseBytes(e, t, u, at, c);
    IfElseSize(e, t, u, c.main);
    IfElseNeeds(w.p, w.dataLen, f.sizes, e, t, u, inLoop);
    hide *;
  }

  lemma UnfoldWhile(w: World, f: Func, e: Expr, b: Stmt, at: nat, c: Ctx, inLoop: bool)
    ensures var size := SizeS(While(e, b), c.main);
            CodeS(While(e, b), at, c) ==
            WhileCode(CodeE(e, at, c.k), CodeS(b, at + SizeE(e) + 10, c.(brk := at + size)))
    ensures SizeS(While(e, b), c.main) == SizeE(e) + 10 + SizeS(b, c.main) + 5
    ensures TempsS(While(e, b)) == Max(TempsE(e), TempsS(b))
    ensures WfS(w.p, w.dataLen, f.sizes, While(e, b), inLoop)
        <==> WfE(w.p, w.dataLen, f.sizes, e) && WfS(w.p, w.dataLen, f.sizes, b, true)
  {
    WhileBytes(e, b, at, c);
    WhileSize(e, b, c.main);
    WhileNeeds(w.p, w.dataLen, f.sizes, e, b, inLoop);
    hide *;
  }

  // What statements need of the stack and of their names.

  lemma SeqNeeds(p: Program, dataLen: nat, sizes: seq<Size>, a: Stmt, b: Stmt, inLoop: bool)
    ensures TempsS(Seq(a, b)) == Max(TempsS(a), TempsS(b))
    ensures WfS(p, dataLen, sizes, Seq(a, b), inLoop) <==>
      WfS(p, dataLen, sizes, a, inLoop) && WfS(p, dataLen, sizes, b, inLoop)
  {
    hide TempsE, WfE;
  }

  lemma IfNeeds(p: Program, dataLen: nat, sizes: seq<Size>, e: Expr, t: Stmt, inLoop: bool)
    ensures TempsS(If(e, t)) == Max(TempsE(e), TempsS(t))
    ensures WfS(p, dataLen, sizes, If(e, t), inLoop) <==> WfE(p, dataLen, sizes, e) && WfS(p, dataLen, sizes, t, inLoop)
  {
    hide TempsE, WfE;
  }

  lemma IfElseNeeds(p: Program, dataLen: nat, sizes: seq<Size>, e: Expr, t: Stmt, u: Stmt, inLoop: bool)
    ensures TempsS(IfElse(e, t, u)) == Max(TempsE(e), Max(TempsS(t), TempsS(u)))
    ensures WfS(p, dataLen, sizes, IfElse(e, t, u), inLoop)
        <==> WfE(p, dataLen, sizes, e) && WfS(p, dataLen, sizes, t, inLoop) && WfS(p, dataLen, sizes, u, inLoop)
  {
    hide TempsE, WfE;
  }

  lemma WhileNeeds(p: Program, dataLen: nat, sizes: seq<Size>, e: Expr, b: Stmt, inLoop: bool)
    ensures TempsS(While(e, b)) == Max(TempsE(e), TempsS(b))
    ensures WfS(p, dataLen, sizes, While(e, b), inLoop) <==>
      WfE(p, dataLen, sizes, e) && WfS(p, dataLen, sizes, b, true)
  {
    hide TempsE, WfE;
  }

  lemma UnfoldEvalBin(p: Program, db: u64, op: BinOp, a: Expr, b: Expr, st: Env, depth: nat, clock: nat)
    ensures var r := Eval(p, db, a, st, depth, clock);
            Eval(p, db, Bin(op, a, b), st, depth, clock) ==
            if r.Stop? then r
            else
              var q := Eval(p, db, b, st, depth, r.clock);
              if q.Stop? then q
              else
                var v := EvalBin(op, r.val, q.val);
                if v.None? then Stop(DivTrap) else Ok(v.value, q.clock)
  {
    hide EvalBin;
  }

  lemma UnfoldEvalArg(p: Program, db: u64, e: Expr, tl: Args, st: Env, depth: nat, clock: nat)
    ensures var r := Eval(p, db, e, st, depth, clock);
            EvalArgs(p, db, Arg(e, tl), st, depth, clock) ==
            if r.Stop? then Stop(r.why)
            else
              var q := EvalArgs(p, db, tl, st, depth, r.clock);
              if q.Stop? then q else Ok([r.val] + q.val, q.clock)
  {
  }

  lemma UnfoldEvalCall(p: Program, db: u64, fn: nat, args: Args, st: Env, depth: nat, clock: nat)
    requires fn < |p| && p[fn].argc == ArgCount(args) && p[fn].argc <= |p[fn].sizes|
    ensures var r := EvalArgs(p, db, args, st, depth, clock);
            Eval(p, db, Call(fn, args), st, depth, clock) ==
            if r.Stop? then Stop(r.why)
            else if depth == 0 then Stop(TooDeep)
            else if r.clock == 0 then Stop(Timeout)
            else Finish(p[fn], ExecStmt(p, db, p[fn].body, Bind(r.val, p[fn].sizes), depth - 1, r.clock - 1))
  {
    hide Finish, Bind;
  }

  lemma UnfoldExecSeq(p: Program, db: u64, a: Stmt, b: Stmt, st: Env, depth: nat, clock: nat)
    ensures var r := ExecStmt(p, db, a, st, depth, clock);
            ExecStmt(p, db, Seq(a, b), st, depth, clock) ==
            if r.Stop? || !r.val.Norm? then r else ExecStmt(p, db, b, r.val.st, depth, r.clock)
  {
  }

  lemma UnfoldExecIf(p: Program, db: u64, c: Expr, t: Stmt, st: Env, depth: nat, clock: nat)
    ensures var r := Eval(p, db, c, st, depth, clock);
            ExecStmt(p, db, If(c, t), st, depth, clock) ==
            if r.Stop? then Stop(r.why)
            else if r.val != 0 then ExecStmt(p, db, t, st, depth, r.clock)
            else Ok(Norm(st), r.clock)
  {
    hide Eval;
  }

  lemma UnfoldExecIfElse(p: Program, db: u64, c: Expr, t: Stmt, e: Stmt, st: Env, depth: nat, clock: nat)
    ensures var r := Eval(p, db, c, st, depth, clock);
            ExecStmt(p, db, IfElse(c, t, e), st, depth, clock) ==
            if r.Stop? then Stop(r.why)
            else if r.val != 0 then ExecStmt(p, db, t, st, depth, r.clock)
            else ExecStmt(p, db, e, st, depth, r.clock)
  {
    hide Eval;
  }

  lemma UnfoldExecWhile(p: Program, db: u64, c: Expr, b: Stmt, st: Env, depth: nat, clock: nat)
    ensures var r := Eval(p, db, c, st, depth, clock);
            ExecStmt(p, db, While(c, b), st, depth, clock) ==
            if r.Stop? then Stop(r.why)
            else if r.val == 0 then Ok(Norm(st), r.clock)
            else
              var q := ExecStmt(p, db, b, st, depth, r.clock);
              if q.Stop? || q.val.Ret? then q
              else if q.val.Brk? then Ok(Norm(q.val.st), q.clock)
              else if q.clock == 0 then Stop(Timeout)
              else ExecStmt(p, db, While(c, b), q.val.st, depth, q.clock - 1)
  {
    hide Eval;
  }
}
