/** Building blocks of the simulation: leaves, operators and the calling sequence. */
module SimExpr {
  import opened Words
  import opened X86
  import opened Machine
  import opened OreLang
  import opened Codegen
  import opened Straight
  import opened Frames

  /** What running the code of an expression achieves; end is the offset behind the code. */
  ghost predicate PostE(w: World, m: State, n: nat, m': State, end: int, r: Res<i64>, clock: nat) {
    match r
    case Ok(v, left) =>
      Reach(w.c, m, n, m', clock - left) && m'.rip == w.c.base + end && m'.rax == U(v) && Same(m, m')
    case Stop(why) => Stops(w.c, m, n, why, clock)
  }

  lemma OneStep(c: Config, m: State, i: Instr, at: int, m': State)
    requires c.Valid() && Encodable(i) && Has(c.text, at, Encode(i)) && m.rip == c.base + at
    requires Exec(c, i, m.(rip := m.rip + Len(i))) == Go(m')
    ensures Reach(c, m, 1, m', 1)
  {
    hide Step, Exec, Encode, Len, Encodable;
    StepAt(c, m, i, at);
    assert Run(c, m', 0) == Go(m');
  }

  /** A plain list that runs through takes the machine behind it. */
  lemma RunThrough(c: Config, m: State, a: Asm, at: int) returns (n: nat, m': State)
    requires c.Valid() && AllPlain(a) && Has(c.text, at, Bytes(a)) && m.rip == c.base + at
    requires Effect(c, a, m).Go?
    ensures m.rip + AsmLen(a) < 0x1_0000_0000_0000_0000
    ensures Reach(c, m, n, m', 0) && m' == Effect(c, a, m).s.(rip := m.rip + AsmLen(a))
  {
    hide Effect, Bytes, AsmLen, AllPlain, Run;
    RunAsm(c, m, a, at);
    n := Count(a);
    m' := Effect(c, a, m).s.(rip := m.rip + AsmLen(a));
  }

  lemma PushRax(c: Config, m: State, at: int) returns (m': State)
    requires c.Valid() && Has(c.text, at, Encode(Push(RAX))) && m.rip == c.base + at
    requires m.rsp % 8 == 0 && c.low + 8 <= m.rsp <= c.high
    ensures Reach(c, m, 1, m', 1) && m'.rip == c.base + at + 1
    ensures m'.rsp == m.rsp - 8 && m'.rbp == m.rbp && Cell(m'.mem, m'.rsp) == m.rax && Kept(m, m', m.rsp)
  {
    hide Encode;
    m' := Put(m, m.rsp - 8, m.rax).(rsp := m.rsp - 8, rip := m.rip + 1);
    OneStep(c, m, Push(RAX), at, m');
  }

  /** Literals, string addresses and variables. */
  lemma SimLeaf(w: World, f: Func, e: Expr, at: nat, m: State, st: Env, depth: nat, clock: nat)
    returns (n: nat, m': State)
    requires w.Base() && WfE(w.p, w.dataLen, f.sizes, e) && |f.sizes| <= MAX_VARS
    requires e.Num? || e.Data? || e.Var?
    requires Has(w.c.text, at, CodeE(e, at, w.k)) && m.rip == w.c.base + at && Rel(w, f, m, st)
    ensures PostE(w, m, n, m', at + SizeE(e), Eval(w.p, w.DataBase(), e, st, depth, clock), clock)
  {
    hide Encode, Run;
    n, m' := 1, m;
    match e
    case Num(v) =>
      m' := m.(rax := v, rip := m.rip + 10);
      OneStep(w.c, m, MovImm(RAX, v), at, m');
      UnsignedRoundTrip(v);
    case Data(off) =>
      var d := DataRel(w.k, off, at + 3);
      m' := m.(rax := U(m.rip + 7 + d), rip := m.rip + 7);
      OneStep(w.c, m, LeaRip(d), at, m');
      UnsignedRoundTrip(m'.rax);
    case Var(slot, size) =>
      if slot in st {
        m' := LoadSlot(w, f, slot, at, m);
      }
  }

  lemma LoadSlot(w: World, f: Func, slot: nat, at: nat, m: State) returns (m': State)
    requires w.Base() && slot < |f.sizes| <= MAX_VARS && InFrame(w.c, |f.sizes|, m) && m.rip == w.c.base + at
    requires Has(w.c.text, at, Encode(LoadVar(slot, f.sizes[slot])))
    ensures Reach(w.c, m, 1, m', 1) && m'.rip == m.rip + Len(LoadVar(slot, f.sizes[slot])) && Same(m, m')
    ensures m'.rax == LowPart(Cell(m.mem, m.rbp + SlotDisp(slot)), f.sizes[slot])
  {
    hide Encode, Run;
    var i := LoadVar(slot, f.sizes[slot]);
    var a := m.rbp + SlotDisp(slot);
    assert w.c.Mapped(a);
    m' := m.(rax := LowPart(Cell(m.mem, a), f.sizes[slot]), rip := m.rip + Len(i));
    OneStep(w.c, m, i, at, m');
  }

  /** The operator's own code, once the operands are in place. */
  lemma BinTail(c: Config, op: BinOp, m: State, at: int, x: i64, y: i64) returns (n: nat, m': State)
    requires c.Valid() && Has(c.text, at, Bytes(BinAsm(op))) && m.rip == c.base + at && Operands(c, m, x, y)
    ensures var v := EvalBin(op, x, y);
            if v.Some? then
              Reach(c, m, n, m', 0) && m'.rip == c.base + at + AsmLen(BinAsm(op)) && Popped(m, m', v.value)
            else Run(c, m, n) == DivideError
  {
    hide BinAsm, AsmLen, Bytes, Effect, EvalBin, AllPlain, Run;
    BinPlain(op);
    BinEffect(c, op, m, x, y);
    m' := m;
    if EvalBin(op, x, y).Some? {
      n, m' := RunThrough(c, m, BinAsm(op), at);
    } else {
      RunAsm(c, m, BinAsm(op), at);
      n := Count(BinAsm(op));
    }
  }

  lemma UnTail(c: Config, op: UnOp, m: State, at: int, x: i64) returns (n: nat, m': State)
    requires c.Valid() && Has(c.text, at, Bytes(UnAsm(op))) && m.rip == c.base + at && m.rax == U(x)
    ensures Reach(c, m, n, m', 0) && m'.rip == c.base + at + AsmLen(UnAsm(op))
    ensures m'.rax == U(EvalUn(op, x)) && Same(m, m')
  {
    hide UnAsm, AsmLen, Bytes, Effect, EvalUn, AllPlain, Run;
    UnPlain(op);
    UnEffect(c, op, m, x);
    n, m' := RunThrough(c, m, UnAsm(op), at);
  }

  // ----- calling sequence -----

  /** The pushed arguments: the last one is on top. */
  ghost predicate Pushed(c: Config, m: State, vals: seq<i64>) {
    && m.rsp % 8 == 0 && c.low <= m.rsp && m.rsp + 8 * |vals| <= c.high
    && forall i :: 0 <= i < |vals| ==> Cell(m.mem, m.rsp + 8 * (|vals| - 1 - i)) == U(vals[i])
  }

  /** Argument i is in its register. */
  ghost predicate Loaded(m: State, vals: seq<i64>) {
    |vals| <= MAX_PARAMS && forall i :: 0 <= i < |vals| ==> Get(m, ArgReg(i)) == U(vals[i])
  }

  lemma {:induction false} PopArgsEffect(c: Config, m: State, vals: seq<i64>)
    requires c.Valid() && Pushed(c, m, vals) && |vals| <= MAX_PARAMS
    ensures var o := Effect(c, PopArgs(|vals|), m);
            && o.Go? && o.s.rsp == m.rsp + 8 * |vals| && o.s.rbp == m.rbp && o.s.rbx == m.rbx && o.s.mem == m.mem
            && Loaded(o.s, vals)
            && forall j :: |vals| <= j < MAX_PARAMS ==> Get(o.s, ArgReg(j)) == Get(m, ArgReg(j))
    decreases |vals|
  {
    hide Exec, Get, Set, Effect, Plain, Encodable, Loaded, U;
    EffectEnd(c);
    LoadedNone(m);
    var n := |vals|;
    if n > 0 {
      var r := ArgReg(n - 1);
      PopFrame(m, r, U(vals[n - 1]));
      var m1 := Set(m.(rsp := m.rsp + 8), r, U(vals[n - 1]));
      assert Cell(m.mem, m.rsp + 8 * (n - 1 - (n - 1))) == U(vals[n - 1]);
      PopExec(c, m, r, U(vals[n - 1]));
      EffectStep(c, Pop(r), PopArgs(n - 1), m, m1);
      PushedTail(c, m, m1, vals);
      PopArgsEffect(c, m1, vals[..n - 1]);
      var s := Effect(c, PopArgs(n - 1), m1).s;
      assert Get(s, ArgReg(n - 1)) == U(vals[n - 1]);
      LoadedMore(s, vals);
    }
  }

  lemma LoadedNone(m: State)
    ensures Loaded(m, [])
  {
  }

  lemma PushedTail(c: Config, m: State, m1: State, vals: seq<i64>)
    requires Pushed(c, m, vals) && vals != [] && m1.rsp == m.rsp + 8 && m1.mem == m.mem
    ensures Pushed(c, m1, vals[..|vals| - 1])
  {
    var n, tl := |vals|, vals[..|vals| - 1];
    forall i | 0 <= i < n - 1 ensures Cell(m1.mem, m1.rsp + 8 * (n - 2 - i)) == U(tl[i]) {
      assert Cell(m.mem, m.rsp + 8 * (n - 1 - i)) == U(vals[i]);
    }
  }

  lemma LoadedMore(s: State, vals: seq<i64>)
    requires vals != [] && |vals| <= MAX_PARAMS && Loaded(s, vals[..|vals| - 1])
      && Get(s, ArgReg(|vals| - 1)) == U(vals[|vals| - 1])
    ensures Loaded(s, vals)
  {
    hide Get, ArgReg;
    forall i | 0 <= i < |vals| ensures Get(s, ArgReg(i)) == U(vals[i]) {
      if i < |vals| - 1 { assert vals[..|vals| - 1][i] == vals[i]; }
    }
  }

  lemma {:induction false} PopArgsPlain(n: nat)
    ensures AllPlain(PopArgs(n))
  {
    if n > 0 {
      PopArgsPlain(n - 1);
    }
  }

  /** What popping into an argument register changes. */
  lemma PopFrame(m: State, r: Reg, v: u64)
    requires r != RSP && r != RBP && r != RBX && m.rsp + 8 < 0x1_0000_0000_0000_0000
    ensures var s := Set(m.(rsp := m.rsp + 8), r, v);
            && s.rsp == m.rsp + 8 && s.rbp == m.rbp && s.rbx == m.rbx && s.mem == m.mem && Get(s, r) == v
            && forall q :: q != r && q != RSP ==> Get(s, q) == Get(m, q)
  {
  }

  lemma PopExec(c: Config, m: State, r: Reg, v: u64)
    requires c.Mapped(m.rsp) && m.rsp + 8 < 0x1_0000_0000_0000_0000 && Cell(m.mem, m.rsp) == v
    ensures Exec(c, Pop(r), m) == Go(Set(m.(rsp := m.rsp + 8), r, v))
  {
  }
}
