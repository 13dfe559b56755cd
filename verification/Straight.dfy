/** Running straight-line instruction lists, and what the lists used for operators compute. */
module Straight {
  import opened Words
  import opened X86
  import opened Machine
  import opened OreLang
  import opened Codegen

  /** Instructions that neither read nor write rip. */
  predicate Plain(i: Instr) {
    !(i.LeaRip? || i.CallNear? || i.Jmp? || i.Je? || i.RetNear?)
  }

  predicate AllPlain(a: Asm) {
    match a
    case End => true
    case Then(i, tl) => Plain(i) && Encodable(i) && AllPlain(tl)
  }

  function Count(a: Asm): nat {
    match a
    case End => 0
    case Then(_, tl) => 1 + Count(tl)
  }

  /** The effect of a plain list on everything but rip. */
  function Effect(c: Config, a: Asm, m: State): Outcome
    decreases a
  {
    match a
    case End => Go(m)
    case Then(i, tl) =>
      var o := Exec(c, i, m);
      if o.Go? then Effect(c, tl, o.s) else o
  }

  function WithRip(o: Outcome, rip: u64): Outcome {
    if o.Go? then Go(o.s.(rip := rip)) else o
  }

  lemma SetIgnoresRip(m: State, r: Reg, v: u64, rip: u64)
    ensures Set(m.(rip := rip), r, v) == Set(m, r, v).(rip := rip)
    ensures Get(m.(rip := rip), r) == Get(m, r)
  {
  }

  /** Instructions that name a register. */
  predicate Named(i: Instr) {
    i.Push? || i.Pop? || i.MovRR? || i.Alu? || i.Load? || i.Store? || i.MovImm?
  }

  lemma ExecIgnoresRip(c: Config, i: Instr, m: State, rip: u64)
    requires Plain(i)
    ensures Exec(c, i, m.(rip := rip)) == WithRip(Exec(c, i, m), rip)
  {
    hide Exec;
    if Named(i) { NamedIgnoresRip(c, i, m, rip); } else if i.IdivRbx? { DivIgnoresRip(c, m, rip); }
      else { FixedIgnoresRip(c, i, m, rip); }
  }

  lemma NamedIgnoresRip(c: Config, i: Instr, m: State, rip: u64)
    requires Named(i)
    ensures Exec(c, i, m.(rip := rip)) == WithRip(Exec(c, i, m), rip)
  {
    hide Config.Mapped, U, S, Set, Get, ExecAlu;
    match i
    case Push(r) => SetIgnoresRip(m, r, 0, rip);
    case Pop(r) => SetIgnoresRip(m.(rsp := U(m.rsp + 8)), r, Cell(m.mem, m.rsp), rip);
    case MovRR(d, s) =>
      SetIgnoresRip(m, s, 0, rip);
      SetIgnoresRip(m, d, Get(m, s), rip);
    case Alu(op, d, s) =>
      SetIgnoresRip(m, s, 0, rip);
      SetIgnoresRip(m, d, 0, rip);
      AluIgnoresRip(op, d, m, Get(m, d), Get(m, s), rip);
    case Load(d, disp) => SetIgnoresRip(m, d, Cell(m.mem, m.rbp + disp), rip);
    case Store(s, _) => SetIgnoresRip(m, s, 0, rip);
    case MovImm(d, v) => SetIgnoresRip(m, d, v, rip);
  }

  lemma FixedIgnoresRip(c: Config, i: Instr, m: State, rip: u64)
    requires Plain(i) && !Named(i) && !i.IdivRbx?
    ensures Exec(c, i, m.(rip := rip)) == WithRip(Exec(c, i, m), rip)
  {
    hide Config.Mapped, U, S, Holds, Pow2, Set, Get, ExecAlu, ExecIdiv, Compare;
  }

  lemma DivIgnoresRip(c: Config, m: State, rip: u64)
    ensures Exec(c, IdivRbx, m.(rip := rip)) == WithRip(Exec(c, IdivRbx, m), rip)
  {
    hide ExecIdiv;
    IdivIgnoresRip(m, rip);
  }

  lemma AluIgnoresRip(op: AluOp, d: Reg, m: State, x: u64, y: u64, rip: u64)
    ensures ExecAlu(op, d, m.(rip := rip), x, y) == ExecAlu(op, d, m, x, y).(rip := rip)
  {
    hide U, S, And64, Or64;
  }

  lemma IdivIgnoresRip(m: State, rip: u64)
    ensures ExecIdiv(m.(rip := rip)) == WithRip(ExecIdiv(m), rip)
  {
    hide U, S, TruncDiv, TruncMod;
  }

  lemma {:induction false} EffectIgnoresRip(c: Config, a: Asm, m: State, rip: u64)
    requires AllPlain(a)
    ensures WithRip(Effect(c, a, m.(rip := rip)), m.rip) == WithRip(Effect(c, a, m), m.rip)
    decreases a
  {
    hide Exec, Encodable;
    match a
    case End =>
    case Then(i, tl) =>
      ExecIgnoresRip(c, i, m, rip);
      ExecIgnoresRip(c, i, m, m.rip);
      var o := Exec(c, i, m);
      if o.Go? {
        EffectIgnoresRip(c, tl, o.s, rip);
      }
  }

  /** A plain list standing at rip runs to its end with its effect, or stops as its effect does. */
  lemma {:induction false} RunAsm(c: Config, m: State, a: Asm, at: int)
    requires c.Valid() && AllPlain(a) && Has(c.text, at, Bytes(a)) && m.rip == c.base + at
    ensures Run(c, m, Count(a)) == WithRip(Effect(c, a, m), m.rip + AsmLen(a))
    decreases a
  {
    hide Exec, Encodable, Encode, Len, Step, Has, Plain;
    match a
    case End =>
    case Then(i, tl) =>
      HasSplit(c.text, at, Encode(i), Bytes(tl));
      StepAt(c, m, i, at);
      var next := m.rip + Len(i);
      ExecIgnoresRip(c, i, m, next);
      var o := Exec(c, i, m);
      if o.Go? {
        var m1 := o.s.(rip := next);
        RunAsm(c, m1, tl, at + Len(i));
        EffectIgnoresRip(c, tl, o.s, next);
      }
  }

  // ----- operators -----

  lemma UnPlain(op: UnOp)
    ensures AllPlain(UnAsm(op))
  {
  }

  lemma BinPlain(op: BinOp)
    ensures AllPlain(BinAsm(op))
  {
    match op
    case OMul => 
    case ODiv => DivPlain(End);
    case OMod => DivPlain(Then(MovRR(RAX, RDX), End));
    case OAdd =>
    case OSub =>
    case OShl => ShiftPlain(ShlRaxCl);
    case OShr => ShiftPlain(SarRaxCl);
    case OAnd =>
    case OOr =>
    case _ => CmpPlain(CondFor(op));
  }

  lemma DivPlain(tl: Asm)
    requires AllPlain(tl)
    ensures AllPlain(DivAsm(tl))
  {
    assert AllPlain(Then(Cqo, Then(IdivRbx, tl)));
    assert AllPlain(Then(MovRR(RBX, RAX), Then(MovRR(RAX, RCX), Then(Cqo, Then(IdivRbx, tl)))));
  }

  lemma ShiftPlain(i: Instr)
    requires i.ShlRaxCl? || i.SarRaxCl?
    ensures AllPlain(ShiftAsm(i))
  {
  }

  lemma CmpPlain(cc: Cond)
    ensures AllPlain(CmpAsm(cc))
  {
    assert AllPlain(Then(SetAl(cc), Then(MovzxRaxAl, End)));
  }

  function CondFor(op: BinOp): Cond {
    match op
    case OEq => CE case ONe => CNE case OLt => CL case OLe => CLE case OGt => CG case _ => CGE
  }

  lemma EffectStep(c: Config, i: Instr, tl: Asm, m: State, m1: State)
    requires Exec(c, i, m) == Go(m1)
    ensures Effect(c, Then(i, tl), m) == Effect(c, tl, m1)
  {
    hide Exec;
  }

  lemma EffectEnd(c: Config)
    ensures forall m :: Effect(c, End, m) == Go(m)
  {
  }

  lemma EffectFault(c: Config, i: Instr, tl: Asm, m: State)
    requires Exec(c, i, m) == DivideError
    ensures Effect(c, Then(i, tl), m) == DivideError
  {
    hide Exec;
  }

  /** setcc al; movzx rax, al leaves exactly the truth value. */
  lemma SetEffect(c: Config, cc: Cond, m: State, b: bool)
    requires m.flags.Some? && Holds(cc, m.flags.value) == b
    ensures Effect(c, Then(SetAl(cc), Then(MovzxRaxAl, End)), m) == Go(m.(rax := U(OfBool(b))))
  {
    var al := if b then 1 else 0;
    var m1 := m.(rax := m.rax - m.rax % 0x100 + al);
    assert Exec(c, SetAl(cc), m) == Go(m1);
    EffectStep(c, SetAl(cc), Then(MovzxRaxAl, End), m, m1);
    assert m1.rax % 0x100 == al;
    assert Exec(c, MovzxRaxAl, m1) == Go(m.(rax := al));
    EffectStep(c, MovzxRaxAl, End, m1, m.(rax := al));
  }

  /** The unary lists turn U(x) in rax into the operator's value and touch nothing else of note. */
  lemma UnEffect(c: Config, op: UnOp, m: State, x: i64)
    requires m.rax == U(x)
    ensures var o := Effect(c, UnAsm(op), m);
            o.Go? && o.s.rax == U(EvalUn(op, x)) && o.s.rsp == m.rsp && o.s.rbp == m.rbp && o.s.mem == m.mem
  {
    hide Effect, Exec, U, S;
    EffectEnd(c);
    UnExec(c, m);
    UnValues(x);
    match op
    case LogNot =>
      var m1 := m.(flags := Compare(m.rax, 0));
      EffectStep(c, CmpRaxZero, Then(SetAl(CE), Then(MovzxRaxAl, End)), m, m1);
      SetEffect(c, CE, m1, x == 0);
    case BitNot =>
      EffectStep(c, NotRax, End, m, m.(rax := 0xFFFF_FFFF_FFFF_FFFF - m.rax));
    case Minus =>
      EffectStep(c, NegRax, End, m, m.(rax := U(0 - m.rax as int), flags := None));
  }

  lemma UnExec(c: Config, m: State)
    ensures Exec(c, CmpRaxZero, m) == Go(m.(flags := Compare(m.rax, 0)))
    ensures Exec(c, NotRax, m) == Go(m.(rax := 0xFFFF_FFFF_FFFF_FFFF - m.rax))
    ensures Exec(c, NegRax, m) == Go(m.(rax := U(0 - m.rax as int), flags := None))
  {
  }

  lemma UnValues(x: i64)
    ensures U(x) == 0 <==> x == 0
    ensures 0xFFFF_FFFF_FFFF_FFFF - U(x) == U(-1 - x)
    ensures U(0 - U(x) as int) == U(Wrap(-(x as int)))
  {
    WrapSum(0, x);
    UnsignedRoundTrip(U(-(x as int)));
  }

  /** s is m after popping the left operand and leaving v in rax. */
  ghost predicate Popped(m: State, s: State, v: i64) {
    s.rax == U(v) && s.rsp == m.rsp + 8 && s.rbp == m.rbp && s.mem == m.mem
  }

  ghost predicate Operands(c: Config, m: State, x: i64, y: i64) {
    m.rax == U(y) && c.Mapped(m.rsp) && m.rsp + 8 < 0x1_0000_0000_0000_0000 && Cell(m.mem, m.rsp) == U(x)
  }

  /** Popping the left operand into rcx. */
  function PopLeft(m: State, x: i64): State
    requires m.rsp + 8 < 0x1_0000_0000_0000_0000
  {
    m.(rsp := m.rsp + 8, rcx := U(x))
  }

  lemma PopStep(c: Config, m: State, x: i64, y: i64, tl: Asm)
    requires Operands(c, m, x, y)
    ensures Effect(c, Then(Pop(RCX), tl), m) == Effect(c, tl, PopLeft(m, x))
  {
    EffectStep(c, Pop(RCX), tl, m, PopLeft(m, x));
  }

  lemma MulEffect(c: Config, m: State, x: i64, y: i64)
    requires Operands(c, m, x, y)
    ensures var o := Effect(c, BinAsm(OMul), m); o.Go? && Popped(m, o.s, Wrap(x as int * y))
  {
    PopStep(c, m, x, y, Then(ImulRaxRcx, End));
    var m1 := PopLeft(m, x);
    var v := U(m1.rax as int * m1.rcx);
    assert v == U(x as int * y) by {
      hide U;
      WrapProduct(y, x);
      assert x as int * y == y as int * x;
    }
    UnsignedRoundTrip(v);
    EffectStep(c, ImulRaxRcx, End, m1, m1.(rax := v, flags := None));
  }

  lemma SumEffect(c: Config, op: BinOp, m: State, x: i64, y: i64)
    requires Operands(c, m, x, y) && (op.OAdd? || op.OSub?)
    ensures var o := Effect(c, BinAsm(op), m); o.Go? && Popped(m, o.s, EvalBin(op, x, y).value)
  {
    hide Effect;
    EffectEnd(c);
    var m1 := PopLeft(m, x);
    WrapSum(x, y);
    if op.OAdd? {
      var v := U(m1.rax + m1.rcx);
      UnsignedRoundTrip(v);
      PopStep(c, m, x, y, Then(Alu(AAdd, RAX, RCX), End));
      EffectStep(c, Alu(AAdd, RAX, RCX), End, m1, m1.(rax := v, flags := None));
    } else {
      var v := U(m1.rcx - m1.rax);
      UnsignedRoundTrip(v);
      PopStep(c, m, x, y, Then(Alu(ASub, RCX, RAX), Then(MovRR(RAX, RCX), End)));
      var m2 := m1.(rcx := v, flags := None);
      EffectStep(c, Alu(ASub, RCX, RAX), Then(MovRR(RAX, RCX), End), m1, m2);
      EffectStep(c, MovRR(RAX, RCX), End, m2, m2.(rax := v));
    }
  }

  lemma BitEffect(c: Config, op: BinOp, m: State, x: i64, y: i64)
    requires Operands(c, m, x, y) && (op.OAnd? || op.OOr?)
    ensures var o := Effect(c, BinAsm(op), m); o.Go? && Popped(m, o.s, EvalBin(op, x, y).value)
  {
    var m1 := PopLeft(m, x);
    var alu := if op.OAnd? then AAnd else AOr;
    BitCommutes(U(x), U(y));
    var v := if op.OAnd? then And64(U(y), U(x)) else Or64(U(y), U(x));
    UnsignedRoundTrip(v);
    PopStep(c, m, x, y, Then(Alu(alu, RAX, RCX), End));
    EffectStep(c, Alu(alu, RAX, RCX), End, m1, m1.(rax := v, flags := None));
  }

  lemma BitCommutes(x: u64, y: u64)
    ensures And64(x, y) == And64(y, x) && Or64(x, y) == Or64(y, x)
  {
    AndCommutes(x, y, 64);
    OrCommutes(x, y, 64);
  }

  lemma {:induction false} AndCommutes(x: nat, y: nat, n: nat)
    ensures BitAnd(x, y, n) == BitAnd(y, x, n)
  {
    if n > 0 {
      AndCommutes(x / 2, y / 2, n - 1);
    }
  }

  lemma {:induction false} OrCommutes(x: nat, y: nat, n: nat)
    ensures BitOr(x, y, n) == BitOr(y, x, n)
  {
    if n > 0 {
      OrCommutes(x / 2, y / 2, n - 1);
    }
  }

  lemma ShiftEffect(c: Config, op: BinOp, m: State, x: i64, y: i64)
    requires Operands(c, m, x, y) && (op.OShl? || op.OShr?)
    ensures var o := Effect(c, BinAsm(op), m); o.Go? && Popped(m, o.s, EvalBin(op, x, y).value)
  {
    hide Pow2;
    var i := if op.OShl? then ShlRaxCl else SarRaxCl;
    var m1 := m.(rcx := m.rax);
    EffectStep(c, MovRR(RCX, RAX), Then(Pop(RAX), Then(i, End)), m, m1);
    var m2 := m1.(rsp := m.rsp + 8, rax := U(x));
    EffectStep(c, Pop(RAX), Then(i, End), m1, m2);
    var p := Pow2(U(y) % 64);
    var v := if op.OShl? then U(U(x) as int * p) else U(S(U(x)) / p);
    SignedRoundTrip(x);
    if op.OShl? {
      ShlWrap(x, p);
    }
    UnsignedRoundTrip(v);
    EffectStep(c, i, End, m2, m2.(rax := v, flags := None));
  }

  lemma ShlWrap(x: int, p: nat)
    ensures U(U(x) as int * p) == U(x * p)
  {
    var k := x / TWO64;
    assert x == k * TWO64 + U(x);
    assert x * p == U(x) as int * p + (k * p) * TWO64 by {
      ProductExpansion(k, 0, U(x), p, TWO64);
    }
    WrapMultiple(U(x) as int * p, k * p);
  }

  /** cqo; idiv computes the truncated quotient and remainder of the signed operands. */
  lemma DivEffect(c: Config, m: State, x: i64, y: i64, tl: Asm) returns (s: State)
    requires Operands(c, m, x, y)
    ensures !DivOk(x, y) ==> Effect(c, DivAsm(tl), m) == DivideError
    ensures DivOk(x, y) ==>
              Effect(c, DivAsm(tl), m) == Effect(c, tl, s)
              && s.rax == U(TruncDiv(x, y)) && s.rdx == U(TruncMod(x, y)) && s.rsp == m.rsp + 8
              && s.rbp == m.rbp && s.mem == m.mem
  {
    hide TruncDiv, TruncMod, Effect;
    SignedRoundTrip(x);
    SignedRoundTrip(y);
    var m1 := PopLeft(m, x);
    var m2 := m1.(rbx := m.rax);
    var m3 := m2.(rax := m2.rcx);
    var m4 := m3.(rdx := if x < 0 then 0xFFFF_FFFF_FFFF_FFFF else 0);
    var t4 := Then(IdivRbx, tl);
    var t3 := Then(Cqo, t4);
    var t2 := Then(MovRR(RAX, RCX), t3);
    PopStep(c, m, x, y, Then(MovRR(RBX, RAX), t2));
    EffectStep(c, MovRR(RBX, RAX), t2, m1, m2);
    EffectStep(c, MovRR(RAX, RCX), t3, m2, m3);
    EffectStep(c, Cqo, t4, m3, m4);
    assert S(m4.rdx) as int * 0x1_0000_0000_0000_0000 + m4.rax == x;
    s := if DivOk(x, y) then m4.(rax := U(TruncDiv(x, y)), rdx := U(TruncMod(x, y)), flags := None) else m;
    if DivOk(x, y) {
      EffectStep(c, IdivRbx, tl, m4, s);
    } else {
      EffectFault(c, IdivRbx, tl, m4);
    }
  }

  lemma CmpEffect(c: Config, op: BinOp, m: State, x: i64, y: i64)
    requires Operands(c, m, x, y) && (op.OEq? || op.ONe? || op.OLt? || op.OLe? || op.OGt? || op.OGe?)
    ensures var o := Effect(c, BinAsm(op), m);
            o.Go? && Popped(m, o.s, EvalBin(op, x, y).value)
  {
    hide Effect;
    SignedRoundTrip(x);
    SignedRoundTrip(y);
    var cc := CondFor(op);
    var tl := Then(SetAl(cc), Then(MovzxRaxAl, End));
    assert BinAsm(op) == Then(Pop(RCX), Then(Alu(ACmp, RCX, RAX), tl));
    PopStep(c, m, x, y, Then(Alu(ACmp, RCX, RAX), tl));
    var m1 := PopLeft(m, x);
    var m2 := m1.(flags := Some(Flags(x == y, x < y)));
    EffectStep(c, Alu(ACmp, RCX, RAX), tl, m1, m2);
    SetEffect(c, cc, m2, EvalBin(op, x, y).value == 1);
  }

  /** The binary lists compute EvalBin, and fault exactly when it traps. */
  lemma BinEffect(c: Config, op: BinOp, m: State, x: i64, y: i64)
    requires Operands(c, m, x, y)
    ensures var o, v := Effect(c, BinAsm(op), m), EvalBin(op, x, y);
            if v.Some? then o.Go? && Popped(m, o.s, v.value) else o == DivideError
  {
    match op
    case OMul => MulEffect(c, m, x, y);
    case ODiv => QuotientEffect(c, op, m, x, y);
    case OMod => QuotientEffect(c, op, m, x, y);
    case OAdd => SumEffect(c, op, m, x, y);
    case OSub => SumEffect(c, op, m, x, y);
    case OShl => ShiftEffect(c, op, m, x, y);
    case OShr => ShiftEffect(c, op, m, x, y);
    case OAnd => BitEffect(c, op, m, x, y);
    case OOr => BitEffect(c, op, m, x, y);
    case _ => CmpEffect(c, op, m, x, y);
  }

  lemma QuotientEffect(c: Config, op: BinOp, m: State, x: i64, y: i64)
    requires Operands(c, m, x, y) && (op.ODiv? || op.OMod?)
    ensures var o, v := Effect(c, BinAsm(op), m), EvalBin(op, x, y);
            if v.Some? then o.Go? && Popped(m, o.s, v.value) else o == DivideError
  {
    hide TruncDiv, TruncMod;
    if op.ODiv? {
      var s := DivEffect(c, m, x, y, End);
    } else {
      var s := DivEffect(c, m, x, y, Then(MovRR(RAX, RDX), End));
      if DivOk(x, y) {
        EffectStep(c, MovRR(RAX, RDX), End, s, s.(rax := s.rdx));
        UnsignedRoundTrip(U(TruncMod(x, y)));
      }
    }
  }
}
