/**
 What orec emits for a resolved program, as a function of the program: the code of every construct
 at a given text offset.  A rel32 field whose target is not known yet holds zero, as the single pass
 first emits it.
 */
module Codegen {
  import opened Words
  import opened X86
  import opened OreLang

  /** What is known: function entry offsets, and the offset of the data section (negative: unknown). */
  datatype Links = Links(addrs: seq<nat>, data: int)

  /** Nothing is known, as during the single pass. */
  const UNLINKED := Links([], -1)

  /** Where break goes (negative: not known yet), whether the function is main, and the links. */
  datatype Ctx = Ctx(brk: int, main: bool, k: Links)

  // ----- instruction lists -----

  datatype Asm = End | Then(hd: Instr, tl: Asm)

  function AsmLen(a: Asm): nat {
    match a
    case End => 0
    case Then(i, tl) => Len(i) + AsmLen(tl)
  }

  function Bytes(a: Asm): (r: seq<byte>)
    ensures |r| == AsmLen(a)
  {
    match a
    case End => []
    case Then(i, tl) => Encode(i) + Bytes(tl)
  }

  function ArgReg(i: nat): Reg {
    if i == 0 then RDI else if i == 1 then RSI else if i == 2 then RDX
    else if i == 3 then RCX else if i == 4 then R8 else R9
  }

  /** The frame offset of a slot: [rbp-8] holds the saved rbx. */
  function SlotDisp(slot: nat): int { -16 - 8 * slot }

  function LoadVar(slot: nat, size: Size): Instr {
    match size
    case B1 => LoadByte(SlotDisp(slot))
    case B4 => LoadDword(SlotDisp(slot))
    case B8 => Load(RAX, SlotDisp(slot))
  }

  function StoreVar(slot: nat, size: Size): Instr {
    match size
    case B1 => StoreByte(SlotDisp(slot))
    case B4 => StoreDword(SlotDisp(slot))
    case B8 => Store(RAX, SlotDisp(slot))
  }

  function UnAsm(op: UnOp): Asm {
    match op
    case LogNot => Then(CmpRaxZero, Then(SetAl(CE), Then(MovzxRaxAl, End)))
    case BitNot => Then(NotRax, End)
    case Minus => Then(NegRax, End)
  }

  function DivAsm(tl: Asm): Asm {
    Then(Pop(RCX), Then(MovRR(RBX, RAX), Then(MovRR(RAX, RCX), Then(Cqo, Then(IdivRbx, tl)))))
  }

  function ShiftAsm(i: Instr): Asm {
    Then(MovRR(RCX, RAX), Then(Pop(RAX), Then(i, End)))
  }

  function CmpAsm(c: Cond): Asm {
    Then(Pop(RCX), Then(Alu(ACmp, RCX, RAX), Then(SetAl(c), Then(MovzxRaxAl, End))))
  }

  /** Code after both operands: the left one is on top of the stack, the right one in rax. */
  function BinAsm(op: BinOp): Asm {
    match op
    case OMul => Then(Pop(RCX), Then(ImulRaxRcx, End))
    case ODiv => DivAsm(End)
    case OMod => DivAsm(Then(MovRR(RAX, RDX), End))
    case OAdd => Then(Pop(RCX), Then(Alu(AAdd, RAX, RCX), End))
    case OSub => Then(Pop(RCX), Then(Alu(ASub, RCX, RAX), Then(MovRR(RAX, RCX), End)))
    case OShl => ShiftAsm(ShlRaxCl)
    case OShr => ShiftAsm(SarRaxCl)
    case OAnd => Then(Pop(RCX), Then(Alu(AAnd, RAX, RCX), End))
    case OOr => Then(Pop(RCX), Then(Alu(AOr, RAX, RCX), End))
    case OEq => CmpAsm(CE)
    case ONe => CmpAsm(CNE)
    case OLt => CmpAsm(CL)
    case OLe => CmpAsm(CLE)
    case OGt => CmpAsm(CG)
    case OGe => CmpAsm(CGE)
  }

  /** Arguments were pushed left to right, so they are popped right to left. */
  function PopArgs(n: nat): Asm {
    if n == 0 then End else Then(Pop(ArgReg(n - 1)), PopArgs(n - 1))
  }

  function ExitRax(): Asm {
    Then(MovRR(RDI, RAX), Then(MovImm(RAX, SYS_EXIT), Then(Syscall, End)))
  }

  function Epilogue(): Asm {
    Then(Load(RBX, -8), Then(MovRR(RSP, RBP), Then(Pop(RBP), Then(RetNear, End))))
  }

  function ReturnRax(main: bool): Asm {
    if main then ExitRax() else Epilogue()
  }

  // ----- resolved displacements; patch is the offset of the rel32 field -----

  function CallRel(k: Links, fn: nat, patch: nat): int {
    if fn < |k.addrs| then k.addrs[fn] - (patch + 4) else 0
  }

  function DataRel(k: Links, off: nat, patch: nat): int {
    if k.data >= 0 then k.data + off - (patch + 4) else 0
  }

  function BreakRel(brk: int, patch: nat): int {
    if brk >= 0 then brk - (patch + 4) else 0
  }

  // ----- sizes: the code length does not depend on where the code stands -----

  function SizeE(e: Expr): nat {
    match e
    case Num(_) => 10
    case Data(_) => 7
    case Var(slot, size) => Len(LoadVar(slot, size))
    case Un(op, a) => SizeE(a) + AsmLen(UnAsm(op))
    case Bin(op, a, b) => SizeE(a) + 1 + SizeE(b) + AsmLen(BinAsm(op))
    case Call(_, args) => SizeA(args) + AsmLen(PopArgs(ArgCount(args))) + 5
  }

  function SizeA(args: Args): nat {
    match args
    case NoArgs => 0
    case Arg(e, tl) => SizeE(e) + 1 + SizeA(tl)
  }

  function SizeS(s: Stmt, main: bool): nat {
    match s
    case Skip => 0
    case Seq(a, b) => SizeS(a, main) + SizeS(b, main)
    case Assign(slot, size, e) => SizeE(e) + Len(StoreVar(slot, size))
    case Zero(_) => 17
    case If(c, t) => SizeE(c) + 10 + SizeS(t, main)
    case IfElse(c, t, e) => SizeE(c) + 10 + SizeS(t, main) + 5 + SizeS(e, main)
    case While(c, b) => SizeE(c) + 10 + SizeS(b, main) + 5
    case Break => 5
    case Return(e) => SizeE(e) + AsmLen(ReturnRax(main))
    case Do(e) => SizeE(e)
  }

  // ----- code -----

  function CodeE(e: Expr, at: nat, k: Links): seq<byte>
    decreases e
  {
    match e
    case Num(v) => Encode(MovImm(RAX, v))
    case Data(off) => Encode(LeaRip(DataRel(k, off, at + 3)))
    case Var(slot, size) => Encode(LoadVar(slot, size))
    case Un(op, a) => CodeE(a, at, k) + Bytes(UnAsm(op))
    case Bin(op, a, b) =>
      CodeE(a, at, k) + (Encode(Push(RAX)) + (CodeE(b, at + SizeE(a) + 1, k) + Bytes(BinAsm(op))))
    case Call(fn, args) =>
      var pops := PopArgs(ArgCount(args));
      CodeA(args, at, k) + (Bytes(pops) + Encode(CallNear(CallRel(k, fn, at + SizeA(args) + AsmLen(pops) + 1))))
  }

  function CodeA(args: Args, at: nat, k: Links): seq<byte>
    decreases args
  {
    match args
    case NoArgs => []
    case Arg(e, tl) => CodeE(e, at, k) + (Encode(Push(RAX)) + CodeA(tl, at + SizeE(e) + 1, k))
  }

  /** Test of a condition in rax: skip rel bytes when it is zero. */
  function TestCode(rel: int): (r: seq<byte>)
    ensures |r| == 10
  {
    Encode(CmpRaxZero) + Encode(Je(rel))
  }

  function JmpCode(rel: int): (r: seq<byte>)
    ensures |r| == 5
  {
    Encode(Jmp(rel))
  }

  function ZeroCode(slot: nat): (r: seq<byte>)
    ensures |r| == 17
  {
    Encode(MovImm(RAX, 0)) + Encode(Store(RAX, SlotDisp(slot)))
  }

  function IfCode(ce: seq<byte>, ct: seq<byte>): (r: seq<byte>)
    ensures |r| == |ce| + 10 + |ct|
  {
    ce + (TestCode(|ct|) + ct)
  }

  function IfElseCode(ce: seq<byte>, ct: seq<byte>, cf: seq<byte>): (r: seq<byte>)
    ensures |r| == |ce| + 10 + |ct| + 5 + |cf|
  {
    ce + (TestCode(|ct| + 5) + (ct + (JmpCode(|cf|) + cf)))
  }

  function WhileCode(ce: seq<byte>, cb: seq<byte>): (r: seq<byte>)
    ensures |r| == |ce| + 10 + |cb| + 5
  {
    ce + (TestCode(|cb| + 5) + (cb + JmpCode(-15 - |ce| - |cb|)))
  }

  function CodeS(s: Stmt, at: nat, c: Ctx): seq<byte>
    decreases s
  {
    match s
    case Skip => []
    case Seq(a, b) => CodeS(a, at, c) + CodeS(b, at + SizeS(a, c.main), c)
    case Assign(slot, size, e) => CodeE(e, at, c.k) + Encode(StoreVar(slot, size))
    case Zero(slot) => ZeroCode(slot)
    case If(e, t) => IfCode(CodeE(e, at, c.k), CodeS(t, at + SizeE(e) + 10, c))
    case IfElse(e, t, f) =>
      var t0 := at + SizeE(e) + 10;
      IfElseCode(CodeE(e, at, c.k), CodeS(t, t0, c), CodeS(f, t0 + SizeS(t, c.main) + 5, c))
    case While(e, b) =>
      WhileCode(CodeE(e, at, c.k), CodeS(b, at + SizeE(e) + 10, c.(brk := at + SizeS(s, c.main))))
    case Break => JmpCode(BreakRel(c.brk, at + 1))
    case Return(e) => CodeE(e, at, c.k) + Bytes(ReturnRax(c.main))
    case Do(e) => CodeE(e, at, c.k)
  }

  lemma {:induction false} LenE(e: Expr, at: nat, k: Links)
    ensures |CodeE(e, at, k)| == SizeE(e)
    decreases e
  {
    hide Encode, Bytes, AsmLen, UnAsm, BinAsm, PopArgs, LoadVar;
    match e
    case Un(_, a) => LenE(a, at, k);
    case Bin(_, a, b) => LenE(a, at, k); LenE(b, at + SizeE(a) + 1, k);
    case Call(_, args) => LenA(args, at, k);
    case _ =>
  }

  lemma {:induction false} LenA(args: Args, at: nat, k: Links)
    ensures |CodeA(args, at, k)| == SizeA(args)
    decreases args
  {
    hide Encode, CodeE, SizeE;
    match args
    case NoArgs =>
    case Arg(e, tl) => LenE(e, at, k); LenA(tl, at + SizeE(e) + 1, k);
  }

  /** The code of a statement has the announced size wherever it stands. */
  lemma {:induction false} LenS(s: Stmt, at: nat, c: Ctx)
    ensures |CodeS(s, at, c)| == SizeS(s, c.main)
    decreases s
  {
    hide Encode, Len, Bytes, AsmLen, ReturnRax, StoreVar, CodeE, SizeE, JmpCode, ZeroCode, IfCode, IfElseCode,
         WhileCode;
    match s
    case Skip =>
    case Seq(a, b) => LenS(a, at, c); LenS(b, at + SizeS(a, c.main), c);
    case Assign(_, _, e) => LenE(e, at, c.k);
    case Zero(_) =>
    case If(e, t) => LenE(e, at, c.k); LenS(t, at + SizeE(e) + 10, c);
    case IfElse(e, t, f) => LenIfElse(e, t, f, at, c);
    case While(e, b) =>
      LenE(e, at, c.k);
      LenS(b, at + SizeE(e) + 10, c.(brk := at + SizeS(s, c.main)));
    case Break =>
    case Return(e) => LenE(e, at, c.k);
    case Do(e) => LenE(e, at, c.k);
  }

  lemma LenIfElse(e: Expr, t: Stmt, f: Stmt, at: nat, c: Ctx)
    ensures |CodeS(IfElse(e, t, f), at, c)| == SizeS(IfElse(e, t, f), c.main)
    decreases IfElse(e, t, f), 0
  {
    hide CodeE, SizeE, CodeS, SizeS, TestCode, JmpCode;
    IfElseBytes(e, t, f, at, c);
    IfElseSize(e, t, f, c.main);
    LenE(e, at, c.k);
    var t0 := at + SizeE(e) + 10;
    LenS(t, t0, c);
    LenS(f, t0 + SizeS(t, c.main) + 5, c);
    LenBranches(CodeE(e, at, c.k), CodeS(t, t0, c), CodeS(f, t0 + SizeS(t, c.main) + 5, c));
  }

  lemma LenBranches(ce: seq<byte>, ct: seq<byte>, cf: seq<byte>)
    ensures |IfElseCode(ce, ct, cf)| == |ce| + 10 + |ct| + 5 + |cf|
  {
  }

  // ----- functions and programs -----

  /** The patched frame size: saved rbx, one slot per variable, 32 spare bytes, rounded to 16. */
  function FrameSize(f: Func): nat { (8 + 8 * |f.sizes| + 32 + 15) / 16 * 16 }

  function Prologue(frame: int): Asm {
    Then(Push(RBP), Then(MovRR(RBP, RSP), Then(SubRsp(frame), Then(Store(RBX, -8), End))))
  }

  function StoreParams(i: nat, argc: nat): Asm
    decreases argc - i
  {
    if i >= argc then End else Then(Store(ArgReg(i), SlotDisp(i)), StoreParams(i + 1, argc))
  }

  function FallOff(main: bool): Asm {
    if main then Then(MovImm(RAX, SYS_EXIT), Then(MovImm(RDI, 0), Then(Syscall, End)))
    else Then(MovImm(RAX, 0), Epilogue())
  }

  function HeadF(f: Func): (r: seq<byte>)
    ensures |r| == HeadSize(f)
  {
    Bytes(Prologue(FrameSize(f))) + Bytes(StoreParams(0, f.argc))
  }

  function HeadSize(f: Func): nat {
    AsmLen(Prologue(FrameSize(f))) + AsmLen(StoreParams(0, f.argc))
  }

  function SizeF(f: Func): nat {
    HeadSize(f) + SizeS(f.body, f.isMain) + AsmLen(FallOff(f.isMain))
  }

  function CodeF(f: Func, at: nat, k: Links): seq<byte> {
    HeadF(f) + (CodeS(f.body, at + HeadSize(f), Ctx(-1, f.isMain, k)) + Bytes(FallOff(f.isMain)))
  }

  lemma LenF(f: Func, at: nat, k: Links)
    ensures |CodeF(f, at, k)| == SizeF(f)
  {
    hide AsmLen, Bytes, HeadF, HeadSize, FallOff, CodeS, SizeS;
    LenS(f.body, at + HeadSize(f), Ctx(-1, f.isMain, k));
  }

  const START_SIZE: nat := 20

  /** What is built: a program, entered by a call of its main function, or a kernel module. */
  datatype Form = UserImage(main: nat) | KernelModule

  function StartSize(g: Form): nat { if g.UserImage? then START_SIZE else 0 }

  /**
   The text of a program starts with a call of main and an exit with its result; a module's with its first function.
   */
  function StartCode(g: Form, k: Links): (r: seq<byte>)
    ensures |r| == StartSize(g)
  {
    assert AsmLen(Then(MovImm(RAX, SYS_EXIT), Then(Syscall, End))) == 12;
    if g.UserImage? then Encode(CallNear(CallRel(k, g.main, 1))) + Bytes(ExitRax()) else []
  }

  /** Entry offset of function i. */
  function Addr(start: nat, p: Program, i: nat): nat
    requires i <= |p|
  {
    if i == 0 then start else Addr(start, p, i - 1) + SizeF(p[i - 1])
  }

  function CodeFrom(start: nat, p: Program, i: nat, k: Links): seq<byte>
    requires i <= |p|
    decreases |p| - i
  {
    if i == |p| then [] else CodeF(p[i], Addr(start, p, i), k) + CodeFrom(start, p, i + 1, k)
  }

  lemma {:induction false} LenFrom(start: nat, p: Program, i: nat, k: Links)
    requires i <= |p|
    ensures |CodeFrom(start, p, i, k)| == Addr(start, p, |p|) - Addr(start, p, i)
    decreases |p| - i
  {
    hide CodeF, SizeF;
    if i < |p| {
      LenF(p[i], Addr(start, p, i), k);
      LenFrom(start, p, i + 1, k);
    }
  }

  function CodeP(g: Form, p: Program, k: Links): seq<byte> {
    StartCode(g, k) + CodeFrom(StartSize(g), p, 0, k)
  }

  function Addrs(start: nat, p: Program): (r: seq<nat>)
    ensures |r| == |p| && forall i :: 0 <= i < |p| ==> r[i] == Addr(start, p, i)
  {
    seq(|p|, i requires 0 <= i < |p| => Addr(start, p, i))
  }

  // ----- one-step unfoldings of statements -----

  lemma IfElseSize(e: Expr, t: Stmt, f: Stmt, main: bool)
    ensures SizeS(IfElse(e, t, f), main) == SizeE(e) + 10 + SizeS(t, main) + 5 + SizeS(f, main)
  {
    hide SizeE, Len, AsmLen;
  }

  lemma IfElseBytes(e: Expr, t: Stmt, f: Stmt, at: nat, c: Ctx)
    ensures var at1 := at + SizeE(e) + 10;
            CodeS(IfElse(e, t, f), at, c)
            == IfElseCode(CodeE(e, at, c.k), CodeS(t, at1, c), CodeS(f, at1 + SizeS(t, c.main) + 5, c))
  {
    hide CodeE, SizeE, SizeS, IfElseCode, IfCode, WhileCode, JmpCode, ZeroCode, Encode, Len, Bytes, ReturnRax, StoreVar;
  }

  lemma IfBytes(e: Expr, t: Stmt, at: nat, c: Ctx)
    ensures CodeS(If(e, t), at, c) == IfCode(CodeE(e, at, c.k), CodeS(t, at + SizeE(e) + 10, c))
  {
    hide CodeE, SizeE, SizeS, IfElseCode, IfCode, WhileCode, JmpCode, ZeroCode, Encode, Len, Bytes, ReturnRax, StoreVar;
  }

  lemma WhileSize(e: Expr, b: Stmt, main: bool)
    ensures SizeS(While(e, b), main) == SizeE(e) + 10 + SizeS(b, main) + 5
  {
    hide SizeE, Len, AsmLen;
  }

  lemma WhileBytes(e: Expr, b: Stmt, at: nat, c: Ctx)
    ensures CodeS(While(e, b), at, c) ==
            WhileCode(CodeE(e, at, c.k), CodeS(b, at + SizeE(e) + 10, c.(brk := at + SizeS(While(e, b), c.main))))
  {
    hide CodeE, SizeE, SizeS, IfElseCode, IfCode, WhileCode, JmpCode, ZeroCode, Encode, Len, Bytes, ReturnRax, StoreVar;
  }

  lemma SeqBytes(a: Stmt, b: Stmt, at: nat, c: Ctx)
    ensures CodeS(Seq(a, b), at, c) == CodeS(a, at, c) + CodeS(b, at + SizeS(a, c.main), c)
  {
    hide SizeS, CodeE, SizeE, Encode, Len, Bytes, IfCode, IfElseCode, WhileCode, JmpCode, ZeroCode, ReturnRax, StoreVar;
  }

  lemma SeqSize(a: Stmt, b: Stmt, main: bool)
    ensures SizeS(Seq(a, b), main) == SizeS(a, main) + SizeS(b, main)
  {
    hide SizeE, Len, AsmLen;
  }

  lemma IfSize(e: Expr, t: Stmt, main: bool)
    ensures SizeS(If(e, t), main) == SizeE(e) + 10 + SizeS(t, main)
  {
    hide SizeE, Len, AsmLen;
  }
}
