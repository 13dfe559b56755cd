/**
 Where jumps and calls go: the text of every function is a list of instructions, every jump in it goes to the start of
 one of them or to the function's end, and every call to a function's address -- executed or not.
 */
module Boundaries {
  import opened Words
  import opened X86
  import opened Machine
  import opened OreLang
  import opened Codegen
  import opened Straight
  import opened Frames
  import opened SimExpr
  import opened SimFrame
  import E = Emission
  import EP = EmissionP
  import opened Parser
  import opened Image
  import ParseWf
  import Whole

  const LIMIT := 0x4000_0000

  // ----- lists of instructions -----

  function Flat(l: seq<Instr>): seq<byte> {
    if l == [] then [] else Flat(l[..|l| - 1]) + Encode(l[|l| - 1])
  }

  function Span(l: seq<Instr>): nat {
    if l == [] then 0 else Span(l[..|l| - 1]) + Len(l[|l| - 1])
  }

  /** Where instruction q of a list at a given text offset starts; behind the last one it is the end. */
  function Offset(l: seq<Instr>, at: int, q: nat): int
    requires q <= |l|
  {
    at + Span(l[..q])
  }

  lemma OffsetIs(l: seq<Instr>, at: int, q: nat)
    requires q <= |l|
    ensures Offset(l, at, q) == at + Span(l[..q])
  {
  }

  ghost predicate Boundary(l: seq<Instr>, at: int, x: int) { exists q :: 0 <= q <= |l| && Offset(l, at, q) == x }

  predicate Relative(i: Instr) { i.Jmp? || i.Je? || i.CallNear? }

  /** Where a jump or call goes. */
  function Target(l: seq<Instr>, at: int, q: nat): int
    requires q < |l| && Relative(l[q])
  {
    Offset(l, at, q + 1) + l[q].rel
  }

  /**
   Instruction q can be decoded; if it jumps, it stays on a boundary or goes where a break does; calls go to
   functions.
   */
  ghost predicate SolidAt(l: seq<Instr>, at: int, out: set<int>, addrs: seq<nat>, q: nat)
    requires q < |l|
  {
    && Encodable(l[q])
    && (l[q].Jmp? || l[q].Je? ==> Boundary(l, at, Target(l, at, q)) || Target(l, at, q) in out)
    && (l[q].CallNear? ==> Target(l, at, q) in addrs)
  }

  ghost predicate Solid(l: seq<Instr>, at: int, out: set<int>, addrs: seq<nat>) {
    forall q :: 0 <= q < |l| ==> SolidAt(l, at, out, addrs, q)
  }

  lemma {:induction false} Joined(a: seq<Instr>, b: seq<Instr>)
    ensures Flat(a + b) == Flat(a) + Flat(b) && Span(a + b) == Span(a) + Span(b)
    decreases |b|
  {
    hide Encode, Len;
    if b == [] {
      assert a + b == a;
    } else {
      var n := |b| - 1;
      Joined(a, b[..n]);
      assert (a + b)[..|a + b| - 1] == a + b[..n];
      assert Flat(b) == Flat(b[..n]) + Encode(b[n]);
    }
  }

  lemma {:induction false} FlatLen(l: seq<Instr>)
    ensures |Flat(l)| == Span(l)
    decreases |l|
  {
    if l != [] { FlatLen(l[..|l| - 1]); }
  }

  lemma OffsetLeft(a: seq<Instr>, b: seq<Instr>, at: int, q: nat)
    requires q <= |a|
    ensures Offset(a + b, at, q) == Offset(a, at, q)
  {
    assert (a + b)[..q] == a[..q];
  }

  lemma TakeBoth<T>(a: seq<T>, b: seq<T>, q: nat)
    requires q <= |b|
    ensures (a + b)[..|a| + q] == a + b[..q]
  {
  }

  lemma OffsetRight(a: seq<Instr>, b: seq<Instr>, at: int, q: nat)
    requires q <= |b|
    ensures Offset(a + b, at, |a| + q) == Offset(b, at + Span(a), q)
  {
    hide Span, Flat, Offset;
    TakeBoth(a, b, q);
    Joined(a, b[..q]);
    OffsetIs(a + b, at, |a| + q);
    OffsetIs(b, at + Span(a), q);
  }

  lemma BoundaryLeft(a: seq<Instr>, b: seq<Instr>, at: int, x: int)
    requires Boundary(a, at, x)
    ensures Boundary(a + b, at, x)
  {
    var q :| 0 <= q <= |a| && Offset(a, at, q) == x;
    OffsetLeft(a, b, at, q);
  }

  lemma BoundaryRight(a: seq<Instr>, b: seq<Instr>, at: int, x: int)
    requires Boundary(b, at + Span(a), x)
    ensures Boundary(a + b, at, x)
  {
    var q :| 0 <= q <= |b| && Offset(b, at + Span(a), q) == x;
    OffsetRight(a, b, at, q);
    assert 0 <= |a| + q <= |a + b|;
  }

  /** The two ends of a list. */
  lemma Ends(l: seq<Instr>, at: int)
    ensures Boundary(l, at, at) && Boundary(l, at, at + Span(l))
  {
    assert l[..0] == [] && l[..|l|] == l;
    assert Offset(l, at, 0) == at && Offset(l, at, |l|) == at + Span(l);
  }

  /** Every place outside is a boundary of the longer list, or is still outside. */
  ghost predicate Known(l: seq<Instr>, at: int, out: set<int>, out': set<int>) {
    forall x :: x in out ==> x in out' || Boundary(l, at, x)
  }

  lemma SolidLeft(a: seq<Instr>, b: seq<Instr>, at: int, out: set<int>, out': set<int>, addrs: seq<nat>, q: nat)
    requires q < |a| && SolidAt(a, at, out, addrs, q) && Known(a + b, at, out, out')
    ensures SolidAt(a + b, at, out', addrs, q)
  {
    hide Encodable, Boundary, Offset;
    if Relative(a[q]) {
      OffsetLeft(a, b, at, q + 1);
      var x := Target(a, at, q);
      if Boundary(a, at, x) { BoundaryLeft(a, b, at, x); }
    }
  }

  lemma SolidRight(a: seq<Instr>, b: seq<Instr>, at: int, out: set<int>, out': set<int>, addrs: seq<nat>, q: nat)
    requires q < |b| && SolidAt(b, at + Span(a), out, addrs, q) && Known(a + b, at, out, out')
    ensures SolidAt(a + b, at, out', addrs, |a| + q)
  {
    hide Encodable, Boundary, Offset;
    if Relative(b[q]) {
      OffsetRight(a, b, at, q + 1);
      var x := Target(b, at + Span(a), q);
      if Boundary(b, at + Span(a), x) { BoundaryRight(a, b, at, x); }
    }
  }

  /** Two lists, one behind the other. */
  lemma SolidBoth(a: seq<Instr>, b: seq<Instr>, at: int, x: set<int>, y: set<int>, out: set<int>, addrs: seq<nat>)
    requires Solid(a, at, x, addrs) && Solid(b, at + Span(a), y, addrs)
    requires Known(a + b, at, x, out) && Known(a + b, at, y, out)
    ensures Solid(a + b, at, out, addrs) && Flat(a + b) == Flat(a) + Flat(b) && Span(a + b) == Span(a) + Span(b)
  {
    hide SolidAt, Known, Flat, Span;
    Joined(a, b);
    forall q | 0 <= q < |a + b| ensures SolidAt(a + b, at, out, addrs, q) {
      if q < |a| { SolidLeft(a, b, at, x, out, addrs, q); } else { SolidRight(a, b, at, y, out, addrs, q - |a|); }
    }
  }

  lemma KnownSame(l: seq<Instr>, at: int, out: set<int>)
    ensures Known(l, at, out, out) && Known(l, at, {}, out)
  {
  }

  /** The usual case: both leave for the same places. */
  lemma SolidThen(a: seq<Instr>, b: seq<Instr>, at: int, out: set<int>, addrs: seq<nat>)
    requires Solid(a, at, out, addrs) && Solid(b, at + Span(a), out, addrs)
    ensures Solid(a + b, at, out, addrs) && Flat(a + b) == Flat(a) + Flat(b) && Span(a + b) == Span(a) + Span(b)
  {
    hide Solid, Known, Flat, Span;
    KnownSame(a + b, at, out);
    SolidBoth(a, b, at, out, out, out, addrs);
  }

  lemma SolidMore(l: seq<Instr>, at: int, out: set<int>, addrs: seq<nat>)
    requires Solid(l, at, {}, addrs)
    ensures Solid(l, at, out, addrs)
  {
    hide Encodable, Boundary;
    forall q | 0 <= q < |l| ensures SolidAt(l, at, out, addrs, q) {
      assert SolidAt(l, at, {}, addrs, q);
    }
  }

  lemma SolidNone(at: int, out: set<int>, addrs: seq<nat>)
    ensures Solid([], at, out, addrs) && Flat([]) == [] && Span([]) == 0
  {
  }

  /** A list of one instruction that stays where it is. */
  lemma One(i: Instr, at: int, out: set<int>, addrs: seq<nat>)
    ensures Flat([i]) == Encode(i) && Span([i]) == Len(i)
    ensures Encodable(i) && !Relative(i) ==> Solid([i], at, out, addrs)
  {
    hide Encode, Encodable, Len;
    assert [i][..0] == [];
    assert Flat([]) == [] && Span([]) == 0;
  }

  /** A jump to a known place outside, or a call. */
  lemma OneOut(i: Instr, at: int, out: set<int>, addrs: seq<nat>)
    requires Relative(i) && Encodable(i)
    requires if i.CallNear? then at + Len(i) + i.rel in addrs else at + Len(i) + i.rel in out
    ensures Solid([i], at, out, addrs)
  {
    hide Encode, Encodable, Len;
    One(i, at, out, addrs);
    assert [i][..1] == [i];
    assert SolidAt([i], at, out, addrs, 0);
  }

  // ----- straight code -----

  predicate Quiet(a: Asm) {
    match a
    case End => true
    case Then(i, tl) => Encodable(i) && !Relative(i) && Quiet(tl)
  }

  lemma {:induction false} Listed(a: Asm, at: int, out: set<int>, addrs: seq<nat>) returns (l: seq<Instr>)
    requires Quiet(a)
    ensures Flat(l) == Bytes(a) && Span(l) == AsmLen(a) && Solid(l, at, out, addrs)
    decreases a
  {
    hide Encode, Encodable, Len, Flat, Span, Solid;
    match a
    case End =>
      l := [];
      SolidNone(at, out, addrs);
    case Then(i, tl) =>
      One(i, at, out, addrs);
      var rest := Listed(tl, at + Len(i), out, addrs);
      l := [i] + rest;
      SolidThen([i], rest, at, out, addrs);
  }

  lemma {:induction false} PlainQuiet(a: Asm)
    requires AllPlain(a)
    ensures Quiet(a)
    decreases a
  {
    if a.Then? { PlainQuiet(a.tl); }
  }

  lemma QuietLeave()
    ensures Quiet(Epilogue()) && Quiet(ExitRax())
  {
    var c := Then(Pop(RBP), Then(RetNear, End));
    assert Quiet(Then(RetNear, End));
    assert Quiet(c) && Quiet(Then(MovRR(RSP, RBP), c));
    assert Quiet(Then(Syscall, End)) && Quiet(Then(MovImm(RAX, SYS_EXIT), Then(Syscall, End)));
  }

  lemma QuietReturn(main: bool)
    ensures Quiet(ReturnRax(main)) && Quiet(FallOff(main))
  {
    hide Epilogue, ExitRax;
    QuietLeave();
    assert Quiet(Then(Syscall, End));
    assert Quiet(Then(MovImm(RDI, 0), Then(Syscall, End)));
  }

  // ----- expressions -----

  /** Addresses and the data section are within reach of 32-bit displacements. */
  ghost predicate Near(k: Links, dataLen: nat) {
    (forall i :: 0 <= i < |k.addrs| ==> k.addrs[i] < LIMIT) && 0 <= k.data && k.data + dataLen < LIMIT
  }

  lemma {:induction false} SolidE(p: Program, d: nat, sizes: seq<Size>, e: Expr, at: nat, k: Links)
      returns (l: seq<Instr>)
    requires WfE(p, d, sizes, e) && |sizes| <= MAX_VARS && |k.addrs| == |p| && Near(k, d) && at + SizeE(e) < LIMIT
    ensures Flat(l) == CodeE(e, at, k) && Span(l) == SizeE(e) && Solid(l, at, {}, k.addrs)
    decreases e
  {
    hide Encode, Bytes, UnAsm, BinAsm, PopArgs, Flat, Span, Solid, AsmLen;
    match e
    case Num(v) => l := [MovImm(RAX, v)]; One(l[0], at, {}, k.addrs);
    case Data(off) => l := [LeaRip(DataRel(k, off, at + 3))]; One(l[0], at, {}, k.addrs);
    case Var(slot, size) => l := [LoadVar(slot, size)]; One(l[0], at, {}, k.addrs);
    case Un(op, a) =>
      UnPlain(op);
      PlainQuiet(UnAsm(op));
      var l1 := SolidE(p, d, sizes, a, at, k);
      var l2 := Listed(UnAsm(op), at + SizeE(a), {}, k.addrs);
      SolidThen(l1, l2, at, {}, k.addrs);
      UnSize(op, a);
      l := l1 + l2;
    case Bin(op, a, b) => l := SolidBin(p, d, sizes, op, a, b, at, k);
    case Call(fn, args) => l := SolidCall(p, d, sizes, fn, args, at, k);
  }

  lemma UnSize(op: UnOp, a: Expr)
    ensures SizeE(Un(op, a)) == SizeE(a) + AsmLen(UnAsm(op))
  {
  }

  lemma BinSize(op: BinOp, a: Expr, b: Expr)
    ensures SizeE(Bin(op, a, b)) == SizeE(a) + 1 + SizeE(b) + AsmLen(BinAsm(op))
  {
  }

  lemma CallSize(fn: nat, args: Args)
    ensures SizeE(Call(fn, args)) == SizeA(args) + AsmLen(PopArgs(ArgCount(args))) + 5
  {
  }

  lemma {:induction false} SolidBin(p: Program, d: nat, sizes: seq<Size>, op: BinOp, a: Expr, b: Expr, at: nat,
      k: Links)
    returns (l: seq<Instr>)
    requires WfE(p, d, sizes, Bin(op, a, b)) && |sizes| <= MAX_VARS && |k.addrs| == |p| && Near(k, d)
    requires at + SizeE(Bin(op, a, b)) < LIMIT
    ensures Flat(l) == CodeE(Bin(op, a, b), at, k) && Span(l) == SizeE(Bin(op, a, b)) && Solid(l, at, {}, k.addrs)
    decreases Bin(op, a, b), 0
  {
    hide Encode, Bytes, BinAsm, Flat, Span, Solid, AsmLen, CodeE, SizeE;
    BinSize(op, a, b);
    E.BinCode(op, a, b, at, k);
    BinPlain(op);
    PlainQuiet(BinAsm(op));
    var at1 := at + SizeE(a);
    var l1 := SolidE(p, d, sizes, a, at, k);
    One(Push(RAX), at1, {}, k.addrs);
    var l2 := SolidE(p, d, sizes, b, at1 + 1, k);
    var l3 := Listed(BinAsm(op), at1 + 1 + SizeE(b), {}, k.addrs);
    SolidThen(l2, l3, at1 + 1, {}, k.addrs);
    SolidThen([Push(RAX)], l2 + l3, at1, {}, k.addrs);
    SolidThen(l1, [Push(RAX)] + (l2 + l3), at, {}, k.addrs);
    l := l1 + ([Push(RAX)] + (l2 + l3));
  }

  lemma {:induction false} SolidCall(p: Program, d: nat, sizes: seq<Size>, fn: nat, args: Args, at: nat, k: Links)
    returns (l: seq<Instr>)
    requires WfE(p, d, sizes, Call(fn, args)) && |sizes| <= MAX_VARS && |k.addrs| == |p| && Near(k, d)
    requires at + SizeE(Call(fn, args)) < LIMIT
    ensures Flat(l) == CodeE(Call(fn, args), at, k) && Span(l) == SizeE(Call(fn, args)) && Solid(l, at, {}, k.addrs)
    decreases Call(fn, args), 0
  {
    hide Encode, Bytes, PopArgs, Flat, Span, Solid, AsmLen, CodeA, SizeE, SizeA;
    CallSize(fn, args);
    PopArgsPlain(ArgCount(args));
    PlainQuiet(PopArgs(ArgCount(args)));
    var pops := PopArgs(ArgCount(args));
    var at1 := at + SizeA(args);
    var at2 := at1 + AsmLen(pops);
    var l1 := SolidA(p, d, sizes, args, at, k);
    var l2 := Listed(pops, at1, {}, k.addrs);
    var call := CallNear(CallRel(k, fn, at2 + 1));
    assert k.addrs[fn] in k.addrs;
    OneOut(call, at2, {}, k.addrs);
    One(call, at2, {}, k.addrs);
    SolidThen(l2, [call], at1, {}, k.addrs);
    SolidThen(l1, l2 + [call], at, {}, k.addrs);
    l := l1 + (l2 + [call]);
  }

  lemma {:induction false} SolidA(p: Program, d: nat, sizes: seq<Size>, args: Args, at: nat, k: Links)
      returns (l: seq<Instr>)
    requires WfA(p, d, sizes, args) && |sizes| <= MAX_VARS && |k.addrs| == |p| && Near(k, d) && at + SizeA(args) < LIMIT
    ensures Flat(l) == CodeA(args, at, k) && Span(l) == SizeA(args) && Solid(l, at, {}, k.addrs)
    decreases args
  {
    hide Encode, Flat, Span, Solid, CodeE, SizeE;
    match args
    case NoArgs =>
      l := [];
      SolidNone(at, {}, k.addrs);
    case Arg(e, tl) =>
      var at1 := at + SizeE(e);
      var l1 := SolidE(p, d, sizes, e, at, k);
      One(Push(RAX), at1, {}, k.addrs);
      var l2 := SolidA(p, d, sizes, tl, at1 + 1, k);
      SolidThen([Push(RAX)], l2, at1, {}, k.addrs);
      SolidThen(l1, [Push(RAX)] + l2, at, {}, k.addrs);
      l := l1 + ([Push(RAX)] + l2);
  }

  // ----- statements -----

  lemma {:induction false} SolidS(p: Program, d: nat, sizes: seq<Size>, s: Stmt, inLoop: bool, at: nat, c: Ctx)
    returns (l: seq<Instr>)
    requires WfS(p, d, sizes, s, inLoop) && |sizes| <= MAX_VARS && |c.k.addrs| == |p| && Near(c.k, d)
    requires at + SizeS(s, c.main) < LIMIT && (inLoop ==> 0 <= c.brk < LIMIT)
    ensures Flat(l) == CodeS(s, at, c) && Span(l) == SizeS(s, c.main)
    ensures Solid(l, at, if inLoop then {c.brk} else {}, c.k.addrs)
    decreases s
  {
    hide CodeS, SizeS, WfS, Flat, Span, Solid, Near;
    match s
    case Seq(a, b) => l := SolidSeq(p, d, sizes, a, b, inLoop, at, c);
    case If(e, t) => l := SolidIf(p, d, sizes, e, t, inLoop, at, c);
    case IfElse(e, t, f) => l := SolidIfElse(p, d, sizes, e, t, f, inLoop, at, c);
    case While(e, b) => l := SolidWhile(p, d, sizes, e, b, inLoop, at, c);
    case _ => l := SolidSimple(p, d, sizes, s, inLoop, at, c);
  }

  /** A statement without parts. */
  lemma SolidSimple(p: Program, d: nat, sizes: seq<Size>, s: Stmt, inLoop: bool, at: nat, c: Ctx)
    returns (l: seq<Instr>)
    requires !s.Seq? && !s.If? && !s.IfElse? && !s.While?
    requires WfS(p, d, sizes, s, inLoop) && |sizes| <= MAX_VARS && |c.k.addrs| == |p| && Near(c.k, d)
    requires at + SizeS(s, c.main) < LIMIT && (inLoop ==> 0 <= c.brk < LIMIT)
    ensures Flat(l) == CodeS(s, at, c) && Span(l) == SizeS(s, c.main)
    ensures Solid(l, at, if inLoop then {c.brk} else {}, c.k.addrs)
  {
    hide Encode, Bytes, ReturnRax, Flat, Span, Solid, AsmLen, CodeE, SizeE, IfCode, IfElseCode, WhileCode, WfE, Near;
    var out := if inLoop then {c.brk} else {};
    match s
    case Skip =>
      l := [];
      SolidNone(at, out, c.k.addrs);
    case Assign(slot, size, e) =>
      var l1 := SolidE(p, d, sizes, e, at, c.k);
      SolidMore(l1, at, out, c.k.addrs);
      One(StoreVar(slot, size), at + SizeE(e), out, c.k.addrs);
      SolidThen(l1, [StoreVar(slot, size)], at, out, c.k.addrs);
      l := l1 + [StoreVar(slot, size)];
    case Zero(slot) =>
      One(MovImm(RAX, 0), at, out, c.k.addrs);
      One(Store(RAX, SlotDisp(slot)), at + 10, out, c.k.addrs);
      SolidThen([MovImm(RAX, 0)], [Store(RAX, SlotDisp(slot))], at, out, c.k.addrs);
      l := [MovImm(RAX, 0)] + [Store(RAX, SlotDisp(slot))];
    case Break =>
      l := [Jmp(BreakRel(c.brk, at + 1))];
      One(l[0], at, out, c.k.addrs);
      OneOut(l[0], at, out, c.k.addrs);
    case Return(e) =>
      QuietReturn(c.main);
      var l1 := SolidE(p, d, sizes, e, at, c.k);
      SolidMore(l1, at, out, c.k.addrs);
      var l2 := Listed(ReturnRax(c.main), at + SizeE(e), out, c.k.addrs);
      SolidThen(l1, l2, at, out, c.k.addrs);
      l := l1 + l2;
    case Do(e) =>
      l := SolidE(p, d, sizes, e, at, c.k);
      SolidMore(l, at, out, c.k.addrs);
  }

  lemma {:induction false} SolidSeq(p: Program, d: nat, sizes: seq<Size>, a: Stmt, b: Stmt, inLoop: bool, at: nat,
      c: Ctx)
    returns (l: seq<Instr>)
    requires WfS(p, d, sizes, Seq(a, b), inLoop) && |sizes| <= MAX_VARS && |c.k.addrs| == |p| && Near(c.k, d)
    requires at + SizeS(Seq(a, b), c.main) < LIMIT && (inLoop ==> 0 <= c.brk < LIMIT)
    ensures Flat(l) == CodeS(Seq(a, b), at, c) && Span(l) == SizeS(Seq(a, b), c.main)
    ensures Solid(l, at, if inLoop then {c.brk} else {}, c.k.addrs)
    decreases Seq(a, b), 0
  {
    hide Flat, Span, Solid, CodeS, SizeS, Near;
    SeqBytes(a, b, at, c);
    SeqSize(a, b, c.main);
    var l1 := SolidS(p, d, sizes, a, inLoop, at, c);
    var l2 := SolidS(p, d, sizes, b, inLoop, at + SizeS(a, c.main), c);
    SolidThen(l1, l2, at, if inLoop then {c.brk} else {}, c.k.addrs);
    l := l1 + l2;
  }

  /** A test that jumps to a known place. */
  lemma SolidTest(rel: int, at: int, out: set<int>, addrs: seq<nat>) returns (l: seq<Instr>)
    requires at + 10 + rel in out && -LIMIT < rel < LIMIT
    ensures Flat(l) == TestCode(rel) && Span(l) == 10 && Solid(l, at, out, addrs)
  {
    hide Encode, Flat, Span, Solid;
    One(CmpRaxZero, at, out, addrs);
    One(Je(rel), at + 4, out, addrs);
    OneOut(Je(rel), at + 4, out, addrs);
    SolidThen([CmpRaxZero], [Je(rel)], at, out, addrs);
    l := [CmpRaxZero] + [Je(rel)];
  }

  lemma SolidJump(rel: int, at: int, out: set<int>, addrs: seq<nat>) returns (l: seq<Instr>)
    requires at + 5 + rel in out && -LIMIT < rel < LIMIT
    ensures Flat(l) == JmpCode(rel) && Span(l) == 5 && Solid(l, at, out, addrs)
  {
    hide Encode, Flat, Span, Solid;
    One(Jmp(rel), at, out, addrs);
    OneOut(Jmp(rel), at, out, addrs);
    l := [Jmp(rel)];
  }

  /** Places that turn out to be boundaries are no longer outside. */
  lemma Close(l: seq<Instr>, at: int, out: set<int>, out': set<int>, addrs: seq<nat>)
    requires Solid(l, at, out, addrs) && Known(l, at, out, out')
    ensures Solid(l, at, out', addrs)
  {
    hide Solid, Flat, Span;
    SolidNone(at + Span(l), out, addrs);
    assert l + [] == l;
    SolidBoth(l, [], at, out, out, out', addrs);
  }

  lemma WiderOut(l: seq<Instr>, at: int, out: set<int>, out': set<int>, addrs: seq<nat>)
    requires Solid(l, at, out, addrs) && out <= out'
    ensures Solid(l, at, out', addrs)
  {
    hide Solid;
    Close(l, at, out, out', addrs);
  }

  /** Condition, test and branch: the test goes to the end. */
  lemma {:induction false} SolidIf(p: Program, d: nat, sizes: seq<Size>, e: Expr, t: Stmt, inLoop: bool, at: nat,
      c: Ctx)
    returns (l: seq<Instr>)
    requires WfS(p, d, sizes, If(e, t), inLoop) && |sizes| <= MAX_VARS && |c.k.addrs| == |p| && Near(c.k, d)
    requires at + SizeS(If(e, t), c.main) < LIMIT && (inLoop ==> 0 <= c.brk < LIMIT)
    ensures Flat(l) == CodeS(If(e, t), at, c) && Span(l) == SizeS(If(e, t), c.main)
    ensures Solid(l, at, if inLoop then {c.brk} else {}, c.k.addrs)
    decreases If(e, t), 0
  {
    hide Flat, Span, Solid, CodeS, SizeS, CodeE, SizeE, Near, Known, WfE, TestCode, Boundary;
    IfBytes(e, t, at, c);
    IfSize(e, t, c.main);
    var out, addrs := if inLoop then {c.brk} else {}, c.k.addrs;
    var at1 := at + SizeE(e) + 10;
    var end := at1 + SizeS(t, c.main);
    var wide := out + {end};
    var l1 := SolidE(p, d, sizes, e, at, c.k);
    var l2 := SolidTest(SizeS(t, c.main), at1 - 10, wide, addrs);
    var l3 := SolidS(p, d, sizes, t, inLoop, at1, c);
    LenS(t, at1, c);
    SolidMore(l1, at, wide, addrs);
    WiderOut(l3, at1, out, wide, addrs);
    SolidThen(l2, l3, at1 - 10, wide, addrs);
    SolidThen(l1, l2 + l3, at, wide, addrs);
    l := l1 + (l2 + l3);
    Ends(l, at);
    KnownOne(l, at, out, end);
    Close(l, at, wide, out, addrs);
  }

  lemma KnownOne(l: seq<Instr>, at: int, out: set<int>, x: int)
    requires Boundary(l, at, x)
    ensures Known(l, at, out + {x}, out)
  {
  }

  lemma {:induction false} SolidIfElse(p: Program, d: nat, sizes: seq<Size>, e: Expr, t: Stmt, f: Stmt, inLoop: bool,
      at: nat,
                                       c: Ctx) returns (l: seq<Instr>)
    requires WfS(p, d, sizes, IfElse(e, t, f), inLoop) && |sizes| <= MAX_VARS && |c.k.addrs| == |p| && Near(c.k, d)
    requires at + SizeS(IfElse(e, t, f), c.main) < LIMIT && (inLoop ==> 0 <= c.brk < LIMIT)
    ensures Flat(l) == CodeS(IfElse(e, t, f), at, c) && Span(l) == SizeS(IfElse(e, t, f), c.main)
    ensures Solid(l, at, if inLoop then {c.brk} else {}, c.k.addrs)
    decreases IfElse(e, t, f), 0
  {
    hide Flat, Span, Solid, CodeS, SizeS, CodeE, SizeE, Near, Known, WfE, TestCode, JmpCode, Boundary;
    IfElseBytes(e, t, f, at, c);
    IfElseSize(e, t, f, c.main);
    var out, addrs := if inLoop then {c.brk} else {}, c.k.addrs;
    var at1 := at + SizeE(e) + 10;
    var at2 := at1 + SizeS(t, c.main) + 5;
    var end := at2 + SizeS(f, c.main);
    var wide := out + {at2} + {end};
    var l1 := SolidE(p, d, sizes, e, at, c.k);
    var l2 := SolidTest(SizeS(t, c.main) + 5, at1 - 10, wide, addrs);
    var l3 := SolidS(p, d, sizes, t, inLoop, at1, c);
    var l4 := SolidJump(SizeS(f, c.main), at2 - 5, wide, addrs);
    var l5 := SolidS(p, d, sizes, f, inLoop, at2, c);
    LenS(t, at1, c);
    LenS(f, at2, c);
    SolidMore(l1, at, wide, addrs);
    WiderOut(l3, at1, out, wide, addrs);
    WiderOut(l5, at2, out, wide, addrs);
    SolidThen(l4, l5, at2 - 5, wide, addrs);
    SolidThen(l3, l4 + l5, at1, wide, addrs);
    SolidThen(l2, l3 + (l4 + l5), at1 - 10, wide, addrs);
    SolidThen(l1, l2 + (l3 + (l4 + l5)), at, wide, addrs);
    l := l1 + (l2 + (l3 + (l4 + l5)));
    ElseStarts(l1, l2, l3, l4, l5, at);
    Ends(l, at);
    KnownOne(l, at, out + {at2}, end);
    Close(l, at, wide, out + {at2}, addrs);
    KnownOne(l, at, out, at2);
    Close(l, at, out + {at2}, out, addrs);
  }

  /** The start of the last of five lists is a boundary. */
  lemma ElseStarts(l1: seq<Instr>, l2: seq<Instr>, l3: seq<Instr>, l4: seq<Instr>, l5: seq<Instr>, at: int)
    ensures Boundary(l1 + (l2 + (l3 + (l4 + l5))), at, at + Span(l1) + Span(l2) + Span(l3) + Span(l4))
  {
    hide Span, Boundary;
    var x := at + Span(l1) + Span(l2) + Span(l3) + Span(l4);
    Ends(l5, x);
    BoundaryRight(l4, l5, x - Span(l4), x);
    BoundaryRight(l3, l4 + l5, x - Span(l4) - Span(l3), x);
    BoundaryRight(l2, l3 + (l4 + l5), x - Span(l4) - Span(l3) - Span(l2), x);
    BoundaryRight(l1, l2 + (l3 + (l4 + l5)), at, x);
  }

  lemma {:induction false} SolidWhile(p: Program, d: nat, sizes: seq<Size>, e: Expr, b: Stmt, inLoop: bool, at: nat,
      c: Ctx)
    returns (l: seq<Instr>)
    requires WfS(p, d, sizes, While(e, b), inLoop) && |sizes| <= MAX_VARS && |c.k.addrs| == |p| && Near(c.k, d)
    requires at + SizeS(While(e, b), c.main) < LIMIT
    ensures Flat(l) == CodeS(While(e, b), at, c) && Span(l) == SizeS(While(e, b), c.main)
    ensures Solid(l, at, if inLoop then {c.brk} else {}, c.k.addrs)
    decreases While(e, b), 0
  {
    hide Flat, Span, Solid, CodeS, SizeS, CodeE, SizeE, Near, Known, WfE, TestCode, JmpCode, Boundary;
    WhileBytes(e, b, at, c);
    WhileSize(e, b, c.main);
    var addrs, end := c.k.addrs, at + SizeS(While(e, b), c.main);
    var at1, c1 := at + SizeE(e) + 10, c.(brk := end);
    var wide := {end} + {at};
    var l1 := SolidE(p, d, sizes, e, at, c.k);
    var l2 := SolidTest(SizeS(b, c.main) + 5, at1 - 10, wide, addrs);
    var l3 := SolidS(p, d, sizes, b, true, at1, c1);
    LenE(e, at, c.k);
    LenS(b, at1, c1);
    var l4 := SolidJump(-15 - SizeE(e) - SizeS(b, c.main), end - 5, wide, addrs);
    SolidMore(l1, at, wide, addrs);
    WiderOut(l3, at1, {end}, wide, addrs);
    SolidThen(l3, l4, at1, wide, addrs);
    SolidThen(l2, l3 + l4, at1 - 10, wide, addrs);
    SolidThen(l1, l2 + (l3 + l4), at, wide, addrs);
    l := l1 + (l2 + (l3 + l4));
    Ends(l, at);
    KnownOne(l, at, {end}, at);
    Close(l, at, wide, {end}, addrs);
    KnownOne(l, at, {}, end);
    assert {} + {end} == {end};
    Close(l, at, {end}, {}, addrs);
    SolidMore(l, at, if inLoop then {c.brk} else {}, addrs);
  }

  // ----- functions and texts -----

  /** The code of a function as instructions: every jump stays in the function, every call goes to a function. */
  lemma SolidF(p: Program, d: nat, f: Func, at: nat, k: Links) returns (l: seq<Instr>)
    requires WfF(p, d, f) && |k.addrs| == |p| && Near(k, d) && at + SizeF(f) < LIMIT
    ensures Flat(l) == CodeF(f, at, k) && Span(l) == SizeF(f) && Solid(l, at, {}, k.addrs)
  {
    hide Flat, Span, Solid, CodeS, SizeS, Near, Bytes, AsmLen, FallOff, Prologue, StoreParams, FrameSize, WfS;
    var c, at1 := Ctx(-1, f.isMain, k), at + HeadSize(f);
    FrameSmall(f);
    ProloguePlain(FrameSize(f));
    PlainQuiet(Prologue(FrameSize(f)));
    ParamsPlain(0, f.argc);
    PlainQuiet(StoreParams(0, f.argc));
    QuietReturn(f.isMain);
    var l1 := Listed(Prologue(FrameSize(f)), at, {}, k.addrs);
    var l2 := Listed(StoreParams(0, f.argc), at + AsmLen(Prologue(FrameSize(f))), {}, k.addrs);
    SolidThen(l1, l2, at, {}, k.addrs);
    var l3 := SolidS(p, d, f.sizes, f.body, false, at1, c);
    var l4 := Listed(FallOff(f.isMain), at1 + SizeS(f.body, f.isMain), {}, k.addrs);
    SolidThen(l3, l4, at1, {}, k.addrs);
    SolidThen(l1 + l2, l3 + l4, at, {}, k.addrs);
    l := (l1 + l2) + (l3 + l4);
  }

  lemma FrameSmall(f: Func)
    requires |f.sizes| <= MAX_VARS
    ensures FrameSize(f) < LIMIT
  {
  }

  lemma {:induction false} AddrUp(start: nat, p: Program, i: nat, j: nat)
    requires i <= j <= |p|
    ensures Addr(start, p, i) <= Addr(start, p, j)
    decreases j - i
  {
    hide SizeF;
    if i < j { AddrUp(start, p, i, j - 1); }
  }

  /** Instruction q of a list that stands in the text is what the processor decodes there. */
  lemma DecodesAt(text: seq<byte>, at: int, l: seq<Instr>, q: nat)
    requires q < |l| && Has(text, at, Flat(l)) && Encodable(l[q])
    ensures 0 <= Offset(l, at, q) <= |text| && Decode(text[Offset(l, at, q)..]) == Some(Decoded(l[q], Len(l[q])))
  {
    hide Flat, Span, Offset, Has, Len, Decode, Encodable;
    Around(l, q);
    OffsetIs(l, at, q);
    DecodesAfter(text, at, l[..q], l[q], l[q + 1..]);
  }

  lemma DecodesAfter(text: seq<byte>, at: int, before: seq<Instr>, i: Instr, after: seq<Instr>)
    requires Has(text, at, Flat(before + ([i] + after))) && Encodable(i)
    ensures 0 <= at + Span(before) <= |text| && Decode(text[at + Span(before)..]) == Some(Decoded(i, Len(i)))
  {
    hide Flat, Span, Encode, Len, Decode, Encodable, Has;
    Joined(before, [i] + after);
    Joined([i], after);
    FlatLen(before);
    FlatOne(i);
    HasSplit(text, at, Flat(before), Flat([i] + after));
    HasSplit(text, at + Span(before), Encode(i), Flat(after));
    HasRange(text, at + Span(before), Encode(i));
    HasDecodes(text, at + Span(before), i);
  }

  lemma HasRange(text: seq<byte>, at: int, b: seq<byte>)
    requires Has(text, at, b)
    ensures 0 <= at <= |text|
  {
  }

  lemma Around<T>(l: seq<T>, q: nat)
    requires q < |l|
    ensures l == l[..q] + ([l[q]] + l[q + 1..])
  {
  }

  lemma FlatOne(i: Instr)
    ensures Flat([i]) == Encode(i) && |Encode(i)| == Len(i)
  {
    assert [i][..0] == [];
  }

  lemma HasDecodes(text: seq<byte>, at: int, i: Instr)
    requires Has(text, at, Encode(i)) && Encodable(i)
    ensures Decode(text[at..]) == Some(Decoded(i, Len(i)))
  {
    hide Encode, Len, Decode, Encodable;
    FlatOne(i);
    assert text[at..] == Encode(i) + text[at + |Encode(i)|..];
    DecodeEncode(i, text[at + |Encode(i)|..]);
  }

  /**
   Instruction q of the list stands in the text; if it jumps, it goes to the start of an instruction of the same list
   or to the list's end, and if it calls, to the address of a function.
   */
  ghost predicate Sealed(text: seq<byte>, at: int, l: seq<Instr>, addrs: seq<nat>, q: nat)
    requires q < |l|
  {
    && 0 <= Offset(l, at, q) <= |text| && Decode(text[Offset(l, at, q)..]) == Some(Decoded(l[q], Len(l[q])))
    && (l[q].Jmp? || l[q].Je? ==> Boundary(l, at, Target(l, at, q)))
    && (l[q].CallNear? ==> Target(l, at, q) in addrs)
  }

  /**
   The functions of a linked text are lists of instructions that follow one another and jump only inside themselves.
   */
  lemma JumpsStay(g: Form, p: Program, d: nat, k: Links, i: nat) returns (l: seq<Instr>)
    requires WfP(p, d) && i < |p| && k.addrs == Addrs(StartSize(g), p)
    requires 0 <= k.data && k.data + d < LIMIT && Addr(StartSize(g), p, |p|) < LIMIT
    ensures Offset(l, k.addrs[i], |l|) == Addr(StartSize(g), p, i + 1)
    ensures forall q :: 0 <= q < |l| ==> Sealed(CodeP(g, p, k), k.addrs[i], l, k.addrs, q)
  {
    hide Flat, Span, Encode, Len, Decode, Encodable, CodeF, SizeF, CodeFrom, StartCode, StartSize, Has, WfF, Boundary;
    var start, text, at := StartSize(g), CodeP(g, p, k), k.addrs[i];
    AddrUp(start, p, i + 1, |p|);
    forall j | 0 <= j < |p| ensures k.addrs[j] < LIMIT { AddrUp(start, p, j, |p|); }
    l := SolidF(p, d, p[i], at, k);
    EP.StartLen(g, k);
    EP.AddrStart(start, p);
    HasWhole(StartCode(g, k), CodeFrom(start, p, 0, k));
    Whole.PlacedFrom(start, p, k, text, 0, i);
    assert l[..|l|] == l;
    forall q | 0 <= q < |l| ensures Sealed(text, at, l, k.addrs, q) {
      assert SolidAt(l, at, {}, k.addrs, q);
      DecodesAt(text, at, l, q);
    }
  }

  lemma HasWhole(a: seq<byte>, b: seq<byte>)
    ensures Has(a + b, |a|, b)
  {
  }

  /** The links of a compiled source: data right behind the padded text. */
  function LinksOf(g: Form, p: Program): Links {
    Links(Addrs(StartSize(g), p), AlignUp(Addr(StartSize(g), p, |p|)))
  }

  /** Whatever the compiler accepts and has room for, as a program or as a module. */
  lemma SourceJumps(g: Form, fs: seq<Decl>, i: nat) returns (l: seq<Instr>)
    requires (forall d :: d in fs ==> |d.params| <= MAX_PARAMS) && ParseFrom(fs, 0, []).Some?
    requires var p := ParseFrom(fs, 0, []).value.0; i < |p| && EP.Fits(StartSize(g), p)
    ensures var p := ParseFrom(fs, 0, []).value.0; var k := LinksOf(g, p);
      && Offset(l, k.addrs[i], |l|) == Addr(StartSize(g), p, i + 1)
      && forall q :: 0 <= q < |l| ==> Sealed(CodeP(g, p, k), k.addrs[i], l, k.addrs, q)
  {
    hide ParseFrom, Addr, CodeP, Sealed, WfP, StartSize, Offset;
    var (p, data) := ParseFrom(fs, 0, []).value;
    ParseWf.ParsedWf(fs);
    DataSmall(fs);
    l := JumpsStay(g, p, |data|, LinksOf(g, p), i);
  }

  lemma DataSmall(fs: seq<Decl>)
    requires (forall d :: d in fs ==> |d.params| <= MAX_PARAMS) && ParseFrom(fs, 0, []).Some?
    ensures |ParseFrom(fs, 0, []).value.1| <= DATA_MAX
  {
  }

  /** The start sequence of a program calls main. */
  lemma StartCalls(main: nat, p: Program, k: Links)
    requires main < |p| && k.addrs == Addrs(START_SIZE, p) && k.addrs[main] < LIMIT
    ensures var i := CallNear(CallRel(k, main, 1));
      Decode(CodeP(UserImage(main), p, k)) == Some(Decoded(i, 5)) && 5 + i.rel == k.addrs[main]
  {
    hide CodeFrom, StartCode, Decode, Encode, Len, Addrs, Bytes, ExitRax;
    var i := CallNear(CallRel(k, main, 1));
    var text, tl := CodeP(UserImage(main), p, k), Bytes(ExitRax()) + CodeFrom(START_SIZE, p, 0, k);
    StartIs(main, k);
    assert Encode(i) + tl == text;
    assert text[0..] == text;
    HasFirst(Encode(i), tl);
    HasDecodes(text, 0, i);
    CallLen(i);
  }

  lemma StartIs(main: nat, k: Links)
    ensures StartCode(UserImage(main), k) == Encode(CallNear(CallRel(k, main, 1))) + Bytes(ExitRax())
  {
    hide Encode, Bytes, ExitRax;
  }

  lemma CallLen(i: Instr)
    requires i.CallNear?
    ensures Len(i) == 5
  {
  }

  lemma HasFirst(a: seq<byte>, b: seq<byte>)
    ensures Has(a + b, 0, a)
  {
  }
}
