/** Entering and leaving a function: prologue, parameter stores, epilogue and exit. */
module SimFrame {
  import opened Words
  import opened X86
  import opened Machine
  import opened OreLang
  import opened Codegen
  import opened Straight
  import opened Frames
  import opened SimExpr

  /** The machine state behind the prologue. */
  function Entered(m: State, frame: nat): State
    requires frame + 8 <= m.rsp
  {
    Put(Put(m, m.rsp - 8, m.rbp), m.rsp - 16, m.rbx).(rsp := m.rsp - 8 - frame, rbp := m.rsp - 8, flags := None)
  }

  lemma PushRbpExec(c: Config, m: State)
    requires c.Valid() && m.rsp % 8 == 0 && c.low + 8 <= m.rsp <= c.high
    ensures Exec(c, Push(RBP), m) == Go(Put(m, m.rsp - 8, m.rbp).(rsp := m.rsp - 8))
  {
  }

  lemma SubRspExec(c: Config, m: State, frame: nat)
    requires frame <= m.rsp
    ensures Exec(c, SubRsp(frame), m) == Go(m.(rsp := m.rsp - frame, flags := None))
  {
  }

  lemma StoreExec(c: Config, m: State, r: Reg, disp: int)
    requires c.Mapped(m.rbp + disp)
    ensures Exec(c, Store(r, disp), m) == Go(Put(m, m.rbp + disp, Get(m, r)))
  {
  }

  lemma MovExec(c: Config, m: State)
    ensures Exec(c, MovRR(RBP, RSP), m) == Go(m.(rbp := m.rsp))
    ensures Exec(c, MovRR(RSP, RBP), m) == Go(m.(rsp := m.rbp))
  {
  }

  lemma PrologueEffect(c: Config, m: State, frame: nat)
    requires c.Valid() && m.rsp % 8 == 0 && frame >= 8 && c.low + 8 + frame <= m.rsp <= c.high
    ensures Effect(c, Prologue(frame), m) == Go(Entered(m, frame))
  {
    hide Effect, Exec;
    EffectEnd(c);
    var t3 := Then(Store(RBX, -8), End);
    var t2 := Then(SubRsp(frame), t3);
    var t1 := Then(MovRR(RBP, RSP), t2);
    var m1 := Put(m, m.rsp - 8, m.rbp).(rsp := m.rsp - 8);
    var m2 := m1.(rbp := m.rsp - 8);
    var m3 := m2.(rsp := m.rsp - 8 - frame, flags := None);
    PushRbpExec(c, m);
    EffectStep(c, Push(RBP), t1, m, m1);
    MovExec(c, m1);
    EffectStep(c, MovRR(RBP, RSP), t2, m1, m2);
    SubRspExec(c, m2, frame);
    EffectStep(c, SubRsp(frame), t3, m2, m3);
    StoreExec(c, m3, RBX, -8);
    EffectStep(c, Store(RBX, -8), End, m3, Entered(m, frame));
  }

  lemma ProloguePlain(frame: nat)
    requires frame < 0x8000_0000
    ensures AllPlain(Prologue(frame))
  {
    assert AllPlain(Then(SubRsp(frame), Then(Store(RBX, -8), End)));
  }

  /** s is m with argument j stored in slot j, for i <= j < argc, and nothing else changed. */
  ghost predicate Stored(m: State, s: State, i: nat, argc: nat) {
    && s == m.(mem := s.mem)
    && (forall j :: i <= j < argc ==> Cell(s.mem, m.rbp + SlotDisp(j)) == Get(m, ArgReg(j)))
    && (forall x :: x > m.rbp + SlotDisp(i) ==> Cell(s.mem, x) == Cell(m.mem, x))
  }

  lemma {:induction false} ParamsEffect(c: Config, m: State, i: nat, argc: nat)
    requires c.Valid() && i <= argc <= MAX_PARAMS && InFrame(c, argc, m)
    ensures var o := Effect(c, StoreParams(i, argc), m); o.Go? && Stored(m, o.s, i, argc)
    decreases argc - i
  {
    hide Exec, Effect, Get, Stored, ArgReg;
    EffectEnd(c);
    StoredNone(m, argc);
    if i < argc {
      var a := m.rbp + SlotDisp(i);
      var m1 := Put(m, a, Get(m, ArgReg(i)));
      StoreExec(c, m, ArgReg(i), SlotDisp(i));
      EffectStep(c, Store(ArgReg(i), SlotDisp(i)), StoreParams(i + 1, argc), m, m1);
      ParamsEffect(c, m1, i + 1, argc);
      StoredStep(m, Effect(c, StoreParams(i + 1, argc), m1).s, i, argc);
    }
  }

  lemma StoredNone(m: State, argc: nat)
    ensures Stored(m, m, argc, argc)
  {
  }

  lemma StoredStep(m: State, s: State, i: nat, argc: nat)
    requires i < argc && Stored(Put(m, m.rbp + SlotDisp(i), Get(m, ArgReg(i))), s, i + 1, argc)
    ensures Stored(m, s, i, argc)
  {
    hide Get, ArgReg;
    GetPut(m, m.rbp + SlotDisp(i), Get(m, ArgReg(i)));
  }

  lemma GetPut(m: State, a: int, v: u64)
    ensures forall r :: Get(Put(m, a, v), r) == Get(m, r)
  {
  }

  lemma {:induction false} ParamsPlain(i: nat, argc: nat)
    requires argc <= MAX_PARAMS
    ensures AllPlain(StoreParams(i, argc))
    decreases argc - i
  {
    if i < argc {
      ParamsPlain(i + 1, argc);
    }
  }

  lemma TruncLow(v: i64, size: Size)
    ensures LowPart(U(v), size) == U(Trunc(v, size))
  {
  }

  /** A call arrives: behind the head of the function the parameters are bound and the frame is set up. */
  lemma Enter(w: World, f: Func, at: int, m: State, vals: seq<i64>) returns (n: nat, m': State)
    requires w.Base() && f.argc <= MAX_PARAMS && f.argc <= |f.sizes| <= MAX_VARS && |vals| == f.argc
    requires Has(w.c.text, at, HeadF(f)) && m.rip == w.c.base + at && Loaded(m, vals)
    requires m.rsp % 8 == 0 && w.c.low + 8 + FrameSize(f) <= m.rsp && m.rsp + 8 <= w.c.high
    ensures Reach(w.c, m, n, m', 0) && m'.rip == w.c.base + at + HeadSize(f)
    ensures m'.rbp == m.rsp - 8 && m'.rsp == m.rsp - 8 - FrameSize(f) && Kept(m, m', m.rsp)
    ensures Cell(m'.mem, m'.rbp) == m.rbp && Cell(m'.mem, m'.rbp - 8) == m.rbx
    ensures Rel(w, f, m', Bind(vals, f.sizes))
  {
    hide Effect, Bytes, AsmLen, AllPlain, Run, Prologue, StoreParams, Vars, Bind, Get, ArgReg, Stored, Entered, Cell;
    var frame := FrameSize(f);
    HasSplit(w.c.text, at, Bytes(Prologue(frame)), Bytes(StoreParams(0, f.argc)));
    ProloguePlain(frame);
    PrologueEffect(w.c, m, frame);
    EnteredFacts(m, frame);
    var n1, m1 := RunThrough(w.c, m, Prologue(frame), at);
    ParamsEffect(w.c, m1, 0, f.argc);
    ParamsPlain(0, f.argc);
    var n2, m2 := RunThrough(w.c, m1, StoreParams(0, f.argc), at + AsmLen(Prologue(frame)));
    ReachAdd(w.c, m, n1, m1, 0, n2, m2, 0);
    n, m' := n1 + n2, m2;
    GetEntered(m, frame, m1.rip);
    ParamsKept(m, m1, Effect(w.c, StoreParams(0, f.argc), m1).s, f.argc);
    BoundParams(f, m1, m', vals);
  }

  /** The prologue saves rbp and rbx and opens the frame below them. */
  lemma EnteredFacts(m: State, frame: nat)
    requires frame + 8 <= m.rsp
    ensures var s := Entered(m, frame);
            && s.rbp == m.rsp - 8 && s.rsp == m.rsp - 8 - frame && Kept(m, s, m.rsp)
            && Cell(s.mem, s.rbp) == m.rbp && Cell(s.mem, s.rbp - 8) == m.rbx
  {
  }

  lemma ParamsKept(m: State, m1: State, s: State, argc: nat)
    requires Stored(m1, s, 0, argc) && m1.rbp == m.rsp - 8 && Kept(m, m1, m.rsp)
    ensures s == m1.(mem := s.mem) && Kept(m, s, m.rsp)
    ensures Cell(s.mem, m1.rbp) == Cell(m1.mem, m1.rbp) && Cell(s.mem, m1.rbp - 8) == Cell(m1.mem, m1.rbp - 8)
    ensures forall j :: 0 <= j < argc ==> Cell(s.mem, m1.rbp + SlotDisp(j)) == Get(m1, ArgReg(j))
  {
    hide Cell, Get, ArgReg;
  }

  lemma GetEntered(m: State, frame: nat, rip: u64)
    requires frame + 8 <= m.rsp
    ensures forall j :: 0 <= j < MAX_PARAMS ==> Get(Entered(m, frame).(rip := rip), ArgReg(j)) == Get(m, ArgReg(j))
  {
  }

  lemma BoundParams(f: Func, m1: State, m': State, vals: seq<i64>)
    requires f.argc <= |f.sizes| && |vals| == f.argc && Loaded(m1, vals) && m'.rbp == m1.rbp
    requires forall j :: 0 <= j < f.argc ==> Cell(m'.mem, m1.rbp + SlotDisp(j)) == Get(m1, ArgReg(j))
    ensures Vars(f.sizes, m', Bind(vals, f.sizes))
  {
    hide LowPart, Trunc, Get;
    var st := Bind(vals, f.sizes);
    forall x | x in st
      ensures LowPart(Cell(m'.mem, m'.rbp + SlotDisp(x)), f.sizes[x]) == U(st[x])
    {
      TruncLow(vals[x], f.sizes[x]);
    }
  }

  /** m' is m returned to its caller with the result left in rax. */
  ghost predicate Returned(m: State, m': State) {
    && m'.rip == Cell(m.mem, m.rbp + 8) && m'.rsp == m.rbp + 16 && m'.rbp == Cell(m.mem, m.rbp)
    && m'.rbx == Cell(m.mem, m.rbp - 8) && m'.rax == m.rax && m'.mem == m.mem
  }

  lemma LeaveExec(c: Config, m: State)
    requires c.Valid()
    ensures c.Mapped(m.rbp - 8) ==> Exec(c, Load(RBX, -8), m) == Go(m.(rbx := Cell(m.mem, m.rbp - 8)))
    ensures c.Mapped(m.rsp) ==> Exec(c, Pop(RBP), m) == Go(m.(rsp := m.rsp + 8, rbp := Cell(m.mem, m.rsp)))
    ensures c.Mapped(m.rsp) ==> Exec(c, RetNear, m) == Go(m.(rsp := m.rsp + 8, rip := Cell(m.mem, m.rsp)))
  {
  }

  lemma Leave(c: Config, m: State, at: int) returns (n: nat, m': State)
    requires c.Valid() && Has(c.text, at, Bytes(Epilogue())) && m.rip == c.base + at
    requires m.rbp % 8 == 0 && c.low + 8 <= m.rbp && m.rbp + 16 <= c.high
    ensures Reach(c, m, n, m', 0) && Returned(m, m')
  {
    hide Effect, Run, Encode, Bytes, AsmLen, Exec;
    EffectEnd(c);
    var a := Then(Load(RBX, -8), Then(MovRR(RSP, RBP), Then(Pop(RBP), End)));
    EpilogueSplit();
    HasSplit(c.text, at, Bytes(a), Encode(RetNear));
    var m1 := m.(rbx := Cell(m.mem, m.rbp - 8));
    var m2 := m1.(rsp := m.rbp);
    var m3 := m2.(rsp := m.rbp + 8, rbp := Cell(m.mem, m.rbp));
    LeaveExec(c, m);
    MovExec(c, m1);
    LeaveExec(c, m2);
    EffectStep(c, Load(RBX, -8), Then(MovRR(RSP, RBP), Then(Pop(RBP), End)), m, m1);
    EffectStep(c, MovRR(RSP, RBP), Then(Pop(RBP), End), m1, m2);
    EffectStep(c, Pop(RBP), End, m2, m3);
    var n1, m4 := RunThrough(c, m, a, at);
    m' := m4.(rip := Cell(m.mem, m.rbp + 8), rsp := m.rbp + 16);
    LeaveExec(c, m4.(rip := m4.rip + Len(RetNear)));
    OneStep(c, m4, RetNear, at + AsmLen(a), m');
    ReachAdd(c, m, n1, m4, 0, 1, m', 1);
    n := n1 + 1;
  }

  lemma EpilogueSplit()
    ensures Bytes(Epilogue())
         == Bytes(Then(Load(RBX, -8), Then(MovRR(RSP, RBP), Then(Pop(RBP), End)))) + Encode(RetNear)
  {
    hide Encode;
  }

  /** exit(rax) */
  lemma ExitRun(c: Config, m: State, at: int) returns (n: nat)
    requires c.Valid() && Has(c.text, at, Bytes(ExitRax())) && m.rip == c.base + at
    ensures Run(c, m, n) == Exited(m.rax)
  {
    hide Effect, Run, Bytes;
    var t2 := Then(Syscall, End);
    var t1 := Then(MovImm(RAX, SYS_EXIT), t2);
    var m1 := m.(rdi := m.rax);
    var m2 := m1.(rax := SYS_EXIT);
    EffectStep(c, MovRR(RDI, RAX), t1, m, m1);
    EffectStep(c, MovImm(RAX, SYS_EXIT), t2, m1, m2);
    EffectExit(c, m2);
    RunAsm(c, m, ExitRax(), at);
    n := Count(ExitRax());
  }

  lemma EffectExit(c: Config, m: State)
    requires m.rax == SYS_EXIT
    ensures Effect(c, Then(Syscall, End), m) == Exited(m.rdi)
  {
  }

  /** Falling off the end: main exits with 0, any other function returns 0. */
  lemma FallOffMain(c: Config, m: State, at: int) returns (n: nat)
    requires c.Valid() && Has(c.text, at, Bytes(FallOff(true))) && m.rip == c.base + at
    ensures Run(c, m, n) == Exited(0)
  {
    hide Effect, Run, Bytes;
    var t2 := Then(Syscall, End);
    var t1 := Then(MovImm(RDI, 0), t2);
    var m1 := m.(rax := SYS_EXIT);
    var m2 := m1.(rdi := 0);
    EffectStep(c, MovImm(RAX, SYS_EXIT), t1, m, m1);
    EffectStep(c, MovImm(RDI, 0), t2, m1, m2);
    EffectExit(c, m2);
    RunAsm(c, m, FallOff(true), at);
    n := Count(FallOff(true));
  }

  lemma FallOffReturn(c: Config, m: State, at: int) returns (n: nat, m': State)
    requires c.Valid() && Has(c.text, at, Bytes(FallOff(false))) && m.rip == c.base + at
    requires m.rbp % 8 == 0 && c.low + 8 <= m.rbp && m.rbp + 16 <= c.high
    ensures Reach(c, m, n, m', 0) && Returned(m.(rax := 0), m')
  {
    hide Run, Encode, Epilogue;
    assert Bytes(FallOff(false)) == Encode(MovImm(RAX, 0)) + Bytes(Epilogue());
    HasSplit(c.text, at, Encode(MovImm(RAX, 0)), Bytes(Epilogue()));
    var m1 := m.(rax := 0, rip := m.rip + 10);
    OneStep(c, m, MovImm(RAX, 0), at, m1);
    var n1;
    n1, m' := Leave(c, m1, at + 10);
    ReachAdd(c, m, 1, m1, 1, n1, m', 0);
    n := 1 + n1;
  }
}
