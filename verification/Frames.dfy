/**
 The relation between a running function of the source program and the machine: where its variables
 live, how much stack it may still use, and what "the machine does what the source does" means.
 */
module Frames {
  import opened Words
  import opened X86
  import opened Machine
  import opened OreLang
  import opened Codegen

  // ----- stack need -----

  function Max(a: nat, b: nat): nat { if a >= b then a else b }

  /** How many temporaries an expression pushes at most. */
  function TempsE(e: Expr): nat {
    match e
    case Un(_, a) => TempsE(a)
    case Bin(_, a, b) => Max(TempsE(a), 1 + TempsE(b))
    case Call(_, args) => TempsA(args)
    case _ => 0
  }

  function TempsA(args: Args): nat {
    match args
    case NoArgs => 0
    case Arg(e, tl) => Max(TempsE(e), 1 + TempsA(tl))
  }

  function TempsS(s: Stmt): nat {
    match s
    case Seq(a, b) => Max(TempsS(a), TempsS(b))
    case Assign(_, _, e) => TempsE(e)
    case If(c, t) => Max(TempsE(c), TempsS(t))
    case IfElse(c, t, e) => Max(TempsE(c), Max(TempsS(t), TempsS(e)))
    case While(c, b) => Max(TempsE(c), TempsS(b))
    case Return(e) => TempsE(e)
    case Do(e) => TempsE(e)
    case _ => 0
  }

  /** Bytes of stack that one activation of f uses, including the return address. */
  function Need(f: Func): (r: nat)
    ensures r >= 16
  {
    16 + FrameSize(f) + 8 * TempsS(f.body)
  }

  // ----- well-formed programs: what the front end guarantees -----

  predicate WfE(p: Program, dataLen: nat, sizes: seq<Size>, e: Expr) {
    match e
    case Num(_) => true
    case Data(off) => off <= dataLen
    case Var(slot, size) => slot < |sizes| && sizes[slot] == size
    case Un(_, a) => WfE(p, dataLen, sizes, a)
    case Bin(_, a, b) => WfE(p, dataLen, sizes, a) && WfE(p, dataLen, sizes, b)
    case Call(fn, args) => fn < |p| && ArgCount(args) == p[fn].argc && WfA(p, dataLen, sizes, args)
  }

  predicate WfA(p: Program, dataLen: nat, sizes: seq<Size>, args: Args) {
    match args
    case NoArgs => true
    case Arg(e, tl) => WfE(p, dataLen, sizes, e) && WfA(p, dataLen, sizes, tl)
  }

  predicate WfS(p: Program, dataLen: nat, sizes: seq<Size>, s: Stmt, inLoop: bool) {
    match s
    case Skip => true
    case Seq(a, b) => WfS(p, dataLen, sizes, a, inLoop) && WfS(p, dataLen, sizes, b, inLoop)
    case Assign(slot, size, e) => slot < |sizes| && sizes[slot] == size && WfE(p, dataLen, sizes, e)
    case Zero(slot) => slot < |sizes|
    case If(c, t) => WfE(p, dataLen, sizes, c) && WfS(p, dataLen, sizes, t, inLoop)
    case IfElse(c, t, e) =>
      WfE(p, dataLen, sizes, c) && WfS(p, dataLen, sizes, t, inLoop) && WfS(p, dataLen, sizes, e, inLoop)
    case While(c, b) => WfE(p, dataLen, sizes, c) && WfS(p, dataLen, sizes, b, true)
    case Break => inLoop
    case Return(e) => WfE(p, dataLen, sizes, e)
    case Do(e) => WfE(p, dataLen, sizes, e)
  }

  predicate WfF(p: Program, dataLen: nat, f: Func) {
    f.argc <= MAX_PARAMS && f.argc <= |f.sizes| <= MAX_VARS && WfS(p, dataLen, f.sizes, f.body, false)
  }

  predicate WfP(p: Program, dataLen: nat) {
    forall i :: 0 <= i < |p| ==> WfF(p, dataLen, p[i])
  }

  // ----- a compiled program in place -----

  /** room is the stack reserved for each activation. */
  datatype World = World(c: Config, p: Program, k: Links, dataLen: nat, room: nat) {
    ghost predicate Base() {
      && c.Valid() && |k.addrs| == |p|
      && 0 <= k.data && k.data + dataLen < 0x4000_0000
      && c.base + k.data + dataLen < 0x1_0000_0000_0000_0000
    }

    /** Function i is well formed, fits its stack reservation, and its linked code stands at its address. */
    ghost predicate Placed(i: nat)
      requires |k.addrs| == |p| && i < |p|
    {
      WfF(p, dataLen, p[i]) && Need(p[i]) <= room && Has(c.text, k.addrs[i], CodeF(p[i], k.addrs[i], k))
    }

    ghost predicate Ok() {
      Base() && forall i :: 0 <= i < |p| ==> Placed(i)
    }

    function DataBase(): u64
      requires 0 <= c.base + k.data < 0x1_0000_0000_0000_0000
    {
      c.base + k.data
    }
  }

  // ----- frames -----

  /** The low end of a slot, as a load of the given size reads it. */
  function LowPart(v: u64, size: Size): u64 {
    match size
    case B1 => v % 0x100
    case B4 => v % 0x1_0000_0000
    case B8 => v
  }

  /** rsp and rbp delimit a frame with n variable slots inside the stack. */
  ghost predicate InFrame(c: Config, n: nat, m: State) {
    && m.rbp % 8 == 0 && m.rsp % 8 == 0
    && c.low <= m.rsp && m.rsp + 16 + 8 * n <= m.rbp + 8 && m.rbp + 16 <= c.high
  }

  /** Every initialised variable is in its slot. */
  ghost predicate Vars(sizes: seq<Size>, m: State, st: Env) {
    forall x :: x in st ==> x < |sizes| && LowPart(Cell(m.mem, m.rbp + SlotDisp(x)), sizes[x]) == U(st[x])
  }

  ghost predicate Rel(w: World, f: Func, m: State, st: Env) {
    InFrame(w.c, |f.sizes|, m) && Vars(f.sizes, m, st)
  }

  /** Stack left: temps more pushes here and depth further activations. */
  ghost predicate Room(w: World, m: State, temps: nat, depth: nat) {
    w.c.low + 8 * temps + Reserve(w.room, depth) <= m.rsp
  }

  function Reserve(room: nat, depth: nat): nat {
    if depth == 0 then 0 else room + Reserve(room, depth - 1)
  }

  /** Nothing at or above a has changed. */
  ghost predicate Kept(m: State, m': State, a: int) {
    forall x :: x >= a ==> Cell(m'.mem, x) == Cell(m.mem, x)
  }

  /** An expression leaves the frame as it was. */
  ghost predicate Same(m: State, m': State) {
    m'.rsp == m.rsp && m'.rbp == m.rbp && Kept(m, m', m.rsp)
  }

  /** A statement may change variable slots only: saved registers and the return address survive. */
  ghost predicate SameFrame(m: State, m': State) {
    m'.rsp == m.rsp && m'.rbp == m.rbp && Kept(m, m', m.rbp - 8)
  }

  lemma RelSame(w: World, f: Func, m: State, m': State, st: Env)
    requires Rel(w, f, m, st) && m'.rbp == m.rbp && m'.rsp <= m.rsp && Kept(m, m', m.rsp)
    requires w.c.low <= m'.rsp && m'.rsp % 8 == 0
    ensures Rel(w, f, m', st)
  {
    hide LowPart;
    forall x | x in st
      ensures LowPart(Cell(m'.mem, m'.rbp + SlotDisp(x)), f.sizes[x]) == U(st[x])
    {
      assert m.rbp + SlotDisp(x) >= m.rsp;
    }
  }

  // ----- agreement of runs -----

  /** n steps lead from m to m', and there are at least t of them. */
  ghost predicate Reach(c: Config, m: State, n: nat, m': State, t: int) {
    Run(c, m, n) == Go(m') && n >= t
  }

  /** The machine stops (or keeps running, for a timeout) as the source does. */
  ghost predicate Stops(c: Config, m: State, n: nat, why: Why, clock: nat) {
    match why
    case Exit(code) => Run(c, m, n) == Exited(U(code))
    case DivTrap => Run(c, m, n) == DivideError
    case Timeout => n >= clock && Run(c, m, n).Go?
    case _ => true
  }

  lemma ReachAdd(c: Config, m: State, n: nat, m1: State, t: int, n1: nat, m2: State, t1: int)
    requires Reach(c, m, n, m1, t) && Reach(c, m1, n1, m2, t1)
    ensures Reach(c, m, n + n1, m2, t + t1)
  {
    hide Run;
    RunAdd(c, m, n, n1);
  }

  lemma StopsAdd(c: Config, m: State, n: nat, m1: State, n1: nat, why: Why, clock: nat, left: nat)
    requires Reach(c, m, n, m1, clock - left) && Stops(c, m1, n1, why, left)
    ensures Stops(c, m, n + n1, why, clock)
  {
    hide Run;
    RunAdd(c, m, n, n1);
  }
}
