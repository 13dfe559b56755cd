/**
 Source semantics of the integer fragment of OreLang.

 Programs are resolved: a variable is the index of its slot in the function's variable table (the
 parameters come first), a callee is an index into the function table, and a string literal is its
 offset in the data section.  Evaluation is clocked: every call and every further loop iteration
 consumes a tick, and `depth` bounds the number of nested activations.
 */
module OreLang {
  import opened Words

  /** Storage sizes of the scalar types: bool/char/u8, i32/u32, and int/u64/ptr. */
  datatype Size = B1 | B4 | B8

  datatype UnOp = LogNot | BitNot | Minus

  datatype BinOp =
    | OMul | ODiv | OMod | OAdd | OSub | OShl | OShr | OAnd | OOr
    | OEq | ONe | OLt | OLe | OGt | OGe

  datatype Expr =
    | Num(v: u64)
    | Data(off: nat)
    | Var(slot: nat, size: Size)
    | Un(uop: UnOp, e: Expr)
    | Bin(op: BinOp, lhs: Expr, rhs: Expr)
    | Call(fn: nat, args: Args)

  datatype Args = NoArgs | Arg(hd: Expr, tl: Args)

  datatype Stmt =
    | Skip
    | Seq(first: Stmt, second: Stmt)
    | Assign(slot: nat, size: Size, e: Expr)
    | Zero(slot: nat)                          // let without initialiser
    | If(cond: Expr, thn: Stmt)
    | IfElse(cond: Expr, thn: Stmt, els: Stmt)
    | While(cond: Expr, body: Stmt)
    | Break
    | Return(e: Expr)
    | Do(e: Expr)                              // a call as a statement

  /** sizes gives the variable table; the first argc entries are the parameters. */
  datatype Func = Func(argc: nat, sizes: seq<Size>, body: Stmt, isMain: bool)

  type Program = seq<Func>

  const MAX_PARAMS := 6
  const MAX_VARS := 64

  /** Values of the initialised slots. */
  type Env = map<nat, i64>

  datatype Why =
    | Exit(code: i64)   // the program called exit
    | DivTrap           // a division whose quotient does not exist
    | Timeout           // the clock ran out
    | Unset             // a variable was read before it was set
    | TooDeep           // more than depth nested activations
    | Bad               // bad callee or break outside a loop: impossible in a well-formed program

  datatype Res<+T> = Ok(val: T, clock: nat) | Stop(why: Why)

  datatype Flow = Norm(st: Env) | Brk(st: Env) | Ret(v: i64)

  /** What a slot of the given size gives back after v has been stored in it: narrow loads zero-extend. */
  function Trunc(v: i64, size: Size): i64 {
    match size
    case B1 => U(v) % 0x100
    case B4 => U(v) % 0x1_0000_0000
    case B8 => v
  }

  function OfBool(b: bool): i64 { if b then 1 else 0 }

  function EvalUn(op: UnOp, x: i64): i64 {
    match op
    case LogNot => OfBool(x == 0)
    case BitNot => -1 - x
    case Minus => Wrap(-(x as int))
  }

  /** None is a division trap. Shift counts are taken modulo 64; comparisons are signed. */
  function EvalBin(op: BinOp, x: i64, y: i64): Option<i64> {
    match op
    case OMul => Some(Wrap(x as int * y))
    case ODiv => if DivOk(x, y) then Some(TruncDiv(x, y)) else None
    case OMod => if DivOk(x, y) then Some(Wrap(TruncMod(x, y))) else None
    case OAdd => Some(Wrap(x as int + y))
    case OSub => Some(Wrap(x as int - y))
    case OShl => Some(Wrap(x as int * Pow2(U(y) % 64)))
    case OShr => Some(Wrap(x / Pow2(U(y) % 64)))
    case OAnd => Some(S(And64(U(x), U(y))))
    case OOr => Some(S(Or64(U(x), U(y))))
    case OEq => Some(OfBool(x == y))
    case ONe => Some(OfBool(x != y))
    case OLt => Some(OfBool(x < y))
    case OLe => Some(OfBool(x <= y))
    case OGt => Some(OfBool(x > y))
    case OGe => Some(OfBool(x >= y))
  }

  predicate DivOk(x: i64, y: i64) {
    y != 0 && -0x8000_0000_0000_0000 <= TruncDiv(x, y) < 0x8000_0000_0000_0000
  }

  function ArgCount(args: Args): nat {
    match args
    case NoArgs => 0
    case Arg(_, tl) => 1 + ArgCount(tl)
  }

  /** Parameters start as the (truncated) arguments; every other slot is unset. */
  function Bind(vals: seq<i64>, sizes: seq<Size>): Env
    requires |vals| <= |sizes|
  {
    map i: nat | i < |vals| :: Trunc(vals[i], sizes[i])
  }

  /** The value of e; dataBase is the run-time address of the data section. */
  function Eval(p: Program, dataBase: u64, e: Expr, st: Env, depth: nat, clock: nat): (r: Res<i64>)
    ensures r.Ok? ==> r.clock <= clock
    decreases clock, e, 1
  {
    match e
    case Num(v) => Ok(S(v), clock)
    case Data(off) => Ok(S(U(dataBase + off)), clock)
    case Var(slot, _) => if slot in st then Ok(st[slot], clock) else Stop(Unset)
    case Un(op, a) =>
      var r := Eval(p, dataBase, a, st, depth, clock);
      if r.Stop? then r else Ok(EvalUn(op, r.val), r.clock)
    case Bin(op, a, b) =>
      var r := Eval(p, dataBase, a, st, depth, clock);
      if r.Stop? then r
      else
        var q := Eval(p, dataBase, b, st, depth, r.clock);
        if q.Stop? then q
        else
          var v := EvalBin(op, r.val, q.val);
          if v.None? then Stop(DivTrap) else Ok(v.value, q.clock)
    case Call(fn, args) =>
      var r := EvalArgs(p, dataBase, args, st, depth, clock);
      if r.Stop? then Stop(r.why)
      else if fn >= |p| || |r.val| != p[fn].argc || p[fn].argc > |p[fn].sizes| then Stop(Bad)
      else if depth == 0 then Stop(TooDeep)
      else if r.clock == 0 then Stop(Timeout)
      else Finish(p[fn], ExecStmt(p, dataBase, p[fn].body, Bind(r.val, p[fn].sizes), depth - 1, r.clock - 1))
  }

  /** What a finished body means to the caller: in main, returning is exiting. */
  function Finish(f: Func, r: Res<Flow>): (q: Res<i64>)
    ensures q.Ok? ==> r.Ok? && q.clock == r.clock
  {
    if r.Stop? then Stop(r.why)
    else
      match r.val
      case Norm(_) => if f.isMain then Stop(Exit(0)) else Ok(0, r.clock)
      case Ret(v) => if f.isMain then Stop(Exit(v)) else Ok(v, r.clock)
      case Brk(_) => Stop(Bad)
  }

  function EvalArgs(p: Program, dataBase: u64, args: Args, st: Env, depth: nat, clock: nat): (r: Res<seq<i64>>)
    ensures r.Ok? ==> r.clock <= clock && |r.val| == ArgCount(args)
    decreases clock, args, 1
  {
    match args
    case NoArgs => Ok([], clock)
    case Arg(e, tl) =>
      var r := Eval(p, dataBase, e, st, depth, clock);
      if r.Stop? then Stop(r.why)
      else
        var q := EvalArgs(p, dataBase, tl, st, depth, r.clock);
        if q.Stop? then q else Ok([r.val] + q.val, q.clock)
  }

  function ExecStmt(p: Program, dataBase: u64, s: Stmt, st: Env, depth: nat, clock: nat): (r: Res<Flow>)
    ensures r.Ok? ==> r.clock <= clock
    decreases clock, s, 1
  {
    match s
    case Skip => Ok(Norm(st), clock)
    case Seq(a, b) =>
      var r := ExecStmt(p, dataBase, a, st, depth, clock);
      if r.Stop? || !r.val.Norm? then r else ExecStmt(p, dataBase, b, r.val.st, depth, r.clock)
    case Assign(slot, size, e) =>
      var r := Eval(p, dataBase, e, st, depth, clock);
      if r.Stop? then Stop(r.why) else Ok(Norm(st[slot := Trunc(r.val, size)]), r.clock)
    case Zero(slot) => Ok(Norm(st[slot := 0]), clock)
    case If(c, t) =>
      var r := Eval(p, dataBase, c, st, depth, clock);
      if r.Stop? then Stop(r.why)
      else if r.val != 0 then ExecStmt(p, dataBase, t, st, depth, r.clock)
      else Ok(Norm(st), r.clock)
    case IfElse(c, t, e) =>
      var r := Eval(p, dataBase, c, st, depth, clock);
      if r.Stop? then Stop(r.why)
      else if r.val != 0 then ExecStmt(p, dataBase, t, st, depth, r.clock)
      else ExecStmt(p, dataBase, e, st, depth, r.clock)
    case While(c, b) =>
      var r := Eval(p, dataBase, c, st, depth, clock);
      if r.Stop? then Stop(r.why)
      else if r.val == 0 then Ok(Norm(st), r.clock)
      else
        var q := ExecStmt(p, dataBase, b, st, depth, r.clock);
        if q.Stop? || q.val.Ret? then q
        else if q.val.Brk? then Ok(Norm(q.val.st), q.clock)
        else if q.clock == 0 then Stop(Timeout)
        else ExecStmt(p, dataBase, s, q.val.st, depth, q.clock - 1)
    case Break => Ok(Brk(st), clock)
    case Return(e) =>
      var r := Eval(p, dataBase, e, st, depth, clock);
      if r.Stop? then Stop(r.why) else Ok(Ret(r.val), r.clock)
    case Do(e) =>
      var r := Eval(p, dataBase, e, st, depth, clock);
      if r.Stop? then Stop(r.why) else Ok(Norm(st), r.clock)
  }
}
