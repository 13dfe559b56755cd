/**
 Programs written out as tokens: one token for each operator, parentheses where the precedence of OreLang asks for
 them, operators of one level grouped to the left. Written on its own, not from the parser; the theorems say that the
 parser reads every such program as the program it was written from, and rejects exactly those that have no meaning.
 */
module Rendering {
  import opened Words
  import opened OreLang
  import opened Parser
  import Codegen
  import Relink
  import EmissionP
  import C = Compiler
  import Whole

  // ----- what a programmer writes -----

  datatype Ty = Void | Bool | Char | U8 | I32 | U32 | Int | U64

  datatype Ex =
    | Lit(v: u64) | Text(bytes: seq<byte>) | Name(name: string)
    | SizeOf(t: Ty) | AlignOf(t: Ty)
    | Unary(uop: UnOp, a: Ex) | Binary(op: BinOp, l: Ex, r: Ex)
    | Apply(f: string, args: Exs)

  datatype Exs = None0 | More(hd: Ex, tl: Exs)

  datatype St =
    | Let(name: string, ty: Option<Ty>, init: Option<Ex>)
    | Set(name: string, e: Ex)
    | CallSt(f: string, args: Exs)
    | IfSt(c: Ex, t: Block) | IfElseSt(c: Ex, t: Block, e2: Block) | WhileSt(c: Ex, b: Block)
    | BreakSt | ReturnSt(e: Ex) | Braces(b: Block) | Unsafe(b: Block)

  datatype Block = Done | Then(s: St, rest: Block)

  /** A function: its name, its parameters and its body. */
  datatype Fn = Fn(name: string, params: seq<(string, Ty)>, body: Block)

  function Spelling(t: Ty): string {
    match t
    case Void => "void"
    case Bool => "bool"
    case Char => "char"
    case U8 => "u8"
    case I32 => "i32"
    case U32 => "u32"
    case Int => "int"
    case U64 => "u64"
  }

  /** Bytes of a type. */
  function Width(t: Ty): nat {
    match t
    case Void => 0
    case Bool => 1
    case Char => 1
    case U8 => 1
    case I32 => 4
    case U32 => 4
    case Int => 8
    case U64 => 8
  }

  /** A variable is stored in as many bytes as its type has; one without a size gets a whole slot. */
  function Storage(t: Ty): Size { if Width(t) == 1 then B1 else if Width(t) == 4 then B4 else B8 }

  // ----- tokens -----

  /**
   0 for comparisons, then from the loosest binary operator to the tightest; 6 for everything that needs no
   parentheses.
   */
  function Tightness(op: BinOp): nat {
    match op
    case OEq => 0
    case ONe => 0
    case OLt => 0
    case OLe => 0
    case OGt => 0
    case OGe => 0
    case OOr => 1
    case OAnd => 2
    case OShl => 3
    case OShr => 3
    case OAdd => 4
    case OSub => 4
    case OMul => 5
    case ODiv => 5
    case OMod => 5
  }

  function Sign(op: BinOp): Sym {
    match op
    case OEq => EqEq
    case ONe => BangEq
    case OLt => Less
    case OLe => LessEq
    case OGt => Greater
    case OGe => GreaterEq
    case OOr => Pipe
    case OAnd => Amp
    case OShl => ShiftL
    case OShr => ShiftR
    case OAdd => Cross
    case OSub => Dash
    case OMul => Star
    case ODiv => Slash
    case OMod => Percent
  }

  function Prefixed(op: UnOp): Sym {
    match op
    case LogNot => Bang
    case BitNot => Tilde
    case Minus => Dash
  }

  function Level(e: Ex): nat { if e.Binary? then Tightness(e.op) else 6 }

  /** A token and what follows it. */
  function On(t: Tok, k: seq<Tok>): (r: seq<Tok>)
    ensures |r| == |k| + 1 && r[0] == t && r[1..] == k
  {
    [t] + k
  }

  function Sy(s: Sym, k: seq<Tok>): seq<Tok> { On(TSym(s), k) }

  /** The tokens of an expression in a place that asks for a level, followed by k. */
  function Show(e: Ex, level: nat, k: seq<Tok>): seq<Tok>
    decreases e, 1
  {
    if Level(e) < level then Sy(LParen, Plain(e, Sy(RParen, k))) else Plain(e, k)
  }

  function Plain(e: Ex, k: seq<Tok>): seq<Tok>
    decreases e, 0
  {
    match e
    case Lit(v) => On(TNum(v), k)
    case Text(bytes) => On(TStr(bytes), k)
    case Name(name) => On(TId(name), k)
    case SizeOf(t) => On(TId("sizeof"), Sy(LParen, On(TId(Spelling(t)), Sy(RParen, k))))
    case AlignOf(t) => On(TId("alignof"), Sy(LParen, On(TId(Spelling(t)), Sy(RParen, k))))
    case Unary(op, a) => Sy(Prefixed(op), Show(a, 6, k))
    case Binary(op, l, r) =>
      if Tightness(op) == 0 then Show(l, 1, Sy(Sign(op), Show(r, 1, k)))
      else Show(l, Tightness(op), Sy(Sign(op), Show(r, Tightness(op) + 1, k)))
    case Apply(f, args) => On(TId(f), Sy(LParen, ShowArgs(args, Sy(RParen, k))))
  }

  /** Arguments, separated by commas. */
  function ShowArgs(args: Exs, k: seq<Tok>): seq<Tok>
    decreases args, 0
  {
    match args
    case None0 => k
    case More(e, tl) => if tl.None0? then Show(e, 0, k) else Show(e, 0, Sy(Comma, ShowArgs(tl, k)))
  }

  // ----- meaning -----

  /** The bytes that the literals of an expression put into the data section, in order, each with a zero. */
  function Bytes(e: Ex): seq<byte>
    decreases e, 0
  {
    match e
    case Text(bytes) => bytes + [0]
    case Unary(_, a) => Bytes(a)
    case Binary(_, l, r) => Bytes(l) + Bytes(r)
    case Apply(_, args) => BytesA(args)
    case _ => []
  }

  function BytesA(args: Exs): seq<byte>
    decreases args, 0
  {
    match args
    case None0 => []
    case More(e, tl) => Bytes(e) + BytesA(tl)
  }

  function Count(args: Exs): nat {
    match args
    case None0 => 0
    case More(_, tl) => 1 + Count(tl)
  }

  /** The data section is cut off at its limit. */
  function Cap(d: seq<byte>): (r: seq<byte>)
    ensures |r| <= DATA_MAX
  {
    if |d| <= DATA_MAX then d else d[..DATA_MAX]
  }

  function Offset(n: nat): nat { if n <= DATA_MAX then n else DATA_MAX }

  /** The resolved expression, when n bytes of data come before it; None when a name or a count is wrong. */
  function Mean(fs: seq<Decl>, vars: seq<Variable>, e: Ex, n: nat): Option<Expr>
    decreases e, 0
  {
    match e
    case Lit(v) => Some(Num(v))
    case Text(bytes) => if |bytes| <= 511 then Some(Data(Offset(n))) else None
    case Name(name) =>
      var v := FindVar(vars, name);
      if v.None? then None else Some(Var(v.value, vars[v.value].size))
    case SizeOf(t) => Some(Num(Width(t)))
    case AlignOf(t) => Some(Num(if Width(t) == 0 then 1 else Width(t)))
    case Unary(op, a) =>
      var x := Mean(fs, vars, a, n);
      if x.None? then None else Some(Un(op, x.value))
    case Binary(op, l, r) =>
      var x, y := Mean(fs, vars, l, n), Mean(fs, vars, r, n + |Bytes(l)|);
      if x.None? || y.None? then None else Some(Bin(op, x.value, y.value))
    case Apply(f, args) =>
      var i, xs := FindFunc(fs, f), MeanA(fs, vars, args, n);
      if i.None? || xs.None? || Count(args) != |fs[i.value].params| then None else Some(Call(i.value, xs.value))
  }

  function MeanA(fs: seq<Decl>, vars: seq<Variable>, args: Exs, n: nat): Option<Args>
    decreases args, 0
  {
    match args
    case None0 => Some(NoArgs)
    case More(e, tl) =>
      var x, xs := Mean(fs, vars, e, n), MeanA(fs, vars, tl, n + |Bytes(e)|);
      if x.None? || xs.None? then None else Some(Arg(x.value, xs.value))
  }

  // ----- what may be written -----

  /** Words that the compiler takes for itself where a name could stand. */
  predicate Free(name: string) {
    && name != "sizeof" && name != "alignof" && name != "offsetof" && name != "unsafe" && name != "let"
    && name != "while" && name != "break" && name != "if" && name != "else" && name != "return" && name != "print"
    && name != "puti"
  }

  /** All names are free. */
  predicate Ok(e: Ex)
    decreases e, 0
  {
    match e
    case Name(name) => Free(name)
    case Unary(_, a) => Ok(a)
    case Binary(_, l, r) => Ok(l) && Ok(r)
    case Apply(f, args) => Free(f) && OkA(args)
    case _ => true
  }

  predicate OkA(args: Exs)
    decreases args, 0
  {
    args.None0? || (Ok(args.hd) && OkA(args.tl))
  }

  predicate Signatures(fs: seq<Decl>) { forall d :: d in fs ==> |d.params| <= MAX_PARAMS }

  // ----- tokens and what the parser makes of them -----

  /** How tightly the next token holds on to what stands before it; parentheses would turn a name into a call. */
  function Pull(k: seq<Tok>): int {
    if |k| == 0 || !k[0].TSym? then -1
    else
      match k[0].sym
      case EqEq => 0
      case BangEq => 0
      case Less => 0
      case LessEq => 0
      case Greater => 0
      case GreaterEq => 0
      case Pipe => 1
      case Amp => 2
      case ShiftL => 3
      case ShiftR => 3
      case Cross => 4
      case Dash => 4
      case Star => 5
      case Slash => 5
      case Percent => 5
      case LParen => 9
      case Other => 9
      case _ => -1
  }

  lemma PullIs(k: seq<Tok>)
    ensures CmpAt(k).Some? <==> Pull(k) == 0
    ensures OpAt(k, 0).Some? <==> Pull(k) == 1
    ensures OpAt(k, 1).Some? <==> Pull(k) == 2
    ensures OpAt(k, 2).Some? <==> Pull(k) == 3
    ensures OpAt(k, 3).Some? <==> Pull(k) == 4
    ensures OpAt(k, 4).Some? <==> Pull(k) == 5
    ensures IsSym(k, LParen) || IsSym(k, Other) <==> Pull(k) == 9
  {
  }

  lemma SignIs(op: BinOp, k: seq<Tok>)
    ensures Pull(Sy(Sign(op), k)) == Tightness(op)
    ensures if Tightness(op) == 0 then CmpAt(Sy(Sign(op), k)) == Some(op)
            else OpAt(Sy(Sign(op), k), Tightness(op) - 1) == Some(op)
  {
    hide On;
    OnIs(TSym(Sign(op)), k);
  }

  lemma OnIs(t: Tok, k: seq<Tok>)
    ensures |On(t, k)| == |k| + 1 && On(t, k)[0] == t && On(t, k)[1..] == k
  {
  }

  lemma PrefixedIs(op: UnOp, k: seq<Tok>)
    ensures UnAt(Sy(Prefixed(op), k)) == Some(op)
  {
    hide On;
    OnIs(TSym(Prefixed(op)), k);
  }

  lemma TypeIs(t: Ty)
    ensures TypeOf(Spelling(t)) == Some((Storage(t), Width(t)))
  {
  }

  /** An expression starts with a token that closes nothing. */
  lemma {:induction false} Opens(e: Ex, level: nat, k: seq<Tok>)
    ensures |Show(e, level, k)| > 0 && Show(e, level, k)[0] != TSym(RParen)
    decreases e
  {
    if Level(e) >= level && e.Binary? {
      var q := if Tightness(e.op) == 0 then 1 else Tightness(e.op);
      Opens(e.l, q, Sy(Sign(e.op), Show(e.r, if Tightness(e.op) == 0 then 1 else q + 1, k)));
    }
  }

  // ----- single steps of the parser -----

  lemma ExprStep(fs: seq<Decl>, ps: PS)
    requires |ps.data| <= DATA_MAX
    ensures var a := ParseLevel(fs, ps, 0);
      && (a.None? ==> ParseExpr(fs, ps).None?)
      && (a.Some? && CmpAt(a.value.st.toks).None? ==> ParseExpr(fs, ps) == a)
      && (a.Some? && CmpAt(a.value.st.toks).Some? ==>
           var b := ParseLevel(fs, Rest(a.value.st), 0);
           ParseExpr(fs, ps) == if b.None? then None
             else Some(PE(Bin(CmpAt(a.value.st.toks).value, a.value.e, b.value.e), b.value.st)))
  {
    hide ParseLevel, CmpAt;
  }

  lemma UnaryStep(fs: seq<Decl>, ps: PS)
    requires |ps.data| <= DATA_MAX
    ensures var op := UnAt(ps.toks);
      if op.None? then ParseUnary(fs, ps) == ParsePrimary(fs, ps)
      else
        var a := ParseUnary(fs, Rest(ps));
        ParseUnary(fs, ps) == if a.None? then None else Some(PE(Un(op.value, a.value.e), a.value.st))
  {
    hide ParsePrimary, UnAt;
  }

  lemma ParenStep(fs: seq<Decl>, ps: PS)
    requires |ps.data| <= DATA_MAX && IsSym(ps.toks, LParen)
    ensures UnAt(ps.toks).None?
    ensures var a := ParseExpr(fs, Rest(ps));
      ParsePrimary(fs, ps) ==
        if a.None? || !IsSym(a.value.st.toks, RParen) then None else Some(PE(a.value.e, Rest(a.value.st)))
  {
    hide ParseExpr;
  }

  lemma IdStep(fs: seq<Decl>, ps: PS)
    requires |ps.data| <= DATA_MAX && IsId(ps.toks)
    ensures UnAt(ps.toks).None? && ParsePrimary(fs, ps) == ParseName(fs, Rest(ps), ps.toks[0].name)
  {
    hide ParseName;
  }

  /** A name that is free: a call when a parenthesis follows, else a variable. */
  lemma NameStep(fs: seq<Decl>, ps: PS, name: string)
    requires |ps.data| <= DATA_MAX && Free(name)
    ensures IsSym(ps.toks, LParen) ==>
      var fn := FindFunc(fs, name);
      var a := if IsSym(Rest(ps).toks, RParen) then Some(PA(NoArgs, Rest(ps))) else ParseArgs(fs, Rest(ps), NoArgs);
      ParseName(fs, ps, name) ==
        if fn.None? || a.None? || ArgCount(a.value.args) != |fs[fn.value].params| then None
        else Some(PE(Call(fn.value, a.value.args), Rest(a.value.st)))
    ensures Pull(ps.toks) < 9 ==>
      var v := FindVar(ps.vars, name);
      ParseName(fs, ps, name) == if v.None? then None else Some(PE(Var(v.value, ps.vars[v.value].size), ps))
  {
    hide ParseArgs, Pull;
    PullIs(ps.toks);
  }

  // ----- the data section -----

  lemma CapMore(d: seq<byte>, x: seq<byte>)
    ensures AddData(Cap(d), x) == Cap(d + x) && |Cap(d)| == Offset(|d|)
  {
    if |d| > DATA_MAX {
      assert (Cap(d) + x)[..DATA_MAX] == d[..DATA_MAX];
      assert (d + x)[..DATA_MAX] == d[..DATA_MAX];
      if |x| == 0 { assert Cap(d) + x == Cap(d); }
    }
  }

  lemma CapSize(d: seq<byte>)
    ensures |Cap(d)| <= DATA_MAX
  {
  }

  // ----- expressions -----

  /** What the parser answers when it has read an expression with a meaning, or none. */
  function Got(x: Option<Expr>, k: seq<Tok>, vars: seq<Variable>, d: seq<byte>, b: nat): Option<PE> {
    if x.None? then None else Some(PE(x.value, PS(k, vars, Cap(d), b)))
  }

  function Append(xs: Args, ys: Args): Args {
    match xs
    case NoArgs => ys
    case Arg(x, tl) => Arg(x, Append(tl, ys))
  }

  lemma {:induction false} SnocAppend(xs: Args, x: Expr, ys: Args)
    ensures Append(Snoc(xs, x), ys) == Append(xs, Arg(x, ys))
    decreases xs
  {
    if xs.Arg? { SnocAppend(xs.tl, x, ys); }
  }

  lemma {:induction false} AppendNone(xs: Args)
    ensures Append(xs, NoArgs) == xs
    decreases xs
  {
    if xs.Arg? { AppendNone(xs.tl); }
  }

  lemma {:induction false} MeanCount(fs: seq<Decl>, vars: seq<Variable>, args: Exs, n: nat)
    requires MeanA(fs, vars, args, n).Some?
    ensures ArgCount(MeanA(fs, vars, args, n).value) == Count(args)
    decreases args
  {
    hide Mean;
    if args.More? { MeanCount(fs, vars, args.tl, n + |Bytes(args.hd)|); }
  }

  lemma ShowSame(e: Ex, q: nat, k: seq<Tok>)
    requires Level(e) != q
    ensures Show(e, q, k) == Show(e, q + 1, k)
  {
    hide Plain;
  }

  lemma ShowBinary(e: Ex, k: seq<Tok>)
    requires e.Binary?
    ensures var t := Tightness(e.op); var p, q := if t == 0 then 1 else t, if t == 0 then 1 else t + 1;
      Show(e, t, k) == Show(e.l, p, Sy(Sign(e.op), Show(e.r, q, k)))
  {
    hide Sign, Tightness, On;
  }

  lemma MeanBinary(fs: seq<Decl>, vars: seq<Variable>, e: Ex, d: seq<byte>)
    requires e.Binary?
    ensures var x, y := Mean(fs, vars, e.l, |d|), Mean(fs, vars, e.r, |d + Bytes(e.l)|);
      Mean(fs, vars, e, |d|) == if x.None? || y.None? then None else Some(Bin(e.op, x.value, y.value))
    ensures d + Bytes(e) == (d + Bytes(e.l)) + Bytes(e.r)
  {
    hide FindVar, FindFunc;
  }

  /** How far a place for an expression is from the expression itself. */
  function Rank(e: Ex, level: nat): nat { if level > Level(e) then 30 else 0 }

  /**
   An expression that is followed by an operator of its own level or a looser one: the parser goes on with the tail.
   */
  lemma {:induction false} ReadTail(fs: seq<Decl>, vars: seq<Variable>, e: Ex, q: nat, k: seq<Tok>, d: seq<byte>,
      b: nat)
    requires Signatures(fs) && Ok(e) && 1 <= q <= 5 && Pull(k) <= q
    ensures var x := Mean(fs, vars, e, |d|);
      ParseLevel(fs, PS(Show(e, q, k), vars, Cap(d), b), q - 1) ==
        if x.None? then None else ParseTail(fs, PS(k, vars, Cap(d + Bytes(e)), b), q - 1, x.value)
    decreases e, Rank(e, q) + 2 * (6 - q)
  {
    hide ParseLevel, ParseTail, Pull, OpAt, Sign, Show, Mean, Bytes, Cap, On, Tightness;
    CapSize(d);
    var ps := PS(Show(e, q, k), vars, Cap(d), b);
    if Level(e) == q {
      var op, l, r := e.op, e.l, e.r;
      var k1 := Show(r, q + 1, k);
      var k2 := Sy(Sign(op), k1);
      SignIs(op, k1);
      ShowBinary(e, k);
      MeanBinary(fs, vars, e, d);
      ReadTail(fs, vars, l, q, k2, d, b);
      var x := Mean(fs, vars, l, |d|);
      if x.Some? {
        var d1 := d + Bytes(l);
        CapSize(d1);
        TailStep(fs, PS(k2, vars, Cap(d1), b), q - 1, x.value);
        OnIs(TSym(Sign(op)), k1);
        ReadLevel(fs, vars, r, q + 1, k, d1, b);
      }
    } else {
      ShowSame(e, q, k);
      LevelStart(fs, ps, q - 1);
      ReadLevel(fs, vars, e, q + 1, k, d, b);
    }
  }

  /** An expression in a place that asks for a level, followed by something looser. */
  lemma {:induction false} ReadLevel(fs: seq<Decl>, vars: seq<Variable>, e: Ex, p: nat, k: seq<Tok>, d: seq<byte>,
      b: nat)
    requires Signatures(fs) && Ok(e) && 1 <= p <= 6 && Pull(k) < p
    ensures ParseLevel(fs, PS(Show(e, p, k), vars, Cap(d), b), p - 1) ==
            Got(Mean(fs, vars, e, |d|), k, vars, d + Bytes(e), b)
    decreases e, Rank(e, p) + 2 * (6 - p) + 1
  {
    hide ParseLevel, ParseTail, ParseUnary, Pull, OpAt, Mean, Bytes, Show, Cap;
    if p == 6 {
      LevelUnary(fs, PS(Show(e, 6, k), vars, Cap(d), b));
      ReadUnary(fs, vars, e, k, d, b);
    } else {
      ReadTail(fs, vars, e, p, k, d, b);
      PullIs(k);
      var x := Mean(fs, vars, e, |d|);
      if x.Some? { TailStep(fs, PS(k, vars, Cap(d + Bytes(e)), b), p - 1, x.value); }
    }
  }

  /** A whole expression. */
  lemma {:induction false} ReadExpr(fs: seq<Decl>, vars: seq<Variable>, e: Ex, k: seq<Tok>, d: seq<byte>, b: nat)
    requires Signatures(fs) && Ok(e) && Pull(k) < 0
    ensures ParseExpr(fs, PS(Show(e, 0, k), vars, Cap(d), b)) == Got(Mean(fs, vars, e, |d|), k, vars, d + Bytes(e), b)
    decreases e, 20
  {
    hide ParseExpr, ParseLevel, Pull, CmpAt, Sign, Show, Mean, Bytes, Cap, On, Tightness;
    CapSize(d);
    var ps := PS(Show(e, 0, k), vars, Cap(d), b);
    ExprStep(fs, ps);
    if Level(e) == 0 {
      var k1 := Show(e.r, 1, k);
      SignIs(e.op, k1);
      ShowBinary(e, k);
      MeanBinary(fs, vars, e, d);
      ReadLevel(fs, vars, e.l, 1, Sy(Sign(e.op), k1), d, b);
      OnIs(TSym(Sign(e.op)), k1);
      var d1 := d + Bytes(e.l);
      ReadLevel(fs, vars, e.r, 1, k, d1, b);
    } else {
      ShowSame(e, 0, k);
      ReadLevel(fs, vars, e, 1, k, d, b);
      PullIs(k);
    }
  }

  /** Something that needs no parentheses, or has them. */
  lemma {:induction false} ReadUnary(fs: seq<Decl>, vars: seq<Variable>, e: Ex, k: seq<Tok>, d: seq<byte>, b: nat)
    requires Signatures(fs) && Ok(e) && Pull(k) < 6
    ensures ParseUnary(fs, PS(Show(e, 6, k), vars, Cap(d), b)) == Got(Mean(fs, vars, e, |d|), k, vars, d + Bytes(e), b)
    decreases e, Rank(e, 6)
  {
    hide ParseUnary, ParsePrimary, ParseExpr, ParseName, Pull, FindVar, FindFunc, Cap, Free;
    var ps := PS(Show(e, 6, k), vars, Cap(d), b);
    UnaryStep(fs, ps);
    match e
    case Unary(op, a) =>
      PrefixedIs(op, Show(a, 6, k));
      OnIs(TSym(Prefixed(op)), Show(a, 6, k));
      ReadUnary(fs, vars, a, k, d, b);
    case Binary(_, _, _) =>
      var k1 := Sy(RParen, k);
      OnIs(TSym(LParen), Plain(e, k1));
      OnIs(TSym(RParen), k);
      ParenStep(fs, ps);
      PullClose(k);
      assert Show(e, 0, k1) == Plain(e, k1);
      ReadExpr(fs, vars, e, k1, d, b);
    case Apply(f, args) => ReadCall(fs, vars, f, args, k, d, b);
    case _ => ReadAtom(fs, vars, e, k, d, b);
  }

  lemma PullClose(k: seq<Tok>)
    ensures Pull(Sy(RParen, k)) < 0 && Pull(Sy(Comma, k)) < 0 && Pull(Sy(Semi, k)) < 0
  {
  }

  /** Numbers, literals, names and sizes. */
  lemma ReadAtom(fs: seq<Decl>, vars: seq<Variable>, e: Ex, k: seq<Tok>, d: seq<byte>, b: nat)
    requires Ok(e) && Pull(k) < 6 && !e.Unary? && !e.Binary? && !e.Apply?
    ensures ParseUnary(fs, PS(Show(e, 6, k), vars, Cap(d), b)) == Got(Mean(fs, vars, e, |d|), k, vars, d + Bytes(e), b)
  {
    hide ParseUnary, ParseExpr, ParseName, Pull, FindVar, Cap, AddData, TypeOf, Free;
    var ps := PS(Show(e, 6, k), vars, Cap(d), b);
    UnaryStep(fs, ps);
    assert d + [] == d;
    match e
    case Lit(v) => OnIs(TNum(v), k);
    case Text(bytes) =>
      OnIs(TStr(bytes), k);
      CapMore(d, bytes + [0]);
    case Name(name) =>
      OnIs(TId(name), k);
      assert Show(e, 6, k) == On(TId(name), k);
      IdStep(fs, ps);
      NameStep(fs, Rest(ps), name);
    case SizeOf(t) => ReadSize(fs, vars, t, false, k, d, b);
    case AlignOf(t) => ReadSize(fs, vars, t, true, k, d, b);
  }

  lemma ReadSize(fs: seq<Decl>, vars: seq<Variable>, t: Ty, align: bool, k: seq<Tok>, d: seq<byte>, b: nat)
    ensures var e := if align then AlignOf(t) else SizeOf(t);
      ParseUnary(fs, PS(Show(e, 6, k), vars, Cap(d), b)) == Got(Mean(fs, vars, e, |d|), k, vars, d + Bytes(e), b)
  {
    hide ParseUnary, ParsePrimary, Cap, TypeOf, Spelling;
    var e := if align then AlignOf(t) else SizeOf(t);
    var k2 := On(TId(Spelling(t)), Sy(RParen, k));
    var k1 := Sy(LParen, k2);
    var ps := PS(Show(e, 6, k), vars, Cap(d), b);
    UnaryStep(fs, ps);
    OnIs(TId(if align then "alignof" else "sizeof"), k1);
    OnIs(TSym(LParen), k2);
    OnIs(TId(Spelling(t)), Sy(RParen, k));
    OnIs(TSym(RParen), k);
    IdStep(fs, ps);
    TypeIs(t);
    assert k1[1] == k2[0] && k1[2] == k2[1] && k1[3..] == k;
    assert d + [] == d;
  }

  /** A call: the name, the arguments in parentheses. */
  lemma {:induction false} ReadCall(fs: seq<Decl>, vars: seq<Variable>, f: string, args: Exs, k: seq<Tok>, d: seq<byte>,
      b: nat)
    requires Signatures(fs) && Free(f) && OkA(args)
    ensures var e := Apply(f, args);
      ParseUnary(fs, PS(Show(e, 6, k), vars, Cap(d), b)) == Got(Mean(fs, vars, e, |d|), k, vars, d + Bytes(e), b)
    decreases args, 50
  {
    hide ParseUnary, ParsePrimary, ParseName, ParseArgs, FindVar, FindFunc, Cap, Free, Pull;
    var e := Apply(f, args);
    var k3 := Sy(RParen, k);
    var k2 := ShowArgs(args, k3);
    var k1 := Sy(LParen, k2);
    var ps := PS(Show(e, 6, k), vars, Cap(d), b);
    UnaryStep(fs, ps);
    OnIs(TId(f), k1);
    assert Show(e, 6, k) == On(TId(f), k1);
    OnIs(TSym(LParen), k2);
    OnIs(TSym(RParen), k);
    IdStep(fs, ps);
    NameStep(fs, Rest(ps), f);
    assert d + [] == d;
    if args.More? {
      if args.tl.None0? { Opens(args.hd, 0, k3); } else { Opens(args.hd, 0, Sy(Comma, ShowArgs(args.tl, k3))); }
      ReadArgs(fs, vars, args, NoArgs, k, d, b);
    }
    if MeanA(fs, vars, args, |d|).Some? { MeanCount(fs, vars, args, |d|); }
    var i := FindFunc(fs, f);
    FoundIn(fs, f);
  }

  lemma FoundIn(fs: seq<Decl>, f: string)
    requires Signatures(fs)
    ensures FindFunc(fs, f).Some? ==> FindFunc(fs, f).value < |fs| && |fs[FindFunc(fs, f).value].params| <= MAX_PARAMS
  {
  }

  /** Arguments behind those already read: all of them, if there are not too many. */
  lemma {:induction false} ReadArgs(fs: seq<Decl>, vars: seq<Variable>, args: Exs, acc: Args, k: seq<Tok>, d: seq<byte>,
      b: nat)
    requires Signatures(fs) && OkA(args) && args.More?
    ensures var xs := MeanA(fs, vars, args, |d|);
      ParseArgs(fs, PS(ShowArgs(args, Sy(RParen, k)), vars, Cap(d), b), acc) ==
        if xs.None? || ArgCount(acc) + Count(args) > MAX_PARAMS then None
        else Some(PA(Append(acc, xs.value), PS(Sy(RParen, k), vars, Cap(d + BytesA(args)), b)))
    decreases args, 40
  {
    hide ParseExpr, ParseArgs, Pull, Mean, Show, Cap;
    var k1 := Sy(RParen, k);
    var ps := PS(ShowArgs(args, k1), vars, Cap(d), b);
    ArgsStep(fs, ps, acc);
    var e, tl, d1 := args.hd, args.tl, d + Bytes(args.hd);
    var x := Mean(fs, vars, e, |d|);
    if tl.None0? {
      PullClose(k);
      ReadExpr(fs, vars, e, k1, d, b);
      OnIs(TSym(RParen), k);
      assert d + BytesA(args) == d1 && BytesA(tl) == [];
      if x.Some? {
        SnocAppend(acc, x.value, NoArgs);
        AppendNone(Snoc(acc, x.value));
      }
    } else {
      var k2 := ShowArgs(tl, k1);
      PullClose(k2);
      ReadExpr(fs, vars, e, Sy(Comma, k2), d, b);
      OnIs(TSym(Comma), k2);
      if x.Some? {
        SnocCount(acc, x.value);
        ReadArgs(fs, vars, tl, Snoc(acc, x.value), k, d1, b);
        assert d1 + BytesA(tl) == d + BytesA(args);
        if MeanA(fs, vars, tl, |d1|).Some? { SnocAppend(acc, x.value, MeanA(fs, vars, tl, |d1|).value); }
      }
    }
  }

  // ----- statements as tokens -----

  /** ( condition ) { */
  function Head(c: Ex, k: seq<Tok>): seq<Tok> { Sy(LParen, Show(c, 0, Sy(RParen, Sy(LBrace, k)))) }

  function LetType(ty: Option<Ty>, k: seq<Tok>): seq<Tok> {
    if ty.None? then k else Sy(Colon, On(TId(Spelling(ty.value)), k))
  }

  function LetInit(init: Option<Ex>, k: seq<Tok>): seq<Tok> {
    if init.None? then Sy(Semi, k) else Sy(Equals, Show(init.value, 0, Sy(Semi, k)))
  }

  /** The tokens of a statement, followed by k. */
  function ShowS(s: St, k: seq<Tok>): seq<Tok>
    decreases s
  {
    match s
    case Let(name, ty, init) => On(TId("let"), On(TId(name), LetType(ty, LetInit(init, k))))
    case Set(name, e) => On(TId(name), Sy(Equals, Show(e, 0, Sy(Semi, k))))
    case CallSt(f, args) => Show(Apply(f, args), 0, Sy(Semi, k))
    case IfSt(c, t) => On(TId("if"), Head(c, ShowB(t, k)))
    case IfElseSt(c, t, e) => On(TId("if"), Head(c, ShowB(t, On(TId("else"), Sy(LBrace, ShowB(e, k))))))
    case WhileSt(c, b) => On(TId("while"), Head(c, ShowB(b, k)))
    case BreakSt => On(TId("break"), Sy(Semi, k))
    case ReturnSt(e) => On(TId("return"), Show(e, 0, Sy(Semi, k)))
    case Braces(b) => Sy(LBrace, ShowB(b, k))
    case Unsafe(b) => On(TId("unsafe"), Sy(LBrace, ShowB(b, k)))
  }

  /** The statements of a block and its closing brace. */
  function ShowB(b: Block, k: seq<Tok>): seq<Tok>
    decreases b
  {
    match b
    case Done => Sy(RBrace, k)
    case Then(s, rest) => ShowS(s, ShowB(rest, k))
  }

  // ----- their meaning -----

  function BytesO(e: Option<Ex>): seq<byte> { if e.None? then [] else Bytes(e.value) }

  function BytesS(s: St): seq<byte>
    decreases s
  {
    match s
    case Let(_, _, init) => BytesO(init)
    case Set(_, e) => Bytes(e)
    case CallSt(f, args) => Bytes(Apply(f, args))
    case IfSt(c, t) => Bytes(c) + BytesB(t)
    case IfElseSt(c, t, e) => Bytes(c) + BytesB(t) + BytesB(e)
    case WhileSt(c, b) => Bytes(c) + BytesB(b)
    case BreakSt => []
    case ReturnSt(e) => Bytes(e)
    case Braces(b) => BytesB(b)
    case Unsafe(b) => BytesB(b)
  }

  function BytesB(b: Block): seq<byte>
    decreases b
  {
    match b
    case Done => []
    case Then(s, rest) => BytesS(s) + BytesB(rest)
  }

  /** Where a statement stands: the variables so far, the breaks of the innermost loop, the number of loops around. */
  datatype Scope = Scope(vars: seq<Variable>, breaks: nat, depth: nat)

  datatype Meant = Meant(s: Stmt, vars: seq<Variable>, breaks: nat)

  /** The slot of a declared variable: its old one, or the next; None when there are 64 already. */
  function Declare(vars: seq<Variable>, name: string, ty: Option<Ty>): (r: Option<(nat, seq<Variable>)>)
    ensures r.Some? ==> r.value.0 < |r.value.1| && (|vars| <= 64 ==> |r.value.1| <= 64)
  {
    var i := FindVar(vars, name);
    if i.Some? then Some((i.value, vars))
    else if |vars| >= 64 then None
    else Some((|vars|, vars + [Variable(name, if ty.None? then B8 else Storage(ty.value))]))
  }

  /** The resolved statement, or None when it has no meaning in its place; n bytes of data come before it. */
  function MeanS(fs: seq<Decl>, s: St, c: Scope, n: nat): Option<Meant>
    decreases s
  {
    match s
    case Let(name, ty, init) =>
      var d := Declare(c.vars, name, ty);
      if d.None? then None
      else if init.None? then Some(Meant(Zero(d.value.0), d.value.1, c.breaks))
      else
        var x := Mean(fs, d.value.1, init.value, n);
        if x.None? then None
        else Some(Meant(Assign(d.value.0, d.value.1[d.value.0].size, x.value), d.value.1, c.breaks))
    case Set(name, e) =>
      var i, x := FindVar(c.vars, name), Mean(fs, c.vars, e, n);
      if i.None? || x.None? then None else Some(Meant(Assign(i.value, c.vars[i.value].size, x.value), c.vars, c.breaks))
    case CallSt(f, args) =>
      var x := Mean(fs, c.vars, Apply(f, args), n);
      if x.None? then None else Some(Meant(Do(x.value), c.vars, c.breaks))
    case IfSt(e, t) =>
      var x, y := Mean(fs, c.vars, e, n), MeanB(fs, t, Skip, c, n + |Bytes(e)|);
      if x.None? || y.None? then None else Some(Meant(If(x.value, y.value.s), y.value.vars, y.value.breaks))
    case IfElseSt(e, t, f) =>
      var x, y := Mean(fs, c.vars, e, n), MeanB(fs, t, Skip, c, n + |Bytes(e)|);
      if x.None? || y.None? then None
      else
        var z := MeanB(fs, f, Skip, c.(vars := y.value.vars, breaks := y.value.breaks), n + |Bytes(e)| + |BytesB(t)|);
        if z.None? then None else Some(Meant(IfElse(x.value, y.value.s, z.value.s), z.value.vars, z.value.breaks))
    case WhileSt(e, b) =>
      var x, y := Mean(fs, c.vars, e, n), MeanB(fs, b, Skip, Scope(c.vars, 0, c.depth + 1), n + |Bytes(e)|);
      if x.None? || y.None? || c.depth >= 16 then None
        else Some(Meant(While(x.value, y.value.s), y.value.vars, c.breaks))
    case BreakSt => if c.depth == 0 || c.breaks >= 64 then None else Some(Meant(Break, c.vars, c.breaks + 1))
    case ReturnSt(e) =>
      var x := Mean(fs, c.vars, e, n);
      if x.None? then None else Some(Meant(Return(x.value), c.vars, c.breaks))
    case Braces(b) => MeanB(fs, b, Skip, c, n)
    case Unsafe(b) => MeanB(fs, b, Skip, c, n)
  }

  /** The statements of a block one after the other, behind acc. */
  function MeanB(fs: seq<Decl>, b: Block, acc: Stmt, c: Scope, n: nat): Option<Meant>
    decreases b
  {
    match b
    case Done => Some(Meant(acc, c.vars, c.breaks))
    case Then(s, rest) =>
      var m := MeanS(fs, s, c, n);
      if m.None? then None
      else
        MeanB(fs, rest, Seq(acc, m.value.s), c.(vars := m.value.vars, breaks := m.value.breaks), n + |BytesS(s)|)
  }

  predicate OkS(s: St)
    decreases s
  {
    match s
    case Let(name, _, init) => Free(name) && (init.Some? ==> Ok(init.value))
    case Set(name, e) => Free(name) && Ok(e)
    case CallSt(f, args) => Ok(Apply(f, args))
    case IfSt(c, t) => Ok(c) && OkB(t)
    case IfElseSt(c, t, e) => Ok(c) && OkB(t) && OkB(e)
    case WhileSt(c, b) => Ok(c) && OkB(b)
    case BreakSt => true
    case ReturnSt(e) => Ok(e)
    case Braces(b) => OkB(b)
    case Unsafe(b) => OkB(b)
  }

  predicate OkB(b: Block)
    decreases b
  {
    b.Done? || (OkS(b.s) && OkB(b.rest))
  }

  // ----- reading statements -----

  function GotS(m: Option<Meant>, k: seq<Tok>, d: seq<byte>): Option<PStmt> {
    if m.None? then None else Some(PStmt(m.value.s, PS(k, m.value.vars, Cap(d), m.value.breaks)))
  }

  function From(k: seq<Tok>, c: Scope, d: seq<byte>): PS { PS(k, c.vars, Cap(d), c.breaks) }

  lemma ReadThen(fs: seq<Decl>, vars: seq<Variable>, e: Ex, sym: Sym, k: seq<Tok>, d: seq<byte>, b: nat)
    requires Signatures(fs) && Ok(e) && (sym == Semi || sym == RParen) && |Cap(d)| <= DATA_MAX
    ensures ParseThen(fs, PS(Show(e, 0, Sy(sym, k)), vars, Cap(d), b), sym) ==
            Got(Mean(fs, vars, e, |d|), k, vars, d + Bytes(e), b)
  {
    hide ParseExpr, Show, Mean, Bytes, Cap, Pull;
    PullClose(k);
    ReadExpr(fs, vars, e, Sy(sym, k), d, b);
    OnIs(TSym(sym), k);
  }

  lemma ReadHead(fs: seq<Decl>, vars: seq<Variable>, c: Ex, k: seq<Tok>, d: seq<byte>, b: nat)
    requires Signatures(fs) && Ok(c) && |Cap(d)| <= DATA_MAX
    ensures ParseHead(fs, PS(Head(c, k), vars, Cap(d), b)) == Got(Mean(fs, vars, c, |d|), k, vars, d + Bytes(c), b)
  {
    hide ParseThen, Show, Mean, Bytes, Cap;
    var k1 := Sy(LBrace, k);
    OnIs(TSym(LParen), Show(c, 0, Sy(RParen, k1)));
    OnIs(TSym(LBrace), k);
    ReadThen(fs, vars, c, RParen, k1, d, b);
  }

  /** The first token of a statement. */
  lemma Begins(s: St, k: seq<Tok>)
    requires OkS(s)
    ensures |ShowS(s, k)| > 0 && ShowS(s, k)[0] != TSym(RBrace) && ShowS(s, k)[0] != TId("else")
  {
    match s
    case CallSt(f, args) =>
      var k1 := Sy(Semi, k);
      assert Show(Apply(f, args), 0, k1) == On(TId(f), Sy(LParen, ShowArgs(args, Sy(RParen, k1))));
    case _ =>
  }

  /** A block starts with a statement or its closing brace. */
  lemma BeginsB(b: Block, k: seq<Tok>)
    requires OkB(b)
    ensures |ShowB(b, k)| > 0 && !IsWord(ShowB(b, k), "else")
  {
    if b.Then? { Begins(b.s, ShowB(b.rest, k)); }
  }

  lemma WordStep(fs: seq<Decl>, ps: PS, depth: nat)
    requires |ps.vars| <= MAX_VARS && |ps.data| <= DATA_MAX
    ensures IsWord(ps.toks, "let") ==> ParseStmt(fs, ps, depth) == ParseLet(fs, Rest(ps))
    ensures IsWord(ps.toks, "if") ==> ParseStmt(fs, ps, depth) == ParseIf(fs, Rest(ps), depth)
    ensures IsWord(ps.toks, "return") ==>
      var a := ParseThen(fs, Rest(ps), Semi);
      ParseStmt(fs, ps, depth) == if a.None? then None else Some(PStmt(Return(a.value.e), a.value.st))
  {
    hide ParseHead, ParseBlock, ParseLet, ParseIf, ParseSimple, ParseThen;
  }

  lemma BreakStep(fs: seq<Decl>, ps: PS, depth: nat)
    requires |ps.vars| <= MAX_VARS && |ps.data| <= DATA_MAX && IsWord(ps.toks, "break") && IsSym(ps.toks[1..], Semi)
    ensures ParseStmt(fs, ps, depth) ==
      if depth == 0 || ps.breaks >= 64 then None else Some(PStmt(Break, Rest(Rest(ps)).(breaks := ps.breaks + 1)))
  {
    hide ParseHead, ParseBlock, ParseLet, ParseIf, ParseSimple, ParseThen;
  }

  lemma BraceStep(fs: seq<Decl>, ps: PS, depth: nat)
    requires |ps.vars| <= MAX_VARS && |ps.data| <= DATA_MAX
    ensures IsSym(ps.toks, LBrace) ==> ParseStmt(fs, ps, depth) == ParseBlock(fs, Rest(ps), depth, Skip)
    ensures IsWord(ps.toks, "unsafe") && IsSym(ps.toks[1..], LBrace) ==>
      ParseStmt(fs, ps, depth) == ParseBlock(fs, Rest(Rest(ps)), depth, Skip)
  {
    hide ParseHead, ParseBlock, ParseLet, ParseIf, ParseSimple, ParseThen;
  }

  lemma SimpleStep(fs: seq<Decl>, ps: PS, depth: nat)
    requires |ps.vars| <= MAX_VARS && |ps.data| <= DATA_MAX && IsId(ps.toks) && Free(ps.toks[0].name)
    ensures ParseStmt(fs, ps, depth) == ParseSimple(fs, ps)
  {
    hide ParseHead, ParseBlock, ParseLet, ParseIf, ParseSimple, ParseThen;
  }

  /** The name and the type of a declaration. */
  lemma ReadName(vars: seq<Variable>, name: string, ty: Option<Ty>, k: seq<Tok>, data: seq<byte>, b: nat)
    requires |vars| <= MAX_VARS && |data| <= DATA_MAX && |k| > 0 && k[0] != TSym(Colon)
    ensures var d := Declare(vars, name, ty);
      ParseLetName(PS(On(TId(name), LetType(ty, k)), vars, data, b)) ==
        if d.None? then None else Some((d.value.0, PS(k, d.value.1, data, b)))
  {
    hide FindVar, TypeOf, Spelling, Storage;
    var k1 := LetType(ty, k);
    OnIs(TId(name), k1);
    if ty.Some? {
      OnIs(TSym(Colon), On(TId(Spelling(ty.value)), k));
      OnIs(TId(Spelling(ty.value)), k);
      TypeIs(ty.value);
    }
    FoundVar(vars, name);
  }

  lemma FoundVar(vars: seq<Variable>, name: string)
    ensures FindVar(vars, name).Some? ==> FindVar(vars, name).value < |vars|
  {
  }

  lemma ReadLet(fs: seq<Decl>, s: St, k: seq<Tok>, c: Scope, d: seq<byte>)
    requires Signatures(fs) && s.Let? && OkS(s) && |c.vars| <= 64
    ensures |Cap(d)| <= DATA_MAX
    ensures ParseLet(fs, From(On(TId(s.name), LetType(s.ty, LetInit(s.init, k))), c, d)) ==
            GotS(MeanS(fs, s, c, |d|), k, d + BytesS(s))
  {
    hide ParseLetName, ParseThen, Show, Mean, Bytes, Cap, Declare, LetType;
    CapSize(d);
    var k1 := LetInit(s.init, k);
    var m := Declare(c.vars, s.name, s.ty);
    DeclareOk(c.vars, s.name, s.ty);
    if s.init.None? {
      OnIs(TSym(Semi), k);
      ReadName(c.vars, s.name, s.ty, k1, Cap(d), c.breaks);
      assert d + [] == d;
    } else {
      var k2 := Show(s.init.value, 0, Sy(Semi, k));
      OnIs(TSym(Equals), k2);
      ReadName(c.vars, s.name, s.ty, k1, Cap(d), c.breaks);
      if m.Some? { ReadThen(fs, m.value.1, s.init.value, Semi, k, d, c.breaks); }
    }
  }

  lemma DeclareOk(vars: seq<Variable>, name: string, ty: Option<Ty>)
    requires |vars| <= 64
    ensures var r := Declare(vars, name, ty); r.Some? ==> r.value.0 < |r.value.1| <= 64
  {
  }

  /** Assignments and calls. */
  lemma ReadSimple(fs: seq<Decl>, s: St, k: seq<Tok>, c: Scope, d: seq<byte>)
    requires Signatures(fs) && (s.Set? || s.CallSt?) && OkS(s) && |c.vars| <= 64
    ensures |Cap(d)| <= DATA_MAX
    ensures ParseStmt(fs, From(ShowS(s, k), c, d), c.depth) == GotS(MeanS(fs, s, c, |d|), k, d + BytesS(s))
  {
    hide ParseStmt, ParseThen, Show, Mean, Bytes, Cap, FindVar, Free;
    CapSize(d);
    var ps := From(ShowS(s, k), c, d);
    if s.Set? {
      var k2 := Show(s.e, 0, Sy(Semi, k));
      OnIs(TId(s.name), Sy(Equals, k2));
      OnIs(TSym(Equals), k2);
      SimpleStep(fs, ps, c.depth);
      FoundVar(c.vars, s.name);
      ReadThen(fs, c.vars, s.e, Semi, k, d, c.breaks);
    } else {
      var k1 := ShowArgs(s.args, Sy(RParen, Sy(Semi, k)));
      ShowCall(s.f, s.args, Sy(Semi, k));
      OnIs(TId(s.f), Sy(LParen, k1));
      OnIs(TSym(LParen), k1);
      SimpleStep(fs, ps, c.depth);
      ReadThen(fs, c.vars, Apply(s.f, s.args), Semi, k, d, c.breaks);
    }
  }

  lemma ShowCall(f: string, args: Exs, k: seq<Tok>)
    ensures Show(Apply(f, args), 0, k) == On(TId(f), Sy(LParen, ShowArgs(args, Sy(RParen, k))))
  {
    hide ShowArgs;
  }

  /** Meanings keep the variable table within its limit. */
  lemma {:induction false} MeantS(fs: seq<Decl>, s: St, c: Scope, n: nat)
    requires |c.vars| <= 64 && MeanS(fs, s, c, n).Some?
    ensures |MeanS(fs, s, c, n).value.vars| <= 64
    decreases s
  {
    hide Mean, Declare, FindVar;
    match s
    case Let(name, ty, _) => DeclareOk(c.vars, name, ty);
    case IfSt(e, t) => MeantB(fs, t, Skip, c, n + |Bytes(e)|);
    case IfElseSt(e, t, f) =>
      var y := MeanB(fs, t, Skip, c, n + |Bytes(e)|);
      MeantB(fs, t, Skip, c, n + |Bytes(e)|);
      MeantB(fs, f, Skip, c.(vars := y.value.vars, breaks := y.value.breaks), n + |Bytes(e)| + |BytesB(t)|);
    case WhileSt(e, b) => MeantB(fs, b, Skip, Scope(c.vars, 0, c.depth + 1), n + |Bytes(e)|);
    case Braces(b) => MeantB(fs, b, Skip, c, n);
    case Unsafe(b) => MeantB(fs, b, Skip, c, n);
    case _ =>
  }

  lemma {:induction false} MeantB(fs: seq<Decl>, b: Block, acc: Stmt, c: Scope, n: nat)
    requires |c.vars| <= 64 && MeanB(fs, b, acc, c, n).Some?
    ensures |MeanB(fs, b, acc, c, n).value.vars| <= 64
    decreases b
  {
    hide MeanS;
    if b.Then? {
      var m := MeanS(fs, b.s, c, n).value;
      MeantS(fs, b.s, c, n);
      MeantB(fs, b.rest, Seq(acc, m.s), c.(vars := m.vars, breaks := m.breaks), n + |BytesS(b.s)|);
    }
  }

  /** The parser reads a written statement as what it means, and rejects it when it means nothing. */
  lemma {:induction false} ReadS(fs: seq<Decl>, s: St, k: seq<Tok>, c: Scope, d: seq<byte>)
    requires Signatures(fs) && OkS(s) && |c.vars| <= 64 && !IsWord(k, "else")
    ensures |Cap(d)| <= DATA_MAX
    ensures ParseStmt(fs, From(ShowS(s, k), c, d), c.depth) == GotS(MeanS(fs, s, c, |d|), k, d + BytesS(s))
    decreases s
  {
    hide ParseStmt, ParseBlock, ParseLet, ParseThen, Show, Mean, Bytes, Cap, ShowB, MeanB, BytesB, Head, IsWord,
         LetType, LetInit;
    CapSize(d);
    var ps := From(ShowS(s, k), c, d);
    match s
    case Let(name, ty, init) =>
      var k1 := On(TId(name), LetType(ty, LetInit(init, k)));
      OnIs(TId("let"), k1);
      WordIs(ps.toks, "let");
      WordStep(fs, ps, c.depth);
      ReadLet(fs, s, k, c, d);
    case Set(_, _) => ReadSimple(fs, s, k, c, d);
    case CallSt(_, _) => ReadSimple(fs, s, k, c, d);
    case IfSt(_, _) => ReadIf(fs, s, k, c, d);
    case IfElseSt(_, _, _) => ReadIfElse(fs, s, k, c, d);
    case WhileSt(_, _) => ReadWhile(fs, s, k, c, d);
    case BreakSt =>
      OnIs(TId("break"), Sy(Semi, k));
      OnIs(TSym(Semi), k);
      WordIs(ps.toks, "break");
      BreakStep(fs, ps, c.depth);
      assert d + [] == d;
    case ReturnSt(e) =>
      OnIs(TId("return"), Show(e, 0, Sy(Semi, k)));
      WordIs(ps.toks, "return");
      WordStep(fs, ps, c.depth);
      ReadThen(fs, c.vars, e, Semi, k, d, c.breaks);
    case Braces(b) =>
      OnIs(TSym(LBrace), ShowB(b, k));
      BraceStep(fs, ps, c.depth);
      ReadB(fs, b, Skip, k, c, d);
    case Unsafe(b) =>
      OnIs(TId("unsafe"), Sy(LBrace, ShowB(b, k)));
      OnIs(TSym(LBrace), ShowB(b, k));
      WordIs(ps.toks, "unsafe");
      BraceStep(fs, ps, c.depth);
      ReadB(fs, b, Skip, k, c, d);
  }

  lemma WordIs(k: seq<Tok>, w: string)
    ensures IsWord(k, w) <==> |k| > 0 && k[0] == TId(w)
  {
  }

  lemma {:induction false} ReadIf(fs: seq<Decl>, s: St, k: seq<Tok>, c: Scope, d: seq<byte>)
    requires Signatures(fs) && s.IfSt? && OkS(s) && |c.vars| <= 64 && !IsWord(k, "else") && |Cap(d)| <= DATA_MAX
    ensures ParseStmt(fs, From(ShowS(s, k), c, d), c.depth) == GotS(MeanS(fs, s, c, |d|), k, d + BytesS(s))
    decreases s, 0
  {
    hide ParseStmt, ParseBlock, ParseHead, ParseIf, Show, Mean, Bytes, Cap, ShowB, MeanB, BytesB, Head, IsWord;
    var ps := From(ShowS(s, k), c, d);
    var k1 := Head(s.c, ShowB(s.t, k));
    var d1 := d + Bytes(s.c);
    OnIs(TId("if"), k1);
    WordIs(ps.toks, "if");
    WordStep(fs, ps, c.depth);
    IfStep(fs, Rest(ps), c.depth);
    ReadHead(fs, c.vars, s.c, ShowB(s.t, k), d, c.breaks);
    CapSize(d1);
    ReadB(fs, s.t, Skip, k, c, d1);
    assert d1 + BytesB(s.t) == d + BytesS(s);
  }

  lemma {:induction false} ReadIfElse(fs: seq<Decl>, s: St, k: seq<Tok>, c: Scope, d: seq<byte>)
    requires Signatures(fs) && s.IfElseSt? && OkS(s) && |c.vars| <= 64 && |Cap(d)| <= DATA_MAX
    ensures ParseStmt(fs, From(ShowS(s, k), c, d), c.depth) == GotS(MeanS(fs, s, c, |d|), k, d + BytesS(s))
    decreases s, 0
  {
    hide ParseStmt, ParseBlock, ParseHead, ParseIf, Show, Mean, Bytes, Cap, ShowB, MeanB, BytesB, Head, IsWord;
    var ps := From(ShowS(s, k), c, d);
    var k3 := ShowB(s.e2, k);
    var k2 := On(TId("else"), Sy(LBrace, k3));
    var k1 := Head(s.c, ShowB(s.t, k2));
    var d1 := d + Bytes(s.c);
    var d2 := d1 + BytesB(s.t);
    OnIs(TId("if"), k1);
    OnIs(TId("else"), Sy(LBrace, k3));
    OnIs(TSym(LBrace), k3);
    WordIs(ps.toks, "if");
    WordIs(k2, "else");
    WordStep(fs, ps, c.depth);
    IfStep(fs, Rest(ps), c.depth);
    ReadHead(fs, c.vars, s.c, ShowB(s.t, k2), d, c.breaks);
    CapSize(d1);
    ReadB(fs, s.t, Skip, k2, c, d1);
    CapSize(d2);
    var y := MeanB(fs, s.t, Skip, c, |d1|);
    if y.Some? {
      MeantB(fs, s.t, Skip, c, |d1|);
      ReadB(fs, s.e2, Skip, k, c.(vars := y.value.vars, breaks := y.value.breaks), d2);
    }
    assert d2 + BytesB(s.e2) == d + BytesS(s);
  }

  lemma {:induction false} ReadWhile(fs: seq<Decl>, s: St, k: seq<Tok>, c: Scope, d: seq<byte>)
    requires Signatures(fs) && s.WhileSt? && OkS(s) && |c.vars| <= 64 && |Cap(d)| <= DATA_MAX
    ensures ParseStmt(fs, From(ShowS(s, k), c, d), c.depth) == GotS(MeanS(fs, s, c, |d|), k, d + BytesS(s))
    decreases s, 0
  {
    hide ParseStmt, ParseBlock, ParseHead, Show, Mean, Bytes, Cap, ShowB, MeanB, BytesB, Head, IsWord;
    var ps := From(ShowS(s, k), c, d);
    var d1 := d + Bytes(s.c);
    OnIs(TId("while"), Head(s.c, ShowB(s.b, k)));
    WordIs(ps.toks, "while");
    WhileStep(fs, ps, c.depth);
    ReadHead(fs, c.vars, s.c, ShowB(s.b, k), d, c.breaks);
    CapSize(d1);
    ReadB(fs, s.b, Skip, k, Scope(c.vars, 0, c.depth + 1), d1);
    assert d1 + BytesB(s.b) == d + BytesS(s);
  }

  /** The same for a block up to its closing brace. */
  lemma {:induction false} ReadB(fs: seq<Decl>, b: Block, acc: Stmt, k: seq<Tok>, c: Scope, d: seq<byte>)
    requires Signatures(fs) && OkB(b) && |c.vars| <= 64
    ensures |Cap(d)| <= DATA_MAX
    ensures ParseBlock(fs, From(ShowB(b, k), c, d), c.depth, acc) == GotS(MeanB(fs, b, acc, c, |d|), k, d + BytesB(b))
    decreases b
  {
    hide ParseStmt, ParseBlock, ShowS, MeanS, BytesS, Cap, IsWord;
    CapSize(d);
    var ps := From(ShowB(b, k), c, d);
    BlockStep(fs, ps, c.depth, acc);
    if b.Done? {
      OnIs(TSym(RBrace), k);
      assert d + [] == d;
    } else {
      var k1, d1 := ShowB(b.rest, k), d + BytesS(b.s);
      Begins(b.s, k1);
      BeginsB(b.rest, k);
      ReadS(fs, b.s, k1, c, d);
      CapSize(d1);
      var m := MeanS(fs, b.s, c, |d|);
      if m.Some? {
        MeantS(fs, b.s, c, |d|);
        ReadB(fs, b.rest, Seq(acc, m.value.s), k, c.(vars := m.value.vars, breaks := m.value.breaks), d1);
      }
      assert d1 + BytesB(b.rest) == d + BytesB(b);
    }
  }

  // ----- functions and programs -----

  function Params(f: Fn): (r: seq<Variable>)
    ensures |r| == |f.params|
  {
    seq(|f.params|, i requires 0 <= i < |f.params| => Variable(f.params[i].0, Storage(f.params[i].1)))
  }

  predicate OkF(f: Fn) { |f.params| <= 6 && OkB(f.body) }

  /** The scanner hands over the function: its name, its parameters, and the text from behind its opening brace on. */
  ghost predicate Written(d: Decl, f: Fn) {
    d.name == f.name && d.params == Params(f) && exists k :: d.body == ShowB(f.body, k)
  }

  ghost predicate Renders(fs: seq<Decl>, p: seq<Fn>) {
    |fs| == |p| && forall i :: 0 <= i < |p| ==> OkF(p[i]) && Written(fs[i], p[i])
  }

  function MeanF(fs: seq<Decl>, f: Fn, n: nat): Option<Func> {
    var m := MeanB(fs, f.body, Skip, Scope(Params(f), 0, 0), n);
    if m.None? then None else Some(Func(|f.params|, Sizes(m.value.vars), m.value.s, f.name == "main"))
  }

  /** The resolved functions i, i + 1, ...; None when one of them has no meaning. */
  function MeanFrom(fs: seq<Decl>, p: seq<Fn>, i: nat, n: nat): (r: Option<Program>)
    requires i <= |p|
    decreases |p| - i
  {
    if i == |p| then Some([])
    else
      var f := MeanF(fs, p[i], n);
      var tl := MeanFrom(fs, p, i + 1, n + |BytesB(p[i].body)|);
      if f.None? || tl.None? then None else Some([f.value] + tl.value)
  }

  function BytesFrom(p: seq<Fn>, i: nat): seq<byte>
    requires i <= |p|
    decreases |p| - i
  {
    if i == |p| then [] else BytesB(p[i].body) + BytesFrom(p, i + 1)
  }

  lemma RendersOk(fs: seq<Decl>, p: seq<Fn>)
    requires Renders(fs, p)
    ensures Signatures(fs)
  {
    forall d | d in fs ensures |d.params| <= MAX_PARAMS {
      var i :| 0 <= i < |fs| && fs[i] == d;
      assert Written(fs[i], p[i]);
    }
  }

  lemma ReadF(fs: seq<Decl>, d: Decl, f: Fn, data: seq<byte>)
    requires Signatures(fs) && OkF(f) && Written(d, f)
    ensures |Cap(data)| <= DATA_MAX && |d.params| <= MAX_PARAMS
    ensures var m := MeanF(fs, f, |data|);
      ParseFunc(fs, d, Cap(data)) == if m.None? then None else Some((m.value, Cap(data + BytesB(f.body))))
  {
    hide ParseBlock, ShowB, MeanB, BytesB, Cap, Params;
    CapSize(data);
    ParamCount(f);
    var k :| d.body == ShowB(f.body, k);
    ReadB(fs, f.body, Skip, k, Scope(Params(f), 0, 0), data);
  }

  lemma ParamCount(f: Fn)
    ensures |Params(f)| == |f.params|
  {
  }

  /**
   The parser reads a written program as what it means, data section included, and rejects it when it means nothing.
   */
  lemma {:induction false} ReadProgram(fs: seq<Decl>, p: seq<Fn>, i: nat, data: seq<byte>)
    requires Renders(fs, p) && i <= |p|
    ensures Signatures(fs) && |Cap(data)| <= DATA_MAX
    ensures var m := MeanFrom(fs, p, i, |data|);
      ParseFrom(fs, i, Cap(data)) == if m.None? then None else Some((m.value, Cap(data + BytesFrom(p, i))))
    decreases |p| - i
  {
    RendersOk(fs, p);
    CapSize(data);
    hide ParseFunc, MeanF, BytesB, Cap, OkF, Written, ParseFrom;
    if i == |p| {
      C.FromEnd(fs, Cap(data));
      assert data + [] == data;
    } else {
      var data1 := data + BytesB(p[i].body);
      C.FromStep(fs, i, Cap(data));
      ReadF(fs, fs[i], p[i], data);
      CapSize(data1);
      if MeanF(fs, p[i], |data|).Some? { ReadProgram(fs, p, i + 1, data1); }
      assert data1 + BytesFrom(p, i + 1) == data + BytesFrom(p, i);
    }
  }

  /**
   Compiling a written program succeeds exactly when the program has a meaning and its entry, and then, if the tables
   have room, the text is the code of that program.
   */
  lemma CompilesAs(kmod: bool, fs: seq<Decl>, p: seq<Fn>, ok: bool, entry: nat, text: seq<byte>, data: seq<byte>,
      addrs: seq<nat>, refs: seq<Relink.Site>)
    requires Renders(fs, p)
    ensures Signatures(fs)
    ensures C.Compiled(kmod, fs, ok, entry, text, data, addrs, refs) ==>
      var m := MeanFrom(fs, p, 0, 0);
      && (ok <==> m.Some? && FindFunc(fs, C.EntryName(kmod)).Some? && (kmod ==> C.KernelTarget(fs)))
      && (ok ==> data == Cap(BytesFrom(p, 0)) && entry == FindFunc(fs, C.EntryName(kmod)).value)
      && (ok && EmissionP.Fits(Codegen.StartSize(C.FormOf(kmod, entry)), m.value) ==>
           C.LinkedTo(C.FormOf(kmod, entry), m.value, text, addrs, refs))
  {
    hide ParseFrom, MeanFrom, BytesFrom, FindFunc, EmissionP.Fits, C.LinkedTo, C.KernelTarget, C.EntryName, Cap;
    ReadProgram(fs, p, 0, []);
    assert [] + BytesFrom(p, 0) == BytesFrom(p, 0);
    NoData();
  }

  lemma NoData()
    ensures Cap([]) == []
  {
  }

  function Outcome(v: Option<i64>): Why { if v.Some? then Exit(v.value) else DivTrap }

  /** return a op b; } */
  function Returns(op: BinOp, a: u64, b: u64): Block { Then(ReturnSt(Binary(op, Lit(a), Lit(b))), Done) }

  function Returning(op: BinOp, a: u64, b: u64): Func { Func(0, [], Seq(Skip, Return(Bin(op, Num(a), Num(b)))), true) }

  /** The program that returns the value of one operator on two numbers exits with that value, or traps. */
  lemma ReturnExits(op: BinOp, a: u64, b: u64, k: seq<Tok>, base: u64, depth: nat, clock: nat)
    ensures ParseFrom([Decl("main", [], ShowB(Returns(op, a, b), k))], 0, []) == Some(([Returning(op, a, b)], []))
    ensures Whole.Behaviour([Returning(op, a, b)], 0, base, [], depth, clock) == Outcome(EvalBin(op, S(a), S(b)))
  {
    var f := Fn("main", [], Returns(op, a, b));
    var fs := [Decl("main", [], ShowB(f.body, k))];
    ReturnsOk(op, a, b);
    hide ParseFrom, ShowB, EvalBin, Returns, MeanFrom, BytesFrom, Whole.Behaviour;
    assert Params(f) == [];
    assert Written(fs[0], f);
    ReadProgram(fs, [f], 0, []);
    NoData();
    MeansReturn(fs, f, op, a, b);
    ReturnValue(op, a, b, base, depth, clock);
  }

  lemma ReturnsOk(op: BinOp, a: u64, b: u64)
    ensures OkB(Returns(op, a, b))
  {
    var e := Binary(op, Lit(a), Lit(b));
    assert Ok(e);
    assert OkS(ReturnSt(e));
  }

  lemma MeansReturn(fs: seq<Decl>, f: Fn, op: BinOp, a: u64, b: u64)
    requires f == Fn("main", [], Returns(op, a, b))
    ensures MeanFrom(fs, [f], 0, 0) == Some([Returning(op, a, b)])
    ensures BytesFrom([f], 0) == []
  {
    var e, c := Binary(op, Lit(a), Lit(b)), Scope(Params(f), 0, 0);
    var s := ReturnSt(e);
    assert Params(f) == [];
    assert Bytes(e) == [] + [];
    assert BytesS(s) == [];
    assert BytesB(f.body) == BytesS(s) + BytesB(f.body.rest);
    assert BytesB(f.body) == [];
    assert Mean(fs, [], e, 0) == Some(Bin(op, Num(a), Num(b)));
    var m := Meant(Return(Bin(op, Num(a), Num(b))), [], 0);
    assert MeanS(fs, s, c, 0) == Some(m);
    assert MeanB(fs, f.body, Skip, c, 0) == MeanB(fs, f.body.rest, Seq(Skip, m.s), c, 0);
    assert MeanB(fs, f.body.rest, Seq(Skip, m.s), c, 0) == Some(Meant(Seq(Skip, m.s), [], 0));
    assert Sizes([]) == [];
    assert MeanF(fs, f, 0) == Some(Returning(op, a, b));
    var p := [f];
    assert MeanFrom(fs, p, 1, 0) == Some([]);
    assert MeanFrom(fs, p, 0, 0) == Some([Returning(op, a, b)] + []);
    assert [Returning(op, a, b)] + [] == [Returning(op, a, b)] && BytesFrom(p, 1) == [];
  }

  lemma ReturnValue(op: BinOp, a: u64, b: u64, base: u64, depth: nat, clock: nat)
    ensures Whole.Behaviour([Returning(op, a, b)], 0, base, [], depth, clock) == Outcome(EvalBin(op, S(a), S(b)))
  {
    hide EvalBin;
    var f := Returning(op, a, b);
    var p, st, e := [f], Bind([], f.sizes), Bin(op, Num(a), Num(b));
    assert Eval(p, base, Num(a), st, depth, clock) == Res.Ok(S(a), clock);
    assert Eval(p, base, Num(b), st, depth, clock) == Res.Ok(S(b), clock);
    assert ExecStmt(p, base, Skip, st, depth, clock) == Res.Ok(Norm(st), clock);
    var v := EvalBin(op, S(a), S(b));
    assert Eval(p, base, e, st, depth, clock) == if v.None? then Stop(DivTrap) else Res.Ok(v.value, clock);
    assert ExecStmt(p, base, f.body, st, depth, clock) == ExecStmt(p, base, Return(e), st, depth, clock);
  }
}
