/**
 The grammar of the integer fragment, as a function from tokens to resolved programs.

 The parse state carries what the compiler's tables hold: the variable table of the current function,
 the data section, and the number of breaks recorded for the innermost loop.  None is a compile error.
 */
module Parser {
  import opened Words
  import opened OreLang

  const MAX_LOOP_DEPTH := 16
  const MAX_BREAKS_PER_LOOP := 64
  const MAX_STRING := 511
  const DATA_MAX := 32768

  datatype Sym =
    | LParen | RParen | LBrace | RBrace | Comma | Semi | Colon | Equals
    | Cross | Dash | Star | Slash | Percent | ShiftL | ShiftR | Amp | Pipe | Bang | Tilde
    | EqEq | BangEq | LessEq | GreaterEq | Less | Greater
    | Other                                                // anything outside the fragment

  /** Identifiers are already cut to 31 characters and string escapes already replaced. */
  datatype Tok = TNum(v: u64) | TId(name: string) | TStr(bytes: seq<byte>) | TSym(sym: Sym)

  datatype Variable = Variable(name: string, size: Size)

  /** A scanned function: body starts behind its opening brace. */
  datatype Decl = Decl(name: string, params: seq<Variable>, body: seq<Tok>)

  datatype PS = PS(toks: seq<Tok>, vars: seq<Variable>, data: seq<byte>, breaks: nat)

  datatype PE = PE(e: Expr, st: PS)
  datatype PA = PA(args: Args, st: PS)
  datatype PStmt = PStmt(s: Stmt, st: PS)

  // ----- tables -----

  /** The first entry with the name, or None. */
  function FindVar(vars: seq<Variable>, name: string): (r: Option<nat>)
    ensures r.Some? ==> r.value < |vars| && vars[r.value].name == name
    ensures r.Some? ==> forall i :: 0 <= i < r.value ==> vars[i].name != name
    ensures r.None? ==> forall i :: 0 <= i < |vars| ==> vars[i].name != name
  {
    if vars == [] then None
    else if vars[0].name == name then Some(0)
    else
      var r := FindVar(vars[1..], name);
      assert forall i :: 1 <= i < |vars| ==> vars[i] == vars[1..][i - 1];
      if r.Some? then Some(r.value + 1) else None
  }

  function FindFunc(fs: seq<Decl>, name: string): (r: Option<nat>)
    ensures r.Some? ==> r.value < |fs| && fs[r.value].name == name
    ensures r.Some? ==> forall i :: 0 <= i < r.value ==> fs[i].name != name
    ensures r.None? ==> forall i :: 0 <= i < |fs| ==> fs[i].name != name
  {
    if fs == [] then None
    else if fs[0].name == name then Some(0)
    else
      var r := FindFunc(fs[1..], name);
      assert forall i :: 1 <= i < |fs| ==> fs[i] == fs[1..][i - 1];
      if r.Some? then Some(r.value + 1) else None
  }

  /** Storage class and sizeof of the scalar type names. */
  function TypeOf(name: string): Option<(Size, u64)> {
    if name == "void" then Some((B8, 0))
    else if name == "bool" || name == "char" || name == "u8" then Some((B1, 1))
    else if name == "i32" || name == "u32" then Some((B4, 4))
    else if name == "int" || name == "u64" then Some((B8, 8))
    else None
  }

  /** Appending to the data section stops silently when it is full. */
  function AddData(data: seq<byte>, bytes: seq<byte>): (r: seq<byte>)
    requires |data| <= DATA_MAX
    ensures data <= r && |r| <= DATA_MAX
    ensures |data| + |bytes| <= DATA_MAX ==> r == data + bytes
  {
    var all := data + bytes;
    if |all| <= DATA_MAX then all else all[..DATA_MAX]
  }

  // ----- token helpers -----

  predicate IsSym(toks: seq<Tok>, s: Sym) { |toks| > 0 && toks[0] == TSym(s) }

  predicate IsId(toks: seq<Tok>) { |toks| > 0 && toks[0].TId? }

  predicate IsWord(toks: seq<Tok>, word: string) { IsId(toks) && toks[0].name == word }

  function Rest(ps: PS): PS
    requires |ps.toks| > 0
  {
    ps.(toks := ps.toks[1..])
  }

  predicate Progress(ps: PS, st: PS) {
    |st.toks| < |ps.toks| && st.vars == ps.vars && st.breaks == ps.breaks && ps.data <= st.data && |st.data| <= DATA_MAX
  }

  /** The binary operator that token t denotes at precedence level l (0 is |, 4 is * / %). */
  function OpAt(toks: seq<Tok>, level: nat): (r: Option<BinOp>)
    ensures r.Some? ==> |toks| > 0
  {
    if |toks| == 0 || !toks[0].TSym? then None
    else
      match toks[0].sym
      case Pipe => if level == 0 then Some(OOr) else None
      case Amp => if level == 1 then Some(OAnd) else None
      case ShiftL => if level == 2 then Some(OShl) else None
      case ShiftR => if level == 2 then Some(OShr) else None
      case Cross => if level == 3 then Some(OAdd) else None
      case Dash => if level == 3 then Some(OSub) else None
      case Star => if level == 4 then Some(OMul) else None
      case Slash => if level == 4 then Some(ODiv) else None
      case Percent => if level == 4 then Some(OMod) else None
      case _ => None
  }

  function CmpAt(toks: seq<Tok>): (r: Option<BinOp>)
    ensures r.Some? ==> |toks| > 0
  {
    if |toks| == 0 || !toks[0].TSym? then None
    else
      match toks[0].sym
      case EqEq => Some(OEq)
      case BangEq => Some(ONe)
      case LessEq => Some(OLe)
      case GreaterEq => Some(OGe)
      case Less => Some(OLt)
      case Greater => Some(OGt)
      case _ => None
  }

  function UnAt(toks: seq<Tok>): (r: Option<UnOp>)
    ensures r.Some? ==> |toks| > 0
  {
    if IsSym(toks, Bang) then Some(LogNot)
    else if IsSym(toks, Tilde) then Some(BitNot)
    else if IsSym(toks, Dash) then Some(Minus)
    else None
  }

  function Snoc(args: Args, e: Expr): Args {
    match args
    case NoArgs => Arg(e, NoArgs)
    case Arg(h, tl) => Arg(h, Snoc(tl, e))
  }

  // ----- expressions -----

  /** At most one comparison, between two bit-or expressions. */
  function ParseExpr(fs: seq<Decl>, ps: PS): (r: Option<PE>)
    requires |ps.data| <= DATA_MAX
    ensures r.Some? ==> Progress(ps, r.value.st)
    decreases |ps.toks|, 9
  {
    var a := ParseLevel(fs, ps, 0);
    if a.None? then None
    else
      var op := CmpAt(a.value.st.toks);
      if op.None? then a
      else
        var b := ParseLevel(fs, Rest(a.value.st), 0);
        if b.None? then None else Some(PE(Bin(op.value, a.value.e, b.value.e), b.value.st))
  }

  /** Left-associative operators of one precedence level; level 5 is unary. */
  function ParseLevel(fs: seq<Decl>, ps: PS, level: nat): (r: Option<PE>)
    requires level <= 5 && |ps.data| <= DATA_MAX
    ensures r.Some? ==> Progress(ps, r.value.st)
    decreases |ps.toks|, 8 - level
  {
    if level == 5 then ParseUnary(fs, ps)
    else
      var a := ParseLevel(fs, ps, level + 1);
      if a.None? then None else ParseTail(fs, a.value.st, level, a.value.e)
  }

  function ParseTail(fs: seq<Decl>, ps: PS, level: nat, lhs: Expr): (r: Option<PE>)
    requires level < 5 && |ps.data| <= DATA_MAX
    ensures r.Some? ==> r.value.st == ps || Progress(ps, r.value.st)
    decreases |ps.toks|, 0
  {
    var op := OpAt(ps.toks, level);
    if op.None? then Some(PE(lhs, ps))
    else
      var b := ParseLevel(fs, Rest(ps), level + 1);
      if b.None? then None else ParseTail(fs, b.value.st, level, Bin(op.value, lhs, b.value.e))
  }

  lemma LevelStart(fs: seq<Decl>, ps: PS, level: nat)
    requires level < 5 && |ps.data| <= DATA_MAX
    ensures var a := ParseLevel(fs, ps, level + 1);
            ParseLevel(fs, ps, level) == if a.None? then None else ParseTail(fs, a.value.st, level, a.value.e)
  {
    hide ParseTail, ParseUnary;
  }

  lemma LevelUnary(fs: seq<Decl>, ps: PS)
    requires |ps.data| <= DATA_MAX
    ensures ParseLevel(fs, ps, 5) == ParseUnary(fs, ps)
  {
  }

  lemma TailStep(fs: seq<Decl>, ps: PS, level: nat, lhs: Expr)
    requires level < 5 && |ps.data| <= DATA_MAX
    ensures OpAt(ps.toks, level).None? ==> ParseTail(fs, ps, level, lhs) == Some(PE(lhs, ps))
    ensures OpAt(ps.toks, level).Some? ==>
              var b := ParseLevel(fs, Rest(ps), level + 1);
              ParseTail(fs, ps, level, lhs)
              == if b.None? then None else ParseTail(fs, b.value.st, level,
                Bin(OpAt(ps.toks, level).value, lhs, b.value.e))
  {
    hide ParseLevel, OpAt;
  }

  function ParseUnary(fs: seq<Decl>, ps: PS): (r: Option<PE>)
    requires |ps.data| <= DATA_MAX
    ensures r.Some? ==> Progress(ps, r.value.st)
    decreases |ps.toks|, 2
  {
    var op := UnAt(ps.toks);
    if op.Some? then
      var a := ParseUnary(fs, Rest(ps));
      if a.None? then None else Some(PE(Un(op.value, a.value.e), a.value.st))
    else ParsePrimary(fs, ps)
  }

  function ParsePrimary(fs: seq<Decl>, ps: PS): (r: Option<PE>)
    requires |ps.data| <= DATA_MAX
    ensures r.Some? ==> Progress(ps, r.value.st)
    decreases |ps.toks|, 1
  {
    if |ps.toks| == 0 then None
    else
      match ps.toks[0]
      case TStr(bytes) =>
        if |bytes| > MAX_STRING then None
        else Some(PE(Data(|ps.data|), Rest(ps).(data := AddData(ps.data, bytes + [0]))))
      case TNum(v) => Some(PE(Num(v), Rest(ps)))
      case TSym(sym) =>
        if !sym.LParen? then None
        else
          var a := ParseExpr(fs, Rest(ps));
          if a.None? || !IsSym(a.value.st.toks, RParen) then None else Some(PE(a.value.e, Rest(a.value.st)))
      case TId(name) => ParseName(fs, Rest(ps), name)
  }

  /** An identifier that has just been read: sizeof, alignof, a call, or a variable. */
  function ParseName(fs: seq<Decl>, ps: PS, name: string): (r: Option<PE>)
    requires |ps.data| <= DATA_MAX
    ensures r.Some? ==> r.value.st == ps || Progress(ps, r.value.st)
    decreases |ps.toks|, 11
  {
    if name == "sizeof" || name == "alignof" then ParseSizeof(ps, name == "alignof")
    else if name == "offsetof" then None
    else if IsSym(ps.toks, LParen) then
      var fn := FindFunc(fs, name);
      if fn.None? then None
      else
        var a := if IsSym(Rest(ps).toks, RParen) then Some(PA(NoArgs, Rest(ps))) else ParseArgs(fs, Rest(ps), NoArgs);
        if a.None? || ArgCount(a.value.args) != |fs[fn.value].params| then None
        else Some(PE(Call(fn.value, a.value.args), Rest(a.value.st)))
    else if IsSym(ps.toks, Other) then None
    else
      var v := FindVar(ps.vars, name);
      if v.None? then None else Some(PE(Var(v.value, ps.vars[v.value].size), ps))
  }

  /** sizeof(T) and alignof(T); void has size 0 and alignment 1. */
  function ParseSizeof(ps: PS, align: bool): (r: Option<PE>)
    requires |ps.data| <= DATA_MAX
    ensures r.Some? ==> Progress(ps, r.value.st)
  {
    if |ps.toks| < 3 || ps.toks[0] != TSym(LParen) || !ps.toks[1].TId? || ps.toks[2] != TSym(RParen) then None
    else
      var t := TypeOf(ps.toks[1].name);
      if t.None? then None
      else Some(PE(Num(if align && t.value.1 == 0 then 1 else t.value.1), ps.(toks := ps.toks[3..])))
  }

  /** One or more arguments; stops in front of the closing parenthesis. */
  function ParseArgs(fs: seq<Decl>, ps: PS, acc: Args): (r: Option<PA>)
    requires |ps.data| <= DATA_MAX
    ensures r.Some? ==> Progress(ps, r.value.st) && IsSym(r.value.st.toks, RParen)
    decreases |ps.toks|, 10
  {
    if ArgCount(acc) >= MAX_PARAMS then None
    else
      var a := ParseExpr(fs, ps);
      if a.None? then None
      else
        var st, acc' := a.value.st, Snoc(acc, a.value.e);
        if IsSym(st.toks, RParen) then Some(PA(acc', st))
        else if IsSym(st.toks, Comma) then ParseArgs(fs, Rest(st), acc')
        else None
  }

  lemma ArgsStep(fs: seq<Decl>, ps: PS, acc: Args)
    requires |ps.data| <= DATA_MAX
    ensures ArgCount(acc) >= MAX_PARAMS ==> ParseArgs(fs, ps, acc).None?
    ensures ArgCount(acc) < MAX_PARAMS ==>
              var a := ParseExpr(fs, ps);
              ParseArgs(fs, ps, acc)
              == if a.None? then None
                 else if IsSym(a.value.st.toks, RParen) then Some(PA(Snoc(acc, a.value.e), a.value.st))
                 else if IsSym(a.value.st.toks, Comma) then ParseArgs(fs, Rest(a.value.st), Snoc(acc, a.value.e))
                 else None
  {
    hide ParseExpr;
  }

  lemma {:induction false} SnocCount(args: Args, e: Expr)
    ensures ArgCount(Snoc(args, e)) == ArgCount(args) + 1
    decreases args
  {
    if args.Arg? { SnocCount(args.tl, e); }
  }

  // ----- statements -----

  predicate Shrinks(ps: PS, st: PS) {
    |st.toks| < |ps.toks| && ps.vars <= st.vars && |st.vars| <= MAX_VARS && ps.data <= st.data && |st.data| <= DATA_MAX
    && ps.breaks <= st.breaks
  }

  /** An expression followed by a given symbol. */
  function ParseThen(fs: seq<Decl>, ps: PS, s: Sym): (r: Option<PE>)
    requires |ps.data| <= DATA_MAX
    ensures r.Some? ==> Progress(ps, r.value.st)
  {
    var a := ParseExpr(fs, ps);
    if a.None? || !IsSym(a.value.st.toks, s) then None else Some(PE(a.value.e, Rest(a.value.st)))
  }

  /** ( expression ) { */
  function ParseHead(fs: seq<Decl>, ps: PS): (r: Option<PE>)
    requires |ps.data| <= DATA_MAX
    ensures r.Some? ==> Progress(ps, r.value.st)
  {
    if !IsSym(ps.toks, LParen) then None
    else
      var a := ParseThen(fs, Rest(ps), RParen);
      if a.None? || !IsSym(a.value.st.toks, LBrace) then None else Some(PE(a.value.e, Rest(a.value.st)))
  }

  /** name, name: type -- declares the variable unless it exists, in which case the old slot and type stay. */
  function ParseLetName(ps: PS): (r: Option<(nat, PS)>)
    requires |ps.vars| <= MAX_VARS && |ps.data| <= DATA_MAX
    ensures r.Some? ==> Shrinks(ps, r.value.1) && r.value.0 < |r.value.1.vars|
    ensures r.Some? ==> r.value.1.data == ps.data && r.value.1.breaks == ps.breaks
  {
    if !IsId(ps.toks) then None
    else
      var name, ps1 := ps.toks[0].name, Rest(ps);
      var typed := IsSym(ps1.toks, Colon);
      if typed && (!IsId(Rest(ps1).toks) || TypeOf(Rest(ps1).toks[0].name).None?) then None
      else
        var size := if typed then TypeOf(Rest(ps1).toks[0].name).value.0 else B8;
        var ps2 := if typed then Rest(Rest(ps1)) else ps1;
        var v := FindVar(ps2.vars, name);
        if v.Some? then Some((v.value, ps2))
        else if |ps2.vars| >= MAX_VARS then None
        else Some((|ps2.vars|, ps2.(vars := ps2.vars + [Variable(name, size)])))
  }

  function ParseLet(fs: seq<Decl>, ps: PS): (r: Option<PStmt>)
    requires |ps.vars| <= MAX_VARS && |ps.data| <= DATA_MAX
    ensures r.Some? ==> Shrinks(ps, r.value.st)
  {
    var n := ParseLetName(ps);
    if n.None? then None
    else
      var (slot, ps1) := n.value;
      if IsSym(ps1.toks, Equals) then
        var a := ParseThen(fs, Rest(ps1), Semi);
        if a.None? then None else Some(PStmt(Assign(slot, ps1.vars[slot].size, a.value.e), a.value.st))
      else if IsSym(ps1.toks, Semi) then Some(PStmt(Zero(slot), Rest(ps1)))
      else None
  }

  /** A call as a statement, or an assignment. */
  function ParseSimple(fs: seq<Decl>, ps: PS): (r: Option<PStmt>)
    requires IsId(ps.toks) && |ps.vars| <= MAX_VARS && |ps.data| <= DATA_MAX
    ensures r.Some? ==> Shrinks(ps, r.value.st)
  {
    if IsSym(ps.toks[1..], LParen) then
      var a := ParseThen(fs, ps, Semi);
      if a.None? then None else Some(PStmt(Do(a.value.e), a.value.st))
    else
      var v := FindVar(ps.vars, ps.toks[0].name);
      if v.None? || !IsSym(ps.toks[1..], Equals) then None
      else
        var a := ParseThen(fs, Rest(Rest(ps)), Semi);
        if a.None? then None else Some(PStmt(Assign(v.value, ps.vars[v.value].size, a.value.e), a.value.st))
  }

  /** depth is the number of enclosing loops. */
  function ParseStmt(fs: seq<Decl>, ps: PS, depth: nat): (r: Option<PStmt>)
    requires |ps.vars| <= MAX_VARS && |ps.data| <= DATA_MAX
    ensures r.Some? ==> Shrinks(ps, r.value.st)
    decreases |ps.toks|, 0
  {
    if IsSym(ps.toks, LBrace) then ParseBlock(fs, Rest(ps), depth, Skip)
    else if !IsId(ps.toks) then None
    else if IsWord(ps.toks, "unsafe") then
      if IsSym(ps.toks[1..], LBrace) then ParseBlock(fs, Rest(Rest(ps)), depth, Skip) else None
    else if IsWord(ps.toks, "let") then ParseLet(fs, Rest(ps))
    else if IsWord(ps.toks, "while") then
      var a := ParseHead(fs, Rest(ps));
      if a.None? || depth >= MAX_LOOP_DEPTH then None
      else
        var b := ParseBlock(fs, a.value.st.(breaks := 0), depth + 1, Skip);
        if b.None? then None else Some(PStmt(While(a.value.e, b.value.s), b.value.st.(breaks := ps.breaks)))
    else if IsWord(ps.toks, "break") then
      if !IsSym(ps.toks[1..], Semi) || depth == 0 || ps.breaks >= MAX_BREAKS_PER_LOOP then None
      else Some(PStmt(Break, Rest(Rest(ps)).(breaks := ps.breaks + 1)))
    else if IsWord(ps.toks, "if") then ParseIf(fs, Rest(ps), depth)
    else if IsWord(ps.toks, "return") then
      var a := ParseThen(fs, Rest(ps), Semi);
      if a.None? then None else Some(PStmt(Return(a.value.e), a.value.st))
    else if IsWord(ps.toks, "print") || IsWord(ps.toks, "puti") then None
    else ParseSimple(fs, ps)
  }

  function ParseIf(fs: seq<Decl>, ps: PS, depth: nat): (r: Option<PStmt>)
    requires |ps.vars| <= MAX_VARS && |ps.data| <= DATA_MAX
    ensures r.Some? ==> Shrinks(ps, r.value.st)
    decreases |ps.toks|, 2
  {
    var a := ParseHead(fs, ps);
    if a.None? then None
    else
      var t := ParseBlock(fs, a.value.st, depth, Skip);
      if t.None? then None
      else if !IsWord(t.value.st.toks, "else") then Some(PStmt(If(a.value.e, t.value.s), t.value.st))
      else if !IsSym(t.value.st.toks[1..], LBrace) then None
      else
        var f := ParseBlock(fs, Rest(Rest(t.value.st)), depth, Skip);
        if f.None? then None else Some(PStmt(IfElse(a.value.e, t.value.s, f.value.s), f.value.st))
  }

  /** Statements up to and including the closing brace, appended to acc. */
  function ParseBlock(fs: seq<Decl>, ps: PS, depth: nat, acc: Stmt): (r: Option<PStmt>)
    requires |ps.vars| <= MAX_VARS && |ps.data| <= DATA_MAX
    ensures r.Some? ==> Shrinks(ps, r.value.st)
    decreases |ps.toks|, 1
  {
    if |ps.toks| == 0 then None
    else if IsSym(ps.toks, RBrace) then Some(PStmt(acc, Rest(ps)))
    else
      var s := ParseStmt(fs, ps, depth);
      if s.None? then None else ParseBlock(fs, s.value.st, depth, Seq(acc, s.value.s))
  }

  lemma IfStep(fs: seq<Decl>, ps: PS, depth: nat)
    requires |ps.vars| <= MAX_VARS && |ps.data| <= DATA_MAX
    ensures var a := ParseHead(fs, ps);
            ParseIf(fs, ps, depth)
            == if a.None? then None
               else
                 var t := ParseBlock(fs, a.value.st, depth, Skip);
                 if t.None? then None
                 else if !IsWord(t.value.st.toks, "else") then Some(PStmt(If(a.value.e, t.value.s), t.value.st))
                 else if !IsSym(t.value.st.toks[1..], LBrace) then None
                 else
                   var f := ParseBlock(fs, Rest(Rest(t.value.st)), depth, Skip);
                   if f.None? then None else Some(PStmt(IfElse(a.value.e, t.value.s, f.value.s), f.value.st))
  {
    hide ParseHead, ParseBlock;
  }

  lemma WhileStep(fs: seq<Decl>, ps: PS, depth: nat)
    requires |ps.vars| <= MAX_VARS && |ps.data| <= DATA_MAX && IsWord(ps.toks, "while")
    ensures var a := ParseHead(fs, Rest(ps));
            ParseStmt(fs, ps, depth)
            == if a.None? || depth >= MAX_LOOP_DEPTH then None
               else
                 var b := ParseBlock(fs, a.value.st.(breaks := 0), depth + 1, Skip);
                 if b.None? then None else Some(PStmt(While(a.value.e, b.value.s), b.value.st.(breaks := ps.breaks)))
  {
    hide ParseHead, ParseBlock, ParseLet, ParseIf, ParseSimple, ParseThen;
  }

  lemma BlockStep(fs: seq<Decl>, ps: PS, depth: nat, acc: Stmt)
    requires |ps.vars| <= MAX_VARS && |ps.data| <= DATA_MAX
    ensures |ps.toks| == 0 ==> ParseBlock(fs, ps, depth, acc).None?
    ensures IsSym(ps.toks, RBrace) ==> ParseBlock(fs, ps, depth, acc) == Some(PStmt(acc, Rest(ps)))
    ensures |ps.toks| > 0 && !IsSym(ps.toks, RBrace) ==>
              var s := ParseStmt(fs, ps, depth);
              ParseBlock(fs, ps, depth, acc) == if s.None? then None
                else ParseBlock(fs, s.value.st, depth, Seq(acc, s.value.s))
  {
    hide ParseStmt;
  }

  // ----- functions and programs -----

  function Sizes(vars: seq<Variable>): (r: seq<Size>)
    ensures |r| == |vars|
  {
    seq(|vars|, i requires 0 <= i < |vars| => vars[i].size)
  }

  /** The function and the data section behind it. */
  function ParseFunc(fs: seq<Decl>, d: Decl, data: seq<byte>): (r: Option<(Func, seq<byte>)>)
    requires |d.params| <= MAX_PARAMS && |data| <= DATA_MAX
    ensures r.Some? ==> data <= r.value.1 && |r.value.1| <= DATA_MAX
  {
    var b := ParseBlock(fs, PS(d.body, d.params, data, 0), 0, Skip);
    if b.None? then None
    else Some((Func(|d.params|, Sizes(b.value.st.vars), b.value.s, d.name == "main"), b.value.st.data))
  }

  /** Functions i, i+1, ... in order. */
  function ParseFrom(fs: seq<Decl>, i: nat, data: seq<byte>): (r: Option<(Program, seq<byte>)>)
    requires i <= |fs| && |data| <= DATA_MAX && (forall d :: d in fs ==> |d.params| <= MAX_PARAMS)
    ensures r.Some? ==> |r.value.0| == |fs| - i && data <= r.value.1 && |r.value.1| <= DATA_MAX
    decreases |fs| - i
  {
    if i == |fs| then Some(([], data))
    else
      var f := ParseFunc(fs, fs[i], data);
      if f.None? then None
      else
        var rest := ParseFrom(fs, i + 1, f.value.1);
        if rest.None? then None else Some(([f.value.0] + rest.value.0, rest.value.1))
  }
}
