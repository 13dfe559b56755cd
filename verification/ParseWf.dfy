/**
 Whatever parses is well formed: slots exist and have their size, callees and argument counts match, breaks are in
 loops.
 */
module ParseWf {
  import opened Words
  import opened OreLang
  import opened Frames
  import P = Parser

  /** The program has the signatures of the scanned functions. */
  ghost predicate Signatures(p: Program, fs: seq<P.Decl>) {
    |p| == |fs| && forall i :: 0 <= i < |p| ==> p[i].argc == |fs[i].params|
  }

  /** vars is the final variable table, size bounds the data section, and both cover the parse state. */
  ghost predicate Covers(vars: seq<P.Variable>, size: nat, st: P.PS) {
    st.vars <= vars && |st.data| <= size
  }

  lemma WfExpr(fs: seq<P.Decl>, p: Program, ps: P.PS, vars: seq<P.Variable>, size: nat)
    requires Signatures(p, fs) && |ps.data| <= P.DATA_MAX && P.ParseExpr(fs, ps).Some?
    requires Covers(vars, size, P.ParseExpr(fs, ps).value.st)
    ensures WfE(p, size, P.Sizes(vars), P.ParseExpr(fs, ps).value.e)
    decreases |ps.toks|, 9
  {
    hide P.CmpAt, P.ParseLevel;
    var a := P.ParseLevel(fs, ps, 0);
    WfLevel(fs, p, ps, 0, vars, size);
    if P.CmpAt(a.value.st.toks).Some? {
      WfLevel(fs, p, P.Rest(a.value.st), 0, vars, size);
    }
  }

  lemma WfLevel(fs: seq<P.Decl>, p: Program, ps: P.PS, level: nat, vars: seq<P.Variable>, size: nat)
    requires Signatures(p, fs) && level <= 5 && |ps.data| <= P.DATA_MAX && P.ParseLevel(fs, ps, level).Some?
    requires Covers(vars, size, P.ParseLevel(fs, ps, level).value.st)
    ensures WfE(p, size, P.Sizes(vars), P.ParseLevel(fs, ps, level).value.e)
    decreases |ps.toks|, 8 - level
  {
    hide P.ParseLevel, P.ParseTail, P.ParseUnary;
    if level == 5 {
      P.LevelUnary(fs, ps);
      WfUnary(fs, p, ps, vars, size);
    } else {
      P.LevelStart(fs, ps, level);
      var a := P.ParseLevel(fs, ps, level + 1).value;
      WfLevel(fs, p, ps, level + 1, vars, size);
      WfTail(fs, p, a.st, level, a.e, vars, size);
    }
  }

  lemma WfTail(fs: seq<P.Decl>, p: Program, ps: P.PS, level: nat, lhs: Expr, vars: seq<P.Variable>, size: nat)
    requires Signatures(p, fs) && level < 5 && |ps.data| <= P.DATA_MAX && P.ParseTail(fs, ps, level, lhs).Some?
    requires Covers(vars, size, P.ParseTail(fs, ps, level, lhs).value.st) && WfE(p, size, P.Sizes(vars), lhs)
    ensures WfE(p, size, P.Sizes(vars), P.ParseTail(fs, ps, level, lhs).value.e)
    decreases |ps.toks|, 0
  {
    hide P.ParseLevel, P.ParseTail, P.OpAt, P.Sizes;
    P.TailStep(fs, ps, level, lhs);
    if P.OpAt(ps.toks, level).Some? {
      var b := P.ParseLevel(fs, P.Rest(ps), level + 1).value;
      WfLevel(fs, p, P.Rest(ps), level + 1, vars, size);
      WfTail(fs, p, b.st, level, Bin(P.OpAt(ps.toks, level).value, lhs, b.e), vars, size);
    }
  }

  lemma WfUnary(fs: seq<P.Decl>, p: Program, ps: P.PS, vars: seq<P.Variable>, size: nat)
    requires Signatures(p, fs) && |ps.data| <= P.DATA_MAX && P.ParseUnary(fs, ps).Some?
    requires Covers(vars, size, P.ParseUnary(fs, ps).value.st)
    ensures WfE(p, size, P.Sizes(vars), P.ParseUnary(fs, ps).value.e)
    decreases |ps.toks|, 2
  {
    hide P.ParsePrimary, P.UnAt;
    if P.UnAt(ps.toks).Some? {
      WfUnary(fs, p, P.Rest(ps), vars, size);
    } else {
      WfPrimary(fs, p, ps, vars, size);
    }
  }

  lemma WfPrimary(fs: seq<P.Decl>, p: Program, ps: P.PS, vars: seq<P.Variable>, size: nat)
    requires Signatures(p, fs) && |ps.data| <= P.DATA_MAX && P.ParsePrimary(fs, ps).Some?
    requires Covers(vars, size, P.ParsePrimary(fs, ps).value.st)
    ensures WfE(p, size, P.Sizes(vars), P.ParsePrimary(fs, ps).value.e)
    decreases |ps.toks|, 1
  {
    hide P.ParseExpr, P.ParseName, P.Sizes;
    match ps.toks[0]
    case TStr(bytes) =>
    case TNum(v) =>
    case TSym(sym) => WfExpr(fs, p, P.Rest(ps), vars, size);
    case TId(name) => WfName(fs, p, P.Rest(ps), name, vars, size);
  }

  lemma WfName(fs: seq<P.Decl>, p: Program, ps: P.PS, name: string, vars: seq<P.Variable>, size: nat)
    requires Signatures(p, fs) && |ps.data| <= P.DATA_MAX && P.ParseName(fs, ps, name).Some?
    requires Covers(vars, size, P.ParseName(fs, ps, name).value.st)
    ensures WfE(p, size, P.Sizes(vars), P.ParseName(fs, ps, name).value.e)
    decreases |ps.toks|, 11
  {
    hide P.ParseArgs, P.FindFunc, P.FindVar;
    if name != "sizeof" && name != "alignof" && P.IsSym(ps.toks, P.LParen) && !P.IsSym(P.Rest(ps).toks, P.RParen) {
      WfArgs(fs, p, P.Rest(ps), NoArgs, vars, size);
    }
  }

  lemma {:induction false} WfSnoc(p: Program, size: nat, sizes: seq<Size>, args: Args, e: Expr)
    requires WfA(p, size, sizes, args) && WfE(p, size, sizes, e)
    ensures WfA(p, size, sizes, P.Snoc(args, e))
    decreases args
  {
    hide WfE;
    if args.Arg? { WfSnoc(p, size, sizes, args.tl, e); }
  }

  lemma WfArgs(fs: seq<P.Decl>, p: Program, ps: P.PS, acc: Args, vars: seq<P.Variable>, size: nat)
    requires Signatures(p, fs) && |ps.data| <= P.DATA_MAX && P.ParseArgs(fs, ps, acc).Some?
    requires Covers(vars, size, P.ParseArgs(fs, ps, acc).value.st) && WfA(p, size, P.Sizes(vars), acc)
    ensures WfA(p, size, P.Sizes(vars), P.ParseArgs(fs, ps, acc).value.args)
    decreases |ps.toks|, 10
  {
    hide P.ParseArgs, P.ParseExpr, P.Sizes, P.Snoc, WfA, WfE;
    P.ArgsStep(fs, ps, acc);
    var a := P.ParseExpr(fs, ps).value;
    WfExpr(fs, p, ps, vars, size);
    WfSnoc(p, size, P.Sizes(vars), acc, a.e);
    if !P.IsSym(a.st.toks, P.RParen) {
      WfArgs(fs, p, P.Rest(a.st), P.Snoc(acc, a.e), vars, size);
    }
  }

  // ----- statements -----

  lemma WfThen(fs: seq<P.Decl>, p: Program, ps: P.PS, s: P.Sym, vars: seq<P.Variable>, size: nat)
    requires Signatures(p, fs) && |ps.data| <= P.DATA_MAX && P.ParseThen(fs, ps, s).Some?
    requires Covers(vars, size, P.ParseThen(fs, ps, s).value.st)
    ensures WfE(p, size, P.Sizes(vars), P.ParseThen(fs, ps, s).value.e)
  {
    hide P.ParseExpr, P.Sizes;
    WfExpr(fs, p, ps, vars, size);
  }

  lemma WfHead(fs: seq<P.Decl>, p: Program, ps: P.PS, vars: seq<P.Variable>, size: nat)
    requires Signatures(p, fs) && |ps.data| <= P.DATA_MAX && P.ParseHead(fs, ps).Some?
    requires Covers(vars, size, P.ParseHead(fs, ps).value.st)
    ensures WfE(p, size, P.Sizes(vars), P.ParseHead(fs, ps).value.e)
  {
    hide P.ParseThen, P.Sizes;
    WfThen(fs, p, P.Rest(ps), P.RParen, vars, size);
  }

  lemma WfLet(fs: seq<P.Decl>, p: Program, ps: P.PS, vars: seq<P.Variable>, size: nat, inLoop: bool)
    requires Signatures(p, fs) && |ps.vars| <= MAX_VARS && |ps.data| <= P.DATA_MAX && P.ParseLet(fs, ps).Some?
    requires Covers(vars, size, P.ParseLet(fs, ps).value.st)
    ensures WfS(p, size, P.Sizes(vars), P.ParseLet(fs, ps).value.s, inLoop)
  {
    hide P.ParseThen, P.ParseLetName;
    var (slot, ps1) := P.ParseLetName(ps).value;
    if P.IsSym(ps1.toks, P.Equals) {
      WfThen(fs, p, P.Rest(ps1), P.Semi, vars, size);
    }
  }

  lemma WfSimple(fs: seq<P.Decl>, p: Program, ps: P.PS, vars: seq<P.Variable>, size: nat, inLoop: bool)
    requires Signatures(p, fs) && P.IsId(ps.toks) && |ps.vars| <= MAX_VARS && |ps.data| <= P.DATA_MAX
    requires P.ParseSimple(fs, ps).Some? && Covers(vars, size, P.ParseSimple(fs, ps).value.st)
    ensures WfS(p, size, P.Sizes(vars), P.ParseSimple(fs, ps).value.s, inLoop)
  {
    hide P.ParseThen, P.FindVar;
    if P.IsSym(ps.toks[1..], P.LParen) {
      WfThen(fs, p, ps, P.Semi, vars, size);
    } else {
      WfThen(fs, p, P.Rest(P.Rest(ps)), P.Semi, vars, size);
    }
  }

  lemma WfStmt(fs: seq<P.Decl>, p: Program, ps: P.PS, depth: nat, vars: seq<P.Variable>, size: nat)
    requires Signatures(p, fs) && |ps.vars| <= MAX_VARS && |ps.data| <= P.DATA_MAX && P.ParseStmt(fs, ps, depth).Some?
    requires Covers(vars, size, P.ParseStmt(fs, ps, depth).value.st)
    ensures WfS(p, size, P.Sizes(vars), P.ParseStmt(fs, ps, depth).value.s, depth > 0)
    decreases |ps.toks|, 0
  {
    hide P.ParseBlock, P.ParseIf, P.ParseLet, P.ParseSimple, P.ParseHead, P.ParseThen, P.Sizes, WfE;
    if P.IsSym(ps.toks, P.LBrace) {
      WfBlock(fs, p, P.Rest(ps), depth, Skip, vars, size);
    } else if P.IsWord(ps.toks, "unsafe") {
      WfBlock(fs, p, P.Rest(P.Rest(ps)), depth, Skip, vars, size);
    } else if P.IsWord(ps.toks, "let") {
      WfLet(fs, p, P.Rest(ps), vars, size, depth > 0);
    } else if P.IsWord(ps.toks, "while") {
      var a := P.ParseHead(fs, P.Rest(ps)).value;
      WfHead(fs, p, P.Rest(ps), vars, size);
      WfBlock(fs, p, a.st.(breaks := 0), depth + 1, Skip, vars, size);
    } else if P.IsWord(ps.toks, "break") {
    } else if P.IsWord(ps.toks, "if") {
      WfIf(fs, p, P.Rest(ps), depth, vars, size);
    } else if P.IsWord(ps.toks, "return") {
      WfThen(fs, p, P.Rest(ps), P.Semi, vars, size);
    } else {
      WfSimple(fs, p, ps, vars, size, depth > 0);
    }
  }

  lemma WfIf(fs: seq<P.Decl>, p: Program, ps: P.PS, depth: nat, vars: seq<P.Variable>, size: nat)
    requires Signatures(p, fs) && |ps.vars| <= MAX_VARS && |ps.data| <= P.DATA_MAX && P.ParseIf(fs, ps, depth).Some?
    requires Covers(vars, size, P.ParseIf(fs, ps, depth).value.st)
    ensures WfS(p, size, P.Sizes(vars), P.ParseIf(fs, ps, depth).value.s, depth > 0)
    decreases |ps.toks|, 2
  {
    hide P.ParseIf, P.ParseBlock, P.ParseHead, P.Sizes, WfE;
    P.IfStep(fs, ps, depth);
    var a := P.ParseHead(fs, ps).value;
    var t := P.ParseBlock(fs, a.st, depth, Skip).value;
    WfHead(fs, p, ps, vars, size);
    WfBlock(fs, p, a.st, depth, Skip, vars, size);
    if P.IsWord(t.st.toks, "else") {
      WfBlock(fs, p, P.Rest(P.Rest(t.st)), depth, Skip, vars, size);
    }
  }

  lemma WfBlock(fs: seq<P.Decl>, p: Program, ps: P.PS, depth: nat, acc: Stmt, vars: seq<P.Variable>, size: nat)
    requires Signatures(p, fs) && |ps.vars| <= MAX_VARS && |ps.data| <= P.DATA_MAX
      && P.ParseBlock(fs, ps, depth, acc).Some?
    requires Covers(vars, size, P.ParseBlock(fs, ps, depth, acc).value.st)
      && WfS(p, size, P.Sizes(vars), acc, depth > 0)
    ensures WfS(p, size, P.Sizes(vars), P.ParseBlock(fs, ps, depth, acc).value.s, depth > 0)
    decreases |ps.toks|, 1
  {
    hide P.ParseBlock, P.ParseStmt, P.Sizes;
    P.BlockStep(fs, ps, depth, acc);
    if !P.IsSym(ps.toks, P.RBrace) {
      var s := P.ParseStmt(fs, ps, depth).value;
      WfStmt(fs, p, ps, depth, vars, size);
      WfBlock(fs, p, s.st, depth, Seq(acc, s.s), vars, size);
    }
  }

  // ----- programs -----

  lemma {:induction false} FromFuncs(fs: seq<P.Decl>, i: nat, data: seq<byte>, q: Program, size: nat)
    requires |data| <= P.DATA_MAX && i <= |fs| && (forall d :: d in fs ==> |d.params| <= MAX_PARAMS)
    requires P.ParseFrom(fs, i, data).Some? && |P.ParseFrom(fs, i, data).value.1| <= size && Signatures(q, fs)
    ensures var p := P.ParseFrom(fs, i, data).value.0;
            forall j :: 0 <= j < |p| ==>
              WfF(q, size, p[j]) && p[j].argc == |fs[i + j].params| && p[j].isMain == (fs[i + j].name == "main")
    decreases |fs| - i
  {
    hide P.ParseBlock, WfS;
    if i < |fs| {
      var f := P.ParseFunc(fs, fs[i], data).value;
      FromFuncs(fs, i + 1, f.1, q, size);
      var b := P.ParseBlock(fs, P.PS(fs[i].body, fs[i].params, data, 0), 0, Skip).value;
      WfSkip(q, size, P.Sizes(b.st.vars));
      WfBlock(fs, q, P.PS(fs[i].body, fs[i].params, data, 0), 0, Skip, b.st.vars, size);
      var p, tl := P.ParseFrom(fs, i, data).value.0, P.ParseFrom(fs, i + 1, f.1).value.0;
      assert forall j :: 1 <= j < |p| ==> p[j] == tl[j - 1] && fs[i + j] == fs[i + 1 + (j - 1)];
    }
  }

  lemma WfSkip(p: Program, size: nat, sizes: seq<Size>)
    ensures WfS(p, size, sizes, Skip, false)
  {
  }

  lemma {:induction false} FromSignatures(fs: seq<P.Decl>, i: nat, data: seq<byte>)
    requires |data| <= P.DATA_MAX && i <= |fs| && (forall d :: d in fs ==> |d.params| <= MAX_PARAMS)
      && P.ParseFrom(fs, i, data).Some?
    ensures var p := P.ParseFrom(fs, i, data).value.0; forall j :: 0 <= j < |p| ==> p[j].argc == |fs[i + j].params|
    decreases |fs| - i
  {
    hide P.ParseBlock;
    if i < |fs| {
      var f := P.ParseFunc(fs, fs[i], data).value;
      FromSignatures(fs, i + 1, f.1);
      var p, tl := P.ParseFrom(fs, i, data).value.0, P.ParseFrom(fs, i + 1, f.1).value.0;
      assert forall j :: 1 <= j < |p| ==> p[j] == tl[j - 1] && fs[i + j] == fs[i + 1 + (j - 1)];
    }
  }

  /** Every parsed program is well formed, and main is the function of that name. */
  lemma ParsedWf(fs: seq<P.Decl>)
    requires (forall d :: d in fs ==> |d.params| <= MAX_PARAMS) && P.ParseFrom(fs, 0, []).Some?
    ensures var (p, data) := P.ParseFrom(fs, 0, []).value;
            WfP(p, |data|) && forall i :: 0 <= i < |p| ==>
              p[i].isMain == (fs[i].name == "main") && p[i].argc == |fs[i].params|
  {
    hide WfF, P.ParseFrom;
    var (p, data) := P.ParseFrom(fs, 0, []).value;
    FromSignatures(fs, 0, []);
    assert forall j :: 0 <= j < |p| ==> fs[0 + j] == fs[j];
    FromFuncs(fs, 0, [], p, |data|);
  }

  /**
   A string literal becomes a reference to the end of the data so far, and whatever is parsed after it only
   appends: in the finished data section the literal and its terminating zero stand at the reference, unless
   the section was already too full to take them.
   */
  lemma LiteralStays(fs: seq<P.Decl>, ps: P.PS, bytes: seq<byte>, final: seq<byte>)
    requires |ps.data| <= P.DATA_MAX && |ps.toks| > 0 && ps.toks[0] == P.TStr(bytes) && |bytes| <= P.MAX_STRING
    requires P.ParseUnary(fs, ps).Some? ==> P.ParseUnary(fs, ps).value.st.data <= final
    ensures P.ParseUnary(fs, ps).Some? && P.ParseUnary(fs, ps).value.e == Data(|ps.data|)
    ensures |ps.data| + |bytes| + 1 <= P.DATA_MAX ==>
              |ps.data| + |bytes| < |final| && final[|ps.data|..|ps.data| + |bytes| + 1] == bytes + [0]
  {
    assert P.ParsePrimary(fs, ps).Some?;
    assert P.ParseUnary(fs, ps) == P.ParsePrimary(fs, ps);
    var st := P.ParseUnary(fs, ps).value.st;
    if |ps.data| + |bytes| + 1 <= P.DATA_MAX {
      assert st.data == ps.data + (bytes + [0]);
      assert final[..|st.data|] == st.data;
      assert final[|ps.data|..|ps.data| + |bytes| + 1] == st.data[|ps.data|..];
    }
  }
}
