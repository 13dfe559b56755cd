/**
 How much data a source can have: every byte of the data section is paid for by a character of the source that is
 read, and every literal by at least two more, so that a source that fits the compiler's source buffer has an image
 that fits its image buffer.
 */
module SourceSize {
  import opened Words
  import opened OreLang
  import opened Parser

  /** Characters that the compiler keeps of an expanded source. */
  const SOURCE_MAX: nat := 32767

  /** The fewest characters a token has: a literal has its quotes, and escapes only make it longer. */
  function Least(t: Tok): nat { if t.TStr? then |t.bytes| + 2 else 1 }

  function Chars(toks: seq<Tok>): nat {
    if toks == [] then 0 else Least(toks[0]) + Chars(toks[1..])
  }

  lemma CharsRest(ps: PS)
    requires |ps.toks| > 0
    ensures Chars(ps.toks) == Least(ps.toks[0]) + Chars(Rest(ps).toks) && Least(ps.toks[0]) >= 1
  {
  }

  /** 512 bytes of data for every 514 characters read, with some characters still owed. */
  predicate Paid(ps: PS, st: PS, owed: nat) {
    514 * (|st.data| - |ps.data|) <= 512 * (Chars(ps.toks) - Chars(st.toks) + owed)
  }

  // ----- expressions: one more character always follows -----

  lemma {:induction false} CostExpr(fs: seq<Decl>, ps: PS)
    requires |ps.data| <= DATA_MAX && ParseExpr(fs, ps).Some?
    ensures Paid(ps, ParseExpr(fs, ps).value.st, 1)
    decreases |ps.toks|, 9
  {
    hide CmpAt, ParseLevel, Chars;
    var a := ParseLevel(fs, ps, 0).value.st;
    CostLevel(fs, ps, 0);
    if CmpAt(a.toks).Some? {
      CmpPresent(a.toks);
      CharsRest(a);
      CostLevel(fs, Rest(a), 0);
    }
  }

  lemma CmpPresent(toks: seq<Tok>)
    requires CmpAt(toks).Some?
    ensures |toks| > 0
  {
  }

  lemma {:induction false} CostLevel(fs: seq<Decl>, ps: PS, level: nat)
    requires level <= 5 && |ps.data| <= DATA_MAX && ParseLevel(fs, ps, level).Some?
    ensures Paid(ps, ParseLevel(fs, ps, level).value.st, 1)
    decreases |ps.toks|, 8 - level
  {
    hide ParseLevel, ParseTail, ParseUnary, Chars;
    if level == 5 {
      LevelUnary(fs, ps);
      CostUnary(fs, ps);
    } else {
      LevelStart(fs, ps, level);
      var a := ParseLevel(fs, ps, level + 1).value;
      LevelProgress(fs, ps, level + 1);
      CostLevel(fs, ps, level + 1);
      CostTail(fs, a.st, level, a.e);
    }
  }

  lemma LevelProgress(fs: seq<Decl>, ps: PS, level: nat)
    requires level <= 5 && |ps.data| <= DATA_MAX && ParseLevel(fs, ps, level).Some?
    ensures Progress(ps, ParseLevel(fs, ps, level).value.st)
  {
  }

  lemma {:induction false} CostTail(fs: seq<Decl>, ps: PS, level: nat, lhs: Expr)
    requires level < 5 && |ps.data| <= DATA_MAX && ParseTail(fs, ps, level, lhs).Some?
    ensures Paid(ps, ParseTail(fs, ps, level, lhs).value.st, 0)
    decreases |ps.toks|, 0
  {
    hide ParseLevel, ParseTail, OpAt, Chars;
    TailStep(fs, ps, level, lhs);
    if OpAt(ps.toks, level).Some? {
      OpPresent(ps.toks, level);
      CharsRest(ps);
      var b := ParseLevel(fs, Rest(ps), level + 1).value;
      LevelProgress(fs, Rest(ps), level + 1);
      CostLevel(fs, Rest(ps), level + 1);
      CostTail(fs, b.st, level, Bin(OpAt(ps.toks, level).value, lhs, b.e));
    }
  }

  lemma OpPresent(toks: seq<Tok>, level: nat)
    requires OpAt(toks, level).Some?
    ensures |toks| > 0
  {
  }

  lemma {:induction false} CostUnary(fs: seq<Decl>, ps: PS)
    requires |ps.data| <= DATA_MAX && ParseUnary(fs, ps).Some?
    ensures Paid(ps, ParseUnary(fs, ps).value.st, 1)
    decreases |ps.toks|, 2
  {
    hide ParsePrimary, Chars;
    if UnAt(ps.toks).Some? {
      CharsRest(ps);
      CostUnary(fs, Rest(ps));
    } else {
      CostPrimary(fs, ps);
    }
  }

  lemma {:induction false} CostPrimary(fs: seq<Decl>, ps: PS)
    requires |ps.data| <= DATA_MAX && ParsePrimary(fs, ps).Some?
    ensures Paid(ps, ParsePrimary(fs, ps).value.st, 1)
    decreases |ps.toks|, 1
  {
    hide ParseExpr, ParseName, Chars;
    CharsRest(ps);
    match ps.toks[0]
    case TStr(bytes) =>
    case TNum(v) =>
    case TSym(sym) =>
      CostExpr(fs, Rest(ps));
      CharsRest(ParseExpr(fs, Rest(ps)).value.st);
    case TId(name) => CostName(fs, Rest(ps), name);
  }

  lemma {:induction false} CostName(fs: seq<Decl>, ps: PS, name: string)
    requires |ps.data| <= DATA_MAX && ParseName(fs, ps, name).Some?
    ensures Paid(ps, ParseName(fs, ps, name).value.st, 0)
    decreases |ps.toks|, 11
  {
    hide ParseArgs, FindFunc, FindVar, Chars;
    if name == "sizeof" || name == "alignof" {
      SizeofChars(ps);
    } else if IsSym(ps.toks, LParen) {
      CharsRest(ps);
      if IsSym(Rest(ps).toks, RParen) {
        CharsRest(Rest(ps));
      } else {
        CostArgs(fs, Rest(ps), NoArgs);
        ArgsEnd(fs, Rest(ps), NoArgs);
        CharsRest(ParseArgs(fs, Rest(ps), NoArgs).value.st);
      }
    }
  }

  lemma SizeofChars(ps: PS)
    ensures |ps.toks| >= 3 ==> Chars(ps.toks[3..]) <= Chars(ps.toks)
  {
    if |ps.toks| >= 3 {
      assert ps.toks[1..][1..] == ps.toks[2..] && ps.toks[2..][1..] == ps.toks[3..];
      CharsRest(ps);
      CharsRest(Rest(ps));
      CharsRest(Rest(Rest(ps)));
    }
  }

  lemma ArgsEnd(fs: seq<Decl>, ps: PS, acc: Args)
    requires |ps.data| <= DATA_MAX && ParseArgs(fs, ps, acc).Some?
    ensures IsSym(ParseArgs(fs, ps, acc).value.st.toks, RParen)
  {
  }

  lemma {:induction false} CostArgs(fs: seq<Decl>, ps: PS, acc: Args)
    requires |ps.data| <= DATA_MAX && ParseArgs(fs, ps, acc).Some?
    ensures Paid(ps, ParseArgs(fs, ps, acc).value.st, 1)
    decreases |ps.toks|, 10
  {
    hide ParseArgs, ParseExpr, Snoc, Chars;
    ArgsStep(fs, ps, acc);
    var a := ParseExpr(fs, ps).value;
    ExprProgress(fs, ps);
    CostExpr(fs, ps);
    if !IsSym(a.st.toks, RParen) {
      CharsRest(a.st);
      CostArgs(fs, Rest(a.st), Snoc(acc, a.e));
    }
  }

  lemma ExprProgress(fs: seq<Decl>, ps: PS)
    requires |ps.data| <= DATA_MAX && ParseExpr(fs, ps).Some?
    ensures Progress(ps, ParseExpr(fs, ps).value.st)
  {
  }

  // ----- statements: the character that follows is their own -----

  lemma CostThen(fs: seq<Decl>, ps: PS, s: Sym)
    requires |ps.data| <= DATA_MAX && ParseThen(fs, ps, s).Some?
    ensures Paid(ps, ParseThen(fs, ps, s).value.st, 0)
  {
    hide ParseExpr, Chars;
    CostExpr(fs, ps);
    CharsRest(ParseExpr(fs, ps).value.st);
  }

  lemma CostHead(fs: seq<Decl>, ps: PS)
    requires |ps.data| <= DATA_MAX && ParseHead(fs, ps).Some?
    ensures Paid(ps, ParseHead(fs, ps).value.st, 0)
  {
    hide ParseThen, Chars;
    CharsRest(ps);
    CostThen(fs, Rest(ps), RParen);
    CharsRest(ParseThen(fs, Rest(ps), RParen).value.st);
  }

  lemma CostLetName(ps: PS)
    requires |ps.vars| <= MAX_VARS && |ps.data| <= DATA_MAX && ParseLetName(ps).Some?
    ensures Paid(ps, ParseLetName(ps).value.1, 0)
  {
    hide Chars, FindVar;
    CharsRest(ps);
    if IsSym(Rest(ps).toks, Colon) {
      CharsRest(Rest(ps));
      CharsRest(Rest(Rest(ps)));
    }
  }

  lemma CostLet(fs: seq<Decl>, ps: PS)
    requires |ps.vars| <= MAX_VARS && |ps.data| <= DATA_MAX && ParseLet(fs, ps).Some?
    ensures Paid(ps, ParseLet(fs, ps).value.st, 0)
  {
    hide ParseThen, ParseLetName, Chars;
    CostLetName(ps);
    LetNameData(ps);
    var ps1 := ParseLetName(ps).value.1;
    CharsRest(ps1);
    if IsSym(ps1.toks, Equals) { CostThen(fs, Rest(ps1), Semi); }
  }

  lemma LetNameData(ps: PS)
    requires |ps.vars| <= MAX_VARS && |ps.data| <= DATA_MAX && ParseLetName(ps).Some?
    ensures ParseLetName(ps).value.1.data == ps.data
  {
  }

  lemma CostSimple(fs: seq<Decl>, ps: PS)
    requires IsId(ps.toks) && |ps.vars| <= MAX_VARS && |ps.data| <= DATA_MAX && ParseSimple(fs, ps).Some?
    ensures Paid(ps, ParseSimple(fs, ps).value.st, 0)
  {
    hide ParseThen, FindVar, Chars;
    if IsSym(ps.toks[1..], LParen) {
      CostThen(fs, ps, Semi);
    } else {
      CharsRest(ps);
      CharsRest(Rest(ps));
      CostThen(fs, Rest(Rest(ps)), Semi);
    }
  }

  lemma {:induction false} CostStmt(fs: seq<Decl>, ps: PS, depth: nat)
    requires |ps.vars| <= MAX_VARS && |ps.data| <= DATA_MAX && ParseStmt(fs, ps, depth).Some?
    ensures Paid(ps, ParseStmt(fs, ps, depth).value.st, 0)
    decreases |ps.toks|, 0
  {
    hide ParseBlock, ParseIf, ParseLet, ParseSimple, ParseHead, ParseThen, Chars;
    CharsRest(ps);
    if IsSym(ps.toks, LBrace) {
      CostBlock(fs, Rest(ps), depth, Skip);
    } else if IsWord(ps.toks, "unsafe") {
      CharsRest(Rest(ps));
      CostBlock(fs, Rest(Rest(ps)), depth, Skip);
    } else if IsWord(ps.toks, "let") {
      CostLet(fs, Rest(ps));
    } else if IsWord(ps.toks, "while") {
      CostWhile(fs, ps, depth);
    } else if IsWord(ps.toks, "break") {
      CharsRest(Rest(ps));
    } else if IsWord(ps.toks, "if") {
      CostIf(fs, Rest(ps), depth);
    } else if IsWord(ps.toks, "return") {
      CostThen(fs, Rest(ps), Semi);
    } else {
      CostSimple(fs, ps);
    }
  }

  lemma {:induction false} CostWhile(fs: seq<Decl>, ps: PS, depth: nat)
    requires |ps.vars| <= MAX_VARS && |ps.data| <= DATA_MAX && IsWord(ps.toks, "while")
      && ParseStmt(fs, ps, depth).Some?
    ensures Paid(ps, ParseStmt(fs, ps, depth).value.st, 0)
    decreases |Rest(ps).toks|, 3
  {
    hide ParseStmt, ParseBlock, ParseHead, Chars;
    WhileStep(fs, ps, depth);
    CharsRest(ps);
    HeadProgress(fs, Rest(ps));
    CostHead(fs, Rest(ps));
    CostBlock(fs, ParseHead(fs, Rest(ps)).value.st.(breaks := 0), depth + 1, Skip);
  }

  lemma HeadProgress(fs: seq<Decl>, ps: PS)
    requires |ps.data| <= DATA_MAX && ParseHead(fs, ps).Some?
    ensures Progress(ps, ParseHead(fs, ps).value.st)
  {
  }

  lemma {:induction false} CostIf(fs: seq<Decl>, ps: PS, depth: nat)
    requires |ps.vars| <= MAX_VARS && |ps.data| <= DATA_MAX && ParseIf(fs, ps, depth).Some?
    ensures Paid(ps, ParseIf(fs, ps, depth).value.st, 0)
    decreases |ps.toks|, 2
  {
    hide ParseIf, ParseBlock, ParseHead, Chars;
    IfStep(fs, ps, depth);
    HeadProgress(fs, ps);
    CostHead(fs, ps);
    var a := ParseHead(fs, ps).value.st;
    CostBlock(fs, a, depth, Skip);
    BlockShrinks(fs, a, depth, Skip);
    var t := ParseBlock(fs, a, depth, Skip).value.st;
    if IsWord(t.toks, "else") {
      CharsRest(t);
      CharsRest(Rest(t));
      CostBlock(fs, Rest(Rest(t)), depth, Skip);
    }
  }

  lemma BlockShrinks(fs: seq<Decl>, ps: PS, depth: nat, acc: Stmt)
    requires |ps.vars| <= MAX_VARS && |ps.data| <= DATA_MAX && ParseBlock(fs, ps, depth, acc).Some?
    ensures Shrinks(ps, ParseBlock(fs, ps, depth, acc).value.st)
  {
  }

  lemma {:induction false} CostBlock(fs: seq<Decl>, ps: PS, depth: nat, acc: Stmt)
    requires |ps.vars| <= MAX_VARS && |ps.data| <= DATA_MAX && ParseBlock(fs, ps, depth, acc).Some?
    ensures Paid(ps, ParseBlock(fs, ps, depth, acc).value.st, 0)
    decreases |ps.toks|, 1
  {
    hide ParseBlock, ParseStmt, Chars;
    BlockStep(fs, ps, depth, acc);
    CharsRest(ps);
    if !IsSym(ps.toks, RBrace) {
      var s := ParseStmt(fs, ps, depth).value;
      StmtShrinks(fs, ps, depth);
      CostStmt(fs, ps, depth);
      CostBlock(fs, s.st, depth, Seq(acc, s.s));
    }
  }

  lemma StmtShrinks(fs: seq<Decl>, ps: PS, depth: nat)
    requires |ps.vars| <= MAX_VARS && |ps.data| <= DATA_MAX && ParseStmt(fs, ps, depth).Some?
    ensures Shrinks(ps, ParseStmt(fs, ps, depth).value.st)
  {
  }

  // ----- sources -----

  /**
   The fewest characters that compiling functions i, i + 1, ... reads; what follows a body's last brace is not read.
   */
  function CharsRead(fs: seq<Decl>, i: nat, data: seq<byte>): int
    requires i <= |fs| && |data| <= DATA_MAX && (forall d :: d in fs ==> |d.params| <= MAX_PARAMS)
    decreases |fs| - i
  {
    if i == |fs| then 0
    else
      var b := ParseBlock(fs, PS(fs[i].body, fs[i].params, data, 0), 0, Skip);
      if b.None? then 0
      else Chars(fs[i].body) - Chars(b.value.st.toks) + CharsRead(fs, i + 1, b.value.st.data)
  }

  lemma {:induction false} CostFrom(fs: seq<Decl>, i: nat, data: seq<byte>)
    requires i <= |fs| && |data| <= DATA_MAX && (forall d :: d in fs ==> |d.params| <= MAX_PARAMS)
      && ParseFrom(fs, i, data).Some?
    ensures 514 * (|ParseFrom(fs, i, data).value.1| - |data|) <= 512 * CharsRead(fs, i, data)
    decreases |fs| - i
  {
    hide ParseBlock, Chars;
    if i < |fs| {
      var ps := PS(fs[i].body, fs[i].params, data, 0);
      CostBlock(fs, ps, 0, Skip);
      BlockShrinks(fs, ps, 0, Skip);
      CostFrom(fs, i + 1, ParseBlock(fs, ps, 0, Skip).value.st.data);
    }
  }

  /**
   What is read for all bodies together fits the source buffer, as it does when the bodies are separate parts of it.
   */
  predicate Separate(fs: seq<Decl>)
    requires forall d :: d in fs ==> |d.params| <= MAX_PARAMS
  {
    CharsRead(fs, 0, []) <= SOURCE_MAX
  }

  /** Then a program's data leaves room for the larger of the two headers, whatever the size of its text. */
  lemma DataFits(fs: seq<Decl>)
    requires (forall d :: d in fs ==> |d.params| <= MAX_PARAMS) && ParseFrom(fs, 0, []).Some? && Separate(fs)
    ensures |ParseFrom(fs, 0, []).value.1| <= 0x8000 - 120
  {
    hide ParseFrom, CharsRead;
    CostFrom(fs, 0, []);
  }
}
