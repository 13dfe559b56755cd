/**
 The single-pass compiler: it reads tokens, emits bytes into a fixed buffer and patches forward
 references afterwards.  Every method is proved against the grammar (Parser) and the code of the
 parsed construct (Codegen, through Emission).
 */
module Compiler {
  import opened Words
  import opened X86
  import opened OreLang
  import opened Codegen
  import opened Relink
  import opened Parser
  import opened Emission
  import opened EmissionS
  import opened EmissionP
  import opened Image
  import Kmod

  class Orec {
    const fs: seq<Decl>
    const text: array<byte>
    var textLen: nat
    var data: seq<byte>
    var calls: seq<Site>
    var refs: seq<Site>
    var loops: seq<seq<Site>>
    var vars: seq<Variable>
    var addrs: seq<nat>
    var isMain: bool
    var safe: bool

    ghost predicate Valid()
      reads this
    {
      && text.Length == TEXT_MAX && textLen <= TEXT_MAX && |data| <= DATA_MAX
      && |calls| <= MAX_CALLS && |refs| <= MAX_DATA_REFS && |vars| <= MAX_VARS && |loops| <= MAX_LOOP_DEPTH
      && (forall d :: d in fs ==> |d.params| <= MAX_PARAMS)
      && (forall i :: 0 <= i < |addrs| ==> addrs[i] <= TEXT_MAX)
    }

    ghost function Text(): seq<byte>
      requires textLen <= text.Length
      reads this, text
    {
      text[..textLen]
    }

    /** The breaks of the innermost loop. */
    ghost function Breaks(): seq<Site>
      reads this
    {
      if loops == [] then [] else loops[|loops| - 1]
    }

    ghost function Now(): Out
      requires textLen <= text.Length
      reads this, text
    {
      Out(Text(), calls, refs, Breaks(), safe)
    }

    /** The parser's view of the tables. */
    ghost function State(toks: seq<Tok>): PS
      reads this
    {
      PS(toks, vars, data, |Breaks()|)
    }

    constructor (fs: seq<Decl>)
      requires forall d :: d in fs ==> |d.params| <= MAX_PARAMS
      ensures Valid() && fresh(text) && this.fs == fs && Now() == Out([], [], [], [], true) && data == []
        && loops == [] && addrs == []
    {
      this.fs := fs;
      text := new byte[TEXT_MAX](_ => 0);
      textLen, data, calls, refs, loops, vars, addrs, isMain, safe := 0, [], [], [], [], [], [], false, true;
    }

    // ----- the buffer -----

    method Emit8(b: byte)
      requires Valid()
      modifies this`textLen, text
      ensures Valid() && Text() == (if old(textLen) < TEXT_MAX then old(Text()) + [b] else old(Text()))
    {
      if textLen < TEXT_MAX {
        text[textLen] := b;
        textLen := textLen + 1;
      }
    }

    method Emit(bytes: seq<byte>)
      requires Valid()
      modifies this`textLen, text
      ensures Valid() && AddsBytes(old(Now()), Now(), bytes)
      ensures textLen == if old(textLen) + |bytes| <= TEXT_MAX then old(textLen) + |bytes| else TEXT_MAX
    {
      ghost var was := Text();
      for i := 0 to |bytes|
        invariant Valid()
        invariant textLen == if old(textLen) + i <= TEXT_MAX then old(textLen) + i else TEXT_MAX
        invariant old(textLen) + i <= TEXT_MAX ==> Text() == was + bytes[..i]
      {
        Emit8(bytes[i]);
        assert bytes[..i + 1] == bytes[..i] + [bytes[i]];
        assert was + bytes[..i] + [bytes[i]] == was + bytes[..i + 1];
      }
      assert bytes[..|bytes|] == bytes;
    }

    method EmitAsm(a: Asm)
      requires Valid()
      modifies this`textLen, text
      ensures Valid() && AddsBytes(old(Now()), Now(), Bytes(a))
      decreases a
    {
      match a
      case End => PlusEmpty(Now());
      case Then(i, tl) =>
        ghost var o := Now();
        Emit(Encode(i));
        ghost var o1 := Now();
        EmitAsm(tl);
        AddsTwice(o, o1, Now(), OfBytes(Encode(i)), OfBytes(Bytes(tl)), OfBytes(Bytes(a)));
    }

    /**
     Overwrite four bytes. The source does not look at the end of the buffer; safe falls when a byte would lie
     behind it, and nothing is written then.
     */
    method Patch32(at: nat, v: int)
      requires Valid()
      modifies this`safe, text
      ensures Valid() && Patched(old(Now()), Now(), at, v)
    {
      if at + 4 <= TEXT_MAX {
        var b := Le(v, 4);
        text[at], text[at + 1], text[at + 2], text[at + 3] := b[0], b[1], b[2], b[3];
        if at + 4 <= textLen {
          assert Text() == Write32(old(Text()), at, v);
        }
      } else {
        safe := false;
      }
    }

    /** Fill in a whole table of fields. */
    method PatchTable(sites: seq<Site>, kind: Kind, c: Ctx)
      requires Valid()
      modifies this`safe, text
      ensures Valid()
      ensures Inside(sites, 0, old(textLen)) ==> safe == old(safe)
      ensures Inside(sites, 0, old(textLen)) ==> Text() == PatchSites(old(Text()), 0, sites, kind, c)
    {
      hide PatchSites, Inside, Target;
      var i := 0;
      ghost var was := Text();
      assert sites[0..] == sites;
      while i < |sites|
        invariant 0 <= i <= |sites| && Valid()
        invariant Inside(sites, 0, textLen) ==> safe == old(safe)
        invariant Inside(sites, 0, textLen) ==>
                    Inside(sites[i..], 0, textLen)
                    && PatchSites(Text(), 0, sites[i..], kind, c) == PatchSites(was, 0, sites, kind, c)
      {
        assert sites[i..][0] == sites[i] && sites[i..][1..] == sites[i + 1..];
        ghost var t := Text();
        Patch32(sites[i].patch, Target(kind, sites[i], c));
        if Inside(sites, 0, textLen) { TableStep(t, sites[i..], kind, c); }
        i := i + 1;
      }
      TableEnd(Text(), kind, c);
    }

    // ----- expressions -----

    method CompileExpr(toks: seq<Tok>) returns (ok: bool, rest: seq<Tok>)
      requires Valid()
      modifies this`textLen, this`data, this`calls, this`refs, text
      ensures Valid() && DoneE(old(Now()), Now(), data, ok, rest, ParseExpr(fs, old(State(toks))))
      decreases |toks|, 9
    {
      hide AddsE, CmpAt, ParseLevel;
      ghost var o, ps := Now(), State(toks);
      ok, rest := CompileLevel(toks, 0);
      if !ok { return; }
      var op := CmpAt(rest);
      if op.None? { return; }
      ok, rest := CompileRhs(rest, 0, op.value, o, ParseLevel(fs, ps, 0).value.e);
    }

    /** The operator at the head of toks and its right operand, whose left operand lhs has been compiled. */
    method CompileRhs(toks: seq<Tok>, level: nat, op: BinOp, ghost o: Out, ghost lhs: Expr)
        returns (ok: bool, rest: seq<Tok>)
      requires Valid() && |toks| > 0 && level <= 5 && AddsE(o, Now(), lhs)
      modifies this`textLen, this`data, this`calls, this`refs, text
      ensures Valid()
      ensures var r := ParseLevel(fs, Rest(old(State(toks))), level);
              ok == r.Some?
              && (ok ==> rest == r.value.st.toks && data == r.value.st.data && AddsE(o, Now(), Bin(op, lhs, r.value.e)))
      decreases |toks|, 0
    {
      hide AddsE, AddsBytes, Encode, Bytes, BinAsm, ParseLevel;
      ghost var o1, st := Now(), State(toks);
      Emit(Encode(Push(RAX)));
      ghost var o2 := Now();
      ok, rest := CompileLevel(toks[1..], level);
      if !ok { return; }
      ghost var o3 := Now();
      EmitAsm(BinAsm(op));
      AddsBin(o, o1, o2, o3, Now(), op, lhs, ParseLevel(fs, Rest(st), level).value.e);
    }

    method CompileLevel(toks: seq<Tok>, level: nat) returns (ok: bool, rest: seq<Tok>)
      requires Valid() && level <= 5
      modifies this`textLen, this`data, this`calls, this`refs, text
      ensures Valid() && DoneE(old(Now()), Now(), data, ok, rest, ParseLevel(fs, old(State(toks)), level))
      decreases |toks|, 8 - level
    {
      hide AddsE, ParseLevel, ParseTail, ParseUnary;
      if level == 5 {
        LevelUnary(fs, State(toks));
        ok, rest := CompileUnary(toks);
        return;
      }
      ghost var o, ps := Now(), State(toks);
      LevelStart(fs, ps, level);
      ok, rest := CompileLevel(toks, level + 1);
      if !ok { return; }
      ok, rest := CompileTail(rest, level, o, ParseLevel(fs, ps, level + 1).value.e);
    }

    method CompileTail(toks: seq<Tok>, level: nat, ghost o: Out, ghost first: Expr) returns (ok: bool, rest: seq<Tok>)
      requires Valid() && level < 5 && AddsE(o, Now(), first)
      modifies this`textLen, this`data, this`calls, this`refs, text
      ensures Valid() && DoneE(o, Now(), data, ok, rest, ParseTail(fs, old(State(toks)), level, first))
      decreases |toks|, 1
    {
      hide AddsE, OpAt, ParseLevel, ParseTail;
      ghost var ps, lhs := State(toks), first;
      ok, rest := true, toks;
      while OpAt(rest, level).Some?
        invariant Valid() && |rest| <= |toks| && ok
        invariant ParseTail(fs, ps, level, first) == ParseTail(fs, State(rest), level, lhs)
        invariant AddsE(o, Now(), lhs)
        decreases |rest|
      {
        var op := OpAt(rest, level).value;
        ghost var st := State(rest);
        TailStep(fs, st, level, lhs);
        ok, rest := CompileRhs(rest, level + 1, op, o, lhs);
        if !ok { return; }
        lhs := Bin(op, lhs, ParseLevel(fs, Rest(st), level + 1).value.e);
      }
      TailStep(fs, State(rest), level, lhs);
    }

    method CompileUnary(toks: seq<Tok>) returns (ok: bool, rest: seq<Tok>)
      requires Valid()
      modifies this`textLen, this`data, this`calls, this`refs, text
      ensures Valid() && DoneE(old(Now()), Now(), data, ok, rest, ParseUnary(fs, old(State(toks))))
      decreases |toks|, 2
    {
      var op := UnAt(toks);
      if op.None? {
        ok, rest := CompilePrimary(toks);
        return;
      }
      ghost var o, ps := Now(), State(toks);
      ok, rest := CompileUnary(toks[1..]);
      if !ok { return; }
      ghost var o1 := Now();
      EmitAsm(UnAsm(op.value));
      AddsUn(o, o1, Now(), op.value, ParseUnary(fs, Rest(ps)).value.e);
    }

    method CompilePrimary(toks: seq<Tok>) returns (ok: bool, rest: seq<Tok>)
      requires Valid()
      modifies this`textLen, this`data, this`calls, this`refs, text
      ensures Valid() && DoneE(old(Now()), Now(), data, ok, rest, ParsePrimary(fs, old(State(toks))))
      decreases |toks|, 1
    {
      if |toks| == 0 { return false, toks; }
      rest := toks[1..];
      match toks[0]
      case TStr(bytes) =>
        ok := |bytes| <= MAX_STRING;
        if ok { EmitString(bytes); }
      case TNum(v) =>
        ok := true;
        Emit(Encode(MovImm(RAX, v)));
      case TSym(sym) =>
        if !sym.LParen? { return false, toks; }
        ok, rest := CompileExpr(rest);
        if !ok { return; }
        ok := IsSym(rest, RParen);
        if ok { rest := rest[1..]; }
      case TId(name) =>
        ok, rest := CompileName(rest, name);
    }

    /** An unresolved field, remembered in its table while the table has room. */
    method EmitCallField(fn: nat)
      requires Valid()
      modifies this`textLen, this`calls, text
      ensures Valid() && Adds(old(Now()), Now(), Out(Le(0, 4), [Site(old(textLen), fn)], [], [], true))
    {
      var patch := textLen;
      Emit(Le(0, 4));
      if |calls| < MAX_CALLS { calls := calls + [Site(patch, fn)]; }
    }

    method EmitDataField(off: nat)
      requires Valid()
      modifies this`textLen, this`refs, text
      ensures Valid() && Adds(old(Now()), Now(), Out(Le(0, 4), [], [Site(old(textLen), off)], [], true))
    {
      var patch := textLen;
      Emit(Le(0, 4));
      if |refs| < MAX_DATA_REFS { refs := refs + [Site(patch, off)]; }
    }

    /** lea rax, [rip + disp32] of a fresh literal. */
    method EmitString(bytes: seq<byte>)
      requires Valid()
      modifies this`textLen, this`data, this`refs, text
      ensures Valid() && data == AddData(old(data), bytes + [0]) && AddsE(old(Now()), Now(), Data(|old(data)|))
    {
      ghost var o := Now();
      var off := |data|;
      data := AddData(data, bytes + [0]);
      Emit([0x48, 0x8D, 0x05]);
      ghost var o1 := Now();
      EmitDataField(off);
      AddsData(o, o1, Now(), off);
    }

    method CompileName(toks: seq<Tok>, name: string) returns (ok: bool, rest: seq<Tok>)
      requires Valid()
      modifies this`textLen, this`data, this`calls, this`refs, text
      ensures Valid() && DoneE(old(Now()), Now(), data, ok, rest, ParseName(fs, old(State(toks)), name))
      decreases |toks|, 11
    {
      rest := toks;
      if name == "sizeof" || name == "alignof" {
        ghost var r := ParseSizeof(State(toks), name == "alignof");
        ok := |toks| >= 3 && toks[0] == TSym(LParen) && toks[1].TId? && toks[2] == TSym(RParen)
          && TypeOf(toks[1].name).Some?;
        if !ok { return; }
        var size := TypeOf(toks[1].name).value.1;
        Emit(Encode(MovImm(RAX, if name == "alignof" && size == 0 then 1 else size)));
        rest := toks[3..];
      } else if name == "offsetof" {
        ok := false;
      } else if IsSym(toks, LParen) {
        ok, rest := CompileCall(toks, name);
      } else if IsSym(toks, Other) {
        ok := false;
      } else {
        var v := FindVar(vars, name);
        ok := v.Some?;
        if ok { Emit(Encode(LoadVar(v.value, vars[v.value].size))); }
      }
    }

    method CompileCall(toks: seq<Tok>, name: string) returns (ok: bool, rest: seq<Tok>)
      requires Valid() && IsSym(toks, LParen) && name != "sizeof" && name != "alignof" && name != "offsetof"
      modifies this`textLen, this`data, this`calls, this`refs, text
      ensures Valid() && DoneE(old(Now()), Now(), data, ok, rest, ParseName(fs, old(State(toks)), name))
      decreases |toks|, 10
    {
      hide AddsE, AddsBytes, Encode, Bytes, PopArgs, Within, ParseArgs, AddsA, FindFunc;
      rest := toks;
      var fn := FindFunc(fs, name);
      if fn.None? { return false, toks; }
      ghost var o, ps := Now(), State(toks);
      ghost var args;
      var argc;
      ok, rest, argc, args := CompileArgs(toks[1..]);
      if !ok { return; }
      ok := argc == |fs[fn.value].params|;
      if !ok { return; }
      rest := rest[1..];
      ghost var o1 := Now();
      EmitAsm(PopArgs(argc));
      ghost var o2 := Now();
      Emit([0xE8]);
      ghost var o3 := Now();
      EmitCallField(fn.value);
      AddsCall(o, o1, o2, o3, Now(), fn.value, args);
    }

    /** Arguments up to the closing parenthesis, each pushed as it is computed. */
    method CompileArgs(toks: seq<Tok>) returns (ok: bool, rest: seq<Tok>, argc: nat, ghost args: Args)
      requires Valid()
      modifies this`textLen, this`data, this`calls, this`refs, text
      ensures Valid()
      ensures var st := old(State(toks));
              var r := if IsSym(toks, RParen) then Some(PA(NoArgs, st)) else ParseArgs(fs, st, NoArgs);
              ok == r.Some?
              && (ok ==> rest == r.value.st.toks && IsSym(rest,
                 RParen) && data == r.value.st.data && args == r.value.args
                         && argc == ArgCount(args) && AddsA(old(Now()), Now(), args))
      decreases |toks|, 12
    {
      hide AddsE, AddsBytes, AddsA, Encode, ParseExpr, ParseArgs, Snoc;
      rest, argc, args, ok := toks, 0, NoArgs, true;
      ghost var o, ps := Now(), State(toks);
      AddsNoArgs(o);
      if IsSym(toks, RParen) { return; }
      var more := true;
      while more
        invariant Valid() && |rest| <= |toks| && argc == ArgCount(args) && AddsA(o, Now(), args) && ok
        invariant more ==> ParseArgs(fs, ps, NoArgs) == ParseArgs(fs, State(rest), args)
        invariant !more ==> ParseArgs(fs, ps, NoArgs) == Some(PA(args, State(rest))) && IsSym(rest, RParen)
        decreases more, |rest|
      {
        ghost var o1, st := Now(), State(rest);
        ArgsStep(fs, st, args);
        if argc >= MAX_PARAMS { ok := false; return; }
        ok, rest := CompileExpr(rest);
        if !ok { return; }
        ghost var e := ParseExpr(fs, st).value.e;
        ghost var o2 := Now();
        Emit(Encode(Push(RAX)));
        AddsSnoc(o, o1, o2, Now(), args, e);
        SnocCount(args, e);
        args, argc := Snoc(args, e), argc + 1;
        if IsSym(rest, RParen) {
          more := false;
        } else if IsSym(rest, Comma) {
          rest := rest[1..];
        } else {
          ok := false;
          return;
        }
      }
    }

    // ----- statements -----

    /** An expression followed by a given symbol. */
    method CompileThen(toks: seq<Tok>, s: Sym) returns (ok: bool, rest: seq<Tok>)
      requires Valid()
      modifies this`textLen, this`data, this`calls, this`refs, text
      ensures Valid() && DoneE(old(Now()), Now(), data, ok, rest, ParseThen(fs, old(State(toks)), s))
    {
      hide AddsE, ParseExpr;
      ok, rest := CompileExpr(toks);
      if !ok { return; }
      ok := IsSym(rest, s);
      if ok { rest := rest[1..]; }
    }

    method CompileHead(toks: seq<Tok>) returns (ok: bool, rest: seq<Tok>)
      requires Valid()
      modifies this`textLen, this`data, this`calls, this`refs, text
      ensures Valid() && DoneE(old(Now()), Now(), data, ok, rest, ParseHead(fs, old(State(toks))))
    {
      hide AddsE, ParseThen;
      if !IsSym(toks, LParen) { return false, toks; }
      ok, rest := CompileThen(toks[1..], RParen);
      if !ok { return; }
      ok := IsSym(rest, LBrace);
      if ok { rest := rest[1..]; }
    }

    method CompileBlock(toks: seq<Tok>) returns (ok: bool, rest: seq<Tok>)
      requires Valid()
      modifies this`textLen, this`data, this`calls, this`refs, this`vars, this`loops, this`safe, text
      ensures Valid()
      ensures DoneS(old(Now()), Now(), isMain, vars, data, ok, rest,
        ParseBlock(fs, old(State(toks)), |old(loops)|, Skip))
      ensures ok ==> SameLoops(old(loops), loops)
      decreases |toks|, 2
    {
      hide AddsS, ParseBlock, ParseStmt;
      ghost var o, ps, depth := Now(), State(toks), |loops|;
      ghost var acc := Skip;
      AddsSkip(o, isMain);
      rest := toks;
      while |rest| > 0 && !IsSym(rest, RBrace)
        invariant Valid() && |rest| <= |toks| && SameLoops(old(loops), loops)
        invariant ParseBlock(fs, ps, depth, Skip) == ParseBlock(fs, State(rest), depth, acc)
        invariant AddsS(o, Now(), acc, isMain)
        decreases |rest|
      {
        ghost var o1, st := Now(), State(rest);
        BlockStep(fs, st, depth, acc);
        ok, rest := CompileStmt(rest);
        if !ok { return; }
        ghost var s := ParseStmt(fs, st, depth).value.s;
        AddsSeq(o, o1, Now(), acc, s, isMain);
        acc := Seq(acc, s);
      }
      BlockStep(fs, State(rest), depth, acc);
      ok := |rest| > 0;
      if ok { rest := rest[1..]; }
    }

    method CompileStmt(toks: seq<Tok>) returns (ok: bool, rest: seq<Tok>)
      requires Valid() && |toks| > 0
      modifies this`textLen, this`data, this`calls, this`refs, this`vars, this`loops, this`safe, text
      ensures Valid()
      ensures DoneS(old(Now()), Now(), isMain, vars, data, ok, rest, ParseStmt(fs, old(State(toks)), |old(loops)|))
      ensures ok ==> SameLoops(old(loops), loops)
      decreases |toks|, 1
    {
      hide AddsS, ParseBlock, ParseIf, ParseLet, ParseSimple, ParseHead, ParseThen;
      ok, rest := false, toks;
      if IsSym(toks, LBrace) {
        ok, rest := CompileBlock(toks[1..]);
      } else if !IsId(toks) {
      } else if IsWord(toks, "unsafe") {
        if IsSym(toks[1..], LBrace) { ok, rest := CompileBlock(toks[2..]); }
      } else if IsWord(toks, "let") {
        ok, rest := CompileLet(toks[1..]);
      } else if IsWord(toks, "while") {
        ok, rest := CompileWhile(toks);
      } else if IsWord(toks, "break") {
        if IsSym(toks[1..], Semi) && loops != [] && |loops[|loops| - 1]| < MAX_BREAKS_PER_LOOP {
          ok, rest := true, toks[2..];
          EmitBreak();
        }
      } else if IsWord(toks, "if") {
        ok, rest := CompileIf(toks[1..]);
      } else if IsWord(toks, "return") {
        ok, rest := CompileReturn(toks[1..]);
      } else if IsWord(toks, "print") || IsWord(toks, "puti") {
      } else {
        ok, rest := CompileSimple(toks);
      }
    }

    method EmitBreak()
      requires Valid() && loops != []
      modifies this`textLen, this`loops, text
      ensures Valid() && AddsS(old(Now()), Now(), Break, isMain) && SameLoops(old(loops), loops)
      ensures |Breaks()| == |old(Breaks())| + 1
    {
      ghost var o := Now();
      Emit([0xE9]);
      ghost var o1 := Now();
      EmitBreakField();
      AddsBreak(o, o1, Now(), isMain);
    }

    method EmitBreakField()
      requires Valid() && loops != []
      modifies this`textLen, this`loops, text
      ensures Valid() && Adds(old(Now()), Now(), Out(Le(0, 4), [], [], [Site(old(textLen), 0)], true))
      ensures SameLoops(old(loops), loops) && |Breaks()| == |old(Breaks())| + 1
    {
      var patch, top := textLen, |loops| - 1;
      Emit(Le(0, 4));
      loops := loops[..top] + [loops[top] + [Site(patch, 0)]];
    }

    method CompileReturn(toks: seq<Tok>) returns (ok: bool, rest: seq<Tok>)
      requires Valid()
      modifies this`textLen, this`data, this`calls, this`refs, text
      ensures Valid()
      ensures var r := ParseThen(fs, old(State(toks)), Semi);
              ok == r.Some? && (ok ==> rest == r.value.st.toks && data == r.value.st.data
                                       && AddsS(old(Now()), Now(), Return(r.value.e), isMain))
    {
      hide AddsE, AddsS, AddsBytes, ParseThen, Bytes, ReturnRax;
      ghost var o, ps := Now(), State(toks);
      ok, rest := CompileThen(toks, Semi);
      if !ok { return; }
      ghost var o1, e := Now(), ParseThen(fs, ps, Semi).value.e;
      EmitAsm(ReturnRax(isMain));
      AddsAfterE(o, o1, Now(), e, Bytes(ReturnRax(isMain)), Return(e), isMain);
    }

    /** An expression stored in a variable. */
    method CompileStore(toks: seq<Tok>, slot: nat) returns (ok: bool, rest: seq<Tok>)
      requires Valid() && slot < |vars|
      modifies this`textLen, this`data, this`calls, this`refs, text
      ensures Valid()
      ensures var r := ParseThen(fs, old(State(toks)), Semi);
              ok == r.Some? && (ok ==> rest == r.value.st.toks && data == r.value.st.data
                                       && AddsS(old(Now()), Now(), Assign(slot, vars[slot].size, r.value.e), isMain))
    {
      hide AddsE, AddsS, AddsBytes, ParseThen, Encode, StoreVar;
      ghost var o, ps := Now(), State(toks);
      ok, rest := CompileThen(toks, Semi);
      if !ok { return; }
      ghost var o1, e := Now(), ParseThen(fs, ps, Semi).value.e;
      Emit(Encode(StoreVar(slot, vars[slot].size)));
      AddsAfterE(o, o1, Now(), e, Encode(StoreVar(slot, vars[slot].size)), Assign(slot, vars[slot].size, e), isMain);
    }

    method CompileSimple(toks: seq<Tok>) returns (ok: bool, rest: seq<Tok>)
      requires Valid() && IsId(toks)
      modifies this`textLen, this`data, this`calls, this`refs, text
      ensures Valid()
      ensures DoneS(old(Now()), Now(), isMain, vars, data, ok, rest, ParseSimple(fs, old(State(toks))))
    {
      hide AddsE, AddsS, AddsBytes, ParseThen;
      ghost var o, ps := Now(), State(toks);
      if IsSym(toks[1..], LParen) {
        ok, rest := CompileThen(toks, Semi);
        if !ok { return; }
        ghost var e := ParseThen(fs, ps, Semi).value.e;
        AddsNothing(Now());
        AddsAfterE(o, Now(), Now(), e, [], Do(e), isMain);
      } else {
        var v := FindVar(vars, toks[0].name);
        ok, rest := v.Some? && IsSym(toks[1..], Equals), toks;
        if !ok { return; }
        ok, rest := CompileStore(toks[2..], v.value);
      }
    }

    /** Look the variable up or declare it. */
    method DeclareVar(toks: seq<Tok>) returns (ok: bool, rest: seq<Tok>, slot: nat)
      requires Valid()
      modifies this`vars
      ensures Valid()
      ensures var r := ParseLetName(old(State(toks)));
              ok == r.Some? && (ok ==> slot == r.value.0 && State(rest) == r.value.1)
    {
      ok, rest, slot := false, toks, 0;
      if !IsId(toks) { return; }
      var name, size := toks[0].name, B8;
      rest := toks[1..];
      if IsSym(rest, Colon) {
        if !IsId(rest[1..]) || TypeOf(rest[1].name).None? { return; }
        size := TypeOf(rest[1].name).value.0;
        rest := rest[2..];
        assert toks[1..][1..][1..] == rest;
      }
      var v := FindVar(vars, name);
      if v.Some? {
        ok, slot := true, v.value;
      } else if |vars| < MAX_VARS {
        ok, slot := true, |vars|;
        vars := vars + [Variable(name, size)];
      }
    }

    method CompileLet(toks: seq<Tok>) returns (ok: bool, rest: seq<Tok>)
      requires Valid()
      modifies this`textLen, this`data, this`calls, this`refs, this`vars, text
      ensures Valid()
      ensures DoneS(old(Now()), Now(), isMain, vars, data, ok, rest, ParseLet(fs, old(State(toks))))
    {
      hide AddsS, AddsBytes, ParseThen, ParseLetName, Encode;
      ghost var o := Now();
      var slot;
      ok, rest, slot := DeclareVar(toks);
      if !ok { return; }
      if IsSym(rest, Equals) {
        ok, rest := CompileStore(rest[1..], slot);
      } else {
        ok := IsSym(rest, Semi);
        if !ok { return; }
        Emit(Encode(MovImm(RAX, 0)));
        ghost var o1 := Now();
        Emit(Encode(Store(RAX, SlotDisp(slot))));
        AddsZero(o, o1, Now(), slot, isMain);
        rest := rest[1..];
      }
    }

    /** cmp rax, 0; je with an unresolved field. */
    method EmitTest() returns (je: nat)
      requires Valid()
      modifies this`textLen, text
      ensures Valid() && AddsBytes(old(Now()), Now(), TestCode(0))
        && (textLen == old(textLen) + 10 ==> je == old(textLen) + 6)
    {
      ghost var o := Now();
      Emit(Encode(CmpRaxZero));
      ghost var o1 := Now();
      Emit([0x0F, 0x84]);
      ghost var o2 := Now();
      je := textLen;
      Emit(Le(0, 4));
      TestBytes(0);
      AddsTwice(o, o1, o2, OfBytes(Encode(CmpRaxZero)), OfBytes([0x0F, 0x84]),
        OfBytes(Encode(CmpRaxZero) + [0x0F, 0x84]));
      AddsTwice(o, o2, Now(), OfBytes(Encode(CmpRaxZero) + [0x0F, 0x84]), OfBytes(Le(0, 4)), OfBytes(TestCode(0)));
    }

    /** jmp with an unresolved field. */
    method EmitJump() returns (jend: nat)
      requires Valid()
      modifies this`textLen, text
      ensures Valid() && AddsBytes(old(Now()), Now(), JmpCode(0))
        && (textLen == old(textLen) + 5 ==> jend == old(textLen) + 1)
    {
      ghost var o := Now();
      Emit([0xE9]);
      ghost var o1 := Now();
      jend := textLen;
      Emit(Le(0, 4));
      JmpBytes(0);
      AddsTwice(o, o1, Now(), OfBytes([0xE9]), OfBytes(Le(0, 4)), OfBytes(JmpCode(0)));
    }

    method CompileIf(toks: seq<Tok>) returns (ok: bool, rest: seq<Tok>)
      requires Valid()
      modifies this`textLen, this`data, this`calls, this`refs, this`vars, this`loops, this`safe, text
      ensures Valid()
      ensures DoneS(old(Now()), Now(), isMain, vars, data, ok, rest, ParseIf(fs, old(State(toks)), |old(loops)|))
      ensures ok ==> SameLoops(old(loops), loops)
      decreases |toks|, 2
    {
      hide AddsE, AddsS, AddsBytes, ParseHead, ParseBlock, TestCode, JmpCode, Patched, ParseIf, IsWord, IsSym;
      IfStep(fs, State(toks), |loops|);
      ghost var o, ps, depth := Now(), State(toks), |loops|;
      ok, rest := CompileHead(toks);
      if !ok { return; }
      ghost var e := ParseHead(fs, ps).value;
      ghost var o1 := Now();
      var je := EmitTest();
      ghost var o2 := Now();
      ok, rest := CompileBlock(rest);
      if !ok { return; }
      ghost var t := ParseBlock(fs, e.st, depth, Skip).value;
      if IsWord(rest, "else") {
        ok, rest := CompileElse(rest, je, o, o1, o2, e.e, t.s);
      } else {
        CloseIf(je, o, o1, o2, e.e, t.s);
      }
    }

    /** No second branch: the test goes to the end of the first. */
    method CloseIf(je: nat, ghost o: Out, ghost o1: Out, ghost o2: Out, ghost e: Expr, ghost t: Stmt)
      requires Valid()
      requires AddsE(o, o1, e) && AddsBytes(o1, o2, TestCode(0))
        && (|o2.text| == |o1.text| + 10 ==> je == |o1.text| + 6)
      requires AddsS(o2, Now(), t, isMain)
      modifies this`safe, text
      ensures Valid() && AddsS(o, Now(), If(e, t), isMain)
    {
      hide AddsE, AddsS, AddsBytes, TestCode, Patched;
      ghost var o3 := Now();
      Patch32(je, textLen - (je + 4));
      PatchedBreaks(o3, Now(), je, |o3.text| - (je + 4));
      AddsIf(o, o1, o2, o3, Now(), je, e, t, isMain);
    }

    /** The jump behind the first branch; the test now goes behind it. */
    method JumpOver(je: nat) returns (jend: nat, ghost o4: Out)
      requires Valid()
      modifies this`textLen, this`safe, text
      ensures Valid() && AddsBytes(old(Now()), o4, JmpCode(0))
        && (textLen == old(textLen) + 5 ==> jend == old(textLen) + 1)
      ensures |o4.text| == textLen && Patched(o4, Now(), je, textLen - (je + 4))
    {
      hide AddsBytes, JmpCode, Patched;
      jend := EmitJump();
      o4 := Now();
      Patch32(je, textLen - (je + 4));
      PatchedBreaks(o4, Now(), je, |o4.text| - (je + 4));
    }

    method CompileElse(toks: seq<Tok>, je: nat, ghost o: Out, ghost o1: Out, ghost o2: Out, ghost e: Expr,
        ghost t: Stmt)
      returns (ok: bool, rest: seq<Tok>)
      requires Valid() && IsWord(toks, "else")
      requires AddsE(o, o1, e) && AddsBytes(o1, o2, TestCode(0))
        && (|o2.text| == |o1.text| + 10 ==> je == |o1.text| + 6)
      requires AddsS(o2, Now(), t, isMain)
      modifies this`textLen, this`data, this`calls, this`refs, this`vars, this`loops, this`safe, text
      ensures Valid()
      ensures var st := old(State(toks));
              var r := if IsSym(toks[1..], LBrace) then ParseBlock(fs, Rest(Rest(st)), |old(loops)|, Skip) else None;
              ok == r.Some?
              && (ok ==> State(rest) == r.value.st && SameLoops(old(loops), loops) && AddsS(o, Now(),
                 IfElse(e, t, r.value.s), isMain))
      decreases |toks|, 2
    {
      hide AddsE, AddsS, AddsBytes, ParseBlock, TestCode, JmpCode, Patched;
      ghost var st, depth, o3 := State(toks), |loops|, Now();
      var jend; ghost var o4;
      jend, o4 := JumpOver(je);
      ghost var o5 := Now();
      ok, rest := IsSym(toks[1..], LBrace), toks;
      if !ok { return; }
      ok, rest := CompileBlock(toks[2..]);
      assert toks[2..] == toks[1..][1..];
      if !ok { return; }
      ghost var o6, f := Now(), ParseBlock(fs, Rest(Rest(st)), depth, Skip).value.s;
      Patch32(jend, textLen - (jend + 4));
      PatchedBreaks(o6, Now(), jend, |o6.text| - (jend + 4));
      AddsIfElse(o, o1, o2, o3, o4, o5, o6, Now(), je, jend, e, t, f, isMain);
    }

    method CompileWhile(toks: seq<Tok>) returns (ok: bool, rest: seq<Tok>)
      requires Valid() && IsWord(toks, "while")
      modifies this`textLen, this`data, this`calls, this`refs, this`vars, this`loops, this`safe, text
      ensures Valid()
      ensures DoneS(old(Now()), Now(), isMain, vars, data, ok, rest, ParseStmt(fs, old(State(toks)), |old(loops)|))
      ensures ok ==> SameLoops(old(loops), loops)
      decreases |toks|, 0
    {
      hide AddsE, AddsS, AddsBytes, ParseHead, ParseBlock, TestCode, ParseStmt;
      ghost var o, ps, depth := Now(), State(toks), |loops|;
      WhileStep(fs, ps, depth);
      var loop := textLen;
      ok, rest := CompileHead(toks[1..]);
      if !ok { return; }
      ghost var e := ParseHead(fs, Rest(ps)).value;
      ghost var o1 := Now();
      var je := EmitTest();
      ok := |loops| < MAX_LOOP_DEPTH;
      if !ok { return; }
      ok, rest := CompileLoop(rest, loop, je, o, o1, e.e);
    }

    /** The body of a loop, the jump back, and the patches of its test and its breaks. */
    method CompileLoop(toks: seq<Tok>, loop: nat, je: nat, ghost o: Out, ghost o1: Out, ghost e: Expr)
      returns (ok: bool, rest: seq<Tok>)
      requires Valid() && |loops| < MAX_LOOP_DEPTH && loop == |o.text| && o.breaks == Breaks()
      requires AddsE(o, o1, e) && AddsBytes(o1, Now(), TestCode(0))
        && (textLen == |o1.text| + 10 ==> je == |o1.text| + 6)
      modifies this`textLen, this`data, this`calls, this`refs, this`vars, this`loops, this`safe, text
      ensures Valid()
      ensures var r := ParseBlock(fs, old(State(toks)).(breaks := 0), |old(loops)| + 1, Skip);
              ok == r.Some?
              && (ok ==> State(rest) == r.value.st.(breaks := |o.breaks|) && loops == old(loops)
                         && AddsS(o, Now(), While(e, r.value.s), isMain))
      decreases |toks|, 3
    {
      hide AddsE, AddsS, AddsBytes, ParseBlock, TestCode, JmpCode, Patched, BreaksPatched, PatchSites, Target;
      ghost var st, depth, o2, outer := State(toks), |loops|, Now(), loops;
      loops := loops + [[]];
      ok, rest := CompileBlock(toks);
      if !ok { return; }
      ghost var b := ParseBlock(fs, st.(breaks := 0), depth + 1, Skip).value.s;
      CloseLoop(loop, je, o, o1, o2, e, b);
      assert loops == outer;
    }

    /** The jump back, then the patches; the loop's breaks are dropped. */
    method CloseLoop(loop: nat, je: nat, ghost o: Out, ghost o1: Out, ghost o2: Out, ghost e: Expr, ghost b: Stmt)
      requires Valid() && loops != [] && loop == |o.text|
      requires AddsE(o, o1, e) && AddsBytes(o1, o2, TestCode(0))
        && (|o2.text| == |o1.text| + 10 ==> je == |o1.text| + 6)
      requires AddsS(NoBreaks(o2), Now(), b, isMain)
      modifies this`textLen, this`loops, this`safe, text
      ensures Valid() && loops == old(loops)[..|old(loops)| - 1]
      ensures AddsS(o, Out(Text(), calls, refs, o.breaks, safe), While(e, b), isMain)
    {
      hide AddsE, AddsS, AddsBytes, TestCode, JmpCode, Patched, BreaksPatched, PatchSites, Target;
      ghost var o3 := Now();
      EmitBack(loop);
      ghost var o4 := Now();
      Patch32(je, textLen - (je + 4));
      ghost var o5 := Now();
      PatchedBreaks(o4, o5, je, |o4.text| - (je + 4));
      PatchTable(loops[|loops| - 1], KBreak, Ctx(textLen, false, UNLINKED));
      ghost var o6 := Now();
      BreaksDone(o5, o6, o3.breaks, |o5.text|);
      loops := loops[..|loops| - 1];
      AddsWhile(o, o1, o2, o3, o4, o5, o6, je, e, b, isMain);
    }

    /** jmp back to the condition of a loop. */
    method EmitBack(loop: nat)
      requires Valid()
      modifies this`textLen, text
      ensures Valid() && AddsBytes(old(Now()), Now(), JmpCode(loop - (old(textLen) + 5)))
    {
      Emit(Encode(Jmp(loop - (textLen + 5))));
    }

    // ----- functions and programs -----

    /** push rbp; mov rbp, rsp; sub rsp, <unknown>; mov [rbp-8], rbx */
    method EmitPrologue() returns (patch: nat)
      requires Valid()
      modifies this`textLen, text
      ensures Valid() && AddsBytes(old(Now()), Now(), Bytes(Prologue(0)))
      ensures Within(Plus(old(Now()), OfBytes(Bytes(Prologue(0))))) ==> patch == old(textLen) + 7
    {
      hide Encode, Bytes, Prologue;
      PrologueBytes(0);
      ghost var o := Now();
      Emit(Encode(Push(RBP)) + Encode(MovRR(RBP, RSP)) + [0x48, 0x81, 0xEC]);
      ghost var o1 := Now();
      patch := textLen;
      Emit(Le(0, 4));
      ghost var o2 := Now();
      Emit(Encode(Store(RBX, -8)));
      ghost var a := Encode(Push(RBP)) + Encode(MovRR(RBP, RSP)) + [0x48, 0x81, 0xEC];
      AddsTwice(o, o1, o2, OfBytes(a), OfBytes(Le(0, 4)), OfBytes(a + Le(0, 4)));
      AddsTwice(o, o2, Now(), OfBytes(a + Le(0, 4)), OfBytes(Encode(Store(RBX, -8))), OfBytes(Bytes(Prologue(0))));
    }

    /** Parameter i gets slot i and is stored from its argument register. */
    method EmitParams(params: seq<Variable>, i: nat)
      requires Valid() && i <= |params| <= MAX_PARAMS && vars == params[..i]
      modifies this`textLen, this`vars, text
      ensures Valid() && vars == params && AddsBytes(old(Now()), Now(), Bytes(StoreParams(i, |params|)))
      decreases |params| - i
    {
      hide Encode, Bytes, StoreParams;
      ParamsStep(i, |params|);
      if i == |params| {
        assert params[..i] == params;
        AddsNothing(Now());
        return;
      }
      ghost var o := Now();
      vars := vars + [params[i]];
      assert vars == params[..i + 1];
      var ins := Store(ArgReg(i), SlotDisp(i));
      Emit(Encode(ins));
      ghost var o1 := Now();
      EmitParams(params, i + 1);
      AddsTwice(o, o1, Now(), OfBytes(Encode(ins)), OfBytes(Bytes(StoreParams(i + 1, |params|))),
        OfBytes(Bytes(StoreParams(i, |params|))));
    }

    method CompileFunction(index: nat) returns (ok: bool)
      requires Valid() && index < |fs| && loops == []
      modifies this, text
      ensures Valid() && addrs == old(addrs) + [old(textLen)]
      ensures var r := ParseFunc(fs, fs[index], old(data));
              ok == r.Some? && (ok ==>
                loops == [] && data == r.value.1 && Adds(old(Now()), Now(), DeltaF(r.value.0, old(textLen))))
    {
      hide AddsS, AddsBytes, ParseBlock, ParseFunc, Bytes, Prologue, StoreParams, FallOff, DeltaF, Within, Adds,
           Patched, FrameSize;
      var d := fs[index];
      FuncParts(fs, d, data);
      ghost var o, was := Now(), data;
      addrs, vars, isMain := addrs + [textLen], [], d.name == "main";
      var patch := EmitPrologue();
      ghost var o1 := Now();
      EmitParams(d.params, 0);
      ghost var o2 := Now();
      var rest;
      ok, rest := CompileBlock(d.body);
      if !ok { return; }
      ghost var o3 := Now();
      EmitAsm(FallOff(isMain));
      ghost var o4 := Now();
      var frame := (8 + 8 * |vars| + 32 + 15) / 16 * 16;
      Patch32(patch, frame);
      ghost var f := ParseFunc(fs, d, was).value.0;
      FrameFor(f, vars);
      AddsF(o, o1, o2, o3, o4, Now(), patch, f);
    }

    /**
     The whole source: for a program the start sequence, then every function, then the calls. entry is the
     index of the main function, or of module_init for a kernel module.
     */
    method CompileSource(kmod: bool) returns (ok: bool, entry: nat)
      requires Valid() && Now() == Out([], [], [], [], true) && data == [] && loops == [] && addrs == []
      modifies this, text
      ensures Valid() && Compiled(kmod, fs, ok, entry, Text(), data, addrs, refs) && (ok ==> entry < |fs| == |addrs|)
      ensures ok && Fits(StartSize(FormOf(kmod, entry)), ParseFrom(fs, 0, []).value.0) ==> safe
    {
      hide Within, CodeFrom, SitesFrom, ParseFrom, Addrs, Addr, DeltaP, FindFunc, Fits, CodeP, CompiledTo;
      var m := FindFunc(fs, EntryName(kmod));
      ok, entry := m.Some? && (kmod ==> KernelTarget(fs)), 0;
      if !ok { return; }
      entry := m.value;
      var mainPatch := 0;
      NothingYet();
      if !kmod { mainPatch := EmitStart(entry); }
      ghost var p;
      ok, p := CompileFunctions(FormOf(kmod, entry));
      if !ok { return; }
      if kmod {
        ModuleCalled(p, Now(), addrs);
      } else {
        PatchMain(entry, mainPatch, p);
      }
      ResolveCalls(FormOf(kmod, entry), p);
    }

    /** Every function in order, behind the start sequence. */
    method CompileFunctions(ghost g: Form) returns (ok: bool, ghost p: Program)
      requires Valid() && data == [] && loops == [] && addrs == []
        && Adds(Out([], [], [], [], true), Now(), DeltaP(g, []))
      modifies this, text
      ensures Valid() && ok == ParseFrom(fs, 0, []).Some?
      ensures ok ==> ParseFrom(fs, 0, []) == Some((p, data)) && |p| == |addrs| == |fs| && CompiledTo(g, p, Now(), addrs)
    {
      hide Within, CodeF, SitesF, CodeFrom, SitesFrom, StartCode, ParseFunc, ParseFrom, Addrs, Addr, DeltaP, StartSize,
           DeltaF, Adds;
      ghost var o := Out([], [], [], [], true);
      p := [];
      PrependNone(ParseFrom(fs, 0, []));
      AddrsNone(StartSize(g));
      var i := 0;
      while i < |fs|
        invariant 0 <= i <= |fs| && Valid() && loops == [] && |p| == i && |addrs| == i
        invariant CompiledTo(g, p, Now(), addrs)
        invariant ParseFrom(fs, 0, []) == Prepend(p, ParseFrom(fs, i, data))
      {
        ghost var o1, was := Now(), data;
        FromStep(fs, i, was);
        ok := CompileFunction(i);
        if !ok { return; }
        ghost var f := ParseFunc(fs, fs[i], was).value.0;
        CompiledStep(g, p, f, o1, Now(), addrs[..i]);
        PrependStep(p, f, ParseFrom(fs, i + 1, data));
        p := p + [f];
        i := i + 1;
      }
      FromEnd(fs, data);
      assert p + [] == p;
      ok := true;
    }

    /** Patch the call of main. */
    method PatchMain(main: nat, mainPatch: nat, ghost p: Program)
      requires Valid() && main < |addrs| == |p| && mainPatch == 1 && CompiledTo(UserImage(main), p, Now(), addrs)
      modifies this`safe, text
      ensures Valid() && CalledTo(UserImage(main), p, Now(), addrs)
    {
      hide CodeFrom, SitesFrom, Addrs, Addr, Fits, Started, CodeP, CompiledTo;
      CompiledNow(UserImage(main), p, Now(), addrs);
      ghost var t := Text();
      Patch32(mainPatch, addrs[main] as int - (mainPatch + 4));
      if Fits(START_SIZE, p) { LinkMain(main, p, t); }
    }

    /** Patch the call table. */
    method ResolveCalls(ghost g: Form, ghost p: Program)
      requires Valid() && |addrs| == |p| && CalledTo(g, p, Now(), addrs)
      modifies this`safe, text
      ensures Valid() && (Fits(StartSize(g), p) ==> LinkedTo(g, p, Text(), addrs, refs) && safe)
    {
      hide CodeFrom, SitesFrom, Addrs, Addr, PatchSites, Fits, Started, StartSize, CodeP;
      PatchTable(calls, KCall, Ctx(-1, false, Links(addrs, -1)));
      if Fits(StartSize(g), p) { LinkCalls(g, p, Text()); }
    }

    /** call main; exit(rax) */
    method EmitStart(main: nat) returns (patch: nat)
      requires Valid() && Now() == Out([], [], [], [], true)
      modifies this`textLen, text
      ensures Valid() && Adds(old(Now()), Now(), DeltaP(UserImage(main), [])) && patch == 1
    {
      hide Bytes, ExitRax;
      StartBytes(main, UNLINKED);
      ghost var o := Now();
      Emit([0xE8]);
      ghost var o1 := Now();
      patch := textLen;
      Emit(Le(0, 4));
      ghost var o2 := Now();
      EmitAsm(ExitRax());
      AddsTwice(o, o1, o2, OfBytes([0xE8]), OfBytes(Le(0, 4)), OfBytes([0xE8] + Le(0, 4)));
      AddsTwice(o, o2, Now(), OfBytes([0xE8] + Le(0, 4)), OfBytes(Bytes(ExitRax())),
        OfBytes(StartCode(UserImage(main), UNLINKED)));
      DeltaNone(UserImage(main));
    }

    // ----- the image -----

    /**
     Resolve the data references and write the image. The source writes without looking at the end of its
     buffer; inside says whether every write stayed in it.
     */
    method BuildImage(image: array<byte>) returns (len: nat, inside: bool)
      requires Valid() && image != text
      modifies this`safe, text, image
      ensures Valid() && len == HEADER_SIZE + AlignUp(textLen) + |data|
      ensures inside <==> len <= image.Length
      ensures inside ==> image[..len] == ImageOf(Text(), data)
      ensures Inside(refs, 0, textLen) ==>
                Text() == PatchSites(old(Text()), 0, refs, KData, Ctx(-1, false, Links(addrs, AlignUp(textLen))))
                && safe == old(safe)
    {
      PatchTable(refs, KData, Ctx(-1, false, Links(addrs, AlignUp(textLen))));
      HeaderLen(Header(IMAGE_MAGIC, IMAGE_VERSION, HEADER_SIZE, 0, AlignUp(textLen), |data|, 0, 0));
      len, inside := WriteImage(image,
        HeaderBytes(Header(IMAGE_MAGIC, IMAGE_VERSION, HEADER_SIZE, 0, AlignUp(textLen), |data|, 0, 0)));
    }

    /** The same for a kernel module, whose header also says where its entry and its command are. */
    method BuildModule(image: array<byte>, entry: nat, name: seq<byte>) returns (len: nat, inside: bool)
      requires Valid() && image != text && entry < |addrs| == |fs| && |name| == 32
      modifies this`safe, text, image
      ensures Valid() && len == Kmod.KMOD_HEADER + AlignUp(textLen) + |data|
      ensures inside <==> len <= image.Length
      ensures inside ==> image[..len] == Kmod.KImageOf(Text(), data, addrs[entry], CommandAddr(fs, addrs), name)
      ensures Inside(refs, 0, textLen) ==>
                Text() == PatchSites(old(Text()), 0, refs, KData, Ctx(-1, false, Links(addrs, AlignUp(textLen))))
                && safe == old(safe)
    {
      hide FindFunc;
      PatchTable(refs, KData, Ctx(-1, false, Links(addrs, AlignUp(textLen))));
      var h := Kmod.KHeaderFor(text[..textLen], data, addrs[entry], CommandAddr(fs, addrs));
      Kmod.KSize(h, name);
      len, inside := WriteImage(image, Kmod.KBytes(h, name));
    }

    method WriteImage(image: array<byte>, h: seq<byte>) returns (len: nat, inside: bool)
      requires Valid() && image != text
      modifies image
      ensures len == |h| + AlignUp(textLen) + |data|
      ensures inside <==> len <= image.Length
      ensures inside ==> image[..len] == h + Padded(Text()) + data
    {
      hide AlignUp, Zeros;
      Rounded(textLen);
      var size := AlignUp(textLen);
      len, inside := CopyTo(image, 0, h, [], true);
      len, inside := CopyTo(image, len, text[..textLen], h, inside);
      len, inside := CopyTo(image, len, Zeros(size - textLen), h + Text(), inside);
      len, inside := CopyTo(image, len, data, h + Text() + Zeros(size - textLen), inside);
      assert h + Text() + Zeros(size - textLen) + data == h + (Text() + Zeros(size - textLen)) + data;
    }

    /** A copy loop of the image writer; inside falls when a write would leave the buffer. */
    method CopyTo(image: array<byte>, at: nat, bytes: seq<byte>, ghost was: seq<byte>, before: bool)
        returns (next: nat, inside: bool)
      requires Valid() && image != text && |was| == at && (before <==> at <= image.Length)
        && (before ==> image[..at] == was)
      modifies image
      ensures next == at + |bytes| && next == |was + bytes| && (inside <==> next <= image.Length)
      ensures inside ==> image[..next] == was + bytes
    {
      next, inside := at, before;
      for i := 0 to |bytes|
        invariant next == at + i && (inside <==> next <= image.Length)
        invariant inside ==> forall k :: 0 <= k < next ==> image[k] == (was + bytes)[k]
      {
        if next < image.Length {
          image[next] := bytes[i];
        } else {
          inside := false;
        }
        next := next + 1;
      }
    }
  }

  /** Offset of the command function, or all ones. */
  function CommandAddr(fs: seq<Decl>, addrs: seq<nat>): (r: u64)
    requires |addrs| == |fs| && forall i :: 0 <= i < |addrs| ==> addrs[i] <= TEXT_MAX
  {
    var c := FindFunc(fs, "command_main");
    if c.Some? then addrs[c.value] else 0xffff_ffff_ffff_ffff
  }

  lemma HeaderLen(h: Header)
    ensures |HeaderBytes(h)| == HEADER_SIZE
  {
  }

  lemma Rounded(n: nat)
    ensures n <= AlignUp(n) && forall k: nat :: |Zeros(k)| == k
  {
  }

  /** Functions compiled so far in front of the rest of the parse. */
  ghost function Prepend(p: Program, r: Option<(Program, seq<byte>)>): Option<(Program, seq<byte>)> {
    if r.None? then None else Some((p + r.value.0, r.value.1))
  }

  lemma PrependNone(r: Option<(Program, seq<byte>)>)
    ensures Prepend([], r) == r
  {
    if r.Some? { assert [] + r.value.0 == r.value.0; }
  }

  lemma PrependStep(p: Program, f: Func, r: Option<(Program, seq<byte>)>)
    ensures Prepend(p, Prepend([f], r)) == Prepend(p + [f], r)
  {
    if r.Some? { assert p + ([f] + r.value.0) == (p + [f]) + r.value.0; }
  }

  lemma FromStep(fs: seq<Decl>, i: nat, data: seq<byte>)
    requires i < |fs| && |data| <= DATA_MAX && (forall d :: d in fs ==> |d.params| <= MAX_PARAMS)
    ensures var f := ParseFunc(fs, fs[i], data);
            ParseFrom(fs, i, data) == if f.None? then None else Prepend([f.value.0], ParseFrom(fs, i + 1, f.value.1))
  {
    hide ParseFunc;
  }

  lemma FromEnd(fs: seq<Decl>, data: seq<byte>)
    requires |data| <= DATA_MAX && (forall d :: d in fs ==> |d.params| <= MAX_PARAMS)
    ensures ParseFrom(fs, |fs|, data) == Some(([], data))
  {
  }

  lemma AddrsAppend(start: nat, p: Program, f: Func)
    ensures Addrs(start, p + [f]) == Addrs(start, p) + [Addr(start, p, |p|)]
  {
    hide *;
    var q := p + [f];
    forall i | 0 <= i <= |p|
      ensures Addrs(start, q)[i] == if i < |p| then Addrs(start, p)[i] else Addr(start, p, |p|)
    {
      AddrPrefix(start, p, f, i);
    }
    SameElements(Addrs(start, q), Addrs(start, p), Addr(start, p, |p|));
  }

  lemma SameElements(a: seq<nat>, b: seq<nat>, x: nat)
    requires |a| == |b| + 1 && forall i :: 0 <= i <= |b| ==> a[i] == if i < |b| then b[i] else x
    ensures a == b + [x]
  {
  }

  lemma WithinFunc(g: Form, p: Program, f: Func, o: Out)
    ensures Within(Plus(o, DeltaP(g, p + [f]))) ==> Within(Plus(o, DeltaP(g, p)))
  {
    hide CodeF, SitesF, CodeFrom, SitesFrom, StartCode, Addr, StartSize;
    CodeAppend(StartSize(g), p, f, 0);
    SitesAppend(StartSize(g), p, f, 0, KCall);
    SitesAppend(StartSize(g), p, f, 0, KData);
  }

  /** One field of a table and the rest of it. */
  lemma TableStep(t: seq<byte>, sites: seq<Site>, kind: Kind, c: Ctx)
    requires sites != [] && Inside(sites, 0, |t|)
    ensures 0 <= sites[0].patch && sites[0].patch + 4 <= |t| && Inside(sites[1..], 0, |t|)
    ensures PatchSites(t, 0, sites, kind, c)
            == PatchSites(Write32(t, sites[0].patch, Target(kind, sites[0], c)), 0, sites[1..], kind, c)
  {
    hide Target;
  }

  lemma TableEnd(t: seq<byte>, kind: Kind, c: Ctx)
    ensures PatchSites(t, 0, [], kind, c) == t
  {
  }

  lemma ParamsStep(i: nat, n: nat)
    requires i <= n <= MAX_PARAMS
    ensures Bytes(StoreParams(i, n)) ==
            if i == n then [] else Encode(Store(ArgReg(i), SlotDisp(i))) + Bytes(StoreParams(i + 1, n))
  {
    hide Encode;
  }

  lemma FuncParts(fs: seq<Decl>, d: Decl, data: seq<byte>)
    requires |d.params| <= MAX_PARAMS && |data| <= DATA_MAX
    ensures var b, r := ParseBlock(fs, PS(d.body, d.params, data, 0), 0, Skip), ParseFunc(fs, d, data);
      && b.Some? == r.Some?
      && (b.Some? ==> r.value.1 == b.value.st.data
                      && r.value.0 == Func(|d.params|, Sizes(b.value.st.vars), b.value.s, d.name == "main"))
  {
    hide ParseBlock;
  }

  lemma FrameFor(f: Func, vars: seq<Variable>)
    requires f.sizes == Sizes(vars)
    ensures FrameSize(f) == (8 + 8 * |vars| + 32 + 15) / 16 * 16
  {
  }

  lemma AddrsNone(start: nat)
    ensures Addrs(start, []) == []
  {
  }

  lemma DeltaNone(g: Form)
    ensures DeltaP(g, []) == OfBytes(StartCode(g, UNLINKED))
  {
    hide StartCode;
    assert CodeFrom(StartSize(g), [], 0, UNLINKED) == [];
    assert SitesFrom(StartSize(g), [], 0, KCall) == [] && SitesFrom(StartSize(g), [], 0, KData) == [];
  }

  /** The functions p have been emitted behind the start sequence of a form. */
  ghost predicate CompiledTo(g: Form, p: Program, o: Out, addrs: seq<nat>) {
    && Adds(Out([], [], [], [], true), o, DeltaP(g, p))
    && (Within(Plus(Out([], [], [], [], true), DeltaP(g, p))) ==> addrs == Addrs(StartSize(g), p))
  }

  ghost predicate AddedFunc(f: Func, o: Out, o': Out) { Adds(o, o', DeltaF(f, |o.text|)) }

  lemma CompiledStep(g: Form, p: Program, f: Func, o1: Out, o2: Out, addrs: seq<nat>)
    requires CompiledTo(g, p, o1, addrs) && AddedFunc(f, o1, o2)
    ensures CompiledTo(g, p + [f], o2, addrs + [|o1.text|])
  {
    hide Within, DeltaP, DeltaF, Addr, Addrs, StartSize;
    var o := Out([], [], [], [], true);
    AddsFunc(g, p, f, o, o1, o2);
    AddrsAppend(StartSize(g), p, f);
    WithinFunc(g, p, f, o);
  }

  /** ... and the call in the start sequence has been resolved. */
  ghost predicate CalledTo(g: Form, p: Program, o: Out, addrs: seq<nat>) {
    Fits(StartSize(g), p) ==>
      && addrs == Addrs(StartSize(g), p) && o.text == Started(g, p)
      && o.calls == SitesFrom(StartSize(g), p, 0, KCall) && o.refs == SitesFrom(StartSize(g), p, 0, KData) && o.safe
  }

  /** The text with all calls resolved. */
  ghost predicate LinkedTo(g: Form, p: Program, text: seq<byte>, addrs: seq<nat>, refs: seq<Site>) {
    && text == CodeP(g, p, Links(Addrs(StartSize(g), p), -1))
    && addrs == Addrs(StartSize(g), p) && refs == SitesFrom(StartSize(g), p, 0, KData)
  }

  lemma CompiledNow(g: Form, p: Program, o: Out, addrs: seq<nat>)
    requires CompiledTo(g, p, o, addrs)
    ensures Fits(StartSize(g), p) ==>
              && addrs == Addrs(StartSize(g), p) && o.text == CodeP(g, p, UNLINKED)
              && o.calls == SitesFrom(StartSize(g), p, 0, KCall) && o.refs == SitesFrom(StartSize(g), p, 0, KData)
                 && o.safe
  {
    hide Within, CodeFrom, SitesFrom, StartCode, Addrs, Addr, Fits, StartSize;
    if Fits(StartSize(g), p) { FitsWithin(g, p); }
  }

  lemma NothingYet()
    ensures Adds(Out([], [], [], [], true), Out([], [], [], [], true), DeltaP(KernelModule, []))
  {
    DeltaNone(KernelModule);
  }

  /** A module has no start sequence to resolve. */
  lemma ModuleCalled(p: Program, o: Out, addrs: seq<nat>)
    requires CompiledTo(KernelModule, p, o, addrs)
    ensures CalledTo(KernelModule, p, o, addrs)
  {
    hide CodeFrom, SitesFrom, Addrs, Fits, CompiledTo;
    CompiledNow(KernelModule, p, o, addrs);
  }

  /** The arity checks of validate_kernel_target. */
  predicate KernelTarget(fs: seq<Decl>) {
    && FindFunc(fs, "module_init").Some? && |fs[FindFunc(fs, "module_init").value].params| == 1
    && (FindFunc(fs, "command_main").Some? ==> |fs[FindFunc(fs, "command_main").value].params| == 2)
  }

  function EntryName(kmod: bool): string { if kmod then "module_init" else "main" }

  function FormOf(kmod: bool, entry: nat): Form { if kmod then KernelModule else UserImage(entry) }

  /**
   The outcome of compiling the functions fs: success exactly when they parse and have their entry, and then the
   linked text.
   */
  ghost predicate Compiled(kmod: bool, fs: seq<Decl>, ok: bool, entry: nat, text: seq<byte>, data: seq<byte>,
      addrs: seq<nat>, refs: seq<Site>)
    requires forall d :: d in fs ==> |d.params| <= MAX_PARAMS
  {
    var r := ParseFrom(fs, 0, []);
    var g := FormOf(kmod, entry);
    && ok == (FindFunc(fs, EntryName(kmod)).Some? && (kmod ==> KernelTarget(fs)) && r.Some?)
    && (ok ==> entry == FindFunc(fs, EntryName(kmod)).value && data == r.value.1
               && (Fits(StartSize(g), r.value.0) ==> LinkedTo(g, r.value.0, text, addrs, refs)))
  }

  /** A compile method did what the grammar says, and emitted the code of the expression it parsed. */
  ghost predicate DoneE(o: Out, o': Out, data: seq<byte>, ok: bool, rest: seq<Tok>, r: Option<PE>) {
    ok == r.Some? && (ok ==> rest == r.value.st.toks && data == r.value.st.data && AddsE(o, o', r.value.e))
  }

  ghost predicate DoneS(o: Out, o': Out, main: bool, vars: seq<Variable>, data: seq<byte>, ok: bool, rest: seq<Tok>,
      r: Option<PStmt>) {
    && ok == r.Some?
    && (ok ==> rest == r.value.st.toks && vars == r.value.st.vars && data == r.value.st.data
               && |o'.breaks| == r.value.st.breaks && AddsS(o, o', r.value.s, main))
  }

  /** The enclosing loops are as before; the innermost one may have gained breaks. */
  ghost predicate SameLoops(was: seq<seq<Site>>, now: seq<seq<Site>>) {
    |was| == |now| && forall i :: 0 <= i < |was| - 1 ==> was[i] == now[i]
  }

  lemma PatchedBreaks(o: Out, o': Out, at: int, v: int)
    requires Patched(o, o', at, v)
    ensures o'.breaks == o.breaks && |o'.text| == |o.text|
  {
  }

  lemma BreaksDone(o: Out, o': Out, sites: seq<Site>, target: int)
    requires o' == o.(text := o'.text, safe := o'.safe) && (Inside(sites, 0, |o.text|) ==> o'.safe == o.safe)
    requires Inside(sites, 0, |o.text|) ==>
      o'.text == PatchSites(o.text, 0, sites, KBreak, Ctx(target, false, UNLINKED))
    ensures BreaksPatched(o, o', sites, target)
  {
  }
}
