/**
 What the single pass has produced so far, as a value: text, call table, data references and the
 breaks of the innermost loop.  Emission silently stops at the table limits, so every statement about
 appending is conditional on the result being within them.
 */
module Emission {
  import opened Words
  import opened X86
  import opened OreLang
  import opened Codegen
  import opened Relink
  import opened Parser

  const TEXT_MAX := 32768
  const MAX_CALLS := 128
  const MAX_DATA_REFS := 512

  /** safe says that every patch so far lay inside the text buffer. */
  datatype Out = Out(text: seq<byte>, calls: seq<Site>, refs: seq<Site>, breaks: seq<Site>, safe: bool)

  predicate Within(o: Out) {
    |o.text| <= TEXT_MAX && |o.calls| <= MAX_CALLS && |o.refs| <= MAX_DATA_REFS
  }

  function Plus(o: Out, d: Out): Out {
    Out(o.text + d.text, o.calls + d.calls, o.refs + d.refs, o.breaks + d.breaks, o.safe && d.safe)
  }

  function OfBytes(b: seq<byte>): Out { Out(b, [], [], [], true) }

  /** The contribution of an expression, an argument list or a statement standing at offset at. */
  function DeltaE(e: Expr, at: nat): Out {
    Out(CodeE(e, at, UNLINKED), SitesE(e, at, KCall), SitesE(e, at, KData), [], true)
  }

  function DeltaA(args: Args, at: nat): Out {
    Out(CodeA(args, at, UNLINKED), SitesA(args, at, KCall), SitesA(args, at, KData), [], true)
  }

  function DeltaS(s: Stmt, at: nat, main: bool): Out {
    Out(CodeS(s, at, Ctx(-1, main, UNLINKED)), SitesS(s, at, main, KCall), SitesS(s, at, main, KData),
        SitesS(s, at, main, KBreak), true)
  }

  /** o' is o with d appended, if that is within the limits. */
  ghost predicate Adds(o: Out, o': Out, d: Out) {
    Within(Plus(o, d)) ==> o' == Plus(o, d)
  }

  ghost predicate AddsE(o: Out, o': Out, e: Expr) { Adds(o, o', DeltaE(e, |o.text|)) }

  ghost predicate AddsA(o: Out, o': Out, args: Args) { Adds(o, o', DeltaA(args, |o.text|)) }

  ghost predicate AddsS(o: Out, o': Out, s: Stmt, main: bool) { Adds(o, o', DeltaS(s, |o.text|, main)) }

  ghost predicate AddsBytes(o: Out, o': Out, b: seq<byte>) { Adds(o, o', OfBytes(b)) }

  /** Two appends in a row; the second contribution may depend on where the first one ended. */
  lemma AddsTwice(o: Out, o1: Out, o2: Out, d1: Out, d2: Out, d: Out)
    requires Adds(o, o1, d1) && (|o1.text| == |o.text| + |d1.text| ==> Adds(o1, o2, d2)) && d == Plus(d1, d2)
    ensures Adds(o, o2, d)
  {
    if Within(Plus(o, d)) {
      assert Within(Plus(o, d1));
      PlusAssoc(o, d1, d2);
    }
  }

  lemma PlusAssoc(o: Out, a: Out, b: Out)
    ensures Plus(Plus(o, a), b) == Plus(o, Plus(a, b))
  {
    assert (o.text + a.text) + b.text == o.text + (a.text + b.text);
    assert (o.calls + a.calls) + b.calls == o.calls + (a.calls + b.calls);
    assert (o.refs + a.refs) + b.refs == o.refs + (a.refs + b.refs);
    assert (o.breaks + a.breaks) + b.breaks == o.breaks + (a.breaks + b.breaks);
  }

  lemma PlusEmpty(o: Out)
    ensures Plus(o, OfBytes([])) == o && Plus(OfBytes([]), o) == o
  {
  }

  // ----- expressions -----

  lemma AddsUn(o: Out, o1: Out, o2: Out, op: UnOp, a: Expr)
    requires AddsE(o, o1, a) && AddsBytes(o1, o2, Bytes(UnAsm(op)))
    ensures AddsE(o, o2, Un(op, a))
  {
    hide Bytes, UnAsm, Within;
    AddsTwice(o, o1, o2, DeltaE(a, |o.text|), OfBytes(Bytes(UnAsm(op))), DeltaE(Un(op, a), |o.text|));
  }

  lemma AddsBin(o: Out, o1: Out, o2: Out, o3: Out, o4: Out, op: BinOp, a: Expr, b: Expr)
    requires AddsE(o, o1, a) && AddsBytes(o1, o2, Encode(Push(RAX))) && AddsE(o2, o3, b)
    requires AddsBytes(o3, o4, Bytes(BinAsm(op)))
    ensures AddsE(o, o4, Bin(op, a, b))
  {
    hide Bytes, BinAsm, Within, Encode, CodeE, SitesE, SizeE;
    var at := |o.text|;
    var at1 := at + SizeE(a);
    LenE(a, at, UNLINKED);
    var da, dp, db, dt := DeltaE(a, at), OfBytes(Encode(Push(RAX))), DeltaE(b, at1 + 1), OfBytes(Bytes(BinAsm(op)));
    AddsTwice(o, o1, o2, da, dp, Plus(da, dp));
    assert |o2.text| == at1 + 1 ==> Adds(o2, o3, db);
    AddsTwice(o, o2, o3, Plus(da, dp), db, Plus(Plus(da, dp), db));
    AddsTwice(o, o3, o4, Plus(Plus(da, dp), db), dt, Plus(Plus(Plus(da, dp), db), dt));
    DeltaBin(op, a, b, at);
  }

  lemma DeltaBin(op: BinOp, a: Expr, b: Expr, at: nat)
    ensures var da, dp, db, dt := DeltaE(a, at), OfBytes(Encode(Push(RAX))), DeltaE(b, at + SizeE(a) + 1),
      OfBytes(Bytes(BinAsm(op)));
            DeltaE(Bin(op, a, b), at) == Plus(Plus(Plus(da, dp), db), dt)
  {
    BinCode(op, a, b, at, UNLINKED);
    BinSites(op, a, b, at, KCall);
    BinSites(op, a, b, at, KData);
    hide Bytes, BinAsm, Encode, CodeE, SitesE, SizeE;
    var ca, p, cb, t := CodeE(a, at, UNLINKED), Encode(Push(RAX)), CodeE(b, at + SizeE(a) + 1, UNLINKED),
      Bytes(BinAsm(op));
    assert ca + (p + (cb + t)) == ((ca + p) + cb) + t;
  }

  lemma BinCode(op: BinOp, a: Expr, b: Expr, at: nat, k: Links)
    ensures CodeE(Bin(op, a, b), at, k)
         == CodeE(a, at, k) + (Encode(Push(RAX)) + (CodeE(b, at + SizeE(a) + 1, k) + Bytes(BinAsm(op))))
  {
    hide Bytes, BinAsm, Encode, SizeE;
  }

  lemma BinSites(op: BinOp, a: Expr, b: Expr, at: nat, kind: Kind)
    ensures SitesE(Bin(op, a, b), at, kind) == SitesE(a, at, kind) + SitesE(b, at + SizeE(a) + 1, kind)
  {
    hide SizeE;
  }

  /** A data reference: three opcode bytes and a field that is remembered. */
  lemma AddsData(o: Out, o1: Out, o2: Out, off: nat)
    requires AddsBytes(o, o1, [0x48, 0x8D, 0x05])
    requires Adds(o1, o2, Out(Le(0, 4), [], [Site(|o1.text|, off)], [], true))
    ensures AddsE(o, o2, Data(off))
  {
    var at := |o.text|;
    DataBytes(0);
    AddsTwice(o, o1, o2, OfBytes([0x48, 0x8D, 0x05]), Out(Le(0, 4), [], [Site(at + 3, off)], [], true),
      DeltaE(Data(off), at));
  }

  // ----- calls -----

  lemma {:induction false} SnocCode(args: Args, e: Expr, at: nat)
    ensures SizeA(Snoc(args, e)) == SizeA(args) + SizeE(e) + 1
    ensures CodeA(Snoc(args, e), at, UNLINKED)
         == CodeA(args, at, UNLINKED) + (CodeE(e, at + SizeA(args), UNLINKED) + Encode(Push(RAX)))
    decreases args
  {
    hide Encode, CodeE, SizeE;
    match args
    case NoArgs =>
      assert CodeE(e, at, UNLINKED) + (Encode(Push(RAX)) + []) == [] + (CodeE(e, at, UNLINKED) + Encode(Push(RAX)));
    case Arg(h, tl) =>
      SnocCode(tl, e, at + SizeE(h) + 1);
      var ch, p, ct := CodeE(h, at, UNLINKED), Encode(Push(RAX)), CodeA(tl, at + SizeE(h) + 1, UNLINKED);
      var ce := CodeE(e, at + SizeA(args), UNLINKED) + p;
      assert ch + (p + (ct + ce)) == (ch + (p + ct)) + ce;
  }

  lemma {:induction false} SnocSites(args: Args, e: Expr, at: nat, kind: Kind)
    ensures SitesA(Snoc(args, e), at, kind) == SitesA(args, at, kind) + SitesE(e, at + SizeA(args), kind)
    decreases args
  {
    hide SitesE, SizeE;
    match args
    case NoArgs => assert SitesE(e, at, kind) + [] == [] + SitesE(e, at, kind);
    case Arg(h, tl) =>
      SnocSites(tl, e, at + SizeE(h) + 1, kind);
      var x, y, z := SitesE(h, at, kind), SitesA(tl, at + SizeE(h) + 1, kind), SitesE(e, at + SizeA(args), kind);
      assert x + (y + z) == (x + y) + z;
  }

  lemma AddsNothing(o: Out)
    ensures AddsBytes(o, o, [])
  {
    PlusEmpty(o);
  }

  lemma AddsNoArgs(o: Out)
    ensures AddsA(o, o, NoArgs)
  {
    PlusEmpty(o);
  }

  lemma AddsSnoc(o: Out, o1: Out, o2: Out, o3: Out, args: Args, e: Expr)
    requires AddsA(o, o1, args) && AddsE(o1, o2, e) && AddsBytes(o2, o3, Encode(Push(RAX)))
    ensures AddsA(o, o3, Snoc(args, e))
  {
    hide Encode, Within, CodeA, CodeE, SitesA, SitesE, SizeA;
    var at := |o.text|;
    LenA(args, at, UNLINKED);
    SnocCode(args, e, at);
    SnocSites(args, e, at, KCall);
    SnocSites(args, e, at, KData);
    var da, de, dp := DeltaA(args, at), DeltaE(e, at + SizeA(args)), OfBytes(Encode(Push(RAX)));
    AddsTwice(o1, o2, o3, DeltaE(e, |o1.text|), dp, Plus(DeltaE(e, |o1.text|), dp));
    AddsTwice(o, o1, o3, da, Plus(de, dp), Plus(da, Plus(de, dp)));
    assert DeltaA(Snoc(args, e), at) == Plus(da, Plus(de, dp));
  }

  /** Pops, the opcode of call, and a field that is remembered. */
  lemma AddsCall(o: Out, o1: Out, o2: Out, o3: Out, o4: Out, fn: nat, args: Args)
    requires AddsA(o, o1, args) && AddsBytes(o1, o2, Bytes(PopArgs(ArgCount(args)))) && AddsBytes(o2, o3, [0xE8])
    requires Adds(o3, o4, Out(Le(0, 4), [Site(|o3.text|, fn)], [], [], true))
    ensures AddsE(o, o4, Call(fn, args))
  {
    hide Encode, Within, CodeA, SitesA, SizeA, Bytes, PopArgs, AsmLen;
    var at := |o.text|;
    LenA(args, at, UNLINKED);
    CallBytes(0);
    var pops := Bytes(PopArgs(ArgCount(args)));
    var at2 := at + SizeA(args) + |pops|;
    var da, dp, d3 := DeltaA(args, at), OfBytes(pops), Out(Le(0, 4), [Site(at2 + 1, fn)], [], [], true);
    AddsTwice(o, o1, o2, da, dp, Plus(da, dp));
    AddsTwice(o, o2, o3, Plus(da, dp), OfBytes([0xE8]), Plus(Plus(da, dp), OfBytes([0xE8])));
    AddsTwice(o, o3, o4, Plus(Plus(da, dp), OfBytes([0xE8])), d3, Plus(Plus(Plus(da, dp), OfBytes([0xE8])), d3));
    var ca := CodeA(args, at, UNLINKED);
    assert ((ca + pops) + [0xE8]) + Le(0, 4) == ca + (pops + ([0xE8] + Le(0, 4)));
    assert DeltaE(Call(fn, args), at) == Plus(Plus(Plus(da, dp), OfBytes([0xE8])), d3);
  }
}
