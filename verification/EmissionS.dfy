/** Emission of statements, including the forward jumps that are patched once their target is known. */
module EmissionS {
  import opened Words
  import opened X86
  import opened OreLang
  import opened Codegen
  import opened Relink
  import opened Emission

  /** o' is o with the field at offset at overwritten, if it is inside the text. */
  ghost predicate Patched(o: Out, o': Out, at: int, v: int) {
    && o' == o.(text := o'.text, safe := o.safe && 0 <= at && at + 4 <= TEXT_MAX) && |o'.text| == |o.text|
    && (0 <= at && at + 4 <= |o.text| ==> o'.text == Write32(o.text, at, v))
  }

  /** A contribution of the same shape: same tables, text of the same length. */
  ghost predicate SameShape(d: Out, d': Out) {
    |d.text| == |d'.text| && d.calls == d'.calls && d.refs == d'.refs && d.breaks == d'.breaks && d.safe == d'.safe
  }

  /** Appending d and then patching it into d' is appending d'. */
  lemma AddsPatched(o: Out, o1: Out, o2: Out, d: Out, d': Out, at: int, v: int)
    requires Adds(o, o1, d) && Patched(o1, o2, at, v) && SameShape(d, d')
    requires Within(Plus(o, d)) ==>
      |o.text| <= at && at + 4 <= |o1.text| && d'.text == Write32(d.text, at - |o.text|, v)
    ensures Adds(o, o2, d')
  {
    if Within(Plus(o, d')) {
      assert Within(Plus(o, d));
      assert o1 == Plus(o, d);
      var k := at - |o.text|;
      assert Write32(o.text + d.text, at, v) == o.text + Write32(d.text, k, v) by {
        assert (o.text + d.text)[..at] == o.text + d.text[..k];
        assert (o.text + d.text)[at + 4..] == d.text[k + 4..];
      }
    }
  }

  lemma WithinPrefix(o: Out, d1: Out, d2: Out)
    ensures Within(Plus(o, Plus(d1, d2))) ==> Within(Plus(o, d1))
  {
  }

  /** Overwriting the field of an instruction in the middle of a piece of code. */
  lemma WriteField(pre: seq<byte>, head: seq<byte>, was: int, post: seq<byte>, v: int)
    ensures Write32(pre + ((head + Le(was, 4)) + post), |pre| + |head|, v) == pre + ((head + Le(v, 4)) + post)
  {
    var s := pre + ((head + Le(was, 4)) + post);
    var at := |pre| + |head|;
    assert s[..at] == pre + head;
    assert s[at + 4..] == post;
  }

  lemma TestBytes(rel: int)
    ensures TestCode(rel) == (Encode(CmpRaxZero) + [0x0F, 0x84]) + Le(rel, 4)
      && |Encode(CmpRaxZero) + [0x0F, 0x84]| == 6
  {
    assert Encode(Je(rel)) == [0x0F, 0x84] + Le(rel, 4);
    assert Encode(CmpRaxZero) + ([0x0F, 0x84] + Le(rel, 4)) == (Encode(CmpRaxZero) + [0x0F, 0x84]) + Le(rel, 4);
  }

  // ----- straight statements -----

  lemma AddsSkip(o: Out, main: bool)
    ensures AddsS(o, o, Skip, main)
  {
    PlusEmpty(o);
  }

  lemma AddsSeq(o: Out, o1: Out, o2: Out, a: Stmt, b: Stmt, main: bool)
    requires AddsS(o, o1, a, main) && AddsS(o1, o2, b, main)
    ensures AddsS(o, o2, Seq(a, b), main)
  {
    hide Within, CodeS, SitesS, SizeS;
    var at := |o.text|;
    LenS(a, at, Ctx(-1, main, UNLINKED));
    SeqDelta(a, b, at, main);
    AddsTwice(o, o1, o2, DeltaS(a, at, main), DeltaS(b, at + SizeS(a, main), main), DeltaS(Seq(a, b), at, main));
  }

  lemma SeqDelta(a: Stmt, b: Stmt, at: nat, main: bool)
    ensures DeltaS(Seq(a, b), at, main) == Plus(DeltaS(a, at, main), DeltaS(b, at + SizeS(a, main), main))
  {
    SeqBytes(a, b, at, Ctx(-1, main, UNLINKED));
    SeqSites(a, b, at, main, KCall);
    SeqSites(a, b, at, main, KData);
    SeqSites(a, b, at, main, KBreak);
    hide CodeS, SitesS, SizeS;
  }

  /** An expression followed by fixed code: assignment, return, call. */
  lemma AddsAfterE(o: Out, o1: Out, o2: Out, e: Expr, b: seq<byte>, s: Stmt, main: bool)
    requires AddsE(o, o1, e) && AddsBytes(o1, o2, b)
    requires || (s.Assign? && s.e == e && b == Encode(StoreVar(s.slot, s.size)))
             || (s == Return(e) && b == Bytes(ReturnRax(main))) || (s == Do(e) && b == [])
    ensures AddsS(o, o2, s, main)
  {
    hide Within, CodeE, SitesE, SizeE, Encode, Bytes, ReturnRax, StoreVar;
    var at := |o.text|;
    var c := Ctx(-1, main, UNLINKED);
    assert CodeS(s, at, c) == CodeE(e, at, UNLINKED) + b;
    NoBreaksInE(e, at);
    assert SitesS(s, at, main, KCall) == SitesE(e, at, KCall) && SitesS(s, at, main, KData) == SitesE(e, at, KData)
           && SitesS(s, at, main, KBreak) == SitesE(e, at, KBreak);
    AddsTwice(o, o1, o2, DeltaE(e, at), OfBytes(b), DeltaS(s, at, main));
  }

  lemma {:induction false} NoBreaksInE(e: Expr, at: nat)
    ensures SitesE(e, at, KBreak) == []
    decreases e
  {
    hide SizeE;
    match e
    case Un(_, a) => NoBreaksInE(a, at);
    case Bin(_, a, b) => NoBreaksInE(a, at); NoBreaksInE(b, at + SizeE(a) + 1);
    case Call(_, args) => NoBreaksInA(args, at);
    case _ =>
  }

  lemma {:induction false} NoBreaksInA(args: Args, at: nat)
    ensures SitesA(args, at, KBreak) == []
    decreases args
  {
    hide SizeE;
    match args
    case NoArgs =>
    case Arg(e, tl) => NoBreaksInE(e, at); NoBreaksInA(tl, at + SizeE(e) + 1);
  }

  lemma AddsZero(o: Out, o1: Out, o2: Out, slot: nat, main: bool)
    requires AddsBytes(o, o1, Encode(MovImm(RAX, 0))) && AddsBytes(o1, o2, Encode(Store(RAX, SlotDisp(slot))))
    ensures AddsS(o, o2, OreLang.Zero(slot), main)
  {
    hide Within, Encode;
    AddsTwice(o, o1, o2, OfBytes(Encode(MovImm(RAX, 0))), OfBytes(Encode(Store(RAX, SlotDisp(slot)))),
              DeltaS(OreLang.Zero(slot), |o.text|, main));
  }

  /** A break: the opcode of jmp and a field that the enclosing loop remembers. */
  lemma AddsBreak(o: Out, o1: Out, o2: Out, main: bool)
    requires AddsBytes(o, o1, [0xE9]) && Adds(o1, o2, Out(Le(0, 4), [], [], [Site(|o1.text|, 0)], true))
    ensures AddsS(o, o2, Break, main)
  {
    hide Within, JmpCode;
    var at := |o.text|;
    JmpBytes(0);
    AddsTwice(o, o1, o2, OfBytes([0xE9]), Out(Le(0, 4), [], [], [Site(at + 1, 0)], true), DeltaS(Break, at, main));
  }

  // ----- conditionals -----

  /** Condition and unresolved test. */
  function TestDelta(e: Expr, at: nat, rel: int): Out { Plus(DeltaE(e, at), OfBytes(TestCode(rel))) }

  lemma AddsIf(o: Out, o1: Out, o2: Out, o3: Out, o4: Out, je: int, e: Expr, t: Stmt, main: bool)
    requires AddsE(o, o1, e) && AddsBytes(o1, o2, TestCode(0)) && (|o2.text| == |o1.text| + 10 ==> je == |o1.text| + 6)
    requires AddsS(o2, o3, t, main) && Patched(o3, o4, je, |o3.text| - (je + 4))
    ensures AddsS(o, o4, If(e, t), main)
  {
    hide Within, CodeS, SitesS, SizeS, CodeE, SitesE, SizeE, TestCode;
    var at := |o.text|;
    var at1 := at + SizeE(e) + 10;
    LenE(e, at, UNLINKED);
    LenS(t, at1, Ctx(-1, main, UNLINKED));
    IfDelta(e, t, at, main);
    var d1, dt := TestDelta(e, at, 0), DeltaS(t, at1, main);
    AddsTwice(o, o1, o2, DeltaE(e, at), OfBytes(TestCode(0)), d1);
    AddsTwice(o, o2, o3, d1, dt, Plus(d1, dt));
    var d' := Plus(TestDelta(e, at, |dt.text|), dt);
    WithinPrefix(o, d1, dt);
    WithinPrefix(o, DeltaE(e, at), OfBytes(TestCode(0)));
    TestPatch(DeltaE(e, at).text, dt.text, |dt.text|);
    AddsPatched(o, o3, o4, Plus(d1, dt), d', je, |o3.text| - (je + 4));
  }

  /** Resolving the test in front of a branch. */
  lemma TestPatch(ce: seq<byte>, ct: seq<byte>, rel: int)
    ensures Write32((ce + TestCode(0)) + ct, |ce| + 6, rel) == (ce + TestCode(rel)) + ct
  {
    var head := Encode(CmpRaxZero) + [0x0F, 0x84];
    TestBytes(0);
    TestBytes(rel);
    hide TestCode, Encode;
    WriteBehind(ce, head, ct, 0, rel);
  }

  lemma WriteBehind(ce: seq<byte>, head: seq<byte>, ct: seq<byte>, was: int, v: int)
    ensures Write32((ce + (head + Le(was, 4))) + ct, |ce| + |head|, v) == (ce + (head + Le(v, 4))) + ct
  {
    hide Le;
    var s, n := (ce + (head + Le(was, 4))) + ct, |ce| + |head|;
    assert s[..n] == ce + head;
    assert s[n + 4..] == ct;
    assert (ce + (head + Le(v, 4))) + ct == (ce + head) + Le(v, 4) + ct;
  }

  lemma IfDelta(e: Expr, t: Stmt, at: nat, main: bool)
    ensures var dt := DeltaS(t, at + SizeE(e) + 10, main);
            DeltaS(If(e, t), at, main) == Plus(TestDelta(e, at, |dt.text|), dt)
  {
    hide CodeE, SitesE, SizeE, TestCode, CodeS, SizeS, SitesS;
    NoBreaksInE(e, at);
    var c := Ctx(-1, main, UNLINKED);
    var at1 := at + SizeE(e) + 10;
    IfBytes(e, t, at, c);
    IfSites(e, t, at, main, KCall);
    IfSites(e, t, at, main, KData);
    IfSites(e, t, at, main, KBreak);
    var ce, ct := CodeE(e, at, UNLINKED), CodeS(t, at1, c);
    assert ce + (TestCode(|ct|) + ct) == (ce + TestCode(|ct|)) + ct;
    TestTables(SitesE(e, at, KCall), SitesS(t, at1, main, KCall));
    TestTables(SitesE(e, at, KData), SitesS(t, at1, main, KData));
    TestTables([], SitesS(t, at1, main, KBreak));
  }

  lemma TestTables(x: seq<Site>, y: seq<Site>)
    ensures x + y == (x + []) + y
  {
  }

  lemma IfElseDelta(e: Expr, t: Stmt, f: Stmt, at: nat, main: bool)
    ensures var at1 := at + SizeE(e) + 10;
            var dt, df := DeltaS(t, at1, main), DeltaS(f, at1 + SizeS(t, main) + 5, main);
            DeltaS(IfElse(e, t, f), at, main)
            == Plus(Plus(Plus(TestDelta(e, at, |dt.text| + 5), dt), OfBytes(JmpCode(|df.text|))), df)
  {
    var c := Ctx(-1, main, UNLINKED);
    hide CodeE, SitesE, SizeE, TestCode, JmpCode, CodeS, SizeS, SitesS;
    NoBreaksInE(e, at);
    IfElseBytes(e, t, f, at, c);
    IfElseSites(e, t, f, at, main, KCall);
    IfElseSites(e, t, f, at, main, KData);
    IfElseSites(e, t, f, at, main, KBreak);
    var at1 := at + SizeE(e) + 10;
    var ce, ct, cf := CodeE(e, at, UNLINKED), CodeS(t, at1, c), CodeS(f, at1 + SizeS(t, main) + 5, c);
    var test, jmp := TestCode(|ct| + 5), JmpCode(|cf|);
    assert ce + (test + (ct + (jmp + cf))) == (((ce + test) + ct) + jmp) + cf;
    DeltaTables(SitesE(e, at, KCall), SitesS(t, at1, main, KCall), SitesS(f, at1 + SizeS(t, main) + 5, main, KCall));
    DeltaTables(SitesE(e, at, KData), SitesS(t, at1, main, KData), SitesS(f, at1 + SizeS(t, main) + 5, main, KData));
    DeltaTables([], SitesS(t, at1, main, KBreak), SitesS(f, at1 + SizeS(t, main) + 5, main, KBreak));
  }

  lemma DeltaTables(x: seq<Site>, y: seq<Site>, z: seq<Site>)
    ensures x + (y + z) == (((x + []) + y) + []) + z
  {
  }

  /** jend belongs to the jump over the else branch. */
  lemma AddsIfElse(o: Out, o1: Out, o2: Out, o3: Out, o4: Out, o5: Out, o6: Out, o7: Out, je: int, jend: int,
                   e: Expr, t: Stmt, f: Stmt, main: bool)
    requires AddsE(o, o1, e) && AddsBytes(o1, o2, TestCode(0)) && (|o2.text| == |o1.text| + 10 ==> je == |o1.text| + 6)
    requires AddsS(o2, o3, t, main) && AddsBytes(o3, o4, JmpCode(0))
      && (|o4.text| == |o3.text| + 5 ==> jend == |o3.text| + 1)
    requires Patched(o4, o5, je, |o4.text| - (je + 4))
    requires AddsS(o5, o6, f, main) && Patched(o6, o7, jend, |o6.text| - (jend + 4))
    ensures AddsS(o, o7, IfElse(e, t, f), main)
  {
    hide Within, CodeS, SitesS, SizeS, CodeE, SitesE, SizeE, TestCode, JmpCode;
    var at := |o.text|;
    var at1 := at + SizeE(e) + 10;
    var at2 := at1 + SizeS(t, main) + 5;
    LenE(e, at, UNLINKED);
    LenS(t, at1, Ctx(-1, main, UNLINKED));
    LenS(f, at2, Ctx(-1, main, UNLINKED));
    var de, dt, df, dj := DeltaE(e, at), DeltaS(t, at1, main), DeltaS(f, at2, main), OfBytes(JmpCode(0));
    var d1 := TestDelta(e, at, 0);
    AddsTwice(o, o1, o2, de, OfBytes(TestCode(0)), d1);
    AddsTwice(o, o2, o3, d1, dt, Plus(d1, dt));
    var d4 := Plus(Plus(d1, dt), dj);
    AddsTwice(o, o3, o4, Plus(d1, dt), dj, d4);
    WithinPrefix(o, Plus(d1, dt), dj);
    WithinPrefix(o, d1, dt);
    WithinPrefix(o, de, OfBytes(TestCode(0)));
    JmpLen(0);
    TestPatched(o, o4, o5, je, e, at, dt, dj);
    WithinShape(o, d4, Plus(Plus(TestDelta(e, at, |dt.text| + 5), dt), dj));
    AddsIfElseTail(o, o5, o6, o7, jend, Plus(TestDelta(e, at, |dt.text| + 5), dt), at2, f, main);
    IfElseDelta(e, t, f, at, main);
  }

  lemma ElsePatch(ce: seq<byte>, ct: seq<byte>, jmp: seq<byte>, rel: int)
    ensures Write32(((ce + TestCode(0)) + ct) + jmp, |ce| + 6, rel) == ((ce + TestCode(rel)) + ct) + jmp
  {
    hide TestCode;
    TestPatch(ce, ct + jmp, rel);
    assert ((ce + TestCode(0)) + ct) + jmp == (ce + TestCode(0)) + (ct + jmp);
    assert ((ce + TestCode(rel)) + ct) + jmp == (ce + TestCode(rel)) + (ct + jmp);
  }

  /** Behind the branch or the loop and its jump the test is patched to go there. */
  lemma TestPatched(o: Out, o4: Out, o5: Out, je: int, e: Expr, at: nat, d3: Out, dj: Out)
    requires |o.text| == at && Adds(o, o4, Plus(Plus(TestDelta(e, at, 0), d3), dj))
    requires Patched(o4, o5, je, |o4.text| - (je + 4))
    requires Within(Plus(o, Plus(Plus(TestDelta(e, at, 0), d3), dj))) ==> je == at + SizeE(e) + 6
    ensures Adds(o, o5, Plus(Plus(TestDelta(e, at, |d3.text| + |dj.text|), d3), dj))
  {
    hide Within, CodeE, SitesE, SizeE, TestCode, Write32;
    LenE(e, at, UNLINKED);
    TestLen(0);
    TestLen(|d3.text| + |dj.text|);
    ElsePatch(CodeE(e, at, UNLINKED), d3.text, dj.text, |d3.text| + |dj.text|);
    AddsPatched(o, o4, o5, Plus(Plus(TestDelta(e, at, 0), d3), dj),
      Plus(Plus(TestDelta(e, at, |d3.text| + |dj.text|), d3), dj), je, |o4.text| - (je + 4));
  }

  lemma TestLen(rel: int)
    ensures |TestCode(rel)| == 10
  {
  }

  lemma WithinShape(o: Out, d: Out, d': Out)
    requires SameShape(d, d')
    ensures Within(Plus(o, d)) == Within(Plus(o, d'))
  {
  }

  lemma JmpPatch(head: seq<byte>, tail: seq<byte>, rel: int)
    ensures Write32((head + JmpCode(0)) + tail, |head| + 1, rel) == (head + JmpCode(rel)) + tail
  {
    JmpBytes(0);
    JmpBytes(rel);
    hide JmpCode, Le;
    WriteField(head, [0xE9], 0, tail, rel);
    assert (head + JmpCode(0)) + tail == head + (([0xE9] + Le(0, 4)) + tail);
    assert (head + JmpCode(rel)) + tail == head + (([0xE9] + Le(rel, 4)) + tail);
  }

  lemma JmpLen(rel: int)
    ensures |JmpCode(rel)| == 5
  {
  }

  /** Behind both branches the jump over the second one is patched. */
  lemma AddsIfElseTail(o: Out, o5: Out, o6: Out, o7: Out, jend: int, head: Out, at2: nat, f: Stmt, main: bool)
    requires Adds(o, o5, Plus(head, OfBytes(JmpCode(0)))) && AddsS(o5, o6, f, main)
    requires Patched(o6, o7, jend, |o6.text| - (jend + 4)) && |o.text| + |head.text| + 5 == at2
    requires Within(Plus(o, Plus(head, OfBytes(JmpCode(0))))) ==> jend == at2 - 4
    ensures var df := DeltaS(f, at2, main); Adds(o, o7, Plus(Plus(head, OfBytes(JmpCode(|df.text|))), df))
  {
    hide Within, DeltaS, JmpCode, Write32;
    var df := DeltaS(f, at2, main);
    var d5, d7 := Plus(head, OfBytes(JmpCode(0))), Plus(Plus(head, OfBytes(JmpCode(|df.text|))), df);
    JmpLen(0);
    JmpLen(|df.text|);
    AddsTwice(o, o5, o6, d5, df, Plus(d5, df));
    WithinPrefix(o, d5, df);
    JmpPatch(head.text, df.text, |df.text|);
    AddsPatched(o, o6, o7, Plus(d5, df), d7, jend, |o6.text| - (jend + 4));
  }

  // ----- loops -----

  function NoBreaks(o: Out): Out { o.(breaks := []) }

  lemma AddsNoBreaks(o: Out, o': Out, d: Out)
    requires Adds(o, o', d)
    ensures Adds(NoBreaks(o), NoBreaks(o'), NoBreaks(d))
  {
    assert Within(Plus(NoBreaks(o), NoBreaks(d))) ==> Within(Plus(o, d));
  }

  /** o' is o with the remembered breaks filled in, if they are inside the text. */
  ghost predicate BreaksPatched(o: Out, o': Out, sites: seq<Site>, target: int) {
    && o' == o.(text := o'.text, safe := o'.safe) && (Inside(sites, 0, |o.text|) ==> o'.safe == o.safe)
    && (Inside(sites, 0, |o.text|) ==> o'.text == PatchSites(o.text, 0, sites, KBreak, Ctx(target, false, UNLINKED)))
  }

  lemma AddsBreaksPatched(o: Out, o1: Out, o2: Out, d: Out, d': Out, sites: seq<Site>, target: int)
    requires Adds(o, o1, d) && BreaksPatched(o1, o2, sites, target) && SameShape(d, d')
    requires Within(Plus(o, d)) ==> Becomes(d.text, d'.text, |o.text|, sites, KBreak, Ctx(target, false, UNLINKED))
    ensures Adds(o, o2, d')
  {
    hide PatchSites;
    if Within(Plus(o, d')) {
      assert Within(Plus(o, d));
      PatchRight(o.text, d.text, 0, sites, KBreak, Ctx(target, false, UNLINKED));
    }
  }

  lemma WhileDelta(e: Expr, b: Stmt, at: nat, main: bool)
    ensures var at1, end := at + SizeE(e) + 10, at + SizeS(While(e, b), main);
            var cb := CodeS(b, at1, Ctx(end, main, UNLINKED));
            var db := DeltaS(b, at1, main);
            && |cb| == |db.text| && end == at1 + |cb| + 5
            && DeltaS(While(e, b), at, main)
               == Plus(Plus(TestDelta(e, at, |cb| + 5), NoBreaks(db).(text := cb)), OfBytes(JmpCode(at - end)))
  {
    var c := Ctx(-1, main, UNLINKED);
    hide CodeE, SitesE, SizeE, TestCode, JmpCode, CodeS, SizeS, SitesS;
    NoBreaksInE(e, at);
    var at1, end := at + SizeE(e) + 10, at + SizeS(While(e, b), main);
    LenE(e, at, UNLINKED);
    LenS(b, at1, c);
    LenS(b, at1, Ctx(end, main, UNLINKED));
    Relink.UnfoldWhile(e, b, at, c, KCall);
    Relink.UnfoldWhile(e, b, at, c, KData);
    Relink.UnfoldWhile(e, b, at, c, KBreak);
    var ce, cb := CodeE(e, at, UNLINKED), CodeS(b, at1, Ctx(end, main, UNLINKED));
    assert ce + (TestCode(|cb| + 5) + (cb + JmpCode(at - end))) == ((ce + TestCode(|cb| + 5)) + cb) + JmpCode(at - end);
    LoopTables(SitesE(e, at, KCall), SitesS(b, at1, main, KCall));
    LoopTables(SitesE(e, at, KData), SitesS(b, at1, main, KData));
    LoopTables([], []);
  }

  lemma LoopTables(x: seq<Site>, y: seq<Site>)
    ensures x + y == ((x + []) + y) + []
  {
  }

  /**
   A loop: the body is compiled with a fresh list of breaks, the back jump is known at once, the test is
   patched to the end, every recorded break is patched to the end, and the list is dropped.
   */
  lemma AddsWhile(o: Out, o1: Out, o2: Out, o3: Out, o4: Out, o5: Out, o6: Out, je: int, e: Expr, b: Stmt, main: bool)
    requires AddsE(o, o1, e) && AddsBytes(o1, o2, TestCode(0)) && (|o2.text| == |o1.text| + 10 ==> je == |o1.text| + 6)
    requires AddsS(NoBreaks(o2), o3, b, main) && AddsBytes(o3, o4, JmpCode(|o.text| - (|o3.text| + 5)))
    requires Patched(o4, o5, je, |o4.text| - (je + 4)) && BreaksPatched(o5, o6, o3.breaks, |o5.text|)
    ensures AddsS(o, o6.(breaks := o.breaks), While(e, b), main)
  {
    hide Within, CodeS, SitesS, SizeS, CodeE, SitesE, SizeE, TestCode, JmpCode, BreaksPatched;
    var at := |o.text|;
    var at1, end := at + SizeE(e) + 10, at + SizeS(While(e, b), main);
    LenE(e, at, UNLINKED);
    WhileDelta(e, b, at, main);
    NoBreaksInE(e, at);
    var de, db := DeltaE(e, at), DeltaS(b, at1, main);
    var d1, d3, dj := TestDelta(e, at, 0), NoBreaks(db), OfBytes(JmpCode(at - end));
    AddsTwice(o, o1, o2, de, OfBytes(TestCode(0)), d1);
    AddsNoBreaks(o, o2, d1);
    assert NoBreaks(d1) == d1;
    LoopBody(NoBreaks(o), NoBreaks(o2), o3, o4, d1, at1, at, end, b, main);
    WithinPrefix(NoBreaks(o), Plus(d1, d3), dj);
    WithinPrefix(NoBreaks(o), d1, d3);
    WithinPrefix(NoBreaks(o), de, OfBytes(TestCode(0)));
    WithinSame(o, de);
    WithinSame(o, d1);
    JmpLen(at - end);
    TestPatched(NoBreaks(o), NoBreaks(o4), NoBreaks(o5), je, e, at, d3, dj);
    var d5 := Plus(Plus(TestDelta(e, at, |db.text| + 5), d3), dj);
    LoopEnd(o, NoBreaks(o2), o3, o5, o6, d1, d5, e, b, at, at1, end, main);
  }

  lemma WithinSame(o: Out, d: Out)
    ensures Within(Plus(NoBreaks(o), d)) == Within(Plus(o, d))
  {
  }

  lemma LoopBody(o: Out, o2: Out, o3: Out, o4: Out, d1: Out, at1: nat, at: nat, end: int, b: Stmt, main: bool)
    requires Adds(o, o2, d1) && |o.text| + |d1.text| == at1 && o.breaks == o2.breaks == [] && |o.text| == at
    requires AddsS(o2, o3, b, main) && AddsBytes(o3, o4, JmpCode(at - (|o3.text| + 5)))
    requires end == at1 + |DeltaS(b, at1, main).text| + 5
    ensures Adds(o, NoBreaks(o4), Plus(Plus(d1, NoBreaks(DeltaS(b, at1, main))), OfBytes(JmpCode(at - end))))
  {
    hide Within, CodeS, SitesS, SizeS, JmpCode;
    var db := DeltaS(b, at1, main);
    var dj := OfBytes(JmpCode(at - (|o3.text| + 5)));
    AddsNoBreaks(o2, o3, DeltaS(b, |o2.text|, main));
    AddsTwice(o, o2, NoBreaks(o3), d1, NoBreaks(db), Plus(d1, NoBreaks(db)));
    AddsNoBreaks(o3, o4, dj);
    AddsTwice(o, NoBreaks(o3), NoBreaks(o4), Plus(d1, NoBreaks(db)), OfBytes(JmpCode(at - end)),
              Plus(Plus(d1, NoBreaks(db)), OfBytes(JmpCode(at - end))));
  }

  lemma LoopEnd(o: Out, o2: Out, o3: Out, o5: Out, o6: Out, d1: Out, d5: Out, e: Expr, b: Stmt, at: nat, at1: nat,
      end: nat,
                main: bool)
    requires at == |o.text| && at1 == at + |CodeE(e, at, UNLINKED)| + 10 && o2.breaks == []
    requires Adds(NoBreaks(o), o2, d1) && |d1.text| == at1 - at && AddsS(o2, o3, b, main)
    requires end == at1 + |DeltaS(b, at1, main).text| + 5
    requires d1.calls == SitesE(e, at, KCall) && d1.refs == SitesE(e, at, KData)
    requires d5 == Plus(Plus(TestDelta(e, at, |DeltaS(b, at1, main).text| + 5), NoBreaks(DeltaS(b, at1, main))),
      OfBytes(JmpCode(at - end)))
    requires Adds(NoBreaks(o), NoBreaks(o5), d5) && BreaksPatched(o5, o6, o3.breaks, |o5.text|)
    ensures var cb := CodeS(b, at1, Ctx(end, main, UNLINKED));
            |cb| == |DeltaS(b, at1, main).text|
            && Adds(o, o6.(breaks := o.breaks),
                    Plus(Plus(TestDelta(e, at, |cb| + 5), NoBreaks(DeltaS(b, at1, main)).(text := cb)),
                      OfBytes(JmpCode(at - end))))
  {
    hide Within, CodeS, SitesS, SizeS, CodeE, SitesE, SizeE, TestCode, JmpCode;
    var db := DeltaS(b, at1, main);
    var c, c' := Ctx(-1, main, UNLINKED), Ctx(end, main, UNLINKED);
    var cb := CodeS(b, at1, c');
    LenS(b, at1, c);
    LenS(b, at1, c');
    RelinkS(b, at1, c, c', KBreak);
    BecomesCtx(db.text, cb, at1, db.breaks, KBreak, c', Ctx(end, false, UNLINKED));
    var head, jmp := CodeE(e, at, UNLINKED) + TestCode(|cb| + 5), JmpCode(at - end);
    BecomesAfter(head, db.text, cb, at, db.breaks, KBreak, Ctx(end, false, UNLINKED));
    BecomesBefore(head + db.text, head + cb, jmp, at, db.breaks, KBreak, Ctx(end, false, UNLINKED));
    var d6 := Plus(Plus(TestDelta(e, at, |cb| + 5), NoBreaks(db).(text := cb)), OfBytes(jmp));
    LoopWithin(NoBreaks(o), o2, o3, d1, d5, db);
    AddsBreaksPatched(NoBreaks(o), NoBreaks(o5), NoBreaks(o6), d5, d6, o3.breaks, |o5.text|);
    NoBreaksBack(o, o6, d6);
  }

  lemma LoopWithin(o: Out, o2: Out, o3: Out, d1: Out, d5: Out, db: Out)
    requires Adds(o, o2, d1) && (|o2.text| == |o.text| + |d1.text| ==> Adds(o2, o3, db)) && o2.breaks == []
    requires |d1.text| + |db.text| <= |d5.text|
    requires |d1.calls| + |db.calls| <= |d5.calls| && |d1.refs| + |db.refs| <= |d5.refs|
    ensures Within(Plus(o, d5)) ==> o3.breaks == db.breaks
  {
  }

  lemma NoBreaksBack(o: Out, o6: Out, d: Out)
    requires Adds(NoBreaks(o), NoBreaks(o6), d) && d.breaks == []
    ensures Adds(o, o6.(breaks := o.breaks), d)
  {
    WithinSame(o, d);
  }
}
