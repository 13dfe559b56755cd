/**
 Loading an OreImage into a new process: text at USER_BASE, data on the next page boundary, eight pages of
 stack, everything else of the pages zero.
 */
module Loader {
  import opened Words
  import opened Pmm
  import opened PageTables
  import opened Vmm
  import opened Ownership
  import opened UserMemory
  import opened Image

  const STACK_TOP: nat := 0x90_0000_0000
  const STACK_PAGES: nat := 8

  /** Pages of root from start up to stop that were not mapped show zeros now; nobody sees any other difference. */
  ghost predicate Zeroed(hs: Homes, kernel: nat, ts: Tables, ram: Ram, ts': Tables, ram': Ram, root: nat, start: nat,
      stop: nat) {
    forall r, v: nat :: Private(hs, kernel, r, v / 4096) ==>
      Seen(ts', ram', r, v) ==
        if r == root && start <= v / 4096 < stop && Seen(ts, ram, r, v).None? then Some(0) else Seen(ts, ram, r, v)
  }

  lemma ZeroedStart(hs: Homes, kernel: nat, ts: Tables, ram: Ram, root: nat, start: nat)
    ensures Zeroed(hs, kernel, ts, ram, ts, ram, root, start, start)
  {
  }

  /** One more page: either it was mapped already or it is new and zero. */
  lemma ZeroedStep(hs: Homes, kernel: nat, ts: Tables, ram: Ram, ts1: Tables, ram1: Ram, ts2: Tables, ram2: Ram,
      hs2: Homes, root: nat, start: nat, page: nat)
    requires Zeroed(hs, kernel, ts, ram, ts1, ram1, root, start, page) && start <= page
    requires forall r, p: nat :: Private(hs2, kernel, r, p) ==> Private(hs, kernel, r, p)
    requires forall v: nat :: v / 4096 == page && Private(hs, kernel, root, v / 4096) ==> Seen(ts1, ram1, root, v).None?
    requires Shown(hs2, kernel, ts1, ram1, ts2, ram2, root, page, page + 1, Some(0))
    ensures Zeroed(hs2, kernel, ts, ram, ts2, ram2, root, start, page + 1)
  {
    hide Private, Seen;
  }

  lemma ZeroedSkip(hs: Homes, kernel: nat, ts: Tables, ram: Ram, ts1: Tables, ram1: Ram, root: nat, start: nat,
      page: nat)
    requires Zeroed(hs, kernel, ts, ram, ts1, ram1, root, start, page) && start <= page
    requires forall v: nat :: v / 4096 == page && Private(hs, kernel, root, v / 4096) ==> Seen(ts1, ram1, root, v).Some?
    ensures Zeroed(hs, kernel, ts, ram, ts1, ram1, root, start, page + 1)
  {
    hide Private, Seen;
  }

  lemma PrivateKept(ts: Tables, hs: Homes, ts': Tables, hs': Homes, kernel: nat)
    requires Grown(ts, hs, ts', hs')
    ensures forall r, p: nat :: Private(hs, kernel, r, p) <==> Private(hs', kernel, r, p)
  {
    hide UserPage;
    forall r ensures IsRoot(hs, r) <==> IsRoot(hs', r) {}
  }

  /** A page is mapped for all its bytes or for none. */
  lemma PageSeen(ts: Tables, hs: Homes, kernel: nat, busy: seq<bool>, fixed: seq<bool>, root: nat, page: nat,
      ram: Ram, v: nat)
    requires Owned(ts, hs, kernel, busy, fixed) && Private(hs, kernel, root, page) && Whole(ram, |busy|)
    requires 0 < |fixed| && fixed[0] && v / 4096 == page
    ensures Seen(ts, ram, root, v).Some? <==> Translate(ts, root, page * 4096) != 0
  {
    FrameOf(ts, hs, kernel, busy, fixed, root, page * 4096, ram);
    FrameOf(ts, hs, kernel, busy, fixed, root, v, ram);
  }

  lemma GrownTwice(ts: Tables, hs: Homes, ts1: Tables, hs1: Homes, ts2: Tables, hs2: Homes)
    requires Grown(ts, hs, ts1, hs1) && Grown(ts1, hs1, ts2, hs2)
    ensures Grown(ts, hs, ts2, hs2)
  {
  }

  /** map_zeroed_user_pages, in pages. */
  method MapZeroed(sys: System, i: nat, start: nat, stop: nat, flags: Flags) returns (a: Answer, ghost at: nat)
    requires sys.Valid() && i < |sys.procs| && USER_BASE / 4096 <= start <= stop <= USER_LIMIT / 4096
    requires Untouched(sys.procs[i], start, stop - start)
    modifies sys`ram, sys.vmm`tables, sys.vmm`homes, sys.vmm.pmm`free, sys.vmm.pmm`used, sys.vmm.pmm`busy,
      sys.vmm.pmm.bitmap
    ensures !a.Panic? ==> sys.Valid() && Grown(old(sys.vmm.tables), old(sys.vmm.homes), sys.vmm.tables, sys.vmm.homes)
    ensures !a.Panic? ==> start <= at <= stop
    ensures !a.Panic? ==>
      Zeroed(sys.vmm.homes, sys.vmm.kernel, old(sys.vmm.tables), old(sys.ram), sys.vmm.tables, sys.ram,
      sys.procs[i].root, start, at)
    ensures a.Done? ==> at == stop
    ensures a.Fail? ==> a.code == ENOMEM
    ensures var need := stop - start + NewTables(old(sys.vmm.tables), sys.procs[i].root, start, stop - start);
      && (!a.Done? ==> Spare(old(sys.vmm.pmm.busy)) < need)
      && (a.Done? ==> Spare(old(sys.vmm.pmm.busy)) <= Spare(sys.vmm.pmm.busy) + need)
    ensures a.Done? && start < stop ==> Missing(sys.vmm.tables, sys.procs[i].root, 4, stop - 1) == 0
  {
    hide Manager.Valid, Tree, Owned, Grown, Entry, Leaf, Present, Procs, Zeroed, Shown, Seen, Private, Untouched,
         UserPage, Whole, Isolated, Changed, FreeRun, Spare, Missing, NewTables, Spent, Translate;
    var root := sys.procs[i].root;
    ghost var m := Missing(sys.vmm.tables, root, 4, start);
    SpentNone(Spare(sys.vmm.pmm.busy), m, start, stop);
    NewTablesAre(sys.vmm.tables, root, start, stop);
    Still(sys);
    ZeroedStart(sys.vmm.homes, sys.vmm.kernel, sys.vmm.tables, sys.ram, root, start);
    var page := start;
    while page < stop
      invariant start <= page <= stop && sys.Valid()
      invariant Grown(old(sys.vmm.tables), old(sys.vmm.homes), sys.vmm.tables, sys.vmm.homes)
      invariant Zeroed(sys.vmm.homes, sys.vmm.kernel, old(sys.vmm.tables), old(sys.ram), sys.vmm.tables, sys.ram,
        root, start, page)
      invariant Spent(Spare(old(sys.vmm.pmm.busy)), Spare(sys.vmm.pmm.busy), m, start, page)
      invariant page == start ==> sys.vmm.tables == old(sys.vmm.tables) && sys.vmm.pmm.busy == old(sys.vmm.pmm.busy)
      invariant page > start ==> Missing(sys.vmm.tables, root, 4, page - 1) == 0
    {
      ghost var ts, hs, ram, spare := sys.vmm.tables, sys.vmm.homes, sys.ram, Spare(sys.vmm.pmm.busy);
      PageState(sys, i, page);
      TablesBehind(sys, i, start, page);
      var phys := sys.vmm.VirtToPhys(root, page * 4096);
      if phys == 0 {
        UntouchedPage(sys.procs[i], start, stop, page);
        a := sys.Give(i, page, 1, Flags(true, flags.user, flags.nx));
        OneTables(ts, root, page);
        SpentStep(Spare(old(sys.vmm.pmm.busy)), spare, Spare(sys.vmm.pmm.busy), m, start, page, stop,
          Missing(ts, root, 4, page), a);
        if a.Fail? { return a, page; }
        if a.Panic? { return a, page; }
        PageGiven(sys, i, ts, page, a.value, Flags(true, flags.user, flags.nx));
        GrownTwice(old(sys.vmm.tables), old(sys.vmm.homes), ts, hs, sys.vmm.tables, sys.vmm.homes);
        PrivateKept(ts, hs, sys.vmm.tables, sys.vmm.homes, sys.vmm.kernel);
        ZeroedStep(hs, sys.vmm.kernel, old(sys.vmm.tables), old(sys.ram), ts, ram, sys.vmm.tables, sys.ram,
          sys.vmm.homes, root, start, page);
      } else {
        ZeroedSkip(hs, sys.vmm.kernel, old(sys.vmm.tables), old(sys.ram), ts, ram, root, start, page);
        SpentSkip(Spare(old(sys.vmm.pmm.busy)), spare, m, start, page);
        PageMapped(sys, i, page);
      }
      page := page + 1;
    }
    return Done(0), page;
  }

  // ----- how many pages a range takes -----

  /** At most one page and the tables that start there were taken for each page of a range. */
  predicate Spent(before: nat, after: nat, m: nat, start: nat, stop: nat) {
    start <= stop && before <= after + (stop - start) + TablesFor(m, start, stop)
  }

  lemma SpentNone(before: nat, m: nat, start: nat, stop: nat)
    ensures Spent(before, before, m, start, start)
    ensures stop == start ==> TablesFor(m, start, stop) == 0
  {
  }

  lemma NewTablesAre(ts: Tables, root: nat, start: nat, stop: nat)
    requires start <= stop
    ensures NewTables(ts, root, start, stop - start) == TablesFor(Missing(ts, root, 4, start), start, stop)
    ensures forall before: nat, after: nat ::
      Spent(before, after, Missing(ts, root, 4, start), start, stop) ==>
        before <= after + (stop - start) + NewTables(ts, root, start, stop - start)
  {
    hide Missing;
  }

  lemma OneTables(ts: Tables, root: nat, page: nat)
    ensures NewTables(ts, root, page, 1) == Missing(ts, root, 4, page)
  {
    hide Missing;
  }

  lemma SpentStep(before: nat, mid: nat, after: nat, m: nat, start: nat, page: nat, stop: nat, k: nat, a: Answer)
    requires start <= page < stop && Spent(before, mid, m, start, page)
    requires if page == start then k == m else k <= Borders(page)
    requires (a.Done? ==> mid <= after + 1 + k) && (!a.Done? ==> mid < 1 + k)
    ensures a.Done? ==> Spent(before, after, m, start, page + 1)
    ensures !a.Done? ==> before < stop - start + TablesFor(m, start, stop)
  {
    if page > start { CrossedStep(start, page); } else { CrossedStep(start, start + 1); }
    TablesMore(m, start, page + 1, stop);
  }

  lemma SpentSkip(before: nat, after: nat, m: nat, start: nat, page: nat)
    requires start <= page && Spent(before, after, m, start, page)
    ensures Spent(before, after, m, start, page + 1)
  {
    if page > start { TablesMore(m, start, page, page + 1); }
  }

  /** What is missing for a page behind one that has its tables. */
  lemma TablesBehind(sys: System, i: nat, start: nat, page: nat)
    requires sys.Valid() && i < |sys.procs| && start <= page
    requires page > start ==> Missing(sys.vmm.tables, sys.procs[i].root, 4, page - 1) == 0
    ensures page > start ==> Missing(sys.vmm.tables, sys.procs[i].root, 4, page) <= Borders(page)
  {
    hide Manager.Valid, Missing, Borders;
    sys.vmm.Parts();
    RootOf(sys.vmm.tables, sys.vmm.homes, sys.vmm.kernel, sys.procs, i);
    if page > start { NextMissing(sys.vmm.tables, sys.vmm.homes, sys.vmm.kernel, sys.procs[i].root, page); }
  }

  lemma PageGiven(sys: System, i: nat, ts: Tables, page: nat, frame: nat, flags: Flags)
    requires sys.Valid() && i < |sys.procs| && page < SPACE
    requires Changed(ts, sys.vmm.tables, sys.procs[i].root, page, page + 1, Mapping(frame, flags))
    ensures Missing(sys.vmm.tables, sys.procs[i].root, 4, page) == 0
  {
    hide Manager.Valid, Missing, Entry, Pte;
    sys.vmm.Parts();
    RootOf(sys.vmm.tables, sys.vmm.homes, sys.vmm.kernel, sys.procs, i);
    PteParts(frame, flags);
    assert Entry(sys.vmm.tables, sys.procs[i].root, page) ==
      Edited(Mapping(frame, flags), 0, Entry(ts, sys.procs[i].root, page));
    MappedNone(sys.vmm.tables, sys.vmm.homes, sys.vmm.kernel, sys.procs[i].root, page);
  }

  lemma PageMapped(sys: System, i: nat, page: nat)
    requires sys.Valid() && i < |sys.procs| && Translate(sys.vmm.tables, sys.procs[i].root, page * 4096) != 0
    ensures Missing(sys.vmm.tables, sys.procs[i].root, 4, page) == 0
  {
    hide Manager.Valid, Missing, Entry, Frame;
    sys.vmm.Parts();
    RootOf(sys.vmm.tables, sys.vmm.homes, sys.vmm.kernel, sys.procs, i);
    assert page * 4096 / 4096 == page;
    MappedNone(sys.vmm.tables, sys.vmm.homes, sys.vmm.kernel, sys.procs[i].root, page);
  }

  lemma UntouchedPage(p: Proc, start: nat, stop: nat, page: nat)
    requires start <= page < stop && Untouched(p, start, stop - start)
    ensures Untouched(p, page, 1)
  {
  }

  lemma Still(sys: System)
    requires sys.Valid()
    ensures Grown(sys.vmm.tables, sys.vmm.homes, sys.vmm.tables, sys.vmm.homes)
  {
    sys.vmm.Parts();
  }

  lemma PageState(sys: System, i: nat, page: nat)
    requires sys.Valid() && i < |sys.procs| && USER_BASE / 4096 <= page < USER_LIMIT / 4096
    ensures IsRoot(sys.vmm.homes, sys.procs[i].root) && UserPage(page)
    ensures forall v: nat :: v / 4096 == page ==>
      (Seen(sys.vmm.tables, sys.ram, sys.procs[i].root, v).Some? <==>
        Translate(sys.vmm.tables, sys.procs[i].root, page * 4096) != 0)
  {
    hide Manager.Valid, Tree, Entry, Seen, Translate;
    sys.vmm.Parts();
    RootOf(sys.vmm.tables, sys.vmm.homes, sys.vmm.kernel, sys.procs, i);
    UserRange(page);
    forall v: nat | v / 4096 == page
      ensures Seen(sys.vmm.tables, sys.ram, sys.procs[i].root, v).Some? <==>
        Translate(sys.vmm.tables, sys.procs[i].root, page * 4096) != 0
    {
      PageSeen(sys.vmm.tables, sys.vmm.homes, sys.vmm.kernel, sys.vmm.pmm.busy, sys.vmm.pmm.fixed, sys.procs[i].root,
        page, sys.ram, v);
    }
  }

  // ----- copying -----

  lemma CopiedStart(hs: Homes, kernel: nat, ts: Tables, ram: Ram, root: nat, va: nat)
    ensures Copied(hs, kernel, ts, ram, ram, root, va, [])
  {
  }

  lemma CopiedStep(hs: Homes, kernel: nat, ts: Tables, ram: Ram, ram1: Ram, ram2: Ram, root: nat, va: nat,
      bytes: seq<byte>, b: byte)
    requires Copied(hs, kernel, ts, ram, ram1, root, va, bytes)
      && Copied(hs, kernel, ts, ram1, ram2, root, va + |bytes|, [b])
    ensures Copied(hs, kernel, ts, ram, ram2, root, va, bytes + [b])
  {
    hide Private, Seen;
  }

  /** Copying changes no mapping: the same addresses are seen before and after. */
  lemma CopiedSame(hs: Homes, kernel: nat, ts: Tables, ram: Ram, ram': Ram, root: nat, va: nat, bytes: seq<byte>,
      v: nat)
    requires Copied(hs, kernel, ts, ram, ram', root, va, bytes) && v >= va + |bytes|
      && Private(hs, kernel, root, v / 4096)
    ensures Seen(ts, ram', root, v) == Seen(ts, ram, root, v)
  {
  }

  /** copy_to_user_phys: byte by byte through the page table, up to the first address that is not mapped. */
  method CopyTo(sys: System, i: nat, va: nat, bytes: seq<byte>) returns (ok: bool, ghost done: nat)
    requires sys.Valid() && i < |sys.procs| && USER_BASE <= va && va + |bytes| <= USER_LIMIT
    modifies sys`ram, sys.vmm`tables, sys.vmm`homes, sys.vmm.pmm`free, sys.vmm.pmm`used, sys.vmm.pmm`busy,
      sys.vmm.pmm.bitmap
    ensures sys.Valid() && sys.vmm.tables == old(sys.vmm.tables) && sys.vmm.homes == old(sys.vmm.homes)
      && sys.vmm.pmm.busy == old(sys.vmm.pmm.busy)
    ensures done <= |bytes| && (ok <==> done == |bytes|)
    ensures Copied(sys.vmm.homes, sys.vmm.kernel, sys.vmm.tables, old(sys.ram), sys.ram, sys.procs[i].root, va,
      bytes[..done])
    ensures !ok ==> Seen(sys.vmm.tables, old(sys.ram), sys.procs[i].root, va + done).None?
  {
    hide Manager.Valid, Tree, Owned, Entry, Leaf, Present, Procs, Copied, Seen, Private, UserPage, Whole;
    var root := sys.procs[i].root;
    CopiedStart(sys.vmm.homes, sys.vmm.kernel, sys.vmm.tables, sys.ram, root, va);
    for off := 0 to |bytes|
      invariant sys.Valid() && sys.vmm.tables == old(sys.vmm.tables) && sys.vmm.homes == old(sys.vmm.homes)
        && sys.vmm.pmm.busy == old(sys.vmm.pmm.busy)
      invariant Copied(sys.vmm.homes, sys.vmm.kernel, sys.vmm.tables, old(sys.ram), sys.ram, root, va, bytes[..off])
    {
      ghost var ram := sys.ram;
      IsPrivate(sys, i, va + off);
      CopiedSame(sys.vmm.homes, sys.vmm.kernel, sys.vmm.tables, old(sys.ram), ram, root, va, bytes[..off], va + off);
      ok := sys.PokeUser(i, va + off, bytes[off]);
      if !ok { return false, off; }
      CopiedStep(sys.vmm.homes, sys.vmm.kernel, sys.vmm.tables, old(sys.ram), ram, sys.ram, root, va, bytes[..off],
        bytes[off]);
      assert bytes[..off + 1] == bytes[..off] + [bytes[off]];
    }
    return true, |bytes|;
  }

  lemma IsPrivate(sys: System, i: nat, v: nat)
    requires sys.Valid() && i < |sys.procs| && USER_BASE <= v < USER_LIMIT
    ensures Private(sys.vmm.homes, sys.vmm.kernel, sys.procs[i].root, v / 4096) && UserPage(v / 4096)
  {
    RootOf(sys.vmm.tables, sys.vmm.homes, sys.vmm.kernel, sys.procs, i);
    UserRange(v / 4096);
  }

  // ----- the stack -----

  /** All entries from lo up to hi carry exactly the given flags. */
  ghost predicate Flagged(ts: Tables, root: nat, lo: nat, hi: nat, flags: Flags) {
    forall p: nat :: lo <= p < hi ==> Entry(ts, root, p) == Pte(Frame(Entry(ts, root, p)), flags)
  }

  /** Entries outside lo..hi are what they were. */
  ghost predicate Elsewhere(ts: Tables, ts': Tables, root: nat, lo: nat, hi: nat) {
    forall p: nat :: p < SPACE && !(lo <= p < hi) ==> Entry(ts', root, p) == Entry(ts, root, p)
  }

  lemma StackStep(hs: Homes, kernel: nat, ts: Tables, ram: Ram, ts1: Tables, ram1: Ram, ts2: Tables, ram2: Ram,
      hs2: Homes,
                  root: nat, lo: nat, page: nat, frame: nat, flags: Flags)
    requires Shown(hs, kernel, ts, ram, ts1, ram1, root, lo, page, Some(0)) && lo <= page < SPACE
    requires forall r, p: nat :: Private(hs2, kernel, r, p) ==> Private(hs, kernel, r, p)
    requires Shown(hs2, kernel, ts1, ram1, ts2, ram2, root, page, page + 1, Some(0))
    requires Flagged(ts1, root, lo, page, flags) && Elsewhere(ts, ts1, root, lo, page)
    requires Changed(ts1, ts2, root, page, page + 1, Mapping(frame, flags))
    ensures Shown(hs2, kernel, ts, ram, ts2, ram2, root, lo, page + 1, Some(0))
    ensures Flagged(ts2, root, lo, page + 1, flags) && Elsewhere(ts, ts2, root, lo, page + 1)
  {
    hide Private, Seen, Entry, Pte, Frame;
    PteParts(frame, flags);
    PteAgain(frame, flags);
  }

  lemma PteAgain(frame: nat, flags: Flags)
    ensures Pte(Frame(Pte(frame, flags)), flags) == Pte(frame, flags)
  {
    PteParts(frame, flags);
  }

  lemma StackStart(hs: Homes, kernel: nat, ts: Tables, ram: Ram, root: nat, lo: nat, flags: Flags)
    ensures Shown(hs, kernel, ts, ram, ts, ram, root, lo, lo, Some(0)) && Flagged(ts, root, lo, lo, flags)
      && Elsewhere(ts, ts, root, lo, lo)
  {
  }

  /** The stack lies under one last-level table. */
  lemma StackTables(m: nat)
    ensures TablesFor(m, STACK_TOP / 4096 - STACK_PAGES, STACK_TOP / 4096) == m
  {
  }

  lemma StackSpent(before: nat, after: nat, m: nat)
    requires Spent(before, after, m, STACK_TOP / 4096 - STACK_PAGES, STACK_TOP / 4096)
    ensures before <= after + STACK_PAGES + m
  {
    StackTables(m);
  }

  method MapStack(sys: System, i: nat) returns (a: Answer)
    requires sys.Valid() && i < |sys.procs|
    requires Untouched(sys.procs[i], STACK_TOP / 4096 - STACK_PAGES, STACK_PAGES)
    modifies sys`ram, sys.vmm`tables, sys.vmm`homes, sys.vmm.pmm`free, sys.vmm.pmm`used, sys.vmm.pmm`busy,
      sys.vmm.pmm.bitmap
    ensures !a.Panic? ==> sys.Valid() && Grown(old(sys.vmm.tables), old(sys.vmm.homes), sys.vmm.tables, sys.vmm.homes)
    ensures a.Fail? ==> a.code == ENOMEM
    ensures !a.Panic? ==>
      OthersSame(old(sys.vmm.tables), old(sys.vmm.homes), sys.vmm.kernel, old(sys.ram), sys.vmm.tables, sys.ram,
      sys.procs[i].root)
    ensures a.Done? ==> Shown(sys.vmm.homes, sys.vmm.kernel, old(sys.vmm.tables), old(sys.ram), sys.vmm.tables, sys.ram,
                              sys.procs[i].root, STACK_TOP / 4096 - STACK_PAGES, STACK_TOP / 4096, Some(0))
    ensures a.Done? ==>
      Flagged(sys.vmm.tables, sys.procs[i].root, STACK_TOP / 4096 - STACK_PAGES, STACK_TOP / 4096,
      Flags(true, true, true))
    ensures a.Done? ==>
      Elsewhere(old(sys.vmm.tables), sys.vmm.tables, sys.procs[i].root, STACK_TOP / 4096 - STACK_PAGES,
      STACK_TOP / 4096)
    ensures var m := Missing(old(sys.vmm.tables), sys.procs[i].root, 4, STACK_TOP / 4096 - STACK_PAGES);
      && (!a.Done? ==> Spare(old(sys.vmm.pmm.busy)) < STACK_PAGES + m)
      && (a.Done? ==> Spare(old(sys.vmm.pmm.busy)) <= Spare(sys.vmm.pmm.busy) + STACK_PAGES + m)
  {
    hide Manager.Valid, Tree, Owned, Grown, Entry, Leaf, Present, Procs, Shown, Seen, Private, Untouched, UserPage,
         Whole, Isolated, Changed, FreeRun, Flagged, Elsewhere, OthersSame, Spare, Missing, Spent, NewTables;
    var root := sys.procs[i].root;
    var lo := STACK_TOP / 4096 - STACK_PAGES;
    ghost var m := Missing(sys.vmm.tables, root, 4, lo);
    SpentNone(Spare(sys.vmm.pmm.busy), m, lo, lo);
    StackTables(m);
    var flags := Flags(true, true, true);
    Still(sys);
    StackStart(sys.vmm.homes, sys.vmm.kernel, sys.vmm.tables, sys.ram, root, lo, flags);
    var page := lo;
    while page < STACK_TOP / 4096
      invariant lo <= page <= STACK_TOP / 4096 && sys.Valid()
      invariant Grown(old(sys.vmm.tables), old(sys.vmm.homes), sys.vmm.tables, sys.vmm.homes)
      invariant Shown(sys.vmm.homes, sys.vmm.kernel, old(sys.vmm.tables), old(sys.ram), sys.vmm.tables, sys.ram, root,
        lo, page, Some(0))
      invariant Flagged(sys.vmm.tables, root, lo, page, flags)
        && Elsewhere(old(sys.vmm.tables), sys.vmm.tables, root, lo, page)
      invariant Spent(Spare(old(sys.vmm.pmm.busy)), Spare(sys.vmm.pmm.busy), m, lo, page)
      invariant page == lo ==> sys.vmm.tables == old(sys.vmm.tables) && sys.vmm.pmm.busy == old(sys.vmm.pmm.busy)
      invariant page > lo ==> Missing(sys.vmm.tables, root, 4, page - 1) == 0
    {
      ghost var ts, hs, ram, spare := sys.vmm.tables, sys.vmm.homes, sys.ram, Spare(sys.vmm.pmm.busy);
      UntouchedPage(sys.procs[i], lo, STACK_TOP / 4096, page);
      TablesBehind(sys, i, lo, page);
      a := sys.Give(i, page, 1, flags);
      OneTables(ts, root, page);
      SpentStep(Spare(old(sys.vmm.pmm.busy)), spare, Spare(sys.vmm.pmm.busy), m, lo, page, STACK_TOP / 4096,
        Missing(ts, root, 4, page), a);
      if a.Panic? { return; }
      if a.Fail? {
        ShownOthers(old(sys.vmm.tables), old(sys.vmm.homes), sys.vmm.tables, sys.vmm.homes, sys.vmm.kernel,
          old(sys.ram), sys.ram, root, lo, page, Some(0));
        return;
      }
      GrownTwice(old(sys.vmm.tables), old(sys.vmm.homes), ts, hs, sys.vmm.tables, sys.vmm.homes);
      PrivateKept(ts, hs, sys.vmm.tables, sys.vmm.homes, sys.vmm.kernel);
      StackStep(hs, sys.vmm.kernel, old(sys.vmm.tables), old(sys.ram), ts, ram, sys.vmm.tables, sys.ram,
        sys.vmm.homes, root, lo, page, a.value, flags);
      PageGiven(sys, i, ts, page, a.value, flags);
      page := page + 1;
    }
    StackSpent(Spare(old(sys.vmm.pmm.busy)), Spare(sys.vmm.pmm.busy), m);
    ShownOthers(old(sys.vmm.tables), old(sys.vmm.homes), sys.vmm.tables, sys.vmm.homes, sys.vmm.kernel, old(sys.ram),
      sys.ram, root, lo, page, Some(0));
    return Done(0);
  }

  lemma ShownOthers(ts: Tables, hs: Homes, ts': Tables, hs': Homes, kernel: nat, ram: Ram, ram': Ram, root: nat,
      lo: nat, hi: nat, what: Option<byte>)
    requires Grown(ts, hs, ts', hs') && Shown(hs', kernel, ts, ram, ts', ram', root, lo, hi, what)
    ensures OthersSame(ts, hs, kernel, ram, ts', ram', root)
  {
    PrivateKept(ts, hs, ts', hs', kernel);
    hide Private, Seen, Grown;
  }

  // ----- the image in memory -----

  const TEXT: nat := USER_BASE / 4096

  /** What the process at root sees of its sections: text pages up to page mid, data pages up to page end. */
  function Section(text: seq<byte>, data: seq<byte>, mid: nat, end: nat, v: nat): Option<byte> {
    if TEXT <= v / 4096 < mid then Some(if v - USER_BASE < |text| then text[v - USER_BASE] else 0)
    else if mid <= v / 4096 < end then Some(if v - mid * 4096 < |data| then data[v - mid * 4096] else 0)
    else None
  }

  ghost predicate Sections(ts: Tables, ram: Ram, root: nat, text: seq<byte>, data: seq<byte>, mid: nat, end: nat) {
    forall v: nat :: UserPage(v / 4096) ==> Seen(ts, ram, root, v) == Section(text, data, mid, end, v)
  }

  predicate Sized(text: seq<byte>, data: seq<byte>, mid: nat, end: nat) {
    TEXT < mid < end <= TEXT + 256 && USER_BASE + |text| <= mid * 4096 && mid * 4096 + |data| <= end * 4096
  }

  lemma SectionsAt(hs: Homes, kernel: nat, ts: Tables, ram: Ram, ts1: Tables, ram1: Ram, ts2: Tables, ram2: Ram,
      ram3: Ram, ram4: Ram,
                   root: nat, text: seq<byte>, data: seq<byte>, mid: nat, end: nat, v: nat)
    requires Private(hs, kernel, root, v / 4096) && At(ts, root, v / 4096).None? && Sized(text, data, mid, end)
    requires Zeroed(hs, kernel, ts, ram, ts1, ram1, root, TEXT, mid)
      && Zeroed(hs, kernel, ts1, ram1, ts2, ram2, root, mid, end)
    requires Copied(hs, kernel, ts2, ram2, ram3, root, USER_BASE, text)
      && Copied(hs, kernel, ts2, ram3, ram4, root, mid * 4096, data)
    ensures Seen(ts2, ram4, root, v) == Section(text, data, mid, end, v)
  {
    hide Private, At;
    assert Seen(ts, ram, root, v).None?;
    hide Seen;
  }

  lemma ZeroedSame(ts: Tables, hs: Homes, ts1: Tables, hs1: Homes, kernel: nat, ts0: Tables, ram0: Ram, ram: Ram,
      root: nat, lo: nat, hi: nat)
    requires Grown(ts, hs, ts1, hs1) && Zeroed(hs, kernel, ts0, ram0, ts, ram, root, lo, hi)
    ensures Zeroed(hs1, kernel, ts0, ram0, ts, ram, root, lo, hi)
  {
    PrivateKept(ts, hs, ts1, hs1, kernel);
    hide Private, Seen, Grown;
  }

  /** After both sections are mapped, every one of their addresses is. */
  lemma Mapped(hs: Homes, kernel: nat, ts: Tables, ram: Ram, ts1: Tables, ram1: Ram, ts2: Tables, ram2: Ram,
      root: nat, mid: nat, end: nat, v: nat)
    requires Private(hs, kernel, root, v / 4096) && TEXT <= v / 4096 < end && mid <= end
    requires Zeroed(hs, kernel, ts, ram, ts1, ram1, root, TEXT, mid)
      && Zeroed(hs, kernel, ts1, ram1, ts2, ram2, root, mid, end)
    ensures Seen(ts2, ram2, root, v).Some?
  {
    hide Private, Seen;
  }

  lemma CopiedSome(hs: Homes, kernel: nat, ts: Tables, ram: Ram, ram': Ram, root: nat, va: nat, bytes: seq<byte>,
      v: nat)
    requires Private(hs, kernel, root, v / 4096) && Copied(hs, kernel, ts, ram, ram', root, va, bytes)
      && Seen(ts, ram, root, v).Some?
    ensures Seen(ts, ram', root, v).Some?
  {
    hide Private, Seen;
  }

  lemma NoRegions(p: Proc, start: nat, n: nat)
    requires p == NewProc(p.root)
    ensures Untouched(p, start, n)
  {
  }

  lemma ZeroedOthers(ts: Tables, hs: Homes, ts': Tables, hs': Homes, kernel: nat, ram: Ram, ram': Ram, root: nat,
      lo: nat, hi: nat)
    requires Grown(ts, hs, ts', hs') && Zeroed(hs', kernel, ts, ram, ts', ram', root, lo, hi)
    ensures OthersSame(ts, hs, kernel, ram, ts', ram', root)
  {
    PrivateKept(ts, hs, ts', hs', kernel);
    hide Private, Seen, Grown;
  }

  lemma CopiedOthers(ts: Tables, hs: Homes, kernel: nat, ram: Ram, ram': Ram, root: nat, va: nat, bytes: seq<byte>)
    requires Copied(hs, kernel, ts, ram, ram', root, va, bytes)
    ensures OthersSame(ts, hs, kernel, ram, ts, ram', root)
  {
    hide Private, Seen;
  }

  lemma OthersTwice(ts: Tables, hs: Homes, ts1: Tables, hs1: Homes, ts2: Tables, kernel: nat, ram: Ram, ram1: Ram,
      ram2: Ram, root: nat)
    requires Grown(ts, hs, ts1, hs1)
    requires OthersSame(ts, hs, kernel, ram, ts1, ram1, root) && OthersSame(ts1, hs1, kernel, ram1, ts2, ram2, root)
    ensures OthersSame(ts, hs, kernel, ram, ts2, ram2, root)
  {
    PrivateKept(ts, hs, ts1, hs1, kernel);
    hide Private, Seen, Grown;
  }

  lemma SectionsAll(hs: Homes, kernel: nat, ts: Tables, ram: Ram, ts1: Tables, ram1: Ram, ts2: Tables, ram2: Ram,
      ram3: Ram, ram4: Ram,
                    root: nat, text: seq<byte>, data: seq<byte>, mid: nat, end: nat)
    requires IsRoot(hs, root) && root != kernel && Empty(ts, root) && Sized(text, data, mid, end)
    requires Zeroed(hs, kernel, ts, ram, ts1, ram1, root, TEXT, mid)
      && Zeroed(hs, kernel, ts1, ram1, ts2, ram2, root, mid, end)
    requires Copied(hs, kernel, ts2, ram2, ram3, root, USER_BASE, text)
      && Copied(hs, kernel, ts2, ram3, ram4, root, mid * 4096, data)
    ensures Sections(ts2, ram4, root, text, data, mid, end)
  {
    hide Seen, Zeroed, Copied, At, UserPage, Section;
    forall v: nat | UserPage(v / 4096) ensures Seen(ts2, ram4, root, v) == Section(text, data, mid, end, v) {
      SectionsAt(hs, kernel, ts, ram, ts1, ram1, ts2, ram2, ram3, ram4, root, text, data, mid, end, v);
    }
  }

  ghost predicate Fresh(sys: System, i: nat)
    reads sys, sys.vmm
  {
    i < |sys.procs| && sys.procs[i] == NewProc(sys.procs[i].root) && Empty(sys.vmm.tables, sys.procs[i].root)
  }

  /** The sections lie under one last-level table. */
  lemma TextTables(ts: Tables, root: nat, mid: nat)
    requires TEXT < mid <= TEXT + 256
    ensures NewTables(ts, root, TEXT, mid - TEXT) <= 3
  {
    hide Missing;
    MissingBound(ts, root, 4, TEXT);
    OneTable(TEXT, mid);
  }

  lemma DataTables(ts: Tables, root: nat, mid: nat, end: nat)
    requires TEXT < mid < end <= TEXT + 256 && Missing(ts, root, 4, mid) <= Borders(mid)
    ensures NewTables(ts, root, mid, end - mid) == 0
  {
    hide Missing;
    OneTable(mid, end);
    assert mid % 512 != 0;
    BordersNest(mid);
  }

  lemma OneTable(start: nat, stop: nat)
    requires TEXT <= start < stop <= TEXT + 256
    ensures Crossed(start, stop) == 0
  {
    assert start / 512 == (stop - 1) / 512;
    assert start / 0x4_0000 == (stop - 1) / 0x4_0000 && start / 0x800_0000 == (stop - 1) / 0x800_0000;
  }

  /** Both sections of an image: map them, then copy their bytes. Fails only when there are no pages left. */
  method LoadSections(sys: System, i: nat, text: seq<byte>, data: seq<byte>, mid: nat, end: nat) returns (a: Answer)
    requires sys.Valid() && Fresh(sys, i) && Sized(text, data, mid, end)
    modifies sys`ram, sys.vmm`tables, sys.vmm`homes, sys.vmm.pmm`free, sys.vmm.pmm`used, sys.vmm.pmm`busy,
      sys.vmm.pmm.bitmap
    ensures !a.Panic? ==> sys.Valid() && Grown(old(sys.vmm.tables), old(sys.vmm.homes), sys.vmm.tables, sys.vmm.homes)
    ensures a.Fail? ==> a.code == ENOMEM
    ensures !a.Panic? ==>
      OthersSame(old(sys.vmm.tables), old(sys.vmm.homes), sys.vmm.kernel, old(sys.ram), sys.vmm.tables, sys.ram,
      sys.procs[i].root)
    ensures a.Done? ==> Sections(sys.vmm.tables, sys.ram, sys.procs[i].root, text, data, mid, end)
    ensures !a.Done? ==> Spare(old(sys.vmm.pmm.busy)) < end - TEXT + 3
    ensures a.Done? ==> Spare(old(sys.vmm.pmm.busy)) <= Spare(sys.vmm.pmm.busy) + (end - TEXT) + 3
    ensures a.Done? ==> Missing(sys.vmm.tables, sys.procs[i].root, 4, end - 1) == 0
  {
    hide Manager.Valid, Tree, Owned, Grown, Entry, Leaf, Present, Procs, Shown, Seen, Private, UserPage, Whole,
         OthersSame, Zeroed, Copied, Sections, Empty, Spare, Missing, NewTables;
    TextTables(sys.vmm.tables, sys.procs[i].root, mid);
    ghost var ts, hs, ram, kernel := sys.vmm.tables, sys.vmm.homes, sys.ram, sys.vmm.kernel;
    ghost var root := sys.procs[i].root;
    NoRegions(sys.procs[i], TEXT, mid - TEXT);
    NoRegions(sys.procs[i], mid, end - mid);
    ghost var at;
    a, at := MapZeroed(sys, i, TEXT, mid, Flags(false, true, false));
    if a.Panic? { return; }
    ghost var ts1, hs1, ram1 := sys.vmm.tables, sys.vmm.homes, sys.ram;
    ZeroedOthers(ts, hs, ts1, hs1, kernel, ram, ram1, root, TEXT, at);
    if a.Fail? { return; }
    TablesBehind(sys, i, TEXT, mid);
    DataTables(sys.vmm.tables, root, mid, end);
    a, at := MapZeroed(sys, i, mid, end, Flags(false, true, true));
    if a.Panic? { return; }
    ghost var ts2, hs2, ram2 := sys.vmm.tables, sys.vmm.homes, sys.ram;
    ZeroedOthers(ts1, hs1, ts2, hs2, kernel, ram1, ram2, root, mid, at);
    GrownTwice(ts, hs, ts1, hs1, ts2, hs2);
    OthersTwice(ts, hs, ts1, hs1, ts2, kernel, ram, ram1, ram2, root);
    if a.Fail? { return; }
    ZeroedSame(ts1, hs1, ts2, hs2, kernel, ts, ram, ram1, root, TEXT, mid);
    var ok; ghost var done;
    ok, done := CopyTo(sys, i, USER_BASE, text);
    ghost var ram3 := sys.ram;
    CopiedOthers(ts2, hs2, kernel, ram2, ram3, root, USER_BASE, text[..done]);
    OthersTwice(ts, hs, ts2, hs2, ts2, kernel, ram, ram2, ram3, root);
    if !ok {
      IsPrivate(sys, i, USER_BASE + done);
      Mapped(hs2, kernel, ts, ram, ts1, ram1, ts2, ram2, root, mid, end, USER_BASE + done);
      assert false;
    }
    assert text[..done] == text;
    ok, done := CopyTo(sys, i, mid * 4096, data);
    CopiedOthers(ts2, hs2, kernel, ram3, sys.ram, root, mid * 4096, data[..done]);
    OthersTwice(ts, hs, ts2, hs2, ts2, kernel, ram, ram3, sys.ram, root);
    if !ok {
      IsPrivate(sys, i, mid * 4096 + done);
      Mapped(hs2, kernel, ts, ram, ts1, ram1, ts2, ram2, root, mid, end, mid * 4096 + done);
      CopiedSome(hs2, kernel, ts2, ram2, ram3, root, USER_BASE, text, mid * 4096 + done);
      assert false;
    }
    assert data[..done] == data;
    IsPrivate(sys, i, USER_BASE);
    RootOf(sys.vmm.tables, sys.vmm.homes, kernel, sys.procs, i);
    SectionsAll(hs2, kernel, ts, ram, ts1, ram1, ts2, ram2, ram3, sys.ram, root, text, data, mid, end);
    return Done(0);
  }

  // ----- protection -----

  const EXECUTE := Flags(false, true, false)
  const WRITE := Flags(true, true, true)

  /** Text is executable and not writable; data and stack are writable and not executable. */
  ghost predicate Protected(ts: Tables, root: nat, mid: nat, end: nat) {
    && Flagged(ts, root, TEXT, mid, EXECUTE) && Flagged(ts, root, mid, end, WRITE)
    && Flagged(ts, root, STACK_TOP / 4096 - STACK_PAGES, STACK_TOP / 4096, WRITE)
  }

  lemma FlaggedBy(ts: Tables, ts': Tables, root: nat, lo: nat, hi: nat, flags: Flags)
    requires Changed(ts, ts', root, lo, hi, Flagging(flags)) && hi <= SPACE
    ensures Flagged(ts', root, lo, hi, flags) && Elsewhere(ts, ts', root, lo, hi)
  {
    hide Entry, Pte, Frame;
    forall p: nat | lo <= p < hi ensures Entry(ts', root, p) == Pte(Frame(Entry(ts', root, p)), flags) {
      PteAgain(Frame(Entry(ts, root, p)), flags);
    }
  }

  lemma FlaggedStill(ts: Tables, ts': Tables, root: nat, lo: nat, hi: nat, flags: Flags, from: nat, to: nat)
    requires Flagged(ts, root, lo, hi, flags) && Elsewhere(ts, ts', root, from, to) && hi <= SPACE
      && (hi <= from || to <= lo)
    ensures Flagged(ts', root, lo, hi, flags)
  {
    hide Entry, Pte, Frame;
  }

  /** Where nothing that is seen changes, the sections stay. */
  lemma SectionsStill(hs: Homes, kernel: nat, ts: Tables, ts': Tables, ram: Ram, root: nat, text: seq<byte>,
      data: seq<byte>, mid: nat, end: nat)
    requires Sections(ts, ram, root, text, data, mid, end) && Shown(hs, kernel, ts, ram, ts', ram, root, 0, 0, None)
    requires IsRoot(hs, root) && root != kernel
    ensures Sections(ts', ram, root, text, data, mid, end)
  {
    hide Seen, Section, UserPage;
    forall v: nat | UserPage(v / 4096) ensures Seen(ts', ram, root, v) == Section(text, data, mid, end, v) {
      assert Private(hs, kernel, root, v / 4096);
    }
  }

  /** The whole address space of a loaded program. */
  ghost predicate Loaded(ts: Tables, ram: Ram, root: nat, text: seq<byte>, data: seq<byte>, mid: nat, end: nat) {
    forall v: nat :: UserPage(v / 4096) ==> Seen(ts, ram, root, v) == LoadedByte(text, data, mid, end, v)
  }

  function LoadedByte(text: seq<byte>, data: seq<byte>, mid: nat, end: nat, v: nat): Option<byte> {
    if STACK_TOP - STACK_PAGES * 4096 <= v < STACK_TOP then Some(0) else Section(text, data, mid, end, v)
  }

  lemma LoadedAll(hs: Homes, kernel: nat, ts: Tables, ts': Tables, ram: Ram, ram': Ram, root: nat, text: seq<byte>,
      data: seq<byte>, mid: nat, end: nat)
    requires Sections(ts, ram, root, text, data, mid, end) && IsRoot(hs, root) && root != kernel
    requires Shown(hs, kernel, ts, ram, ts', ram', root, STACK_TOP / 4096 - STACK_PAGES, STACK_TOP / 4096, Some(0))
    ensures Loaded(ts', ram', root, text, data, mid, end)
  {
    hide Seen, Section, UserPage;
    forall v: nat | UserPage(v / 4096)
      ensures Seen(ts', ram', root, v) == LoadedByte(text, data, mid, end, v)
    {
      assert Private(hs, kernel, root, v / 4096);
    }
  }

  /** No page of a loaded program is both writable and executable. */
  lemma WriteXorExecute(ts: Tables, ram: Ram, root: nat, text: seq<byte>, data: seq<byte>, mid: nat, end: nat, v: nat)
    requires Loaded(ts, ram, root, text, data, mid, end) && Protected(ts, root, mid, end)
    requires UserPage(v / 4096) && Seen(ts, ram, root, v).Some?
    ensures exists f ::
      Entry(ts, root, v / 4096) == Pte(Frame(Entry(ts, root, v / 4096)), f) && f.user && f.write == f.nx
  {
    hide Seen, Entry, Pte, Frame, UserPage;
    var p := v / 4096;
    if TEXT <= p < mid {
      assert Entry(ts, root, p) == Pte(Frame(Entry(ts, root, p)), EXECUTE);
    } else {
      assert Entry(ts, root, p) == Pte(Frame(Entry(ts, root, p)), WRITE);
    }
  }

  /** A section page is mapped. */
  lemma SectionMapped(ts: Tables, ram: Ram, root: nat, text: seq<byte>, data: seq<byte>, mid: nat, end: nat, p: nat)
    requires Sections(ts, ram, root, text, data, mid, end) && TEXT <= p < end && mid <= end && UserPage(p)
    ensures At(ts, root, p).Some?
  {
    hide At, UserPage;
    var v := p * 4096;
    assert v / 4096 == p && Seen(ts, ram, root, v) == Section(text, data, mid, end, v);
  }

  lemma OthersRefl(ts: Tables, hs: Homes, kernel: nat, ram: Ram, root: nat)
    ensures OthersSame(ts, hs, kernel, ram, ts, ram, root)
  {
  }

  /** Once a page of the sections has its tables, two are missing for the stack at most. */
  lemma NearStack(ts: Tables, ts2: Tables, hs: Homes, kernel: nat, root: nat, sys: System, i: nat, q: nat)
    requires sys.Valid() && i < |sys.procs| && root == sys.procs[i].root && kernel == sys.vmm.kernel
    requires ts2 == sys.vmm.tables && hs == sys.vmm.homes && Tree(ts, hs, kernel) && Grown(ts, hs, ts2, hs)
    requires TEXT <= q < TEXT + 256 && Missing(ts, root, 4, q) == 0
    ensures Missing(ts2, root, 4, STACK_TOP / 4096 - STACK_PAGES) <= 2
  {
    hide Manager.Valid, Missing, Grown;
    sys.vmm.Parts();
    RootOf(ts2, hs, kernel, sys.procs, i);
    hide Tree;
    MissingGrown(ts, hs, ts2, hs, kernel, root, 4, q);
    SameSlot(q, STACK_TOP / 4096 - STACK_PAGES);
    MissingNear(ts2, hs, kernel, root, 4, STACK_TOP / 4096 - STACK_PAGES, q, 3);
  }

  lemma SameSlot(q: nat, p: nat)
    requires TEXT <= q < TEXT + 256 && p == STACK_TOP / 4096 - STACK_PAGES
    ensures Prefix(3, q) == Prefix(3, p)
  {
    Prefixes(q);
    Prefixes(p);
    hide Prefix;
    Nested(q);
    Nested(p);
  }

  /** Protect both sections and add the stack. */
  method Finish(sys: System, i: nat, ghost text: seq<byte>, ghost data: seq<byte>, textSize: nat, size: nat, mid: nat,
      end: nat) returns (a: Answer)
    requires sys.Valid() && i < |sys.procs| && sys.procs[i] == NewProc(sys.procs[i].root) && Sized(text, data, mid, end)
    requires Sections(sys.vmm.tables, sys.ram, sys.procs[i].root, text, data, mid, end)
    requires (USER_BASE + AlignUp(textSize) + 4095) / 4096 == mid && (mid * 4096 + AlignUp(size) + 4095) / 4096 == end
    requires Missing(sys.vmm.tables, sys.procs[i].root, 4, end - 1) == 0
    modifies sys`ram, sys.vmm`tables, sys.vmm`homes, sys.vmm.pmm`free, sys.vmm.pmm`used, sys.vmm.pmm`busy,
      sys.vmm.pmm.bitmap
    ensures !a.Panic? ==> sys.Valid()
    ensures a.Fail? ==> a.code == ENOMEM
    ensures !a.Panic? ==>
      OthersSame(old(sys.vmm.tables), old(sys.vmm.homes), sys.vmm.kernel, old(sys.ram), sys.vmm.tables, sys.ram,
      sys.procs[i].root)
    ensures a.Done? ==> Loaded(sys.vmm.tables, sys.ram, sys.procs[i].root, text, data, mid, end)
    ensures a.Done? ==> Protected(sys.vmm.tables, sys.procs[i].root, mid, end)
    ensures !a.Done? ==> Spare(old(sys.vmm.pmm.busy)) < STACK_PAGES + 2
    ensures a.Done? ==> Spare(old(sys.vmm.pmm.busy)) <= Spare(sys.vmm.pmm.busy) + STACK_PAGES + 2
  {
    hide Manager.Valid, Tree, Owned, Grown, Entry, Leaf, Present, Procs, Shown, Seen, Private, UserPage, Whole,
         OthersSame, Loaded, Flagged, Elsewhere, Sections, Changed, AlignUp, At, Spare, Missing;
    ghost var ts, hs, ram, kernel := sys.vmm.tables, sys.vmm.homes, sys.ram, sys.vmm.kernel;
    ghost var root := sys.procs[i].root;
    NoRegions(sys.procs[i], STACK_TOP / 4096 - STACK_PAGES, STACK_PAGES);
    sys.vmm.Parts();
    RootOf(sys.vmm.tables, sys.vmm.homes, kernel, sys.procs, i);
    var ok; ghost var stop;
    ok, stop := sys.ProtectUser(i, USER_BASE, AlignUp(textSize), EXECUTE);
    if !ok {
      UserRange(stop);
      SectionMapped(ts, ram, root, text, data, mid, end, stop);
      assert false;
    }
    ghost var ts1 := sys.vmm.tables;
    FlaggedBy(ts, ts1, root, TEXT, mid, EXECUTE);
    ShownOthers(ts, hs, ts1, hs, kernel, ram, ram, root, 0, 0, None);
    SectionsStill(hs, kernel, ts, ts1, ram, root, text, data, mid, end);
    ok, stop := sys.ProtectUser(i, mid * 4096, AlignUp(size), WRITE);
    if !ok {
      UserRange(stop);
      SectionMapped(ts1, ram, root, text, data, mid, end, stop);
      assert false;
    }
    ghost var ts2 := sys.vmm.tables;
    FlaggedBy(ts1, ts2, root, mid, end, WRITE);
    FlaggedStill(ts1, ts2, root, TEXT, mid, EXECUTE, mid, end);
    ShownOthers(ts1, hs, ts2, hs, kernel, ram, ram, root, 0, 0, None);
    SectionsStill(hs, kernel, ts1, ts2, ram, root, text, data, mid, end);
    OthersTwice(ts, hs, ts1, hs, ts2, kernel, ram, ram, ram, root);
    GrownTwice(ts, hs, ts1, hs, ts2, hs);
    NearStack(ts, ts2, hs, kernel, root, sys, i, end - 1);
    a := MapStack(sys, i);
    if a.Panic? { return; }
    OthersTwice(ts, hs, ts2, hs, sys.vmm.tables, kernel, ram, ram, sys.ram, root);
    if a.Fail? { return; }
    FlaggedStill(ts2, sys.vmm.tables, root, TEXT, mid, EXECUTE, STACK_TOP / 4096 - STACK_PAGES, STACK_TOP / 4096);
    FlaggedStill(ts2, sys.vmm.tables, root, mid, end, WRITE, STACK_TOP / 4096 - STACK_PAGES, STACK_TOP / 4096);
    RootOf(sys.vmm.tables, sys.vmm.homes, kernel, sys.procs, i);
    LoadedAll(sys.vmm.homes, kernel, ts2, sys.vmm.tables, ram, sys.ram, root, text, data, mid, end);
  }

  function TextOf(image: seq<byte>): seq<byte>
    requires Accepts(image) && ReadHeader(image).relocCount == 0
  {
    AcceptsBounds(image);
    var h := ReadHeader(image);
    image[h.headerSize..h.headerSize + h.textSize]
  }

  function DataOf(image: seq<byte>): seq<byte>
    requires Accepts(image) && ReadHeader(image).relocCount == 0
  {
    AcceptsBounds(image);
    var h := ReadHeader(image);
    image[h.headerSize + h.textSize..h.headerSize + h.textSize + h.dataSize]
  }

  /** The first page after the text. */
  function Mid(h: Header): nat { (USER_BASE + h.textSize + 4095) / 4096 }

  /** The first page after data and zero-initialised data, which get a page even when there is none. */
  function End(h: Header): nat {
    var total := h.dataSize + h.bssSize;
    (Mid(h) * 4096 + (if total != 0 then total else 1) + 4095) / 4096
  }

  lemma ImageSized(image: seq<byte>)
    requires Accepts(image) && ReadHeader(image).relocCount == 0
    ensures |image| >= HEADER_SIZE && |TextOf(image)| == ReadHeader(image).textSize
      && |DataOf(image)| == ReadHeader(image).dataSize
    ensures Sized(TextOf(image), DataOf(image), Mid(ReadHeader(image)), End(ReadHeader(image)))
    ensures var h := ReadHeader(image);
      && (USER_BASE + AlignUp(h.textSize) + 4095) / 4096 == Mid(h)
      && (var total := h.dataSize + h.bssSize;
          (Mid(h) * 4096 + AlignUp(if total != 0 then total else 1) + 4095) / 4096 == End(h))
  {
    hide ReadHeader;
  }

  /** Pages that are enough for an image: text, data, stack and five page tables. */
  function PagesFor(image: seq<byte>): nat
    requires |image| >= HEADER_SIZE
  {
    End(ReadHeader(image)) - TEXT + STACK_PAGES + 5
  }

  /** The process is ready to run the image: its memory is the image, protected, and it starts at the entry. */
  ghost predicate Runs(ts: Tables, ram: Ram, p: Proc, image: seq<byte>) {
    && Accepts(image) && ReadHeader(image).relocCount == 0
    && p.entry == USER_BASE + ReadHeader(image).entry && p.stack == STACK_TOP - 16
    && Loaded(ts, ram, p.root, TextOf(image), DataOf(image), Mid(ReadHeader(image)), End(ReadHeader(image)))
    && Protected(ts, p.root, Mid(ReadHeader(image)), End(ReadHeader(image)))
  }

  /**
   load_ore_image_into_process for a process that was just created. An accepted image loads unless there is no
   memory left, and then its process sees exactly the image, its zero padding and an empty stack.
   */
  method LoadImage(sys: System, i: nat, image: seq<byte>) returns (a: Answer)
    requires sys.Valid() && Fresh(sys, i)
    requires Accepts(image) ==> ReadHeader(image).relocCount == 0
    modifies sys`ram, sys`procs, sys.vmm`tables, sys.vmm`homes, sys.vmm.pmm`free, sys.vmm.pmm`used, sys.vmm.pmm`busy,
      sys.vmm.pmm.bitmap
    ensures !a.Panic? ==> sys.Valid() && |sys.procs| == |old(sys.procs)| && sys.procs[i].root == old(sys.procs)[i].root
    ensures a == Fail(EINVAL) <==> !Accepts(image)
    ensures a.Fail? ==> a.code == EINVAL || a.code == ENOMEM
    ensures !a.Panic? ==>
      OthersSame(old(sys.vmm.tables), old(sys.vmm.homes), sys.vmm.kernel, old(sys.ram), sys.vmm.tables, sys.ram,
      sys.procs[i].root)
    ensures a.Done? ==> Runs(sys.vmm.tables, sys.ram, sys.procs[i], image)
    ensures !a.Panic? ==> forall j :: 0 <= j < |sys.procs| && j != i ==> sys.procs[j] == old(sys.procs)[j]
    ensures Accepts(image) && Spare(old(sys.vmm.pmm.busy)) >= PagesFor(image) ==> a.Done?
    ensures a.Done? ==> Spare(old(sys.vmm.pmm.busy)) <= Spare(sys.vmm.pmm.busy) + PagesFor(image)
  {
    hide Manager.Valid, Tree, Owned, Grown, Entry, Leaf, Present, Procs, Shown, Seen, Private, UserPage, Whole,
         OthersSame, Loaded, Flagged, Elsewhere, Sections, Accepts, ReadHeader, Sized, Changed, AlignUp, TextOf,
         DataOf, Protected, Spare, Missing, Mid, End;
    ghost var ts, hs, ram, kernel := sys.vmm.tables, sys.vmm.homes, sys.ram, sys.vmm.kernel;
    OthersRefl(ts, hs, kernel, ram, sys.procs[i].root);
    if !Accepts(image) { return Fail(EINVAL); }
    ImageSized(image);
    var h := ReadHeader(image);
    var mid, end := Mid(h), End(h);
    var total := h.dataSize + h.bssSize;
    a := LoadSections(sys, i, TextOf(image), DataOf(image), mid, end);
    if !a.Done? { return; }
    ghost var ts1, hs1, ram1 := sys.vmm.tables, sys.vmm.homes, sys.ram;
    a := Finish(sys, i, TextOf(image), DataOf(image), h.textSize, if total != 0 then total else 1, mid, end);
    if a.Panic? { return; }
    OthersTwice(ts, hs, ts1, hs1, sys.vmm.tables, kernel, ram, ram1, sys.ram, sys.procs[i].root);
    if a.Fail? { return; }
    var p := sys.procs[i].(entry := USER_BASE + h.entry, stack := STACK_TOP - 16);
    RootOf(sys.vmm.tables, sys.vmm.homes, kernel, sys.procs, i);
    Replaced(sys.vmm.tables, sys.vmm.homes, kernel, sys.procs, i, p);
    sys.procs := sys.procs[i := p];
  }

  /** No process there was sees a difference. */
  ghost predicate AllSame(ts: Tables, hs: Homes, kernel: nat, ram: Ram, ts': Tables, ram': Ram) {
    forall r, v: nat :: Private(hs, kernel, r, v / 4096) ==> Seen(ts', ram', r, v) == Seen(ts, ram, r, v)
  }

  lemma AllRefl(ts: Tables, hs: Homes, kernel: nat, ram: Ram)
    ensures AllSame(ts, hs, kernel, ram, ts, ram)
  {
  }

  lemma SpawnOthers(ts: Tables, hs: Homes, ts1: Tables, hs1: Homes, ts2: Tables, kernel: nat, ram: Ram, ram2: Ram,
      root: nat)
    requires root !in hs && hs1 == hs[root := Home(root, 4, 0)]
    requires OthersSame(ts, hs, kernel, ram, ts1, ram, root) && OthersSame(ts1, hs1, kernel, ram, ts2, ram2, root)
    ensures AllSame(ts, hs, kernel, ram, ts2, ram2)
  {
    hide Seen, UserPage;
    forall r, v: nat | Private(hs, kernel, r, v / 4096) ensures Seen(ts2, ram2, r, v) == Seen(ts, ram, r, v) {
      assert Private(hs1, kernel, r, v / 4096);
    }
  }

  /** Spawning an image: a new process, then its image. A failed load leaves the process behind without one. */
  method SpawnImage(sys: System, image: seq<byte>) returns (a: Answer)
    requires sys.Valid() && (Accepts(image) ==> ReadHeader(image).relocCount == 0)
    modifies sys`ram, sys`procs, sys.vmm`tables, sys.vmm`homes, sys.vmm.pmm`free, sys.vmm.pmm`used, sys.vmm.pmm`busy,
      sys.vmm.pmm.bitmap
    ensures !a.Panic? ==> sys.Valid()
    ensures a.Done? ==> |sys.procs| == |old(sys.procs)| + 1 && a.value == |old(sys.procs)| && Accepts(image)
    ensures a.Fail? ==>
      |sys.procs| == if |old(sys.procs)| + 1 >= MAX_PROCESSES then |old(sys.procs)| else |old(sys.procs)| + 1
    ensures a.Fail? ==> |old(sys.procs)| + 1 >= MAX_PROCESSES || !Accepts(image) || a.code == ENOMEM
    ensures !a.Panic? ==>
      AllSame(old(sys.vmm.tables), old(sys.vmm.homes), sys.vmm.kernel, old(sys.ram), sys.vmm.tables, sys.ram)
    ensures a.Done? ==> Runs(sys.vmm.tables, sys.ram, sys.procs[a.value], image)
    ensures Accepts(image) && Spare(old(sys.vmm.pmm.busy)) >= 1 + PagesFor(image) ==>
      (a.Done? <==> |old(sys.procs)| + 1 < MAX_PROCESSES)
    ensures a.Done? ==> Spare(old(sys.vmm.pmm.busy)) <= Spare(sys.vmm.pmm.busy) + 1 + PagesFor(image)
  {
    hide Manager.Valid, Tree, Owned, Grown, Entry, Leaf, Present, Procs, Seen, Private, UserPage, Whole, OthersSame,
         AllSame, Runs, Accepts, ReadHeader, Spare, PagesFor;
    ghost var ts, hs, ram, kernel := sys.vmm.tables, sys.vmm.homes, sys.ram, sys.vmm.kernel;
    AllRefl(ts, hs, kernel, ram);
    a := sys.CreateProcess();
    if !a.Done? { return; }
    var i := a.value;
    ghost var ts1, hs1 := sys.vmm.tables, sys.vmm.homes;
    a := LoadImage(sys, i, image);
    if a.Panic? { return; }
    SpawnOthers(ts, hs, ts1, hs1, sys.vmm.tables, kernel, ram, sys.ram, sys.procs[i].root);
    if a.Done? { a := Done(i); }
  }
}
