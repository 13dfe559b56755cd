/**
 The page table manager: tables are pages taken from the page allocator, entries are written in place, and
 every address space shares the kernel's low tables.
 */
module Vmm {
  import opened Words
  import opened Pmm
  import opened PageTables

  // ----- relations between two states -----

  /** Tables are only ever added, keep their place, and keep the tables they lead to. */
  ghost predicate Grown(ts: Tables, hs: Homes, ts': Tables, hs': Homes) {
    && Shape(ts, hs) && Shape(ts', hs')
    && (forall t :: t in hs ==> t in hs' && hs'[t] == hs[t])
    && (forall t, i :: t in hs && hs[t].level > 1 && 0 <= i < 512 && Present(ts[t][i]) ==> ts'[t][i] == ts[t][i])
    && (forall t :: t in hs' && t !in hs ==> hs'[t].level < 4)
  }

  /** Pages become busy only by becoming tables. */
  ghost predicate Claimed(ts: Tables, busy: seq<bool>, ts': Tables, busy': seq<bool>) {
    && |busy| == |busy'| && ts.Keys <= ts'.Keys
    && (forall f :: 0 <= f < |busy| ==> busy'[f] == (busy[f] || f in ts'))
    && (forall f :: f in ts' && f !in ts ==> f < |busy| && !busy[f])
  }

  ghost predicate SameView(ts: Tables, hs: Homes, ts': Tables) {
    forall r, p: nat :: IsRoot(hs, r) ==> Entry(ts', r, p) == Entry(ts, r, p)
  }

  /** No other address space sees a change in its user half. */
  ghost predicate Isolated(ts: Tables, hs: Homes, ts': Tables, root: nat) {
    forall r, p: nat :: IsRoot(hs, r) && r != root && UserPage(p) ==> Entry(ts', r, p) == Entry(ts, r, p)
  }

  /** No other address space sees a change, kernel half included. */
  ghost predicate Alone(ts: Tables, hs: Homes, ts': Tables, root: nat) {
    forall r, p: nat :: IsRoot(hs, r) && r != root && p < SPACE ==> Entry(ts', r, p) == Entry(ts, r, p)
  }

  /** No other address space sees a change outside the pages from start up to stop, or in its user half. */
  ghost predicate Apart(ts: Tables, hs: Homes, ts': Tables, root: nat, start: nat, stop: nat) {
    forall r, p: nat :: IsRoot(hs, r) && r != root && p < SPACE && (UserPage(p) || !(start <= p < stop)) ==>
      Entry(ts', r, p) == Entry(ts, r, p)
  }

  predicate UserSpan(start: nat, stop: nat) { forall p: nat :: start <= p < stop ==> UserPage(p) }

  lemma ApartAlone(ts: Tables, hs: Homes, ts': Tables, root: nat, start: nat, page: nat, stop: nat)
    requires Apart(ts, hs, ts', root, start, page) && page <= stop
    ensures UserSpan(start, stop) ==> Alone(ts, hs, ts', root)
  {
    hide Entry, UserPage;
  }

  /** Every address space leads to the kernel's own tables in slot 0. */
  ghost predicate Common(ts: Tables, hs: Homes, kernel: nat)
    requires Tree(ts, hs, kernel)
  {
    forall r :: IsRoot(hs, r) && r != kernel ==> ts[r][0] == ts[kernel][0] && Present(ts[kernel][0])
  }

  /** What lies under slot 0 is seen identically by all address spaces. */
  lemma CommonView(ts: Tables, hs: Homes, kernel: nat, r: nat, p: nat)
    requires Tree(ts, hs, kernel) && Common(ts, hs, kernel) && IsRoot(hs, r) && p < SPACE && Index(4, p) == 0
    ensures Entry(ts, r, p) == Entry(ts, kernel, p)
  {
  }

  lemma SlotStays(ts: Tables, hs: Homes, ts': Tables, hs': Homes, kernel: nat)
    requires Grown(ts, hs, ts', hs') && IsRoot(hs, kernel) && Present(ts[kernel][0])
    ensures Present(ts'[kernel][0])
  {
  }

  lemma SlotKept(ts: Tables, hs: Homes, ts': Tables, hs': Homes, kernel: nat)
    requires Tree(ts, hs, kernel) && Tree(ts', hs', kernel) && Grown(ts, hs, ts', hs') && Common(ts, hs, kernel)
    ensures Common(ts', hs', kernel)
  {
    forall r | IsRoot(hs', r) && r != kernel
      ensures ts'[r][0] == ts'[kernel][0] && Present(ts'[kernel][0])
    {
      assert IsRoot(hs, r);
    }
  }

  lemma GrownAt(ts: Tables, hs: Homes, ts': Tables, hs': Homes, kernel: nat, t: nat)
    requires Tree(ts, hs, kernel) && Tree(ts', hs', kernel) && Grown(ts, hs, ts', hs') && t in hs
    ensures t in hs' && hs'[t] == hs[t]
  {
  }

  lemma Start(ts: Tables, hs: Homes, kernel: nat, busy: seq<bool>)
    requires Tree(ts, hs, kernel) && Backed(ts, busy)
    ensures Shape(ts, hs) && Grown(ts, hs, ts, hs) && SameView(ts, hs, ts) && Claimed(ts, busy, ts, busy)
  {
  }

  /** Table t of the given level leads to c on the way to a page. */
  ghost predicate Leads(ts: Tables, hs: Homes, t: nat, page: nat, level: nat, c: nat) {
    && 1 < level <= 4 && t in hs && hs[t].level == level && c in hs && hs[c].level == level - 1
    && t in ts && |ts[t]| == 512 && c in ts && |ts[c]| == 512
    && Present(ts[t][Index(level, page)]) && Frame(ts[t][Index(level, page)]) == c
    && Leaf(ts, t, level, page) == Leaf(ts, c, level - 1, page)
  }

  lemma DownKept(ts: Tables, hs: Homes, ts': Tables, hs': Homes, kernel: nat, t: nat, page: nat, level: nat, c: nat)
    requires Tree(ts, hs, kernel) && Tree(ts', hs', kernel) && Grown(ts, hs, ts', hs')
      && Leads(ts, hs, t, page, level, c)
    ensures Leads(ts', hs', t, page, level, c)
  {
  }

  lemma Through(ts: Tables, hs: Homes, b: seq<bool>, ts1: Tables, hs1: Homes, b1: seq<bool>,
                ts2: Tables, hs2: Homes, b2: seq<bool>, kernel: nat)
    requires Tree(ts, hs, kernel) && Tree(ts1, hs1, kernel) && Tree(ts2, hs2, kernel)
    requires Grown(ts, hs, ts1, hs1) && SameView(ts, hs, ts1) && Claimed(ts, b, ts1, b1)
    requires Grown(ts1, hs1, ts2, hs2) && SameView(ts1, hs1, ts2) && Claimed(ts1, b1, ts2, b2)
    ensures Grown(ts, hs, ts2, hs2) && SameView(ts, hs, ts2) && Claimed(ts, b, ts2, b2)
  {
    hide Links, Entry, Present;
    Chain(ts, hs, b, ts1, hs1, b1, ts2, hs2, b2, kernel);
    forall r, p: nat | IsRoot(hs, r) ensures Entry(ts2, r, p) == Entry(ts, r, p) {
      assert IsRoot(hs1, r);
    }
  }

  /** The entry of one page under one root was set to e. */
  ghost predicate Written(ts: Tables, hs: Homes, ts': Tables, root: nat, page: nat, e: u64) {
    && Entry(ts', root, page) == e
    && (forall r, p: nat :: IsRoot(hs, r) && p < SPACE && p != page ==> Entry(ts', r, p) == Entry(ts, r, p))
    && (forall r :: IsRoot(hs, r) && r != root && UserPage(page) ==> Entry(ts', r, page) == Entry(ts, r, page))
    && (forall r :: IsRoot(hs, r) ==> Entry(ts', r, page) == Entry(ts, r, page) ||
                                      (Entry(ts', r, page) == e && Entry(ts, r, page) == Entry(ts, root, page)))
  }

  lemma PutWritten(ts: Tables, hs: Homes, kernel: nat, root: nat, page: nat, l: nat, e: u64)
    requires Tree(ts, hs, kernel) && IsRoot(hs, root) && page < SPACE && Leaf(ts, root, 4, page) == Some(l)
    requires l in ts && |ts[l]| == 512
    ensures Written(ts, hs, Put(ts, l, Index(1, page), e), root, page, e)
  {
    hide Tree, Entry, Leaf, Put, Index, UserPage;
    var ts' := Put(ts, l, Index(1, page), e);
    forall r, p: nat | IsRoot(hs, r) && p < SPACE
      ensures p != page ==> Entry(ts', r, p) == Entry(ts, r, p)
      ensures p == page && r == root ==> Entry(ts', r, p) == e
      ensures p == page && r != root && UserPage(page) ==> Entry(ts', r, p) == Entry(ts, r, p)
      ensures Entry(ts', r, p) == Entry(ts, r, p) || (Entry(ts', r, p) == e && Entry(ts, r, p) == Entry(ts, root, page))
    {
      PutEntry(ts, hs, kernel, root, page, e, r, p);
    }
  }

  lemma PutStep(ts: Tables, hs: Homes, kernel: nat, busy: seq<bool>, root: nat, page: nat, l: nat, e: u64)
    requires Tree(ts, hs, kernel) && Common(ts, hs, kernel) && Backed(ts, busy) && IsRoot(hs, root) && page < SPACE
    requires Leaf(ts, root, 4, page) == Some(l)
    ensures l in ts && |ts[l]| == 512
    ensures var ts' := Put(ts, l, Index(1, page), e);
      && Tree(ts', hs, kernel) && Common(ts', hs, kernel) && Backed(ts', busy)
      && Grown(ts, hs, ts', hs) && Claimed(ts, busy, ts', busy) && Written(ts, hs, ts', root, page, e)
  {
    hide Links, Entry, Leaf, Index, Written, UserPage, Present;
    RootLeaf(ts, hs, kernel, root, page);
    var ts' := Put(ts, l, Index(1, page), e);
    PutTree(ts, hs, kernel, l, Index(1, page), e);
    PutWritten(ts, hs, kernel, root, page, l, e);
    assert ts'.Keys == ts.Keys;
    SlotKept(ts, hs, ts', hs, kernel);
  }

  ghost predicate Backed(ts: Tables, busy: seq<bool>) {
    forall t :: t in ts ==> t < |busy| && busy[t]
  }

  lemma GrowGrown(ts: Tables, hs: Homes, kernel: nat, busy: seq<bool>, t: nat, i: nat, c: nat, e: u64)
    requires Tree(ts, hs, kernel) && Backed(ts, busy) && |busy| <= FRAMES
    requires t in hs && hs[t].level > 1 && i < 512 && !Present(ts[t][i]) && c < |busy| && !busy[c]
    requires Tree(Grow(ts, t, i, c, e), hs[c := ChildHome(hs[t], i)], kernel)
    ensures var ts', hs' := Grow(ts, t, i, c, e), hs[c := ChildHome(hs[t], i)];
      Backed(ts', busy[c := true]) && Grown(ts, hs, ts', hs') && Claimed(ts, busy, ts', busy[c := true])
  {
    hide Links, Present;
    assert Grow(ts, t, i, c, e).Keys == ts.Keys + {c};
  }

  /** Hanging an empty table on a free page into an empty slot changes nothing that can be seen. */
  lemma GrowStep(ts: Tables, hs: Homes, kernel: nat, busy: seq<bool>, t: nat, i: nat, c: nat, e: u64)
    requires Tree(ts, hs, kernel) && Common(ts, hs, kernel) && Backed(ts, busy) && |busy| <= FRAMES
    requires t in hs && hs[t].level > 1 && i < 512 && !Present(ts[t][i])
    requires c < |busy| && !busy[c] && Present(e) && Frame(e) == c
    ensures var ts', hs' := Grow(ts, t, i, c, e), hs[c := ChildHome(hs[t], i)];
      && Tree(ts', hs', kernel) && Common(ts', hs', kernel) && Backed(ts', busy[c := true])
      && Grown(ts, hs, ts', hs') && SameView(ts, hs, ts') && Claimed(ts, busy, ts', busy[c := true])
  {
    var ts', hs' := Grow(ts, t, i, c, e), hs[c := ChildHome(hs[t], i)];
    GrowTree(ts, hs, kernel, t, i, c, e);
    GrowGrown(ts, hs, kernel, busy, t, i, c, e);
    SlotKept(ts, hs, ts', hs', kernel);
    hide Tree, Common, Entry, Leaf, Frame, Present, Grown, Claimed, Grow, Backed;
    forall r, p: nat | IsRoot(hs, r) ensures Entry(ts', r, p) == Entry(ts, r, p) {
      GrowEntry(ts, hs, kernel, t, i, c, e, r, p);
    }
  }

  /** Growing first and writing then is writing. */
  lemma After(ts: Tables, hs: Homes, b: seq<bool>, ts1: Tables, hs1: Homes, b1: seq<bool>, ts2: Tables, kernel: nat,
              root: nat, page: nat, e: u64)
    requires Tree(ts, hs, kernel) && Tree(ts1, hs1, kernel) && Tree(ts2, hs1, kernel) && IsRoot(hs, root)
      && page < SPACE
    requires Grown(ts, hs, ts1, hs1) && SameView(ts, hs, ts1) && Claimed(ts, b, ts1, b1)
    requires Grown(ts1, hs1, ts2, hs1) && Written(ts1, hs1, ts2, root, page, e) && Claimed(ts1, b1, ts2, b1)
    ensures Grown(ts, hs, ts2, hs1) && Written(ts, hs, ts2, root, page, e) && Claimed(ts, b, ts2, b1)
  {
    hide Links, Entry, Present, UserPage;
    forall r | IsRoot(hs, r) ensures IsRoot(hs1, r) {}
    assert forall r, p: nat :: IsRoot(hs, r) ==> Entry(ts1, r, p) == Entry(ts, r, p);
  }

  lemma Chain(ts: Tables, hs: Homes, b: seq<bool>, ts1: Tables, hs1: Homes, b1: seq<bool>,
              ts2: Tables, hs2: Homes, b2: seq<bool>, kernel: nat)
    requires Tree(ts, hs, kernel) && Tree(ts1, hs1, kernel) && Tree(ts2, hs2, kernel)
    requires Grown(ts, hs, ts1, hs1) && Claimed(ts, b, ts1, b1)
    requires Grown(ts1, hs1, ts2, hs2) && Claimed(ts1, b1, ts2, b2)
    ensures Grown(ts, hs, ts2, hs2) && Claimed(ts, b, ts2, b2)
  {
    hide Links, Present;
  }

  // ----- ranges of pages -----

  datatype Edit = Mapping(frame: nat, flags: Flags) | Flagging(flags: Flags) | Removal

  /** What an edit makes of the entry e of its k-th page. */
  function Edited(d: Edit, k: nat, e: u64): u64 {
    match d
    case Mapping(frame, flags) => Pte(frame + k, flags)
    case Flagging(flags) => Reflag(e, flags)
    case Removal => 0
  }

  /** Under one root exactly the pages from start up to stop were edited. */
  ghost predicate Changed(ts: Tables, ts': Tables, root: nat, start: nat, stop: nat, d: Edit) {
    forall p: nat :: p < SPACE ==>
      Entry(ts', root, p) == if start <= p < stop then Edited(d, p - start, Entry(ts, root, p)) else Entry(ts, root, p)
  }

  /** Every page of every address space leads to the same frame, or to none, as before. */
  ghost predicate SameTranslation(ts: Tables, hs: Homes, ts': Tables) {
    forall r, p: nat :: IsRoot(hs, r) && p < SPACE ==>
      && Present(Entry(ts', r, p)) == Present(Entry(ts, r, p))
      && (Present(Entry(ts, r, p)) ==> Frame(Entry(ts', r, p)) == Frame(Entry(ts, r, p)))
  }

  lemma EditStep(ts: Tables, hs: Homes, ts1: Tables, hs1: Homes, ts2: Tables, kernel: nat, root: nat, start: nat,
      page: nat, d: Edit)
    requires Tree(ts, hs, kernel) && Tree(ts1, hs1, kernel) && Grown(ts, hs, ts1, hs1) && IsRoot(hs, root)
    requires start <= page < SPACE && Changed(ts, ts1, root, start, page, d) && Isolated(ts, hs, ts1, root)
    requires Written(ts1, hs1, ts2, root, page, Edited(d, page - start, Entry(ts, root, page)))
    ensures Changed(ts, ts2, root, start, page + 1, d) && Isolated(ts, hs, ts2, root)
  {
    hide Links, Entry, Present, UserPage, Edited;
    forall r | IsRoot(hs, r) ensures IsRoot(hs1, r) {}
    forall r, p: nat | IsRoot(hs, r) && r != root && UserPage(p) ensures Entry(ts2, r, p) == Entry(ts, r, p) {
      UserPageBound(p);
    }
  }

  lemma ApartStep(ts: Tables, hs: Homes, ts1: Tables, hs1: Homes, ts2: Tables, root: nat, start: nat, page: nat, e: u64)
    requires Grown(ts, hs, ts1, hs1) && Apart(ts, hs, ts1, root, start, page) && start <= page < SPACE
    requires Written(ts1, hs1, ts2, root, page, e)
    ensures Apart(ts, hs, ts2, root, start, page + 1)
  {
    hide Entry, Present, UserPage, Shape;
    forall r | IsRoot(hs, r) ensures IsRoot(hs1, r) {}
    forall r, p: nat | IsRoot(hs, r) && r != root && p < SPACE && (UserPage(p) || !(start <= p < page + 1))
      ensures Entry(ts2, r, p) == Entry(ts, r, p)
    {
      if p == page { assert UserPage(page); }
    }
  }

  lemma ApartStart(ts: Tables, hs: Homes, root: nat, start: nat)
    ensures Apart(ts, hs, ts, root, start, start)
  {
  }

  lemma ApartSame(ts: Tables, hs: Homes, ts1: Tables, hs1: Homes, ts2: Tables, root: nat, start: nat, page: nat)
    requires Grown(ts, hs, ts1, hs1) && Apart(ts, hs, ts1, root, start, page) && SameView(ts1, hs1, ts2)
    ensures Apart(ts, hs, ts2, root, start, page)
  {
    hide Entry, Present, UserPage, Shape;
    forall r | IsRoot(hs, r) ensures IsRoot(hs1, r) {}
  }

  lemma UserPageBound(p: nat)
    requires UserPage(p)
    ensures p < SPACE
  {
  }

  lemma EditStart(ts: Tables, hs: Homes, root: nat, start: nat, d: Edit)
    ensures Changed(ts, ts, root, start, start, d) && Isolated(ts, hs, ts, root) && SameTranslation(ts, hs, ts)
  {
  }

  /** Pages after one that was only grown over keep what they had. */
  lemma EditSame(ts: Tables, hs: Homes, ts1: Tables, hs1: Homes, ts2: Tables, kernel: nat, root: nat, start: nat,
      page: nat, d: Edit)
    requires Tree(ts, hs, kernel) && Tree(ts1, hs1, kernel) && Grown(ts, hs, ts1, hs1) && IsRoot(hs, root)
    requires Changed(ts, ts1, root, start, page, d) && Isolated(ts, hs, ts1, root) && SameView(ts1, hs1, ts2)
    ensures Changed(ts, ts2, root, start, page, d) && Isolated(ts, hs, ts2, root)
  {
    hide Links, Entry, Present, UserPage, Edited;
    forall r | IsRoot(hs, r) ensures IsRoot(hs1, r) {}
  }

  lemma ReflagStep(ts: Tables, hs: Homes, ts1: Tables, ts2: Tables, root: nat, page: nat, flags: Flags)
    requires SameTranslation(ts, hs, ts1) && page < SPACE && IsRoot(hs, root)
    requires Present(Entry(ts1, root, page)) && Written(ts1, hs, ts2, root, page, Reflag(Entry(ts1, root, page), flags))
    ensures SameTranslation(ts, hs, ts2)
  {
    hide Entry, UserPage, Pte, Present, Frame;
    var e := Entry(ts1, root, page);
    PteParts(Frame(e), flags);
    FrameBound(e);
  }

  lemma UneditedAt(ts: Tables, ts': Tables, root: nat, start: nat, page: nat, d: Edit)
    requires Changed(ts, ts', root, start, page, d) && page < SPACE
    ensures Entry(ts', root, page) == Entry(ts, root, page)
  {
  }

  lemma WrittenSame(ts: Tables, hs: Homes, root: nat, page: nat)
    ensures Written(ts, hs, ts, root, page, Entry(ts, root, page))
  {
  }

  // ----- new address spaces -----

  function UserRow(row: seq<u64>): seq<u64>
    requires |row| == 512
  {
    seq(512, i requires 0 <= i < 512 => if UserSlot(i) then 0 else row[i])
  }

  /** A new root on a page that was free: empty in the user half, the kernel's elsewhere; nothing else changed. */
  ghost predicate Created(ts: Tables, hs: Homes, busy: seq<bool>, ts': Tables, hs': Homes, busy': seq<bool>,
      kernel: nat, r: nat) {
    && r < |busy| && !busy[r] && busy' == busy[r := true] && hs' == hs[r := Home(r, 4, 0)] && r !in hs
    && ts'.Keys == ts.Keys + {r} && (forall t :: t in ts ==> ts'[t] == ts[t]) && SameView(ts, hs, ts')
    && forall p: nat :: p < SPACE ==> Entry(ts', r, p) == if UserPage(p) then 0 else Entry(ts, kernel, p)
  }

  /** A table that nothing leads to can be added without being seen. */
  lemma {:induction false} AddLeaf(ts: Tables, hs: Homes, kernel: nat, r: nat, row: seq<u64>, t: nat, level: nat,
      p: nat)
    requires Tree(ts, hs, kernel) && r !in ts && t in hs && hs[t].level == level
    ensures Leaf(ts[r := row], t, level, p) == Leaf(ts, t, level, p)
    decreases level
  {
    if level > 1 && Present(ts[t][Index(level, p)]) {
      ChildAt(ts, hs, kernel, t, Index(level, p));
      AddLeaf(ts, hs, kernel, r, row, Frame(ts[t][Index(level, p)]), level - 1, p);
    }
  }

  lemma AddEntry(ts: Tables, hs: Homes, kernel: nat, r: nat, row: seq<u64>, s: nat, p: nat)
    requires Tree(ts, hs, kernel) && r !in ts && IsRoot(hs, s)
    ensures Entry(ts[r := row], s, p) == Entry(ts, s, p)
  {
    AddLeaf(ts, hs, kernel, r, row, s, 4, p);
    EntryAt(ts, hs, kernel, s, p);
  }

  lemma NewEntry(ts: Tables, hs: Homes, kernel: nat, r: nat, p: nat)
    requires Tree(ts, hs, kernel) && r !in ts && p < SPACE
    ensures Entry(ts[r := UserRow(ts[kernel])], r, p) == if UserPage(p) then 0 else Entry(ts, kernel, p)
  {
    var row := UserRow(ts[kernel]);
    var ts' := ts[r := row];
    var i := Index(4, p);
    if !UserPage(p) && Present(row[i]) {
      var c := Frame(row[i]);
      ChildAt(ts, hs, kernel, kernel, i);
      AddLeaf(ts, hs, kernel, r, row, c, 3, p);
      assert Leaf(ts', r, 4, p) == Leaf(ts, kernel, 4, p);
      EntryAt(ts, hs, kernel, kernel, p);
    }
  }

  lemma CreateTree(ts: Tables, hs: Homes, kernel: nat, r: nat)
    requires Tree(ts, hs, kernel) && r !in ts && r < FRAMES
    ensures Tree(ts[r := UserRow(ts[kernel])], hs[r := Home(r, 4, 0)], kernel)
  {
    var ts', hs' := ts[r := UserRow(ts[kernel])], hs[r := Home(r, 4, 0)];
    forall t, i | t in ts' && hs'[t].level > 1 && 0 <= i < 512 && Present(ts'[t][i])
      ensures Frame(ts'[t][i]) in hs' && Linked(kernel, hs'[t], i, hs'[Frame(ts'[t][i])])
    {
      if t == r {
        assert ts'[t][i] == ts[kernel][i];
        assert Linked(kernel, hs[kernel], i, hs[Frame(ts[kernel][i])]);
      } else {
        assert ts'[t][i] == ts[t][i];
      }
    }
  }

  lemma CreateStep(ts: Tables, hs: Homes, kernel: nat, busy: seq<bool>, r: nat)
    requires Tree(ts, hs, kernel) && Common(ts, hs, kernel) && Backed(ts, busy) && |busy| <= FRAMES
    requires r < |busy| && !busy[r] && Present(ts[kernel][0])
    ensures var ts', hs' := ts[r := UserRow(ts[kernel])], hs[r := Home(r, 4, 0)];
      && Tree(ts', hs', kernel) && Common(ts', hs', kernel) && Backed(ts', busy[r := true])
      && Created(ts, hs, busy, ts', hs', busy[r := true], kernel, r)
  {
    hide Links, Entry, Leaf, Present, UserPage;
    CreateTree(ts, hs, kernel, r);
    var row := UserRow(ts[kernel]);
    var ts' := ts[r := row];
    forall s, p: nat | IsRoot(hs, s) ensures Entry(ts', s, p) == Entry(ts, s, p) {
      AddEntry(ts, hs, kernel, r, row, s, p);
    }
    forall p: nat | p < SPACE ensures Entry(ts', r, p) == if UserPage(p) then 0 else Entry(ts, kernel, p) {
      NewEntry(ts, hs, kernel, r, p);
    }
  }

  // ----- how many pages tables take -----

  /** m tables were needed: they are taken when there are enough pages, else all that are left. */
  predicate Paid(m: nat, before: nat, after: nat, ok: bool) {
    (ok <==> before >= m) && (ok ==> before == after + m) && (!ok ==> after == 0)
  }

  /** One level of the walk takes at most the table that is missing there. */
  predicate Descent(m: nat, level: nat, before: nat, after: nat, ok: bool)
    requires level > 1
  {
    && (ok <==> m < level - 1 || before > 0)
    && (if ok && m >= level - 1 then before == after + 1 else before == after)
  }

  function Below(m: nat, level: nat): nat
    requires level > 1
  {
    if m < level - 1 then m else level - 2
  }

  /** What is missing below a table. */
  lemma DownMissing(ts: Tables, t: nat, level: nat, page: nat)
    requires t in ts && |ts[t]| == 512 && level > 1
    ensures var e := ts[t][Index(level, page)]; var m := Missing(ts, t, level, page);
      if Present(e) then m == Missing(ts, Frame(e), level - 1, page) && m < level - 1 else m == level - 1
  {
    hide Index;
    if Present(ts[t][Index(level, page)]) { MissingBound(ts, Frame(ts[t][Index(level, page)]), level - 1, page); }
  }

  lemma ZeroMissing(ts: Tables, t: nat, level: nat, page: nat)
    requires t in ts && ts[t] == Zero() && level >= 1
    ensures Missing(ts, t, level, page) == level - 1
  {
  }

  /** Borders of tables of the three lower levels between the first and the last of the pages start, ..., stop - 1. */
  function Crossed(start: nat, stop: nat): nat {
    if stop <= start then 0
    else ((stop - 1) / 512 - start / 512) + ((stop - 1) / 0x4_0000 - start / 0x4_0000)
         + ((stop - 1) / 0x800_0000 - start / 0x800_0000)
  }

  /** A bound on the new tables for a range of pages, when m are missing for its first page. */
  function TablesFor(m: nat, start: nat, stop: nat): nat { if stop <= start then 0 else m + Crossed(start, stop) }

  /** Mapping a range took at least the tables of its first page and at most the bound. */
  predicate Used(before: nat, after: nat, m: nat, start: nat, stop: nat) {
    after <= before <= after + TablesFor(m, start, stop) && (start < stop ==> before >= after + m)
  }

  /** A table border in front of a page costs the tables that start there. */
  function Borders(page: nat): nat {
    (if page % 512 == 0 then 1 else 0) + (if page % 0x4_0000 == 0 then 1 else 0)
      + (if page % 0x800_0000 == 0 then 1 else 0)
  }

  lemma CrossedStep(start: nat, page: nat)
    requires start < page
    ensures Crossed(start, page + 1) == Crossed(start, page) + Borders(page) && Crossed(start, start + 1) == 0
  {
    DivStep(page, 512);
    DivStep(page, 0x4_0000);
    DivStep(page, 0x800_0000);
  }

  lemma DivStep(page: nat, d: nat)
    requires page > 0 && (d == 512 || d == 0x4_0000 || d == 0x800_0000)
    ensures page / d == (page - 1) / d + (if page % d == 0 then 1 else 0)
  {
  }

  lemma {:induction false} CrossedMore(start: nat, page: nat, stop: nat)
    requires start < page <= stop
    ensures Crossed(start, page) <= Crossed(start, stop)
    decreases stop - page
  {
    if page < stop {
      CrossedStep(start, page);
      CrossedMore(start, page + 1, stop);
    }
  }

  lemma BordersPrefix(page: nat)
    requires page > 0
    ensures page % 512 != 0 ==> Prefix(1, page) == Prefix(1, page - 1)
    ensures page % 0x4_0000 != 0 ==> Prefix(2, page) == Prefix(2, page - 1)
    ensures page % 0x800_0000 != 0 ==> Prefix(3, page) == Prefix(3, page - 1)
  {
    Prefixes(page);
    Prefixes(page - 1);
    hide Prefix;
    DivStep(page, 512);
    DivStep(page, 0x4_0000);
    DivStep(page, 0x800_0000);
    Nested(page);
    Nested(page - 1);
  }

  lemma Nested(x: nat)
    ensures x / 512 / 512 == x / 0x4_0000 && x / 512 / 512 / 512 == x / 0x800_0000
  {
  }

  /** Behind a page that has all its tables at most the tables that start there are missing. */
  lemma NextMissing(ts: Tables, hs: Homes, kernel: nat, root: nat, page: nat)
    requires Tree(ts, hs, kernel) && IsRoot(hs, root) && page > 0 && Missing(ts, root, 4, page - 1) == 0
    ensures Missing(ts, root, 4, page) <= Borders(page)
  {
    hide Missing, Prefix, Tree;
    BordersPrefix(page);
    BordersNest(page);
    if page % 512 != 0 {
      MissingNear(ts, hs, kernel, root, 4, page, page - 1, 1);
    } else if page % 0x4_0000 != 0 {
      MissingNear(ts, hs, kernel, root, 4, page, page - 1, 2);
    } else if page % 0x800_0000 != 0 {
      MissingNear(ts, hs, kernel, root, 4, page, page - 1, 3);
    } else {
      MissingBound(ts, root, 4, page);
    }
  }

  lemma BordersNest(page: nat)
    ensures page % 0x4_0000 == 0 ==> page % 512 == 0
    ensures page % 0x800_0000 == 0 ==> page % 0x4_0000 == 0
  {
    if page % 0x4_0000 == 0 {
      var q := page / 0x4_0000;
      assert page == 512 * (512 * q);
      Multiple(page, 512 * q, 512);
    }
    if page % 0x800_0000 == 0 {
      var q := page / 0x800_0000;
      assert page == 0x4_0000 * (512 * q);
      Multiple(page, 512 * q, 0x4_0000);
    }
  }

  lemma Multiple(x: nat, q: nat, d: nat)
    requires (d == 512 || d == 0x4_0000) && x == d * q
    ensures x % d == 0
  {
  }

  /** Tables only ever become fewer that are missing. */
  lemma {:induction false} MissingGrown(ts: Tables, hs: Homes, ts': Tables, hs': Homes, kernel: nat, t: nat, level: nat,
      page: nat)
    requires Tree(ts, hs, kernel) && Tree(ts', hs', kernel) && Grown(ts, hs, ts', hs') && t in hs
      && hs[t].level == level
    ensures Missing(ts', t, level, page) <= Missing(ts, t, level, page)
    decreases level
  {
    if level > 1 {
      var i := Index(level, page);
      if Present(ts[t][i]) {
        ChildAt(ts, hs, kernel, t, i);
        MissingGrown(ts, hs, ts', hs', kernel, Frame(ts[t][i]), level - 1, page);
      } else {
        MissingBound(ts', t, level, page);
      }
    }
  }

  lemma UsedNone(before: nat, m: nat, start: nat, stop: nat)
    ensures Used(before, before, m, start, start)
    ensures stop <= start ==> Used(before, before, m, start, stop)
  {
  }

  lemma TablesMore(m: nat, start: nat, page: nat, stop: nat)
    requires start < page <= stop
    ensures TablesFor(m, start, page) <= TablesFor(m, start, stop)
  {
    hide Crossed;
    CrossedMore(start, page, stop);
  }

  lemma PaidAll(k: nat, before: nat, after: nat)
    requires Paid(k, before, after, false)
    ensures after == 0
  {
  }

  lemma WrittenMapped(ts: Tables, hs: Homes, ts': Tables, hs': Homes, kernel: nat, root: nat, page: nat, frame: nat,
      flags: Flags)
    requires Tree(ts', hs', kernel) && IsRoot(hs', root) && Written(ts, hs, ts', root, page, Pte(frame, flags))
    ensures Missing(ts', root, 4, page) == 0
  {
    hide Entry, Pte, Missing, Tree;
    PteParts(frame, flags);
    MappedNone(ts', hs', kernel, root, page);
  }

  /** One more page of a range. */
  lemma UsedStep(before: nat, mid: nat, after: nat, m: nat, start: nat, page: nat, k: nat, ok: bool)
    requires start <= page && Used(before, mid, m, start, page) && Paid(k, mid, after, ok)
    requires if page == start then k == m && mid == before else k <= Borders(page)
    ensures ok ==> Used(before, after, m, start, page + 1)
    ensures !ok ==> before < TablesFor(m, start, page + 1)
  {
    if page > start { CrossedStep(start, page); } else { CrossedStep(start, start + 1); }
  }

  /** A page that the allocator gave out and that is no table. */
  predicate Returnable(ts: Tables, fixed: seq<bool>, f: nat) { f < |fixed| && !fixed[f] && f !in ts }

  class Manager {
    const pmm: Allocator
    var tables: Tables
    var kernel: nat
    ghost var homes: Homes

    ghost predicate Valid()
      reads this, pmm, pmm.bitmap
    {
      && pmm.Valid() && pmm.Exact() && 0 < pmm.total <= FRAMES && pmm.fixed[0]
      && Tree(tables, homes, kernel) && Common(tables, homes, kernel) && Backed(tables, pmm.busy)
         && |pmm.busy| == pmm.total
    }

    /** An address space manager whose only table is the kernel's empty root. */
    constructor (p: Allocator, root: nat)
      requires p.Valid() && p.Exact() && 0 < p.total <= FRAMES && p.fixed[0] && root < p.total && p.busy[root]
      ensures Valid() && pmm == p && kernel == root && tables == map[root := Zero()]
        && homes == map[root := Home(root, 4, 0)]
    {
      pmm, kernel, tables, homes := p, root, map[root := Zero()], map[root := Home(root, 4, 0)];
    }

    /** new_table: a zeroed page for a table, None when the kernel panics. */
    method NewTable() returns (r: Option<nat>)
      requires pmm.Valid() && pmm.Exact()
      modifies pmm`free, pmm`used, pmm`busy, pmm.bitmap
      ensures pmm.Valid() && pmm.Exact()
      ensures r.None? ==> pmm.busy == old(pmm.busy)
      ensures r.Some? ==> r.value < pmm.total && !old(pmm.busy)[r.value] && pmm.busy == old(pmm.busy)[r.value := true]
      ensures r.None? <==> Spare(old(pmm.busy)) == 0
      ensures r.Some? ==> Spare(old(pmm.busy)) == Spare(pmm.busy) + 1
    {
      hide TestBit, Clear, Spare;
      r := pmm.Alloc(1);
      SpareNone(old(pmm.busy));
      if r.Some? {
        SpareTake(old(pmm.busy), r.value, 1);
        assert FreeRun(old(pmm.busy), r.value, 1);
        assert SetRun(old(pmm.busy), r.value, 1, true) == old(pmm.busy)[r.value := true];
      }
    }

    lemma Parts()
      requires Valid()
      ensures Tree(tables, homes, kernel) && Backed(tables, pmm.busy) && |pmm.busy| == pmm.total <= FRAMES
      ensures |pmm.fixed| == pmm.total && 0 < pmm.total && pmm.fixed[0] && forall f ::
        0 <= f < pmm.total && pmm.fixed[f] ==> pmm.busy[f]
    {
    }

    /** Pages from the allocator that become no tables. */
    method TakePages(n: nat) returns (r: Option<nat>)
      requires Valid()
      modifies pmm`free, pmm`used, pmm`busy, pmm.bitmap
      ensures Valid()
      ensures r.None? ==> pmm.busy == old(pmm.busy)
      ensures r.Some? ==> FIRST_PAGE <= r.value && FreeRun(old(pmm.busy), r.value, n)
      ensures r.Some? ==> pmm.busy == SetRun(old(pmm.busy), r.value, n, true)
      ensures r.None? <==> n == 0 || forall s :: FIRST_PAGE <= s ==> !FreeRun(old(pmm.busy), s, n)
      ensures n == 1 ==> (r.None? <==> Spare(old(pmm.busy)) == 0)
      ensures r.Some? ==> Spare(old(pmm.busy)) == Spare(pmm.busy) + n
    {
      hide Tree, Common, Clear, Held, TestBit, Spare;
      r := pmm.Alloc(n);
      SpareNone(old(pmm.busy));
      if r.Some? { SpareTake(old(pmm.busy), r.value, n); }
    }

    /** Pages go back to the allocator. */
    method ReturnPages(frame: nat, n: nat)
      requires Valid() && n > 0
      requires forall f :: frame <= f < frame + n ==> Returnable(tables, pmm.fixed, f)
      modifies pmm`free, pmm`used, pmm`busy, pmm.bitmap
      ensures Valid() && pmm.busy == SetRun(old(pmm.busy), frame, n, false)
    {
      hide Tree, Common, Clear, Held, TestBit, BusyIn;
      assert Returnable(tables, pmm.fixed, frame);
      assert frame != 0 && frame * PAGE_SIZE / PAGE_SIZE == frame;
      forall f | 0 <= f < pmm.total && frame <= f < frame + n ensures !pmm.fixed[f] {
        assert Returnable(tables, pmm.fixed, f);
      }
      forall t | t in tables ensures !(frame <= t < frame + n) {
        assert frame <= t < frame + n ==> Returnable(tables, pmm.fixed, t);
      }
      pmm.Free(frame * PAGE_SIZE, n);
    }

    /** next_table: follow an entry, hanging in an empty table when asked to. */
    method NextTable(t: nat, i: nat, create: bool, user: bool) returns (c: Option<nat>)
      requires Valid() && t in homes && homes[t].level > 1 && i < 512
      modifies this`tables, this`homes, pmm`free, pmm`used, pmm`busy, pmm.bitmap
      ensures Valid() && Grown(old(tables), old(homes), tables, homes) && SameView(old(tables), old(homes), tables)
      ensures Claimed(old(tables), old(pmm.busy), tables, pmm.busy)
      ensures c.Some? <==> Present(tables[t][i])
      ensures c.Some? ==> c.value == Frame(tables[t][i])
      ensures !create ==> tables == old(tables) && homes == old(homes) && pmm.busy == old(pmm.busy)
      ensures t in old(tables) && |old(tables)[t]| == 512
      ensures Present(old(tables)[t][i]) ==> tables == old(tables) && pmm.busy == old(pmm.busy)
      ensures create && !Present(old(tables)[t][i]) ==> (c.None? <==> Spare(old(pmm.busy)) == 0)
      ensures create && !Present(old(tables)[t][i]) && c.None? ==> pmm.busy == old(pmm.busy)
      ensures create && !Present(old(tables)[t][i]) && c.Some? ==>
        Spare(old(pmm.busy)) == Spare(pmm.busy) + 1 && c.value in tables && tables[c.value] == Zero()
        && tables[t][i] == Pte(c.value, Flags(true, user, false))
    {
      hide Allocator.Valid, Allocator.Exact, Tree, Common, Entry, Pte, Frame, Present, Grow, Spare, Zero, Claimed,
           SameView, Links;
      Start(tables, homes, kernel, pmm.busy);
      TableAt(tables, homes, kernel, t);
      if !Present(tables[t][i]) {
        if !create { return None; }
        var page := NewTable();
        if page.None? { return None; }
        var child := page.value;
        var e := Pte(child, Flags(true, user, false));
        PteParts(child, Flags(true, user, false));
        GrowStep(tables, homes, kernel, old(pmm.busy), t, i, child, e);
        homes := homes[child := ChildHome(homes[t], i)];
        tables := Grow(tables, t, i, child, e);
        GrowAt(old(tables), t, i, child, e);
        GrowNew(old(tables), t, i, child, e);
      }
      return Some(Frame(tables[t][i]));
    }

    method Down(t: nat, page: nat, level: nat, create: bool, user: bool) returns (c: Option<nat>)
      requires Valid() && 1 < level <= 4 && t in homes && homes[t].level == level
      modifies this`tables, this`homes, pmm`free, pmm`used, pmm`busy, pmm.bitmap
      ensures Valid() && Grown(old(tables), old(homes), tables, homes) && SameView(old(tables), old(homes), tables)
      ensures Claimed(old(tables), old(pmm.busy), tables, pmm.busy)
      ensures c.Some? ==> Leads(tables, homes, t, page, level, c.value)
      ensures c.None? && !create ==> Leaf(tables, t, level, page).None?
      ensures !create ==> tables == old(tables) && homes == old(homes) && pmm.busy == old(pmm.busy)
      ensures create ==>
        Descent(Missing(old(tables), t, level, page), level, Spare(old(pmm.busy)), Spare(pmm.busy), c.Some?)
      ensures create && c.Some? ==>
        Missing(tables, c.value, level - 1, page) == Below(Missing(old(tables), t, level, page), level)
    {
      hide Allocator.Valid, Allocator.Exact, Tree, Common, Entry, Frame, Present, Grown, Claimed, SameView, Prefix,
           Index, Spare, Missing, Zero;
      TableAt(tables, homes, kernel, t);
      DownMissing(tables, t, level, page);
      c := NextTable(t, Index(level, page), create, user);
      TableAt(tables, homes, kernel, t);
      GrownAt(old(tables), old(homes), tables, homes, kernel, t);
      if c.Some? {
        ChildAt(tables, homes, kernel, t, Index(level, page));
        TableAt(tables, homes, kernel, c.value);
        if tables[c.value] == Zero() { ZeroMissing(tables, c.value, level - 1, page); }
      }
    }

    /**
     pte_for_root: the last-level table for a page. Without create nothing changes and the result is what the
     walk finds; with create the walk succeeds afterwards unless memory runs out.
     */
    method PteFor(root: nat, page: nat, create: bool, user: bool) returns (l: Option<nat>)
      requires Valid() && IsRoot(homes, root)
      modifies this`tables, this`homes, pmm`free, pmm`used, pmm`busy, pmm.bitmap
      ensures Valid() && Grown(old(tables), old(homes), tables, homes) && SameView(old(tables), old(homes), tables)
      ensures Claimed(old(tables), old(pmm.busy), tables, pmm.busy)
      ensures l.Some? || !create ==> l == Leaf(tables, root, 4, page)
      ensures !create ==> tables == old(tables) && homes == old(homes) && pmm.busy == old(pmm.busy)
      ensures create ==> Paid(Missing(old(tables), root, 4, page), Spare(old(pmm.busy)), Spare(pmm.busy), l.Some?)
    {
      hide Allocator.Valid, Allocator.Exact, Tree, Common, Entry, Frame, Present, Grown, Claimed, SameView, Prefix,
           Index, Spare, Missing;
      MissingBound(tables, root, 4, page);
      Start(tables, homes, kernel, pmm.busy);
      var pdpt := Down(root, page, 4, create, user);
      if pdpt.None? { return None; }
      ghost var ts1, hs1, b1 := tables, homes, pmm.busy;
      var pd := Down(pdpt.value, page, 3, create, user);
      Through(old(tables), old(homes), old(pmm.busy), ts1, hs1, b1, tables, homes, pmm.busy, kernel);
      DownKept(ts1, hs1, tables, homes, kernel, root, page, 4, pdpt.value);
      if pd.None? { return None; }
      ghost var ts2, hs2, b2 := tables, homes, pmm.busy;
      var pt := Down(pd.value, page, 2, create, user);
      Through(old(tables), old(homes), old(pmm.busy), ts2, hs2, b2, tables, homes, pmm.busy, kernel);
      DownKept(ts2, hs2, tables, homes, kernel, root, page, 4, pdpt.value);
      DownKept(ts2, hs2, tables, homes, kernel, pdpt.value, page, 3, pd.value);
      return pt;
    }

    /** One round of the map loop. */
    method MapPage(root: nat, page: nat, frame: nat, flags: Flags) returns (ok: bool)
      requires Valid() && IsRoot(homes, root) && page < SPACE
      modifies this`tables, this`homes, pmm`free, pmm`used, pmm`busy, pmm.bitmap
      ensures Valid() && Grown(old(tables), old(homes), tables, homes)
      ensures Claimed(old(tables), old(pmm.busy), tables, pmm.busy)
      ensures ok ==> Written(old(tables), old(homes), tables, root, page, Pte(frame, flags))
      ensures !ok ==> SameView(old(tables), old(homes), tables)
      ensures Paid(Missing(old(tables), root, 4, page), Spare(old(pmm.busy)), Spare(pmm.busy), ok)
    {
      hide Allocator.Valid, Allocator.Exact, Tree, Common, Entry, Leaf, Pte, Put, Grown, Claimed, SameView, Written,
           Prefix, Index, Spare, Missing;
      var l := PteFor(root, page, true, flags.user);
      if l.None? { return false; }
      ghost var ts, hs := tables, homes;
      GrownAt(old(tables), old(homes), tables, homes, kernel, root);
      PutStep(tables, homes, kernel, pmm.busy, root, page, l.value, Pte(frame, flags));
      tables := Put(tables, l.value, Index(1, page), Pte(frame, flags));
      After(old(tables), old(homes), old(pmm.busy), ts, hs, pmm.busy, tables, kernel, root, page, Pte(frame, flags));
      return true;
    }

    /** map_in_root; false when the kernel panics for want of a page table. */
    method Map(root: nat, virt: nat, phys: nat, size: nat, flags: Flags) returns (ok: bool)
      requires Valid() && IsRoot(homes, root) && virt + size <= SPACE * 4096
      modifies this`tables, this`homes, pmm`free, pmm`used, pmm`busy, pmm.bitmap
      ensures Valid() && Grown(old(tables), old(homes), tables, homes)
      ensures Claimed(old(tables), old(pmm.busy), tables, pmm.busy)
      ensures Isolated(old(tables), old(homes), tables, root)
      ensures UserSpan(virt / 4096, (virt + size + 4095) / 4096) ==> Alone(old(tables), old(homes), tables, root)
      ensures ok ==>
        Changed(old(tables), tables, root, virt / 4096, (virt + size + 4095) / 4096, Mapping(phys / 4096, flags))
      ensures var m, start := Missing(old(tables), root, 4, virt / 4096), virt / 4096;
        var end := (virt + size + 4095) / 4096;
        && (ok ==> Used(Spare(old(pmm.busy)), Spare(pmm.busy), m, start, end))
        && (!ok ==> Spare(pmm.busy) == 0 && Spare(old(pmm.busy)) < TablesFor(m, start, end))
    {
      hide Allocator.Valid, Allocator.Exact, Tree, Common, Entry, Leaf, Pte, Grown, Claimed, SameView, Written,
           Changed, Isolated, Alone, Apart, UserSpan, Spare, Missing, Used, Paid, Crossed, Borders;
      var start, end := virt / 4096, (virt + size + 4095) / 4096;
      ghost var m := Missing(tables, root, 4, start);
      UsedNone(Spare(pmm.busy), m, start, end);
      ghost var d := Mapping(phys / 4096, flags);
      Start(tables, homes, kernel, pmm.busy);
      EditStart(tables, homes, root, start, d);
      ApartStart(tables, homes, root, start);
      var page, frame := start, phys / 4096;
      while page < end
        invariant start <= page <= end <= SPACE && frame == phys / 4096 + (page - start)
        invariant Valid() && IsRoot(homes, root)
        invariant Grown(old(tables), old(homes), tables, homes) && Claimed(old(tables), old(pmm.busy), tables, pmm.busy)
        invariant Changed(old(tables), tables, root, start, page, d) && Isolated(old(tables), old(homes), tables, root)
        invariant Apart(old(tables), old(homes), tables, root, start, page)
        invariant Used(Spare(old(pmm.busy)), Spare(pmm.busy), m, start, page)
        invariant page == start ==> tables == old(tables) && pmm.busy == old(pmm.busy)
        invariant page > start ==> Missing(tables, root, 4, page - 1) == 0
      {
        ghost var ts, hs, b := tables, homes, pmm.busy;
        if page > start { NextMissing(ts, hs, kernel, root, page); }
        ok := MapPage(root, page, frame, flags);
        UsedStep(Spare(old(pmm.busy)), Spare(b), Spare(pmm.busy), m, start, page, Missing(ts, root, 4, page), ok);
        Chain(old(tables), old(homes), old(pmm.busy), ts, hs, b, tables, homes, pmm.busy, kernel);
        GrownAt(ts, hs, tables, homes, kernel, root);
        if !ok {
          EditSame(old(tables), old(homes), ts, hs, tables, kernel, root, start, page, d);
          ApartSame(old(tables), old(homes), ts, hs, tables, root, start, page);
          ApartAlone(old(tables), old(homes), tables, root, start, page, end);
          TablesMore(m, start, page + 1, end);
          PaidAll(Missing(ts, root, 4, page), Spare(b), Spare(pmm.busy));
          return;
        }
        WrittenMapped(ts, hs, tables, homes, kernel, root, page, frame, flags);
        EditStep(old(tables), old(homes), ts, hs, tables, kernel, root, start, page, d);
        ApartStep(old(tables), old(homes), ts, hs, tables, root, start, page,
          Edited(d, page - start, Entry(old(tables), root, page)));
        page, frame := page + 1, frame + 1;
      }
      ApartAlone(old(tables), old(homes), tables, root, start, page, end);
      return true;
    }

    /**
     protect_in_root: flags change page by page up to the first page that is not mapped. No translation
     changes, for any address space, whether or not it succeeds.
     */
    method Protect(root: nat, virt: nat, size: nat, flags: Flags) returns (ok: bool, ghost stop: nat)
      requires Valid() && IsRoot(homes, root) && virt + size <= SPACE * 4096
      modifies this`tables, this`homes, pmm`free, pmm`used, pmm`busy, pmm.bitmap
      ensures Valid() && Grown(old(tables), old(homes), tables, homes) && homes == old(homes)
        && pmm.busy == old(pmm.busy)
      ensures Isolated(old(tables), old(homes), tables, root) && SameTranslation(old(tables), old(homes), tables)
      ensures UserSpan(virt / 4096, (virt + size + 4095) / 4096) ==> Alone(old(tables), old(homes), tables, root)
      ensures Changed(old(tables), tables, root, virt / 4096, stop, Flagging(flags))
      ensures virt / 4096 <= stop && forall p: nat :: virt / 4096 <= p < stop ==> Present(Entry(old(tables), root, p))
      ensures ok ==> stop == (virt + size + 4095) / 4096
      ensures !ok ==> stop < (virt + size + 4095) / 4096 && !Present(Entry(old(tables), root, stop))
    {
      hide Allocator.Valid, Allocator.Exact, Tree, Common, Entry, Leaf, Pte, Put, Frame, Present, Grown, Claimed,
           SameView, Written, Changed, Isolated, Alone, Apart, UserSpan, SameTranslation, Reflag;
      var start, end := virt / 4096, (virt + size + 4095) / 4096;
      ghost var d := Flagging(flags);
      Start(tables, homes, kernel, pmm.busy);
      EditStart(tables, homes, root, start, d);
      ApartStart(tables, homes, root, start);
      var page := start;
      while page < end
        invariant start <= page <= end <= SPACE
        invariant Valid() && homes == old(homes) && pmm.busy == old(pmm.busy)
        invariant Grown(old(tables), old(homes), tables, homes) && Claimed(old(tables), old(pmm.busy), tables, pmm.busy)
        invariant Changed(old(tables), tables, root, start, page, d) && Isolated(old(tables), old(homes), tables, root)
        invariant Apart(old(tables), old(homes), tables, root, start, page)
        invariant SameTranslation(old(tables), old(homes), tables)
        invariant forall p: nat :: start <= p < page ==> Present(Entry(old(tables), root, p))
      {
        ghost var ts := tables;
        var l := PteFor(root, page, false, false);
        UneditedAt(old(tables), tables, root, start, page, d);
        EntryAt(tables, homes, kernel, root, page);
        if l.None? || !Present(tables[l.value][Index(1, page)]) {
          ApartAlone(old(tables), old(homes), tables, root, start, page, end);
          return false, page;
        }
        var e := Reflag(tables[l.value][Index(1, page)], flags);
        PutStep(tables, homes, kernel, pmm.busy, root, page, l.value, e);
        tables := Put(tables, l.value, Index(1, page), e);
        Chain(old(tables), old(homes), old(pmm.busy), ts, homes, pmm.busy, tables, homes, pmm.busy, kernel);
        EditStep(old(tables), old(homes), ts, homes, tables, kernel, root, start, page, d);
        ApartStep(old(tables), old(homes), ts, homes, tables, root, start, page,
          Edited(d, page - start, Entry(old(tables), root, page)));
        ReflagStep(old(tables), homes, ts, tables, root, page, flags);
        page := page + 1;
      }
      ApartAlone(old(tables), old(homes), tables, root, start, page, end);
      return true, page;
    }

    /** unmap_in_root: pages without a last-level table are skipped; they have no entry to clear. */
    method Unmap(root: nat, virt: nat, size: nat)
      requires Valid() && IsRoot(homes, root) && virt + size <= SPACE * 4096
      modifies this`tables, this`homes, pmm`free, pmm`used, pmm`busy, pmm.bitmap
      ensures Valid() && Grown(old(tables), old(homes), tables, homes) && homes == old(homes)
        && pmm.busy == old(pmm.busy)
      ensures Isolated(old(tables), old(homes), tables, root)
      ensures UserSpan(virt / 4096, (virt + size + 4095) / 4096) ==> Alone(old(tables), old(homes), tables, root)
      ensures Changed(old(tables), tables, root, virt / 4096, (virt + size + 4095) / 4096, Removal)
    {
      hide Allocator.Valid, Allocator.Exact, Tree, Common, Entry, Leaf, Put, Present, Grown, Claimed, SameView,
           Written, Changed, Isolated, Alone, Apart, UserSpan;
      var start, end := virt / 4096, (virt + size + 4095) / 4096;
      Start(tables, homes, kernel, pmm.busy);
      EditStart(tables, homes, root, start, Removal);
      ApartStart(tables, homes, root, start);
      var page := start;
      while page < end
        invariant start <= page <= end <= SPACE
        invariant Valid() && homes == old(homes) && pmm.busy == old(pmm.busy)
        invariant Grown(old(tables), old(homes), tables, homes) && Claimed(old(tables), old(pmm.busy), tables, pmm.busy)
        invariant Changed(old(tables), tables, root, start, page, Removal)
          && Isolated(old(tables), old(homes), tables, root)
        invariant Apart(old(tables), old(homes), tables, root, start, page)
      {
        ghost var ts := tables;
        var l := PteFor(root, page, false, false);
        EntryAt(tables, homes, kernel, root, page);
        if l.Some? {
          PutStep(tables, homes, kernel, pmm.busy, root, page, l.value, 0);
          tables := Put(tables, l.value, Index(1, page), 0);
          Chain(old(tables), old(homes), old(pmm.busy), ts, homes, pmm.busy, tables, homes, pmm.busy, kernel);
        } else {
          WrittenSame(tables, homes, root, page);
        }
        EditStep(old(tables), old(homes), ts, homes, tables, kernel, root, start, page, Removal);
        ApartStep(old(tables), old(homes), ts, homes, tables, root, start, page,
          Edited(Removal, page - start, Entry(old(tables), root, page)));
        page := page + 1;
      }
      ApartAlone(old(tables), old(homes), tables, root, start, page, end);
    }

    /** vmm_virt_to_phys_in: 0 stands for "not mapped". */
    method VirtToPhys(root: nat, virt: nat) returns (phys: nat)
      requires Valid() && IsRoot(homes, root)
      modifies this`tables, this`homes, pmm`free, pmm`used, pmm`busy, pmm.bitmap
      ensures Valid() && tables == old(tables) && homes == old(homes) && pmm.busy == old(pmm.busy)
      ensures phys == Translate(tables, root, virt)
    {
      hide Allocator.Valid, Allocator.Exact, Tree, Common, Entry, Leaf, Put, Present, Grown, Claimed, SameView, Frame;
      var l := PteFor(root, virt / 4096, false, false);
      EntryAt(tables, homes, kernel, root, virt / 4096);
      if l.None? || !Present(tables[l.value][Index(1, virt / 4096)]) { return 0; }
      return Frame(tables[l.value][Index(1, virt / 4096)]) * 4096 + virt % 4096;
    }

    /**
     vmm_create_user_pml4: a root that starts as the kernel's outside the user half and empty inside it; None
     when the kernel panics.
     */
    method CreateUserRoot() returns (r: Option<nat>)
      requires Valid() && Present(tables[kernel][0])
      modifies this`tables, this`homes, pmm`free, pmm`used, pmm`busy, pmm.bitmap
      ensures Valid()
      ensures r.None? ==> tables == old(tables) && homes == old(homes) && pmm.busy == old(pmm.busy)
      ensures r.Some? ==> Created(old(tables), old(homes), old(pmm.busy), tables, homes, pmm.busy, kernel, r.value)
      ensures r.None? <==> Spare(old(pmm.busy)) == 0
      ensures r.Some? ==> Spare(old(pmm.busy)) == Spare(pmm.busy) + 1
    {
      hide Allocator.Valid, Allocator.Exact, Entry, Leaf, Present, Common, Links, Created, Spare;
      var page := NewTable();
      if page.None? { return None; }
      var root := page.value;
      var row: seq<u64> := Zero();
      for i := 0 to 512
        invariant |row| == 512 && forall k :: 0 <= k < i ==> row[k] == tables[kernel][k]
      {
        row := row[i := tables[kernel][i]];
      }
      for i := 1 to 256
        invariant |row| == 512 && forall k :: 0 <= k < 512 ==> row[k] == if 1 <= k < i then 0 else tables[kernel][k]
      {
        row := row[i := 0];
      }
      assert row == UserRow(tables[kernel]);
      CreateStep(tables, homes, kernel, old(pmm.busy), root);
      tables := tables[root := row];
      homes := homes[root := Home(root, 4, 0)];
      return Some(root);
    }
  }

  // ----- start -----

  /** Page p meets the range of a device, given by base address and size. */
  ghost predicate Meets(d: (nat, nat), p: nat) {
    d.0 / 4096 <= p < (d.0 + d.1 + 4095) / 4096
  }

  /** Page p meets one of the first n devices. */
  ghost predicate InDevices(ds: seq<(nat, nat)>, n: nat, p: nat) {
    exists i :: 0 <= i < n && i < |ds| && Meets(ds[i], p)
  }

  /** What the kernel's own address space holds at page p: memory and devices, the latter not executable. */
  ghost function KernelEntry(total: nat, ds: seq<(nat, nat)>, n: nat, p: nat): int {
    if InDevices(ds, n, p) then Pte(p, Flags(true, false, true))
    else if p < total then Pte(p, Flags(true, false, false)) else 0
  }

  /** The kernel's own address space: each page to the frame of its number, writable, never for user mode. */
  ghost predicate Identity(ts: Tables, kernel: nat, total: nat, ds: seq<(nat, nat)>, n: nat) {
    forall p: nat :: p < SPACE ==> Entry(ts, kernel, p) == KernelEntry(total, ds, n, p)
  }

  lemma IdentityStart(ts: Tables, ts': Tables, kernel: nat, total: nat, ds: seq<(nat, nat)>)
    requires forall p: nat :: Entry(ts, kernel, p) == 0
    requires Changed(ts, ts', kernel, 0, total, Mapping(0, Flags(true, false, false)))
    ensures Identity(ts', kernel, total, ds, 0)
  {
    hide Entry, Pte, Meets;
  }

  lemma IdentityStep(ts: Tables, ts': Tables, kernel: nat, total: nat, ds: seq<(nat, nat)>, n: nat)
    requires Identity(ts, kernel, total, ds, n) && n < |ds|
    requires Changed(ts, ts', kernel, ds[n].0 / 4096, (ds[n].0 + ds[n].1 + 4095) / 4096,
                     Mapping(ds[n].0 / 4096, Flags(true, false, true)))
    ensures Identity(ts', kernel, total, ds, n + 1)
  {
    hide Entry, Pte, InDevices;
    forall p: nat | p < SPACE ensures Entry(ts', kernel, p) == KernelEntry(total, ds, n + 1, p) {
      InDevicesStep(ds, n, p);
      assert Entry(ts, kernel, p) == KernelEntry(total, ds, n, p);
    }
  }

  lemma InDevicesStep(ds: seq<(nat, nat)>, n: nat, p: nat)
    requires n < |ds|
    ensures InDevices(ds, n + 1, p) <==> InDevices(ds, n, p) || Meets(ds[n], p)
  {
    hide Meets;
    if InDevices(ds, n + 1, p) && !Meets(ds[n], p) {
      var i :| 0 <= i < n + 1 && i < |ds| && Meets(ds[i], p);
      assert i != n;
    }
  }

  lemma EmptyEntry(kernel: nat, p: nat)
    ensures Entry(map[kernel := Zero()], kernel, p) == 0
  {
  }

  /** Slot 0 is in use once page 0 is mapped. */
  lemma SlotZero(ts: Tables, hs: Homes, kernel: nat)
    requires Tree(ts, hs, kernel) && Present(Entry(ts, kernel, 0))
    ensures Present(ts[kernel][0])
  {
    assert Index(4, 0) == 0;
  }

  /**
   vmm_init: a kernel root that maps all physical memory, then the frame buffer and the interrupt controller
   when there are any, each address to itself; None when the kernel panics.
   */
  method Init(pmm: Allocator, devices: seq<(nat, nat)>) returns (r: Option<Manager>)
    requires pmm.Valid() && pmm.Exact() && 0 < pmm.total <= SPACE && pmm.fixed[0]
    requires forall i :: 0 <= i < |devices| ==> devices[i].0 + devices[i].1 <= SPACE * 4096
    modifies pmm`free, pmm`used, pmm`busy, pmm.bitmap
    ensures r.Some? ==> fresh(r.value) && r.value.pmm == pmm && r.value.Valid()
    ensures r.Some? ==>
      Identity(r.value.tables, r.value.kernel, pmm.total, devices, |devices|)
      && Present(r.value.tables[r.value.kernel][0])
    ensures r.Some? ==> forall t :: IsRoot(r.value.homes, t) ==> t == r.value.kernel
    ensures r.None? ==> Spare(pmm.busy) == 0
  {
    hide TestBit, Clear, Tree, Common, Entry, Leaf, Present, Frame, Pte, Grown, Claimed, Changed, Identity, Isolated,
         Spare, Missing, Used, TablesFor;
    SpareNone(pmm.busy);
    var page := pmm.Alloc(1);
    if page.None? { return None; }
    assert FreeRun(old(pmm.busy), page.value, 1);
    var vmm := new Manager(pmm, page.value);
    hide Allocator.Valid, Allocator.Exact;
    ghost var root := vmm.kernel;
    forall p: nat ensures Entry(vmm.tables, root, p) == 0 { EmptyEntry(root, p); }
    OnlyKernel(vmm.tables, vmm.homes, vmm.tables, vmm.homes, root);
    ghost var ts, hs := vmm.tables, vmm.homes;
    var ok := vmm.Map(vmm.kernel, 0, 0, pmm.total * 4096, Flags(true, false, false));
    if !ok { return None; }
    assert (pmm.total * 4096 + 4095) / 4096 == pmm.total;
    IdentityStart(ts, vmm.tables, root, pmm.total, devices);
    OnlyKernel(ts, hs, vmm.tables, vmm.homes, root);
    for i := 0 to |devices|
      invariant vmm.Valid() && vmm.kernel == root && IsRoot(vmm.homes, root)
      invariant Identity(vmm.tables, root, pmm.total, devices, i)
      invariant forall t :: IsRoot(vmm.homes, t) ==> t == root
    {
      ts, hs := vmm.tables, vmm.homes;
      var base, size := devices[i].0, devices[i].1;
      ok := vmm.Map(vmm.kernel, base, base, size, Flags(true, false, true));
      if !ok { return None; }
      IdentityStep(ts, vmm.tables, root, pmm.total, devices, i);
      OnlyKernel(ts, hs, vmm.tables, vmm.homes, root);
    }
    IdentityAt(vmm.tables, root, pmm.total, devices);
    SlotZero(vmm.tables, vmm.homes, root);
    return Some(vmm);
  }

  lemma IdentityAt(ts: Tables, kernel: nat, total: nat, ds: seq<(nat, nat)>)
    requires Identity(ts, kernel, total, ds, |ds|) && 0 < total
    ensures Present(Entry(ts, kernel, 0))
  {
    hide Entry, Pte, Present;
    PteParts(0, Flags(true, false, true));
    PteParts(0, Flags(true, false, false));
  }

  lemma OnlyKernel(ts: Tables, hs: Homes, ts': Tables, hs': Homes, kernel: nat)
    requires (ts == ts' && hs == hs' && hs.Keys == {kernel})
      || (Grown(ts, hs, ts', hs') && forall t :: IsRoot(hs, t) ==> t == kernel)
    requires IsRoot(hs, kernel)
    ensures IsRoot(hs', kernel) && forall t :: IsRoot(hs', t) ==> t == kernel
  {
    forall t | IsRoot(hs', t) ensures t == kernel {
      assert t in hs && IsRoot(hs, t);
    }
  }
}
