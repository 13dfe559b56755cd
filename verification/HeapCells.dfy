/**
 The kernel heap as a value: the list of its blocks in list order. A block is a header of 32 bytes and the
 memory behind it; addresses are in bytes.
 */
module HeapCells {
  import opened Words

  const HEADER: nat := 32

  datatype Cell = Cell(addr: nat, size: nat, free: bool)

  type Cells = seq<Cell>

  function End(c: Cell): nat { c.addr + HEADER + c.size }

  predicate Holds(c: Cell, x: nat) { c.addr <= x < End(c) }

  predicate Apart(a: Cell, b: Cell) { End(a) <= b.addr || End(b) <= a.addr }

  predicate CellOk(c: Cell) { c.addr > 0 && c.addr % 16 == 0 && c.size % 16 == 0 }

  ghost predicate Disjoint(cs: Cells) {
    (forall i :: 0 <= i < |cs| ==> CellOk(cs[i])) && forall i, j :: 0 <= i < j < |cs| ==> Apart(cs[i], cs[j])
  }

  ghost predicate Covers(cs: Cells, x: nat) { exists i :: 0 <= i < |cs| && Holds(cs[i], x) }

  /** The two lists make up the same memory. */
  ghost predicate SameMemory(cs: Cells, ds: Cells) { forall x: nat :: Covers(cs, x) <==> Covers(ds, x) }

  /** Every block in use, except the one at a given address, is still there and still in use. */
  ghost predicate KeepsLive(cs: Cells, ds: Cells, except: nat) {
    forall c :: c in cs && !c.free && c.addr != except ==> c in ds
  }

  /** The 32 bytes of a header at address a have none in common with the memory behind the header of c. */
  predicate ClearOf(c: Cell, a: nat) { a + HEADER <= c.addr + HEADER || End(c) <= a }

  /** No header of the list lies in a block's memory. */
  lemma HeadersMissPayloads(cs: Cells, i: nat, j: nat)
    requires Disjoint(cs) && i < |cs| && j < |cs|
    ensures ClearOf(cs[i], cs[j].addr)
  {
    if i < j { assert Apart(cs[i], cs[j]); } else if j < i { assert Apart(cs[j], cs[i]); }
  }

  // ----- replacing a stretch of the list -----

  /** Two neighbours that together are exactly one block's memory. */
  predicate Tiles(a: Cell, b: Cell, c: Cell) {
    a.addr == c.addr && b.addr == End(a) && End(b) == End(c)
  }

  lemma TilesHold(a: Cell, b: Cell, c: Cell, x: nat)
    requires Tiles(a, b, c)
    ensures Holds(c, x) <==> Holds(a, x) || Holds(b, x)
  {
  }

  /** Block i cut in two. */
  function Cut(cs: Cells, i: nat, a: Cell, b: Cell): Cells
    requires i < |cs|
  {
    cs[..i] + [a, b] + cs[i + 1..]
  }

  ghost predicate IsCut(cs: Cells, ds: Cells, i: nat, a: Cell, b: Cell) {
    && i < |cs| && |ds| == |cs| + 1 && ds[i] == a && ds[i + 1] == b
    && (forall k :: 0 <= k < i ==> ds[k] == cs[k]) && forall k :: i + 1 < k < |ds| ==> ds[k] == cs[k - 1]
  }

  /** Blocks i and i + 1 made one. */
  function Join(cs: Cells, i: nat, c: Cell): (r: Cells)
    requires i + 1 < |cs|
    ensures |r| == |cs| - 1
  {
    cs[..i] + [c] + cs[i + 2..]
  }

  ghost predicate IsJoin(cs: Cells, ds: Cells, i: nat, c: Cell) {
    && i + 1 < |cs| && |ds| == |cs| - 1 && ds[i] == c
    && (forall k :: 0 <= k < i ==> ds[k] == cs[k]) && forall k :: i < k < |ds| ==> ds[k] == cs[k + 1]
  }

  lemma CutDisjoint(cs: Cells, ds: Cells, i: nat, a: Cell, b: Cell)
    requires Disjoint(cs) && IsCut(cs, ds, i, a, b) && Tiles(a, b, cs[i]) && CellOk(a) && CellOk(b)
    ensures Disjoint(ds)
  {
    hide CellOk;
    forall j, k | 0 <= j < k < |ds| ensures Apart(ds[j], ds[k]) {
      var j0 := if j <= i then j else j - 1;
      var k0 := if k <= i then k else k - 1;
      if j0 < k0 { assert Apart(cs[j0], cs[k0]); }
    }
  }

  lemma CutMemory(cs: Cells, ds: Cells, i: nat, a: Cell, b: Cell)
    requires IsCut(cs, ds, i, a, b) && Tiles(a, b, cs[i])
    ensures SameMemory(cs, ds)
  {
    hide Holds, Tiles;
    forall x: nat ensures Covers(cs, x) <==> Covers(ds, x) {
      TilesHold(a, b, cs[i], x);
      if j :| 0 <= j < |cs| && Holds(cs[j], x) {
        assert Holds(ds[if j < i then j else if j > i then j + 1 else if Holds(a, x) then i else i + 1], x);
      }
      if j :| 0 <= j < |ds| && Holds(ds[j], x) {
        assert Holds(cs[if j <= i then j else j - 1], x);
      }
    }
  }

  lemma JoinDisjoint(cs: Cells, ds: Cells, i: nat, c: Cell)
    requires Disjoint(cs) && IsJoin(cs, ds, i, c) && Tiles(cs[i], cs[i + 1], c) && CellOk(c)
    ensures Disjoint(ds)
  {
    hide CellOk;
    forall j, k | 0 <= j < k < |ds| ensures Apart(ds[j], ds[k]) {
      if j == i {
        assert Apart(cs[i], cs[k + 1]) && Apart(cs[i + 1], cs[k + 1]);
      } else if k == i {
        assert Apart(cs[j], cs[i]) && Apart(cs[j], cs[i + 1]);
      } else {
        assert Apart(cs[if j < i then j else j + 1], cs[if k < i then k else k + 1]);
      }
    }
  }

  lemma JoinMemory(cs: Cells, ds: Cells, i: nat, c: Cell)
    requires IsJoin(cs, ds, i, c) && Tiles(cs[i], cs[i + 1], c)
    ensures SameMemory(cs, ds)
  {
    hide Holds, Tiles;
    forall x: nat ensures Covers(cs, x) <==> Covers(ds, x) {
      TilesHold(cs[i], cs[i + 1], c, x);
      if j :| 0 <= j < |cs| && Holds(cs[j], x) {
        assert Holds(ds[if j < i then j else if j <= i + 1 then i else j - 1], x);
      }
      if j :| 0 <= j < |ds| && Holds(ds[j], x) {
        assert Holds(cs[if j < i then j else if j > i then j + 1 else if Holds(cs[i], x) then i else i + 1], x);
      }
    }
  }

  // ----- the operations -----

  /** Set the free mark of block i. */
  function Mark(cs: Cells, i: nat, free: bool): Cells
    requires i < |cs|
  {
    cs[i := cs[i].(free := free)]
  }

  lemma MarkOk(cs: Cells, i: nat, free: bool)
    requires Disjoint(cs) && i < |cs|
    ensures Disjoint(Mark(cs, i, free)) && SameMemory(cs, Mark(cs, i, free))
  {
    var ds := Mark(cs, i, free);
    forall x: nat ensures Covers(cs, x) <==> Covers(ds, x) {
      if Covers(cs, x) {
        var j :| 0 <= j < |cs| && Holds(cs[j], x);
        assert Holds(ds[j], x);
      }
      if Covers(ds, x) {
        var j :| 0 <= j < |ds| && Holds(ds[j], x);
        assert Holds(cs[j], x);
      }
    }
    forall j, k | 0 <= j < k < |ds| ensures Apart(ds[j], ds[k]) {
      assert Apart(cs[j], cs[k]);
    }
  }

  /** split_block: what remains beyond size becomes a free block of its own if it is worth it. */
  function Split(cs: Cells, i: nat, size: nat): Cells
    requires i < |cs| && size <= cs[i].size
  {
    var c := cs[i];
    if c.size - size <= HEADER + 32 then cs
    else Cut(cs, i, c.(size := size), Cell(c.addr + HEADER + size, c.size - size - HEADER, true))
  }

  predicate Mergeable(a: Cell, b: Cell) { a.free && b.free && End(a) == b.addr }

  function Merged(a: Cell, b: Cell): Cell { a.(size := a.size + HEADER + b.size) }

  lemma MergedOk(a: Cell, b: Cell)
    requires CellOk(a) && CellOk(b) && Mergeable(a, b)
    ensures CellOk(Merged(a, b)) && Tiles(a, b, Merged(a, b))
  {
  }

  /** The single pass of kfree from block i on: after a merge it goes on behind the merged block. */
  function Coalesce(cs: Cells, i: nat): Cells
    decreases |cs| - i
  {
    if i + 1 >= |cs| then cs
    else if Mergeable(cs[i], cs[i + 1]) then Coalesce(Join(cs, i, Merged(cs[i], cs[i + 1])), i + 1)
    else Coalesce(cs, i + 1)
  }

  lemma {:induction false} CoalesceOk(cs: Cells, i: nat)
    requires Disjoint(cs)
    ensures Disjoint(Coalesce(cs, i)) && SameMemory(cs, Coalesce(cs, i)) && KeepsLive(cs, Coalesce(cs, i), 0)
    decreases |cs| - i
  {
    hide SameMemory, Disjoint;
    if i + 1 < |cs| {
      if Mergeable(cs[i], cs[i + 1]) {
        var c := Merged(cs[i], cs[i + 1]);
        var ds := Join(cs, i, c);
        CellAt(cs, i);
        CellAt(cs, i + 1);
        MergedOk(cs[i], cs[i + 1]);
        JoinDisjoint(cs, ds, i, c);
        JoinMemory(cs, ds, i, c);
        CoalesceOk(ds, i + 1);
        MemoryTrans(cs, ds, Coalesce(ds, i + 1));
        forall d | d in cs && !d.free ensures d in ds {
          var j :| 0 <= j < |cs| && cs[j] == d;
          assert ds[if j < i then j else j - 1] == d;
        }
      } else {
        CoalesceOk(cs, i + 1);
      }
    } else {
      MemoryTrans(cs, cs, cs);
    }
  }

  lemma CellAt(cs: Cells, i: nat)
    requires Disjoint(cs) && i < |cs|
    ensures CellOk(cs[i])
  {
  }

  lemma MemoryTrans(a: Cells, b: Cells, c: Cells)
    ensures SameMemory(a, b) && SameMemory(b, c) ==> SameMemory(a, c)
    ensures SameMemory(a, a)
  {
  }

  /** The blocks before i and where block i starts are not changed by the pass from i on. */
  lemma {:induction false} CoalescePrefix(cs: Cells, i: nat)
    requires i < |cs|
    ensures var ds := Coalesce(cs, i);
      i < |ds| && ds[..i] == cs[..i] && ds[i].addr == cs[i].addr && ds[i].free == cs[i].free
    decreases |cs| - i
  {
    if i + 1 < |cs| {
      if Mergeable(cs[i], cs[i + 1]) {
        var ds := Join(cs, i, Merged(cs[i], cs[i + 1]));
        if i + 1 < |ds| {
          CoalescePrefix(ds, i + 1);
          assert Coalesce(ds, i + 1)[i] == Coalesce(ds, i + 1)[..i + 1][i] == ds[i];
          assert Coalesce(ds, i + 1)[..i] == Coalesce(ds, i + 1)[..i + 1][..i] == ds[..i];
        }
      } else {
        CoalescePrefix(cs, i + 1);
        assert Coalesce(cs, i + 1)[i] == Coalesce(cs, i + 1)[..i + 1][i] == cs[i];
        assert Coalesce(cs, i + 1)[..i] == Coalesce(cs, i + 1)[..i + 1][..i] == cs[..i];
      }
    }
  }

  // ----- how much one pass merges -----

  ghost predicate Triple(cs: Cells, k: nat) {
    k + 2 < |cs| && Mergeable(cs[k], cs[k + 1]) && Mergeable(cs[k + 1], cs[k + 2])
  }

  ghost predicate NoTriple(cs: Cells, i: nat) { forall k :: i <= k ==> !Triple(cs, k) }

  ghost predicate NoPair(cs: Cells, i: nat) { forall k :: i <= k && k + 1 < |cs| ==> !Mergeable(cs[k], cs[k + 1]) }

  lemma NoPairStep(cs: Cells, i: nat)
    ensures NoPair(cs, i) <==> NoPair(cs, i + 1) && !(i + 1 < |cs| && Mergeable(cs[i], cs[i + 1]))
  {
  }

  /**
   One pass leaves no two neighbouring free blocks to merge if and only if no three in a row could be merged;
   of three, the last is left for another time.
   */
  lemma {:induction false} FullMergeIff(cs: Cells, i: nat)
    ensures NoPair(Coalesce(cs, i), i) <==> NoTriple(cs, i)
    decreases |cs| - i
  {
    if i + 1 < |cs| {
      hide Triple;
      NoPairStep(Coalesce(cs, i), i);
      if Mergeable(cs[i], cs[i + 1]) {
        var c := Merged(cs[i], cs[i + 1]);
        var ds := Join(cs, i, c);
        FullMergeIff(ds, i + 1);
        JoinTriples(cs, ds, i, c);
        if i + 1 < |ds| {
          CoalescePrefix(ds, i + 1);
          assert Coalesce(ds, i + 1)[i] == Coalesce(ds, i + 1)[..i + 1][i] == c;
        } else {
          assert Coalesce(ds, i + 1) == ds;
        }
      } else {
        FullMergeIff(cs, i + 1);
        CoalescePrefix(cs, i + 1);
        assert Coalesce(cs, i + 1)[i] == Coalesce(cs, i + 1)[..i + 1][i] == cs[i];
        TripleStep(cs, i);
      }
    } else {
      assert NoTriple(cs, i) && NoPair(cs, i);
    }
  }

  lemma TripleStep(cs: Cells, i: nat)
    requires i + 1 < |cs| && !Mergeable(cs[i], cs[i + 1])
    ensures NoTriple(cs, i) <==> NoTriple(cs, i + 1)
  {
  }

  lemma JoinTriples(cs: Cells, ds: Cells, i: nat, c: Cell)
    requires IsJoin(cs, ds, i, c) && Mergeable(cs[i], cs[i + 1]) && c == Merged(cs[i], cs[i + 1])
    ensures NoTriple(cs, i) <==> NoTriple(ds, i + 1) && !(i + 1 < |ds| && Mergeable(c, ds[i + 1]))
  {
    if NoTriple(cs, i) {
      forall k | i + 1 <= k ensures !Triple(ds, k) {
        assert !Triple(cs, k + 1);
      }
      assert !Triple(cs, i);
    }
    if NoTriple(ds, i + 1) && !(i + 1 < |ds| && Mergeable(c, ds[i + 1])) {
      forall k | i <= k ensures !Triple(cs, k) {
        if k >= i + 2 { assert !Triple(ds, k - 1); }
      }
    }
  }

  /**
   Three blocks in a row, of which the middle one is in use and is freed: one pass merges the first two and leaves the
   third.
   */
  lemma NotFullyMerged()
    ensures var cs := [Cell(0x10_0000, 32, true), Cell(0x10_0040, 32, false), Cell(0x10_0080, 32, true)];
      Disjoint(cs) && Freed(cs, 1) == [Cell(0x10_0000, 96, true), Cell(0x10_0080, 32, true)] && !NoPair(Freed(cs, 1), 0)
  {
    var cs := [Cell(0x10_0000, 32, true), Cell(0x10_0040, 32, false), Cell(0x10_0080, 32, true)];
    var ds := Mark(cs, 1, true);
    var es := [Cell(0x10_0000, 96, true), Cell(0x10_0080, 32, true)];
    assert Join(ds, 0, Merged(ds[0], ds[1])) == es;
    assert Coalesce(es, 1) == es;
    assert Mergeable(es[0], es[1]);
  }

  // ----- allocating and freeing -----

  /** Block i given out for a request of the given size. */
  function Allot(cs: Cells, i: nat, size: nat): Cells
    requires i < |cs| && size <= cs[i].size
  {
    var ds := Split(cs, i, size);
    Mark(ds, i, false)
  }

  lemma SplitOk(cs: Cells, i: nat, size: nat)
    requires Disjoint(cs) && i < |cs| && size <= cs[i].size && size % 16 == 0
    ensures var ds := Split(cs, i, size);
      && Disjoint(ds) && SameMemory(cs, ds) && i < |ds| && ds[i].addr == cs[i].addr && ds[i].free == cs[i].free
      && size <= ds[i].size <= cs[i].size && (ds[i].size == size || ds == cs)
  {
    hide SameMemory, Disjoint;
    var c, ds := cs[i], Split(cs, i, size);
    CellAt(cs, i);
    if c.size - size > HEADER + 32 {
      var a, b := c.(size := size), Cell(c.addr + HEADER + size, c.size - size - HEADER, true);
      CutDisjoint(cs, ds, i, a, b);
      CutMemory(cs, ds, i, a, b);
    } else {
      MemoryTrans(cs, cs, cs);
    }
  }

  lemma SplitKeeps(cs: Cells, i: nat, size: nat, d: Cell)
    requires i < |cs| && size <= cs[i].size && d in cs && d != cs[i]
    ensures d in Split(cs, i, size)
  {
    var j :| 0 <= j < |cs| && cs[j] == d;
    var ds := Split(cs, i, size);
    if ds != cs { assert ds[if j < i then j else j + 1] == d; }
  }

  /** Giving out a free block disturbs no block in use, and what is given out is large enough. */
  lemma AllotOk(cs: Cells, i: nat, size: nat)
    requires Disjoint(cs) && i < |cs| && cs[i].free && size <= cs[i].size && size % 16 == 0
    ensures var ds := Allot(cs, i, size);
      && Disjoint(ds) && SameMemory(cs, ds) && KeepsLive(cs, ds, 0)
      && i < |ds| && ds[i].addr == cs[i].addr && !ds[i].free && size <= ds[i].size
  {
    hide SameMemory, Disjoint, Split;
    SplitOk(cs, i, size);
    var ds := Split(cs, i, size);
    MarkOk(ds, i, false);
    MemoryTrans(cs, ds, Mark(ds, i, false));
    forall d | d in cs && !d.free ensures d in Mark(ds, i, false) {
      SplitKeeps(cs, i, size, d);
      var j :| 0 <= j < |ds| && ds[j] == d;
      assert Mark(ds, i, false)[j] == d;
    }
  }

  /** The list after block i has been freed. */
  function Freed(cs: Cells, i: nat): Cells
    requires i < |cs|
  {
    Coalesce(Mark(cs, i, true), 0)
  }

  lemma FreedOk(cs: Cells, i: nat)
    requires Disjoint(cs) && i < |cs|
    ensures Disjoint(Freed(cs, i)) && SameMemory(cs, Freed(cs, i)) && KeepsLive(cs, Freed(cs, i), cs[i].addr)
  {
    hide SameMemory, Disjoint, Coalesce;
    var ds := Mark(cs, i, true);
    MarkOk(cs, i, true);
    CoalesceOk(ds, 0);
    MemoryTrans(cs, ds, Coalesce(ds, 0));
    forall d | d in cs && !d.free && d.addr != cs[i].addr ensures d in Coalesce(ds, 0) {
      var j :| 0 <= j < |cs| && cs[j] == d;
      assert ds[j] == d;
      CellAddr(ds, j);
    }
  }

  lemma CellAddr(cs: Cells, i: nat)
    requires Disjoint(cs) && i < |cs|
    ensures cs[i].addr != 0
  {
  }

  // ----- which block serves a request -----

  /** A block of the new list that takes in all of an old one and is free. */
  ghost predicate TakesIn(ds: Cells, j: nat, c: Cell) {
    j < |ds| && ds[j].free && ds[j].addr <= c.addr && End(c) <= End(ds[j])
  }

  lemma {:induction false} CoalesceTakes(cs: Cells, k: nat, i: nat) returns (j: nat)
    requires k <= i < |cs| && cs[i].free
    ensures TakesIn(Coalesce(cs, k), j, cs[i])
    ensures i == k || !Mergeable(cs[i - 1], cs[i]) ==> Coalesce(cs, k)[j].addr == cs[i].addr
    decreases |cs| - k
  {
    if k + 1 >= |cs| {
      j := i;
    } else if Mergeable(cs[k], cs[k + 1]) {
      var c := Merged(cs[k], cs[k + 1]);
      var ds := Join(cs, k, c);
      if i <= k + 1 {
        j := k;
        FrontStays(ds, k + 1, k);
      } else {
        assert ds[i - 1] == cs[i] && (i - 2 > k ==> ds[i - 2] == cs[i - 1]);
        j := CoalesceTakes(ds, k + 1, i - 1);
      }
    } else if i == k {
      j := k;
      FrontStays(cs, k + 1, k);
    } else {
      j := CoalesceTakes(cs, k + 1, i);
    }
  }

  lemma FrontStays(cs: Cells, k: nat, j: nat)
    requires j < k <= |cs|
    ensures j < |Coalesce(cs, k)| && Coalesce(cs, k)[j] == cs[j]
  {
    if k < |cs| {
      CoalescePrefix(cs, k);
      var ds := Coalesce(cs, k);
      assert ds[..k][j] == cs[..k][j];
    }
  }

  /**
   The memory of a freed block is in a free block of the list afterwards; it starts where the freed one did unless that
   one was merged with the block before it.
   */
  lemma FreedServes(cs: Cells, i: nat) returns (j: nat)
    requires i < |cs|
    ensures TakesIn(Freed(cs, i), j, cs[i])
    ensures i == 0 || !cs[i - 1].free || End(cs[i - 1]) != cs[i].addr ==> Freed(cs, i)[j].addr == cs[i].addr
  {
    hide Coalesce;
    j := CoalesceTakes(Mark(cs, i, true), 0, i);
  }

  /** Block i is the first in list order that is free and large enough. */
  ghost predicate FirstFit(cs: Cells, i: nat, n: nat) {
    i < |cs| && cs[i].free && cs[i].size >= n && forall j :: 0 <= j < i ==> !(cs[j].free && cs[j].size >= n)
  }

  lemma FirstFitOnly(cs: Cells, i: nat, j: nat, n: nat)
    requires FirstFit(cs, i, n) && FirstFit(cs, j, n)
    ensures i == j
  {
  }

  lemma {:induction false} CoalesceSkips(cs: Cells, k: nat, i: nat)
    requires k <= i < |cs| && forall m :: k <= m < i ==> !Mergeable(cs[m], cs[m + 1])
    ensures Coalesce(cs, k) == Coalesce(cs, i)
    decreases i - k
  {
    if k < i { CoalesceSkips(cs, k + 1, i); }
  }

  /** Nothing in front of block i can be merged once the block is free. */
  predicate NoneMerges(cs: Cells, i: nat)
    requires i < |cs|
  {
    forall m :: 0 <= m < i ==> !Mergeable(Mark(cs, i, true)[m], Mark(cs, i, true)[m + 1])
  }

  /** A block just freed is the first fit for its size when nothing in front of it merges or suits. */
  lemma FreedFirst(cs: Cells, i: nat, n: nat)
    requires i < |cs| && n <= cs[i].size && NoneMerges(cs, i) && forall m :: 0 <= m < i ==>
      !(cs[m].free && cs[m].size >= n)
    ensures FirstFit(Freed(cs, i), i, n) && Freed(cs, i)[i].addr == cs[i].addr
  {
    var ds := Mark(cs, i, true);
    CoalesceSkips(ds, 0, i);
    CoalescePrefix(ds, i);
    var es := Coalesce(ds, i);
    hide Coalesce;
    forall m | 0 <= m < i ensures es[m] == cs[m] { assert es[..i][m] == ds[..i][m]; }
    CoalesceGrows(ds, i);
  }

  lemma {:induction false} CoalesceGrows(cs: Cells, i: nat)
    requires i < |cs|
    ensures i < |Coalesce(cs, i)| && Coalesce(cs, i)[i].size >= cs[i].size
  {
    CoalescePrefix(cs, i);
    if i + 1 < |cs| {
      if Mergeable(cs[i], cs[i + 1]) {
        FrontStays(Join(cs, i, Merged(cs[i], cs[i + 1])), i + 1, i);
      } else {
        FrontStays(cs, i + 1, i);
      }
    }
  }

  /** A block given out keeps all its memory, or its first n bytes when more than 64 bytes are left over. */
  lemma AllotIs(cs: Cells, i: nat, n: nat)
    requires i < |cs| && n <= cs[i].size
    ensures var c, ds := cs[i], Allot(cs, i, n);
      if c.size - n <= 64 then ds == cs[i := Cell(c.addr, c.size, false)]
      else ds == cs[..i] + [Cell(c.addr, n, false), Cell(c.addr + 32 + n, c.size - n - 32, true)] + cs[i + 1..]
  {
  }
}
