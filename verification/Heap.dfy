/**
 The kernel heap in place: a list of block headers linked through memory, on pages from the page allocator.
 Headers that a merge swallowed stay behind in memory; only the list counts.
 */
module Heap {
  import opened Words
  import opened Pmm
  import opened HeapCells

  /** A header; a next of 0 ends the list. */
  datatype Block = Block(size: nat, free: bool, next: nat)

  type Headers = map<nat, Block>

  function AddrOf(cs: Cells, i: nat): nat { if i < |cs| then cs[i].addr else 0 }

  /** The header of block i says what the list says. */
  predicate LinkAt(bs: Headers, cs: Cells, i: nat)
    requires i < |cs|
  {
    cs[i].addr in bs && bs[cs[i].addr] == Block(cs[i].size, cs[i].free, AddrOf(cs, i + 1)) && cs[i].size < TWO64
  }

  /** The headers, followed from head, are the list. */
  ghost predicate Chain(bs: Headers, head: nat, cs: Cells) {
    head == AddrOf(cs, 0) && forall i :: 0 <= i < |cs| ==> LinkAt(bs, cs, i)
  }

  /** The heap's memory is exactly its pages, and those are taken. */
  ghost predicate OnPages(cs: Cells, runs: Runs, busy: seq<bool>) {
    && (forall x: nat :: Covers(cs, x) <==> InRuns(runs, x / 4096))
    && forall p: nat :: InRuns(runs, p) ==> p < |busy| && busy[p]
  }

  /** The runs of pages that the heap got, first page and count. */
  type Runs = seq<(nat, nat)>

  ghost predicate InRuns(runs: Runs, p: nat) { exists k :: 0 <= k < |runs| && runs[k].0 <= p < runs[k].0 + runs[k].1 }

  lemma RunsAppend(runs: Runs, first: nat, count: nat, p: nat)
    ensures InRuns(runs + [(first, count)], p) <==> InRuns(runs, p) || first <= p < first + count
  {
    var rs := runs + [(first, count)];
    if k :| 0 <= k < |runs| && runs[k].0 <= p < runs[k].0 + runs[k].1 { assert rs[k] == runs[k]; }
    if first <= p < first + count { assert rs[|runs|] == (first, count); }
    if k :| 0 <= k < |rs| && rs[k].0 <= p < rs[k].0 + rs[k].1 { assert k < |runs| ==> rs[k] == runs[k]; }
  }

  lemma Distinct(cs: Cells, i: nat, j: nat)
    requires Disjoint(cs) && i < |cs| && j < |cs|
    ensures i != j ==> cs[i].addr != cs[j].addr
  {
    if i < j { assert Apart(cs[i], cs[j]); } else if j < i { assert Apart(cs[j], cs[i]); }
  }

  // ----- sizes -----

  function Align16(size: u64): u64 { U(size + 15) / 16 * 16 }

  /** What request_block asks for, in bytes and in pages, with the source's 64-bit and 32-bit arithmetic. */
  function RequestBytes(n: u64): u64 { U(U(n + HEADER) + 4095) / 4096 * 4096 }

  function RequestPages(n: u64): nat { RequestBytes(n) / 4096 % 0x1_0000_0000 }

  predicate Fits(size: u64) { size <= 0x1000_0000_0000 - 4128 }

  lemma AlignIs(size: u64)
    ensures Align16(size) % 16 == 0
    ensures if size + 15 < TWO64 then size <= Align16(size) < size + 16 else Align16(size) == 0
  {
  }

  lemma PagesIs(n: u64)
    ensures RequestBytes(n) % 4096 == 0
    ensures if n + 4127 < TWO64 then n + HEADER <= RequestBytes(n) < n + HEADER + 4096 else RequestBytes(n) < 4128
  {
    if n + HEADER < TWO64 {
      assert U(n + HEADER) == n + HEADER;
    } else {
      assert U(n + HEADER) == n + HEADER - TWO64 < HEADER;
    }
  }

  /** The page count is not truncated exactly when it has 32 bits. */
  lemma CountIs(n: u64)
    ensures RequestPages(n) * 4096 == RequestBytes(n) <==> RequestBytes(n) < 0x1000_0000_0000
  {
    PagesIs(n);
    hide RequestBytes;
    var b := RequestBytes(n);
    if b < 0x1000_0000_0000 { assert b / 4096 < 0x1_0000_0000; } else { assert b / 4096 >= 0x1_0000_0000; }
  }

  /** Requests are rounded up without loss exactly when they fit in 32 bits of pages. */
  lemma FitsExactly(size: u64)
    ensures Fits(size) <==>
      Align16(size) >= size && RequestPages(Align16(size)) * 4096 == RequestBytes(Align16(size)) &&
                            RequestBytes(Align16(size)) >= Align16(size) + HEADER
  {
    hide Align16, RequestBytes, RequestPages;
    AlignIs(size);
    PagesIs(Align16(size));
    CountIs(Align16(size));
  }

  /** The size that request_block records for the block on its new pages. */
  function Recorded(n: u64): u64 { U(RequestBytes(n) - HEADER) }

  /** The recorded block lies inside the pages it stands on and is as large as the request. */
  predicate Sound(size: u64) {
    var n := Align16(size);
    HEADER + Recorded(n) <= RequestPages(n) * 4096 && size <= Recorded(n)
  }

  /** When pages are granted, the block on them is sound if and only if the request fits. */
  lemma SoundIff(size: u64)
    requires RequestPages(Align16(size)) > 0
    ensures Sound(size) <==> Fits(size)
  {
    var n := Align16(size);
    RecordedIs(n);
    hide Align16, RequestBytes, RequestPages, Recorded;
    FitsExactly(size);
    AlignIs(size);
    PagesIs(n);
    CountIs(n);
  }

  lemma RecordedIs(n: u64)
    requires RequestPages(n) > 0
    ensures Recorded(n) == RequestBytes(n) - HEADER && RequestPages(n) * 4096 <= RequestBytes(n)
  {
    PagesIs(n);
    hide RequestBytes;
    var b := RequestBytes(n);
    assert b / 4096 > 0;
  }

  /** A page count of zero: the request is refused however much memory is free. */
  lemma ZeroPagesIff(n: u64)
    ensures RequestPages(n) == 0 <==> RequestBytes(n) % 0x1000_0000_0000 == 0
  {
    PagesIs(n);
    hide RequestBytes;
    ZeroCount(RequestBytes(n));
  }

  lemma ZeroCount(b: nat)
    requires b % 4096 == 0
    ensures b / 4096 % 0x1_0000_0000 == 0 <==> b % 0x1000_0000_0000 == 0
  {
    var q := b / 4096;
    assert b == 4096 * q;
    if q % 0x1_0000_0000 == 0 {
      assert b == 0x1000_0000_0000 * (q / 0x1_0000_0000);
    } else {
      assert b == 0x1000_0000_0000 * (q / 0x1_0000_0000) + 4096 * (q % 0x1_0000_0000);
    }
  }

  /** A request of 2^44 bytes: one page is asked for, and a block of more than 2^44 bytes is recorded on it. */
  lemma HugeRequest(size: u64)
    requires size == 0x1000_0000_0000
    ensures Align16(size) == size && RequestPages(size) == 1 && RequestBytes(size) == size + 4096
    ensures Recorded(size) == size + 4064 && !Fits(size) && !Sound(size)
  {
    assert Align16(size) == size;
    assert RequestBytes(size) == size + 4096;
    assert RequestPages(size) == 1;
  }

  /** A request of 2^44 - 32 bytes: no pages are asked for. */
  lemma RefusedRequest(size: u64)
    requires size == 0x1000_0000_0000 - 32
    ensures Align16(size) == size && RequestPages(size) == 0 && !Fits(size)
  {
  }

  // ----- steps on the headers -----

  lemma ChainMark(bs: Headers, head: nat, cs: Cells, i: nat, free: bool)
    requires Chain(bs, head, cs) && Disjoint(cs) && i < |cs|
    ensures LinkAt(bs, cs, i) && Chain(bs[cs[i].addr := bs[cs[i].addr].(free := free)], head, Mark(cs, i, free))
  {
    var ds := Mark(cs, i, free);
    assert LinkAt(bs, cs, i);
    var bs' := bs[cs[i].addr := bs[cs[i].addr].(free := free)];
    forall k | 0 <= k < |ds| ensures LinkAt(bs', ds, k) {
      assert LinkAt(bs, cs, k) && AddrOf(ds, k + 1) == AddrOf(cs, k + 1);
      Distinct(cs, i, k);
    }
  }

  /** The headers after block i was cut: the new header b, then the shortened one. */
  function CutHeaders(bs: Headers, c: Cell, size: nat, b: Cell): Headers
    requires c.addr in bs
  {
    bs[b.addr := Block(b.size, true, bs[c.addr].next)][c.addr := Block(size, c.free, b.addr)]
  }

  function Rest(c: Cell, size: nat): Cell
    requires size + HEADER <= c.size
  {
    Cell(c.addr + HEADER + size, c.size - size - HEADER, true)
  }

  lemma CutLink(bs: Headers, cs: Cells, ds: Cells, i: nat, size: nat, k: nat)
    requires i < |cs| && size + HEADER <= cs[i].size && IsCut(cs, ds, i, cs[i].(size := size), Rest(cs[i], size))
      && k < |ds|
    requires LinkAt(bs, cs, i) && LinkAt(bs, cs, if k <= i then k else k - 1)
    requires forall j :: 0 <= j < |cs| && j != i ==> cs[j].addr != cs[i].addr && cs[j].addr != Rest(cs[i], size).addr
    ensures LinkAt(CutHeaders(bs, cs[i], size, Rest(cs[i], size)), ds, k)
  {
    if k < i {
      assert AddrOf(ds, k + 1) == AddrOf(cs, k + 1);
    } else if k > i + 1 {
      assert AddrOf(ds, k + 1) == AddrOf(cs, k);
    } else if k == i + 1 {
      assert AddrOf(ds, k + 1) == AddrOf(cs, i + 1);
    }
  }

  lemma ChainCut(bs: Headers, head: nat, cs: Cells, i: nat, size: nat)
    requires Chain(bs, head, cs) && Disjoint(cs) && i < |cs| && size + HEADER <= cs[i].size
    ensures LinkAt(bs, cs, i)
    ensures Chain(CutHeaders(bs, cs[i], size, Rest(cs[i], size)), head,
      Cut(cs, i, cs[i].(size := size), Rest(cs[i], size)))
  {
    var ds := Cut(cs, i, cs[i].(size := size), Rest(cs[i], size));
    assert LinkAt(bs, cs, i);
    var bs' := CutHeaders(bs, cs[i], size, Rest(cs[i], size));
    hide LinkAt, CutHeaders;
    forall j | 0 <= j < |cs| && j != i ensures cs[j].addr != cs[i].addr && cs[j].addr != Rest(cs[i], size).addr {
      if j < i { assert Apart(cs[j], cs[i]); } else { assert Apart(cs[i], cs[j]); }
    }
    forall k | 0 <= k < |ds| ensures LinkAt(bs', ds, k) {
      assert LinkAt(bs, cs, if k <= i then k else k - 1);
      CutLink(bs, cs, ds, i, size, k);
    }
  }

  /** The headers after block i swallowed its neighbour. */
  function JoinHeaders(bs: Headers, c: Cell, d: Cell): Headers
    requires d.addr in bs
  {
    bs[c.addr := Block(c.size + HEADER + d.size, c.free, bs[d.addr].next)]
  }

  lemma JoinLink(bs: Headers, cs: Cells, ds: Cells, i: nat, k: nat)
    requires i + 1 < |cs| && IsJoin(cs, ds, i, Merged(cs[i], cs[i + 1])) && k < |ds|
      && Merged(cs[i], cs[i + 1]).size < TWO64
    requires LinkAt(bs, cs, i + 1) && LinkAt(bs, cs, if k <= i then k else k + 1)
    requires forall j :: 0 <= j < |cs| && j != i ==> cs[j].addr != cs[i].addr
    ensures LinkAt(JoinHeaders(bs, cs[i], cs[i + 1]), ds, k)
  {
    if k < i {
      assert AddrOf(ds, k + 1) == AddrOf(cs, k + 1);
    } else {
      assert AddrOf(ds, k + 1) == AddrOf(cs, k + 2);
    }
  }

  lemma ChainJoin(bs: Headers, head: nat, cs: Cells, i: nat)
    requires Chain(bs, head, cs) && Disjoint(cs) && i + 1 < |cs| && Merged(cs[i], cs[i + 1]).size < TWO64
    ensures LinkAt(bs, cs, i + 1) && Chain(JoinHeaders(bs, cs[i], cs[i + 1]), head,
      Join(cs, i, Merged(cs[i], cs[i + 1])))
  {
    hide LinkAt, JoinHeaders, Join;
    var c := Merged(cs[i], cs[i + 1]);
    var ds := Join(cs, i, c);
    InChain(bs, head, cs, i + 1);
    JoinedAre(cs, i, c);
    var bs' := JoinHeaders(bs, cs[i], cs[i + 1]);
    assert LinkAt(bs, cs, i + 1);
    forall j | 0 <= j < |cs| && j != i ensures cs[j].addr != cs[i].addr {
      if j < i { assert Apart(cs[j], cs[i]); } else { assert Apart(cs[i], cs[j]); }
    }
    forall k | 0 <= k < |ds| ensures LinkAt(bs', ds, k) {
      assert LinkAt(bs, cs, if k <= i then k else k + 1);
      JoinLink(bs, cs, ds, i, k);
    }
  }

  lemma JoinedAre(cs: Cells, i: nat, c: Cell)
    requires i + 1 < |cs|
    ensures IsJoin(cs, Join(cs, i, c), i, c) && (c.addr == cs[i].addr ==> AddrOf(Join(cs, i, c), 0) == AddrOf(cs, 0))
  {
  }

  /** The headers after a new block was linked behind the last one. */
  function TailHeaders(bs: Headers, last: nat, c: Cell): Headers
    requires last in bs
  {
    bs[c.addr := Block(c.size, c.free, 0)][last := bs[last].(next := c.addr)]
  }

  lemma ChainAppend(bs: Headers, head: nat, cs: Cells, c: Cell)
    requires Chain(bs, head, cs) && Disjoint(cs) && c.size < TWO64
      && (forall i :: 0 <= i < |cs| ==> cs[i].addr != c.addr) && cs != []
    ensures LinkAt(bs, cs, |cs| - 1) && Chain(TailHeaders(bs, cs[|cs| - 1].addr, c), head, cs + [c])
  {
    var n := |cs| - 1;
    assert LinkAt(bs, cs, n);
    var bs' := TailHeaders(bs, cs[n].addr, c);
    forall k | 0 <= k <= n + 1 ensures LinkAt(bs', cs + [c], k) {
      if k <= n {
        assert LinkAt(bs, cs, k);
        Distinct(cs, k, n);
      }
    }
  }

  lemma ChainFirst(bs: Headers, c: Cell)
    requires c.size < TWO64
    ensures Chain(bs[c.addr := Block(c.size, c.free, 0)], c.addr, [c])
  {
  }

  /** A free block that is large enough. */
  predicate Suits(c: Cell, size: nat) { c.free && c.size >= size }

  /** The request is neither truncated nor wrapped around. */
  predicate Whole(n: u64) { RequestPages(n) * 4096 == RequestBytes(n) && RequestBytes(n) >= n + HEADER && n % 16 == 0 }

  lemma NewAddress(cs: Cells, runs: Runs, busy: seq<bool>, first: nat, count: nat)
    requires Disjoint(cs) && OnPages(cs, runs, busy) && FreeRun(busy, first, count) && count > 0
    ensures forall i :: 0 <= i < |cs| ==> cs[i].addr != first * 4096
  {
    forall i | 0 <= i < |cs| ensures cs[i].addr != first * 4096 {
      assert Holds(cs[i], cs[i].addr);
      assert Covers(cs, cs[i].addr);
    }
  }

  lemma NewApart(cs: Cells, runs: Runs, busy: seq<bool>, first: nat, count: nat, i: nat)
    requires Disjoint(cs) && OnPages(cs, runs, busy) && FreeRun(busy, first, count) && count > 0 && i < |cs|
    ensures End(cs[i]) <= first * 4096 || first * 4096 + count * 4096 <= cs[i].addr
  {
    if !(End(cs[i]) <= first * 4096 || first * 4096 + count * 4096 <= cs[i].addr) {
      var x := if cs[i].addr < first * 4096 then first * 4096 else cs[i].addr;
      assert Holds(cs[i], x) && first <= x / 4096 < first + count;
      ghost var covered := Covers(cs, x);
      assert false;
    }
  }

  lemma Extended(bs: Headers, head: nat, cs: Cells, runs: Runs, busy: seq<bool>, first: nat, count: nat, n: u64,
      busy': seq<bool>)
    requires Chain(bs, head, cs) && Disjoint(cs) && OnPages(cs, runs, busy) && FreeRun(busy, first, count) && first > 0
    requires Whole(n) && count == RequestPages(n) && count > 0 && busy' == SetRun(busy, first, count, true)
    ensures var c := Cell(first * 4096, RequestBytes(n) - HEADER, true);
      && Disjoint(cs + [c]) && OnPages(cs + [c], runs + [(first, count)], busy')
      && (cs == [] ==> Chain(bs[c.addr := Block(c.size, true, 0)], c.addr, [c]))
      && (cs != [] ==> LinkAt(bs, cs, |cs| - 1) && Chain(TailHeaders(bs, cs[|cs| - 1].addr, c), head, cs + [c]))
  {
    hide LinkAt, RequestPages, RequestBytes, Chain, TailHeaders;
    var c := Cell(first * 4096, RequestBytes(n) - HEADER, true);
    forall i | 0 <= i < |cs| ensures Apart(cs[i], c) {
      NewApart(cs, runs, busy, first, count, i);
    }
    NewAddress(cs, runs, busy, first, count);
    Sixteen(first, count);
    assert Disjoint(cs + [c]);
    forall x: nat ensures Covers(cs + [c], x) <==> InRuns(runs + [(first, count)], x / 4096) {
      CoversAppend(cs, c, x);
      RunsAppend(runs, first, count, x / 4096);
    }
    forall p: nat | InRuns(runs + [(first, count)], p) ensures p < |busy'| && busy'[p] {
      RunsAppend(runs, first, count, p);
    }
    if cs == [] { ChainFirst(bs, c); } else { ChainAppend(bs, head, cs, c); }
  }

  /** A new last block: its header, and the link of the one before it. */
  lemma RequestWrites(bs: Headers, cs: Cells, first: bool)
    requires cs != [] && (!first ==> |cs| > 1 && cs[|cs| - 2].addr in bs)
    ensures var c := cs[|cs| - 1]; var one := bs[c.addr := Block(c.size, c.free, 0)];
      if first then WrittenIn(bs, one, cs) else WrittenIn(bs, TailHeaders(bs, cs[|cs| - 2].addr, c), cs)
  {
    hide WrittenIn;
    var c := cs[|cs| - 1];
    WrittenOne(bs, cs, |cs| - 1, Block(c.size, c.free, 0));
    if !first { WrittenTwo(bs, cs, |cs| - 1, |cs| - 2, Block(c.size, c.free, 0),
      bs[cs[|cs| - 2].addr].(next := c.addr)); }
  }

  lemma HeadNull(bs: Headers, head: nat, cs: Cells)
    requires Chain(bs, head, cs) && Disjoint(cs)
    ensures head == 0 <==> cs == []
  {
    if cs != [] { CellAt(cs, 0); }
  }

  lemma Untouched(cs: Cells, runs: Runs, busy: seq<bool>, busy': seq<bool>)
    requires OnPages(cs, runs, busy) && busy' == busy
    ensures OnPages(cs, runs, busy')
  {
  }

  lemma Sixteen(first: nat, count: nat)
    requires first > 0
    ensures first * 4096 % 16 == 0 && first * 4096 > 0 && count * 4096 % 16 == 0
  {
    Multiple(first * 256);
    Multiple(count * 256);
  }

  lemma PageStart(page: nat)
    ensures page * 4096 % 4096 == 0 && page * 4096 / 4096 == page
  {
  }

  lemma Multiple(n: nat)
    ensures n * 16 % 16 == 0
  {
  }

  lemma CoversAppend(cs: Cells, c: Cell, x: nat)
    ensures Covers(cs + [c], x) <==> Covers(cs, x) || Holds(c, x)
  {
    var ds := cs + [c];
    if i :| 0 <= i < |cs| && Holds(cs[i], x) { assert Holds(ds[i], x); }
    if Holds(c, x) { assert Holds(ds[|cs|], x); }
    if i :| 0 <= i < |ds| && Holds(ds[i], x) { assert i < |cs| ==> Holds(cs[i], x); }
  }

  lemma ChainAt(bs: Headers, head: nat, cs: Cells, i: nat)
    requires Chain(bs, head, cs) && i < |cs|
    ensures cs[i].addr in bs && bs[cs[i].addr] == Block(cs[i].size, cs[i].free, AddrOf(cs, i + 1)) && cs[i].size < TWO64
  {
    assert LinkAt(bs, cs, i);
  }

  lemma InChain(bs: Headers, head: nat, cs: Cells, i: nat)
    requires Chain(bs, head, cs) && i < |cs|
    ensures cs[i].addr in bs
  {
    assert LinkAt(bs, cs, i);
  }

  /** What split_block does to the headers, whatever they say: a new header behind n bytes if enough is left. */
  function SplitHeaders(bs: Headers, a: nat, n: u64): Headers
    requires a in bs
  {
    var rest, next := U(bs[a].size - n), U(a + HEADER + n);
    if rest <= HEADER + 32 then bs
    else bs[next := Block(rest - HEADER, true, bs[a].next)][a := Block(n, bs[a].free, next)]
  }

  /** Block i of the list starts at a and has n bytes. */
  ghost predicate Splits(cs: Cells, i: nat, a: nat, n: nat) {
    Disjoint(cs) && i < |cs| && cs[i].addr == a && n <= cs[i].size && End(cs[i]) < TWO64
  }

  lemma CutHeadersAre(bs: Headers, c: Cell, size: nat)
    requires c.addr in bs && size + HEADER <= c.size
    ensures CutHeaders(bs, c, size, Rest(c, size)) ==
            bs[c.addr + HEADER + size := Block(c.size - size - HEADER, true, bs[c.addr].next)][c.addr :=
              Block(size, c.free, c.addr + HEADER + size)]
  {
  }

  /** The headers that a split writes are those of the two parts. */
  lemma SplitWrites(bs: Headers, cs: Cells, i: nat, n: nat)
    requires i < |cs| && cs[i].addr in bs && n <= cs[i].size
    ensures WrittenIn(bs, bs, Split(cs, i, n)) && AddrsStay(cs, Split(cs, i, n))
    ensures cs[i].size - n > HEADER + 32 ==> WrittenIn(bs, CutHeaders(bs, cs[i], n, Rest(cs[i], n)), Split(cs, i, n))
  {
    hide WrittenIn, AddrsStay;
    var ds := Split(cs, i, n);
    WrittenNone(bs, ds);
    WrittenNone(bs, cs);
    if cs[i].size - n > HEADER + 32 {
      var x, y := cs[i].(size := n), Rest(cs[i], n);
      assert ds == Cut(cs, i, x, y);
      assert ds[i] == x && ds[i + 1] == y;
      WrittenTwo(bs, ds, i + 1, i, Block(y.size, true, bs[cs[i].addr].next), Block(n, cs[i].free, y.addr));
      CutStays(cs, i, x, y);
    }
  }

  lemma LiveRefl(cs: Cells)
    ensures KeepsLive(cs, cs, 0)
  {
  }

  lemma FitsWhole(size: u64)
    requires Fits(size)
    ensures Whole(Align16(size)) && RequestPages(Align16(size)) > 0 && size <= Align16(size) && Align16(size) % 16 == 0
  {
    hide Align16, RequestBytes, RequestPages;
    FitsExactly(size);
    AlignIs(size);
  }

  /** Block i is in use, starts 32 bytes before ptr, and is large enough. */
  predicate Served(cs: Cells, i: nat, ptr: nat, size: nat) {
    i < |cs| && cs[i].addr + HEADER == ptr && !cs[i].free && size <= cs[i].size && ptr % 16 == 0
  }

  /** No block at this address is in use. */
  ghost predicate NotLive(cs: Cells, addr: nat) { forall c :: c in cs && c.addr == addr ==> c.free }

  /** Giving out a block that was offered. */
  lemma AllotAll(cs: Cells, i: nat, n: nat, size: nat, was: Cells, runs: Runs, busy: seq<bool>)
    requires Disjoint(cs) && Offered(was, cs, i, n) && size <= n && n % 16 == 0 && OnPages(cs, runs, busy)
    requires |busy| <= 0x100_0000_0000
    ensures i < |cs| && n <= cs[i].size && Splits(cs, i, cs[i].addr, n)
    ensures var ds := Allot(cs, i, n);
      && Disjoint(ds) && OnPages(ds, runs, busy) && KeepsLive(was, ds, 0)
      && i < |ds| && Served(ds, i, cs[i].addr + HEADER, size) && NotLive(was, ds[i].addr)
  {
    hide Allot, Covers;
    AllotOk(cs, i, n);
    Bounded(cs, runs, busy, i);
    var ds := Allot(cs, i, n);
    CellAt(ds, i);
    forall c | c in was && c.addr == cs[i].addr ensures c.free {
      var j :| 0 <= j < |was| && was[j] == c;
      assert cs[j] == c;
      Distinct(cs, i, j);
    }
  }

  lemma AllotChain(bs: Headers, head: nat, cs: Cells, i: nat, n: nat)
    requires Disjoint(cs) && i < |cs| && n <= cs[i].size && n % 16 == 0 && Chain(bs, head, Split(cs, i, n))
    ensures cs[i].addr in bs && Chain(bs[cs[i].addr := bs[cs[i].addr].(free := false)], head, Allot(cs, i, n))
  {
    hide Split, Disjoint, Chain;
    SplitOk(cs, i, n);
    ChainMark(bs, head, Split(cs, i, n), i, false);
  }

  lemma LiveAppend(cs: Cells, c: Cell)
    ensures KeepsLive(cs, cs + [c], 0)
  {
  }

  lemma OnPagesSame(cs: Cells, ds: Cells, runs: Runs, busy: seq<bool>)
    requires OnPages(cs, runs, busy) && SameMemory(cs, ds)
    ensures OnPages(ds, runs, busy)
  {
    hide Covers, InRuns;
  }

  lemma HeadIs(bs: Headers, head: nat, cs: Cells)
    requires Chain(bs, head, cs)
    ensures head == AddrOf(cs, 0)
  {
  }

  lemma CoalesceEnd(cs: Cells, k: nat)
    requires k + 1 >= |cs|
    ensures Coalesce(cs, k) == cs
  {
  }

  /** What the pass does at block k. */
  lemma CoalesceNext(cs: Cells, k: nat)
    requires k + 1 < |cs|
    ensures Coalesce(cs, k) ==
            if Mergeable(cs[k], cs[k + 1]) then Coalesce(Join(cs, k, Merged(cs[k], cs[k + 1])), k + 1)
              else Coalesce(cs, k + 1)
  {
  }

  /** A header with a next leads to the next block. */
  lemma NextAt(bs: Headers, head: nat, cs: Cells, k: nat)
    requires Chain(bs, head, cs) && Disjoint(cs) && k < |cs| && AddrOf(cs, k + 1) != 0
    ensures k + 1 < |cs| && cs[k + 1].addr == AddrOf(cs, k + 1) && cs[k + 1].addr in bs
    ensures bs[cs[k + 1].addr] == Block(cs[k + 1].size, cs[k + 1].free, AddrOf(cs, k + 2))
    ensures Mergeable(cs[k], cs[k + 1]) <==>
      cs[k].free && cs[k + 1].free && cs[k].addr + HEADER + cs[k].size == cs[k + 1].addr
  {
    assert LinkAt(bs, cs, k + 1);
  }

  /** A header without a next is the last. */
  lemma LastAt(bs: Headers, head: nat, cs: Cells, k: nat)
    requires Chain(bs, head, cs) && Disjoint(cs) && k < |cs| && AddrOf(cs, k + 1) == 0
    ensures k + 1 == |cs|
  {
    forall j | 0 <= j < |cs| ensures cs[j].addr > 0 { CellAt(cs, j); }
  }

  lemma Bounded(cs: Cells, runs: Runs, busy: seq<bool>, i: nat)
    requires OnPages(cs, runs, busy) && |busy| <= 0x100_0000_0000 && i < |cs|
    ensures End(cs[i]) <= 0x10_0000_0000_0000
  {
    var x := End(cs[i]) - 1;
    assert Holds(cs[i], x);
    assert Covers(cs, x);
  }

  lemma MergedFits(a: Cell, b: Cell)
    requires Mergeable(a, b) && End(b) <= 0x10_0000_0000_0000
    ensures Merged(a, b).size < TWO64
  {
  }

  lemma MergeStep(bs: Headers, head: nat, cs: Cells, k: nat, runs: Runs, busy: seq<bool>)
    requires Chain(bs, head, cs) && Disjoint(cs) && OnPages(cs, runs, busy) && |busy| <= 0x100_0000_0000
    requires k + 1 < |cs| && Mergeable(cs[k], cs[k + 1])
    ensures var ds := Join(cs, k, Merged(cs[k], cs[k + 1]));
      && cs[k].addr in bs && cs[k + 1].addr in bs && Disjoint(ds) && OnPages(ds, runs, busy)
      && Chain(bs[cs[k].addr := Block(cs[k].size + HEADER + cs[k + 1].size, cs[k].free, bs[cs[k + 1].addr].next)],
         head, ds)
      && k < |ds| && ds[k] == Cell(cs[k].addr, cs[k].size + HEADER + cs[k + 1].size, cs[k].free)
      && AddrOf(ds, k + 1) == AddrOf(cs, k + 2)
  {
    hide Disjoint, LinkAt, Chain, OnPages, SameMemory, CellOk, Mergeable, Tiles;
    var c := Merged(cs[k], cs[k + 1]);
    var ds := Join(cs, k, c);
    Bounded(cs, runs, busy, k + 1);
    MergedFits(cs[k], cs[k + 1]);
    ChainAt(bs, head, cs, k);
    ChainAt(bs, head, cs, k + 1);
    CellAt(cs, k);
    CellAt(cs, k + 1);
    MergedOk(cs[k], cs[k + 1]);
    JoinDisjoint(cs, ds, k, c);
    JoinMemory(cs, ds, k, c);
    OnPagesSame(cs, ds, runs, busy);
    ChainJoin(bs, head, cs, k);
  }

  // ----- where headers are written -----

  ghost predicate AddrIn(cs: Cells, a: nat) { exists j :: 0 <= j < |cs| && cs[j].addr == a }

  ghost predicate Differs(bs: Headers, bs': Headers, a: nat) { a in bs' && (a !in bs || bs'[a] != bs[a]) }

  /** Every header written is that of a block of the list. */
  ghost predicate WrittenIn(bs: Headers, bs': Headers, cs: Cells) {
    forall a: nat :: Differs(bs, bs', a) ==> AddrIn(cs, a)
  }

  ghost predicate AddrsStay(cs: Cells, ds: Cells) { forall a: nat :: AddrIn(cs, a) ==> AddrIn(ds, a) }

  /** No header written has a byte in common with memory in use. */
  ghost predicate Misses(bs: Headers, bs': Headers, cs: Cells) {
    forall a: nat, j :: Differs(bs, bs', a) && 0 <= j < |cs| && !cs[j].free ==> ClearOf(cs[j], a)
  }

  lemma WrittenMore(bs: Headers, bs1: Headers, bs2: Headers, cs: Cells, ds: Cells)
    requires WrittenIn(bs, bs1, cs) && WrittenIn(bs1, bs2, ds) && AddrsStay(cs, ds)
    ensures WrittenIn(bs, bs2, ds)
  {
    hide AddrIn;
    forall a: nat | Differs(bs, bs2, a) ensures AddrIn(ds, a) {
      assert Differs(bs, bs1, a) || Differs(bs1, bs2, a);
    }
  }

  lemma WrittenNone(bs: Headers, cs: Cells)
    ensures WrittenIn(bs, bs, cs) && AddrsStay(cs, cs)
  {
  }

  lemma WrittenOne(bs: Headers, cs: Cells, i: nat, b: Block)
    requires i < |cs|
    ensures WrittenIn(bs, bs[cs[i].addr := b], cs)
  {
  }

  lemma WrittenTwo(bs: Headers, cs: Cells, i: nat, j: nat, b: Block, d: Block)
    requires i < |cs| && j < |cs|
    ensures WrittenIn(bs, bs[cs[i].addr := b][cs[j].addr := d], cs)
  {
    hide AddrIn;
    WrittenOne(bs, cs, i, b);
    WrittenOne(bs[cs[i].addr := b], cs, j, d);
    WrittenNone(bs, cs);
    WrittenMore(bs, bs[cs[i].addr := b], bs[cs[i].addr := b][cs[j].addr := d], cs, cs);
  }

  lemma MarkStays(cs: Cells, i: nat, free: bool)
    requires i < |cs|
    ensures AddrsStay(cs, Mark(cs, i, free)) && AddrsStay(Mark(cs, i, free), cs)
  {
    var ds := Mark(cs, i, free);
    assert forall j :: 0 <= j < |cs| ==> ds[j].addr == cs[j].addr;
    forall a: nat ensures AddrIn(cs, a) <==> AddrIn(ds, a) {
      if j :| 0 <= j < |cs| && cs[j].addr == a { assert ds[j].addr == a; }
      if j :| 0 <= j < |ds| && ds[j].addr == a { assert cs[j].addr == a; }
    }
  }

  lemma CutStays(cs: Cells, i: nat, x: Cell, y: Cell)
    requires i < |cs| && x.addr == cs[i].addr
    ensures AddrsStay(cs, Cut(cs, i, x, y))
  {
    var ds := Cut(cs, i, x, y);
    assert IsCut(cs, ds, i, x, y);
    forall a: nat | AddrIn(cs, a) ensures AddrIn(ds, a) {
      var j :| 0 <= j < |cs| && cs[j].addr == a;
      if j <= i { assert ds[j].addr == a; } else { assert ds[j + 1].addr == a; }
    }
  }

  lemma JoinStays(cs: Cells, i: nat, c: Cell)
    requires i + 1 < |cs| && c.addr == cs[i].addr
    ensures AddrsStay(Join(cs, i, c), cs)
  {
    var ds := Join(cs, i, c);
    JoinedAre(cs, i, c);
    forall a: nat | AddrIn(ds, a) ensures AddrIn(cs, a) {
      var j :| 0 <= j < |ds| && ds[j].addr == a;
      if j <= i { assert cs[j].addr == a; } else { assert cs[j + 1].addr == a; }
    }
  }

  lemma StayTrans(cs: Cells, ds: Cells, es: Cells)
    requires AddrsStay(cs, ds) && AddrsStay(ds, es)
    ensures AddrsStay(cs, es)
  {
    hide AddrIn;
  }

  lemma WrittenMisses(bs: Headers, bs': Headers, was: Cells, cs: Cells)
    requires WrittenIn(bs, bs', cs) && Disjoint(cs) && KeepsLive(was, cs, 0)
      && (forall j :: 0 <= j < |was| ==> was[j].addr != 0)
    ensures Misses(bs, bs', was)
  {
    hide Disjoint, Differs, AddrIn;
    forall a: nat, j | Differs(bs, bs', a) && 0 <= j < |was| && !was[j].free ensures ClearOf(was[j], a) {
      assert AddrIn(cs, a);
      assert was[j] in was && was[j] in cs;
      MissesAt(cs, was[j], a);
    }
  }

  lemma MissesAt(cs: Cells, c: Cell, a: nat)
    requires Disjoint(cs) && c in cs && AddrIn(cs, a)
    ensures ClearOf(c, a)
  {
    var i :| 0 <= i < |cs| && cs[i] == c;
    var j :| 0 <= j < |cs| && cs[j].addr == a;
    HeadersMissPayloads(cs, i, j);
  }

  lemma NonzeroAddrs(cs: Cells)
    requires Disjoint(cs)
    ensures forall j :: 0 <= j < |cs| ==> cs[j].addr != 0
  {
    forall j | 0 <= j < |cs| ensures cs[j].addr != 0 { CellAt(cs, j); }
  }

  /** Block i of the list can be given out: it is a free one of the old list, or was appended to it. */
  ghost predicate Offered(was: Cells, cs: Cells, i: nat, n: nat) {
    i < |cs| && Suits(cs[i], n) && KeepsLive(was, cs, 0) && (cs == was || (was == cs[..|cs| - 1] && i == |cs| - 1))
  }

  lemma NothingWritten(bs: Headers, cs: Cells)
    ensures Misses(bs, bs, cs)
  {
  }

  /** A merge writes the header of the first of the two blocks. */
  lemma MergeWrites(bs: Headers, bs1: Headers, was: Cells, cs: Cells, k: nat, b: Block)
    requires WrittenIn(bs, bs1, was) && AddrsStay(cs, was) && k + 1 < |cs|
    ensures WrittenIn(bs, bs1[cs[k].addr := b], was) && AddrsStay(Join(cs, k, Merged(cs[k], cs[k + 1])), was)
  {
    hide WrittenIn, Join;
    WrittenOne(bs1, cs, k, b);
    WrittenNone(bs1, was);
    WrittenStays(bs1, bs1[cs[k].addr := b], cs, was);
    WrittenMore(bs, bs1, bs1[cs[k].addr := b], was, was);
    JoinStays(cs, k, Merged(cs[k], cs[k + 1]));
    StayTrans(Join(cs, k, Merged(cs[k], cs[k + 1])), cs, was);
  }

  lemma WrittenStays(bs: Headers, bs': Headers, cs: Cells, ds: Cells)
    requires WrittenIn(bs, bs', cs) && AddrsStay(cs, ds)
    ensures WrittenIn(bs, bs', ds)
  {
    hide AddrIn, Differs;
  }

  lemma OldMisses(bs: Headers, bs': Headers, cs: Cells)
    requires WrittenIn(bs, bs', cs) && Disjoint(cs)
    ensures Misses(bs, bs', cs)
  {
    hide Disjoint, Misses, WrittenIn;
    LiveRefl(cs);
    NonzeroAddrs(cs);
    WrittenMisses(bs, bs', cs, cs);
  }

  /** Everything kmalloc writes is the header of a block of the new list. */
  lemma GivenOut(bs: Headers, bs1: Headers, bs2: Headers, was: Cells, cs: Cells, i: nat, n: nat)
    requires Disjoint(was) && Disjoint(cs) && Offered(was, cs, i, n) && n % 16 == 0 && cs[i].addr in bs1
    requires WrittenIn(bs, bs1, cs) && WrittenIn(bs1, bs2, Split(cs, i, n)) && KeepsLive(was, Allot(cs, i, n), 0)
      && Disjoint(Allot(cs, i, n))
    ensures Misses(bs, bs2, was)
  {
    hide Disjoint, WrittenIn, AddrsStay, KeepsLive, Split, Misses;
    SplitWrites(bs1, cs, i, n);
    WrittenMore(bs, bs1, bs2, cs, Split(cs, i, n));
    SplitOk(cs, i, n);
    MarkStays(Split(cs, i, n), i, false);
    WrittenNone(bs2, Allot(cs, i, n));
    WrittenMore(bs, bs2, bs2, Split(cs, i, n), Allot(cs, i, n));
    NonzeroAddrs(was);
    WrittenMisses(bs, bs2, was, Allot(cs, i, n));
  }

  /** A request for count pages is refused. */
  ghost predicate NoPages(busy: seq<bool>, count: nat) {
    count == 0 || forall s :: FIRST_PAGE <= s ==> !FreeRun(busy, s, count)
  }

  /** a is the start of a run of free pages, as many as a request for n bytes asks for. */
  ghost predicate OnRun(busy: seq<bool>, a: nat, n: u64) {
    a % 4096 == 0 && RequestPages(n) > 0 && FreeRun(busy, a / 4096, RequestPages(n))
  }

  ghost predicate SomeSuits(cs: Cells, n: nat) { exists i :: 0 <= i < |cs| && Suits(cs[i], n) }

  /** Requests that kmalloc serves as it should: those that fit, and those that a block of the list can serve. */
  ghost predicate Honoured(cs: Cells, size: u64) {
    Fits(size) || (size + 15 < TWO64 && SomeSuits(cs, Align16(size)))
  }

  /**
   A block on new pages, marked as used: its header says what was recorded, or n bytes when the rest was split off,
   and then a header stands behind those n bytes -- wherever that is.
   */
  ghost predicate Granted(busy: seq<bool>, bs: Headers, a: nat, n: u64) {
    && OnRun(busy, a, n) && a in bs
    && var rest, next := U(Recorded(n) - n), U(a + HEADER + n);
       if rest <= HEADER + 32 then bs[a] == Block(Recorded(n), false, 0)
       else bs[a] == Block(n, false, next) && (next != a ==> next in bs && bs[next] == Block(rest - HEADER, true, 0))
  }

  /** The header of a block says fewer bytes than were asked for. */
  predicate TooSmall(bs: Headers, a: nat, size: u64) { a in bs && bs[a].size < size }

  lemma HonouredIs(cs: Cells, size: u64)
    ensures Align16(size) % 16 == 0 && (size + 15 >= TWO64 ==> Align16(size) == 0)
    ensures Honoured(cs, size) ==> (Whole(Align16(size)) || SomeSuits(cs, Align16(size))) && size <= Align16(size)
  {
    hide Align16, Whole, SomeSuits;
    AlignIs(size);
    if Fits(size) { FitsWhole(size); }
  }

  lemma RecordedNone()
    ensures Recorded(0) < 0x10_0000_0000_0000
  {
  }

  lemma SplitResult(bs: Headers, bs': Headers, a: nat, n: u64, busy: seq<bool>)
    requires a in bs && a in SplitHeaders(bs, a, n)
    requires bs' == var s := SplitHeaders(bs, a, n); s[a := s[a].(free := false)]
    ensures bs[a] == Block(Recorded(n), true, 0) && OnRun(busy, a, n) ==> Granted(busy, bs', a, n)
  {
    hide Recorded, OnRun;
  }

  lemma SplitSmall(bs: Headers, bs': Headers, a: nat, n: u64, size: u64)
    requires a in bs && a in SplitHeaders(bs, a, n) && bs[a].size < 0x10_0000_0000_0000 && n < size
      && size + 15 >= TWO64
    requires bs' == var s := SplitHeaders(bs, a, n); s[a := s[a].(free := false)]
    ensures TooSmall(bs', a, size)
  {
  }

  /** The first suitable block in list order is given out; when the size wraps nothing is said about the list. */
  ghost predicate FromList(was: Cells, cs: Cells, ptr: nat, size: u64) {
    exists i: nat :: FirstFit(was, i, Align16(size)) && ptr == was[i].addr + HEADER
      && (size + 15 < TWO64 ==> cs == Allot(was, i, Align16(size)))
  }

  /** A block on new pages is put behind the list and given out. */
  ghost predicate FromPages(was: Cells, cs: Cells, runs: Runs, runs': Runs, ptr: nat, n: u64) {
    && ptr >= HEADER && RequestBytes(n) >= HEADER + n
    && cs == Allot(was + [Cell(ptr - HEADER, RequestBytes(n) - HEADER, true)], |was|, n)
    && runs' == runs + [((ptr - HEADER) / 4096, RequestPages(n))]
  }

  lemma GivenFromList(was: Cells, cs: Cells, i: nat, ptr: nat, size: u64)
    requires FirstFit(was, i, Align16(size)) && SomeSuits(was, Align16(size)) && ptr == was[i].addr + HEADER
    requires Honoured(was, size) ==> cs == Allot(was, i, Align16(size))
    ensures FromList(was, cs, ptr, size)
  {
    hide SomeSuits, Align16, Allot;
    assert size + 15 < TWO64 ==> Honoured(was, size);
  }

  /** A new block stands at the end of the list, and its pages at the end of the runs. */
  ghost predicate AtEnd(was: Cells, cs: Cells, runs: Runs, runs': Runs, a: nat, n: u64) {
    && RequestBytes(n) >= HEADER + n && cs == was + [Cell(a, RequestBytes(n) - HEADER, true)]
    && runs' == runs + [(a / 4096, RequestPages(n))]
  }

  lemma GivenFromPages(was: Cells, mid: Cells, cs: Cells, runs: Runs, runs': Runs, i: nat, a: nat, n: u64)
    requires AtEnd(was, mid, runs, runs', a, n) && i == |was|
    requires i < |mid| && n <= mid[i].size ==> cs == Allot(mid, i, n)
    ensures FromPages(was, cs, runs, runs', a + HEADER, n)
  {
    hide RequestBytes, RequestPages, Allot;
  }

  lemma FitsHonoured(cs: Cells, size: u64)
    requires Fits(size)
    ensures Honoured(cs, size) && Whole(Align16(size))
  {
    FitsWhole(size);
  }

  class KernelHeap {
    const pmm: Allocator
    var head: nat
    var blocks: Headers
    ghost var cells: Cells
    ghost var runs: Runs

    ghost predicate Valid()
      reads this, pmm, pmm.bitmap
    {
      && pmm.Valid() && pmm.Exact() && pmm.total == |pmm.busy| <= 0x100_0000_0000
      && Chain(blocks, head, cells) && Disjoint(cells) && OnPages(cells, runs, pmm.busy)
    }

    constructor (p: Allocator)
      requires p.Valid() && p.Exact() && p.total <= 0x100_0000_0000
      ensures Valid() && pmm == p && cells == []
    {
      pmm, head, blocks, cells, runs := p, 0, map[], [], [];
    }

    /** The search of kmalloc: the first suitable block in list order, 0 when there is none. */
    method FindFit(size: nat) returns (a: nat, ghost i: nat)
      requires Valid()
      ensures a != 0 ==> i < |cells| && cells[i].addr == a && Suits(cells[i], size)
      ensures a == 0 ==> i == |cells|
      ensures forall j :: 0 <= j < i ==> !Suits(cells[j], size)
    {
      hide OnPages, Allocator.Valid, Allocator.Exact;
      a, i := head, 0;
      while a != 0
        invariant i <= |cells| && a == AddrOf(cells, i) && (i < |cells| ==> CellOk(cells[i]))
        invariant forall j :: 0 <= j < i ==> !Suits(cells[j], size)
        decreases |cells| - i
      {
        assert LinkAt(blocks, cells, i);
        if blocks[a].free && blocks[a].size >= size { return; }
        a, i := blocks[a].next, i + 1;
      }
    }

    /** request_block: a free block on new pages, linked at the end; 0 when there are none. */
    method RequestBlock(n: u64) returns (a: nat)
      requires Valid()
      modifies this`head, this`blocks, this`cells, this`runs, pmm`free, pmm`used, pmm`busy, pmm.bitmap
      ensures a == 0 ==> Valid() && cells == old(cells) && runs == old(runs) && blocks == old(blocks)
      ensures a == 0 <==> NoPages(old(pmm.busy), RequestPages(n))
      ensures a != 0 ==> a in blocks && blocks[a] == Block(Recorded(n), true, 0)
      ensures a != 0 ==> OnRun(old(pmm.busy), a, n)
      ensures a != 0 && Whole(n) ==>
        Valid() && cells == old(cells) + [Cell(a, RequestBytes(n) - HEADER, true)]
        && runs == old(runs) + [(a / 4096, RequestPages(n))]
      ensures a != 0 && Whole(n) ==> WrittenIn(old(blocks), blocks, cells)
    {
      hide TestBit, Clear, Held, Disjoint, Covers, RequestPages, RequestBytes, Chain, LinkAt, OnPages, FreeRun, SetRun,
           WrittenIn, Recorded;
      var count := RequestPages(n);
      var run := pmm.Alloc(count);
      if run.None? { Untouched(cells, runs, old(pmm.busy), pmm.busy); return 0; }
      a := run.value * 4096;
      var size := Recorded(n);
      HeadNull(blocks, head, cells);
      NewAddress(cells, runs, old(pmm.busy), run.value, count);
      ghost var bs := blocks;
      if head == 0 {
        blocks := blocks[a := Block(size, true, 0)];
        head := a;
      } else {
        var tail; ghost var k;
        tail, k := Tail();
        blocks := blocks[a := Block(size, true, 0)];
        blocks := blocks[tail := blocks[tail].(next := a)];
      }
      PageStart(run.value);
      if Whole(n) {
        RecordedIs(n);
        Extended(bs, old(head), cells, runs, old(pmm.busy), run.value, count, n, pmm.busy);
        ghost var c := Cell(a, RequestBytes(n) - HEADER, true);
        assert old(head) == 0 ==> cells + [c] == [c];
        assert old(head) != 0 ==> blocks == TailHeaders(bs, cells[|cells| - 1].addr, c);
        cells, runs := cells + [c], runs + [(run.value, count)];
        RequestWrites(bs, cells, old(head) == 0);
      }
    }

    /** The last block of a list that is not empty. */
    method Tail() returns (t: nat, ghost k: nat)
      requires Chain(blocks, head, cells) && Disjoint(cells) && head != 0
      ensures k == |cells| - 1 && t == cells[k].addr && t in blocks
    {
      t, k := head, 0;
      assert LinkAt(blocks, cells, 0);
      while blocks[t].next != 0
        invariant k < |cells| && t == cells[k].addr && LinkAt(blocks, cells, k)
          && (k + 1 < |cells| ==> CellOk(cells[k + 1]))
        decreases |cells| - k
      {
        assert LinkAt(blocks, cells, k + 1);
        t, k := blocks[t].next, k + 1;
      }
    }

    /** split_block, on any header; on a block of the list that is large enough it cuts the block in two. */
    method SplitBlock(a: nat, n: u64, ghost i: nat)
      requires a in blocks
      modifies this`blocks
      ensures a in blocks && blocks == SplitHeaders(old(blocks), a, n)
      ensures old(Chain(blocks, head, cells)) && Splits(cells, i, a, n) ==>
                Chain(blocks, head, Split(cells, i, n)) && WrittenIn(old(blocks), blocks, Split(cells, i, n))
    {
      hide Disjoint, LinkAt, CutHeaders, WrittenIn;
      var b := blocks[a];
      var remaining := U(b.size - n);
      ghost var sound := Chain(blocks, head, cells) && Splits(cells, i, a, n);
      if sound { ChainAt(blocks, head, cells, i); SplitWrites(blocks, cells, i, n); }
      if remaining <= HEADER + 32 { return; }
      if sound { ChainCut(blocks, head, cells, i, n); CutHeadersAre(blocks, cells[i], n); }
      var next := U(a + HEADER + n);
      blocks := blocks[next := Block(remaining - HEADER, true, b.next)];
      blocks := blocks[a := Block(n, b.free, next)];
    }

    /**
     kmalloc. For every request that can be honoured, the block given out was free or is new, is large enough and
     aligned, and no block in use is disturbed. Without a suitable block the request is refused exactly when no pages
     are asked for or none are left; otherwise a block is recorded on new pages, sound or not (SoundIff).
     */
    method Kmalloc(size: u64) returns (ptr: nat)
      requires Valid()
      modifies this`head, this`blocks, this`cells, this`runs, pmm`free, pmm`used, pmm`busy, pmm.bitmap
      ensures size == 0 ==> ptr == 0
      ensures ptr == 0 ==> Valid() && cells == old(cells)
      ensures Honoured(old(cells), size) ==> Valid() && KeepsLive(old(cells), cells, 0)
      ensures Honoured(old(cells), size) ==> old(runs) <= runs && Misses(old(blocks), blocks, old(cells))
      ensures Honoured(old(cells), size) && ptr != 0 ==>
        exists i :: 0 <= i < |cells| && Served(cells, i, ptr, size) && NotLive(old(cells), cells[i].addr)
      ensures size != 0 && ptr == 0 ==> !SomeSuits(old(cells), Align16(size))
      ensures size != 0 && SomeSuits(old(cells), Align16(size)) ==>
        runs == old(runs) && pmm.busy == old(pmm.busy) && pmm.free == old(pmm.free)
        && FromList(old(cells), cells, ptr, size)
      ensures Fits(size) && ptr != 0 && !SomeSuits(old(cells), Align16(size)) ==>
        FromPages(old(cells), cells, old(runs), runs, ptr, Align16(size))
      ensures size != 0 && !SomeSuits(old(cells), Align16(size)) ==>
        (ptr == 0 <==> NoPages(old(pmm.busy), RequestPages(Align16(size))))
      ensures ptr != 0 && !SomeSuits(old(cells), Align16(size)) ==>
        ptr >= HEADER && Granted(old(pmm.busy), blocks, ptr - HEADER, Align16(size))
      ensures ptr != 0 && size + 15 >= TWO64 ==> ptr >= HEADER && TooSmall(blocks, ptr - HEADER, size)
    {
      hide Disjoint, LinkAt, Chain, OnPages, Allocator.Valid, Allocator.Exact, Split, FreeRun, Align16, RequestPages,
           Allot, KeepsLive, NotLive, Misses, WrittenIn, Whole, NoPages, SomeSuits, SplitHeaders, Honoured,
           Served, Granted, TooSmall, Offered, OnRun, Splits, FirstFit, AtEnd, FromList, FromPages, Fits, Recorded;
      LiveRefl(cells);
      NothingWritten(blocks, cells);
      if size == 0 { return 0; }
      var n := Align16(size);
      ghost var ok := Honoured(cells, size);
      HonouredIs(cells, size);
      if Fits(size) { FitsHonoured(cells, size); }
      var a; ghost var i;
      a, i := Obtain(n);
      if a == 0 { return 0; }
      ghost var cs, bs := cells, blocks;
      if ok { AllotAll(cells, i, n, size, old(cells), runs, pmm.busy); }
      GiveOut(a, n, i, ok);
      if ok { GivenOut(old(blocks), bs, blocks, old(cells), cs, i, n); }
      SplitResult(bs, blocks, a, n, old(pmm.busy));
      if SomeSuits(old(cells), n) {
        GivenFromList(cs, cells, i, a + HEADER, size);
      } else if Fits(size) {
        GivenFromPages(old(cells), cs, cells, old(runs), runs, i, a, n);
      }
      if size + 15 >= TWO64 { SplitSmall(bs, blocks, a, n, size); }
      return a + HEADER;
    }

    /** A suitable block of the list, else a new one. */
    method Obtain(n: u64) returns (a: nat, ghost i: nat)
      requires Valid()
      modifies this`head, this`blocks, this`cells, this`runs, pmm`free, pmm`used, pmm`busy, pmm.bitmap
      ensures a == 0 ==> Valid() && cells == old(cells) && runs == old(runs) && blocks == old(blocks)
      ensures a == 0 ==> !SomeSuits(old(cells), n)
      ensures SomeSuits(old(cells), n) ==> a != 0 && FirstFit(cells, i, n) && cells[i].addr == a && cells == old(cells)
      ensures SomeSuits(old(cells), n) ==> runs == old(runs) && pmm.busy == old(pmm.busy) && pmm.free == old(pmm.free)
      ensures a != 0 && Whole(n) && !SomeSuits(old(cells), n) ==>
        i == |old(cells)| && AtEnd(old(cells), cells, old(runs), runs, a, n)
      ensures !SomeSuits(old(cells), n) ==> (a == 0 <==> NoPages(old(pmm.busy), RequestPages(n)))
      ensures a != 0 ==> a in blocks && (n == 0 ==> blocks[a].size < 0x10_0000_0000_0000)
      ensures a != 0 && !SomeSuits(old(cells), n) ==>
        blocks[a] == Block(Recorded(n), true, 0) && OnRun(old(pmm.busy), a, n)
      ensures a != 0 && (Whole(n) || SomeSuits(old(cells), n)) ==>
        Valid() && Offered(old(cells), cells, i, n) && cells[i].addr == a
      ensures a != 0 && (Whole(n) || SomeSuits(old(cells), n)) ==>
        old(runs) <= runs && WrittenIn(old(blocks), blocks, cells)
    {
      hide Disjoint, LinkAt, Chain, OnPages, Allocator.Valid, Allocator.Exact, FreeRun, RequestPages, RequestBytes,
           Recorded, KeepsLive, WrittenIn;
      WrittenNone(blocks, cells);
      LiveRefl(cells);
      a, i := FindFit(n);
      if a == 0 {
        a := RequestBlock(n);
        RecordedNone();
        if a != 0 && Whole(n) {
          i := |cells| - 1;
          LiveAppend(old(cells), cells[i]);
          assert old(cells) == cells[..i];
        }
      } else {
        ChainAt(blocks, head, cells, i);
        Bounded(cells, runs, pmm.busy, i);
      }
    }

    /** Split the block and mark it as used. */
    method GiveOut(a: nat, n: u64, ghost i: nat, ghost ok: bool)
      requires a in blocks
      requires ok ==> Chain(blocks, head, cells) && Splits(cells, i, a, n) && n % 16 == 0
      modifies this`blocks, this`cells
      ensures a in SplitHeaders(old(blocks), a, n)
      ensures blocks == var bs := SplitHeaders(old(blocks), a, n); bs[a := bs[a].(free := false)]
      ensures ok ==>
        Chain(blocks, head, cells) && cells == Allot(old(cells), i, n)
        && WrittenIn(old(blocks), blocks, Split(old(cells), i, n))
    {
      hide Disjoint, LinkAt, Chain, Split, Allot, WrittenIn, AddrsStay;
      SplitBlock(a, n, i);
      if ok {
        AllotChain(blocks, head, cells, i, n);
        SplitOk(cells, i, n);
        WrittenOne(blocks, Split(cells, i, n), i, blocks[a].(free := false));
        WrittenNone(blocks, Split(cells, i, n));
        WrittenMore(old(blocks), blocks, blocks[a := blocks[a].(free := false)], Split(cells, i, n),
          Split(cells, i, n));
      }
      blocks := blocks[a := blocks[a].(free := false)];
      if ok { cells := Allot(cells, i, n); }
    }

    /**
     kfree of a block in use (or of nothing): the block becomes free and one pass over the list merges
     neighbours. No other block in use is disturbed and no memory is lost.
     */
    method Kfree(ptr: nat, ghost i: nat)
      requires Valid() && (ptr != 0 ==> i < |cells| && cells[i].addr + HEADER == ptr && !cells[i].free)
      modifies this`blocks, this`cells
      ensures Valid()
      ensures ptr == 0 ==> cells == old(cells)
      ensures ptr != 0 ==> cells == Freed(old(cells), i) && KeepsLive(old(cells), cells, ptr - HEADER)
      ensures Misses(old(blocks), blocks, old(cells))
    {
      hide Disjoint, LinkAt, Chain, OnPages, Allocator.Valid, Allocator.Exact, Coalesce, KeepsLive, Mergeable, Join,
           Merged, JoinHeaders, Misses, WrittenIn, AddrsStay;
      NothingWritten(blocks, cells);
      if ptr == 0 { return; }
      var a := ptr - HEADER;
      FreedOk(cells, i);
      MarkOk(cells, i, true);
      OnPagesSame(cells, Mark(cells, i, true), runs, pmm.busy);
      ChainMark(blocks, head, cells, i, true);
      ChainAt(blocks, head, cells, i);
      WrittenOne(blocks, cells, i, blocks[a].(free := true));
      MarkStays(cells, i, true);
      blocks := blocks[a := blocks[a].(free := true)];
      cells := Mark(cells, i, true);
      var cur := head; ghost var k := 0;
      HeadNull(blocks, head, cells);
      HeadIs(blocks, head, cells);
      ghost var goal := Coalesce(cells, 0);
      ChainAt(blocks, head, cells, 0);
      while blocks[cur].next != 0
        invariant Valid() && k < |cells| && cur == cells[k].addr && cur in blocks
        invariant blocks[cur] == Block(cells[k].size, cells[k].free, AddrOf(cells, k + 1))
        invariant Coalesce(cells, k) == goal
        invariant WrittenIn(old(blocks), blocks, old(cells)) && AddrsStay(cells, old(cells))
        decreases |cells| - k
      {
        NextAt(blocks, head, cells, k);
        CoalesceNext(cells, k);
        var nx := blocks[cur].next;
        if blocks[cur].free && blocks[nx].free && cur + HEADER + blocks[cur].size == nx {
          MergeStep(blocks, head, cells, k, runs, pmm.busy);
          MergeWrites(old(blocks), blocks, old(cells), cells, k,
            Block(blocks[cur].size + HEADER + blocks[nx].size, blocks[cur].free, blocks[nx].next));
          blocks := blocks[cur := Block(blocks[cur].size + HEADER + blocks[nx].size, blocks[cur].free,
            blocks[nx].next)];
          cells := Join(cells, k, Merged(cells[k], cells[k + 1]));
        }
        if blocks[cur].next == 0 {
          LastAt(blocks, head, cells, k);
          CoalesceEnd(cells, k + 1);
          OldMisses(old(blocks), blocks, old(cells));
          return;
        }
        NextAt(blocks, head, cells, k);
        cur, k := blocks[cur].next, k + 1;
      }
      LastAt(blocks, head, cells, k);
      CoalesceEnd(cells, k);
      OldMisses(old(blocks), blocks, old(cells));
    }
  }

  /**
   Free a block and ask for as much again: no page is taken, and the first suitable block of the list is given out --
   the very block that was freed when nothing in front of it merges or suits.
   */
  method FreeAndAgain(h: KernelHeap, ptr: nat, ghost i: nat, size: u64) returns (q: nat)
    requires h.Valid() && i < |h.cells| && h.cells[i].addr + HEADER == ptr && !h.cells[i].free
    requires 0 < size && size + 15 < TWO64 && Align16(size) <= h.cells[i].size
    modifies h`head, h`blocks, h`cells, h`runs, h.pmm`free, h.pmm`used, h.pmm`busy, h.pmm.bitmap
    ensures h.Valid() && q != 0 && h.runs == old(h.runs) && h.pmm.busy == old(h.pmm.busy)
      && h.pmm.free == old(h.pmm.free)
    ensures FromList(Freed(old(h.cells), i), h.cells, q, size)
    ensures NoneMerges(old(h.cells), i) && (forall m :: 0 <= m < i ==> !Suits(old(h.cells)[m], Align16(size))) ==>
      q == ptr
  {
    hide KernelHeap.Valid, Align16, FromList, Freed, KeepsLive, Misses, Granted, NoPages, Served, NotLive, FromPages,
         TooSmall, Fits, RequestPages, Allocator.Valid, Allocator.Exact, NoneMerges;
    ghost var cs, n := h.cells, Align16(size);
    h.Kfree(ptr, i);
    ghost var j := FreedServes(cs, i);
    assert Suits(h.cells[j], n);
    q := h.Kmalloc(size);
    if NoneMerges(cs, i) && (forall m :: 0 <= m < i ==> !Suits(cs[m], n)) {
      FreedFirst(cs, i, n);
      ListFirst(Freed(cs, i), h.cells, i, q, size);
    }
  }

  lemma ListFirst(was: Cells, cs: Cells, i: nat, ptr: nat, size: u64)
    requires FromList(was, cs, ptr, size) && FirstFit(was, i, Align16(size))
    ensures ptr == was[i].addr + HEADER
  {
    hide Align16, Allot;
    var k: nat :| FirstFit(was, k, Align16(size)) && ptr == was[k].addr + HEADER;
    FirstFitOnly(was, i, k, Align16(size));
  }

  /**
   On an empty heap with a free page a request of 2^44 bytes succeeds: one page is taken, and a second header is
   written 2^44 bytes behind the first.
   */
  method HugeOnEmpty(h: KernelHeap, size: u64) returns (ptr: nat)
    requires h.Valid() && h.cells == [] && size == 0x1000_0000_0000 && !NoPages(h.pmm.busy, 1)
    modifies h`head, h`blocks, h`cells, h`runs, h.pmm`free, h.pmm`used, h.pmm`busy, h.pmm.bitmap
    ensures ptr >= HEADER && ptr % 4096 == HEADER && FreeRun(old(h.pmm.busy), ptr / 4096, 1)
    ensures U(ptr + size) in h.blocks && h.blocks[U(ptr + size)] == Block(4032, true, 0)
  {
    hide FreeRun, NoPages, Granted, Honoured, Align16, RequestPages, RequestBytes, Recorded, Sound;
    HugeRequest(size);
    assert !SomeSuits(h.cells, size);
    ghost var busy := h.pmm.busy;
    ptr := h.Kmalloc(size);
    HugeGranted(busy, h.blocks, ptr, size);
  }

  lemma HugeGranted(busy: seq<bool>, bs: Headers, ptr: nat, size: u64)
    requires size == 0x1000_0000_0000 && ptr >= HEADER && Granted(busy, bs, ptr - HEADER, size)
    ensures ptr % 4096 == HEADER && FreeRun(busy, ptr / 4096, 1)
    ensures U(ptr + size) in bs && bs[U(ptr + size)] == Block(4032, true, 0)
  {
    HugeRequest(size);
    hide FreeRun, Align16, RequestPages, RequestBytes, Recorded;
    var a := ptr - HEADER;
    assert a % 4096 == 0 && ptr / 4096 == a / 4096;
    assert U(Recorded(size) - size) == 4064;
    assert U(a + HEADER + size) != a;
  }
}
