/**
 How the page allocator starts: the firmware memory map is opened descriptor by descriptor, then the low
 megabyte, the start-up trampoline, the bitmap itself, the kernel, the initial file system and the boot
 record are reserved.
 */
module Boot {
  import opened Words
  import opened Pmm

  const USABLE: nat := 7
  const BOOT_RECORD: nat := 10456

  datatype Descriptor = Descriptor(kind: nat, start: nat, pages: nat)
  datatype Info = Info(memory: seq<Descriptor>, kernelBase: nat, kernelSize: nat, discBase: nat, discSize: nat,
    self: nat)

  function Up(x: nat): nat { (x + PAGE_SIZE - 1) / PAGE_SIZE }

  function End(d: Descriptor): nat { d.start + d.pages * PAGE_SIZE }

  /** The whole pages inside a usable descriptor are First, ..., Last - 1; a descriptor may hold none. */
  function First(d: Descriptor): nat { Up(d.start) }

  function Last(d: Descriptor): nat { if End(d) / PAGE_SIZE < First(d) then First(d) else End(d) / PAGE_SIZE }

  predicate Holds(d: Descriptor, page: nat) {
    d.kind == USABLE && First(d) <= page < Last(d)
  }

  ghost predicate Usable(ds: seq<Descriptor>, page: nat) {
    exists i :: 0 <= i < |ds| && Holds(ds[i], page)
  }

  /** No page is listed as usable twice. */
  ghost predicate Disjoint(ds: seq<Descriptor>) {
    forall i, j, page :: 0 <= i < j < |ds| && Holds(ds[i], page) ==> !Holds(ds[j], page)
  }

  /** The page ranges that pmm_init reserves, for a bitmap at page at. */
  function Reserved(b: Info, at: nat, bytes: nat): seq<(nat, nat)> {
    [(0, FIRST_PAGE), (7, 9), (at, at + Up(bytes)), (b.kernelBase / PAGE_SIZE, Up(b.kernelBase + b.kernelSize))]
    + (if b.discBase != 0 && b.discSize != 0 then [(b.discBase / PAGE_SIZE, Up(b.discBase + b.discSize))] else [])
    + [(b.self / PAGE_SIZE, Up(b.self + BOOT_RECORD))]
  }

  ghost predicate Covered(rs: seq<(nat, nat)>, page: nat) {
    exists i :: 0 <= i < |rs| && rs[i].0 <= page < rs[i].1
  }

  /** n pages from page on meet the bytes from lo up to hi. */
  predicate Meets(page: nat, n: nat, lo: nat, hi: nat) { page * PAGE_SIZE < hi && lo < (page + n) * PAGE_SIZE }

  predicate OnKernel(b: Info, page: nat, n: nat) { Meets(page, n, b.kernelBase, b.kernelBase + b.kernelSize) }

  /** A place for n pages of bitmap inside descriptor i. */
  predicate Place(b: Info, i: nat, page: nat, n: nat)
    requires i < |b.memory|
  {
    var d := b.memory[i];
    d.kind == USABLE && First(d) <= page && FIRST_PAGE <= page && page + n <= Last(d) && !OnKernel(b, page, n)
  }

  ghost predicate FirstPlace(b: Info, i: nat, page: nat, n: nat)
    requires i < |b.memory|
  {
    && Place(b, i, page, n) && (forall j, q :: 0 <= j < i ==> !Place(b, j, q, n))
    && forall q :: 0 <= q < page ==> !Place(b, i, q, n)
  }

  /** The one page of a descriptor that can be its first place: its start, or right behind the kernel. */
  function Candidate(b: Info, d: Descriptor, n: nat): nat {
    var start := if First(d) < FIRST_PAGE then FIRST_PAGE else First(d);
    if OnKernel(b, start, n) then Up(b.kernelBase + b.kernelSize) else start
  }

  /** The place of the bitmap, from the memory map and the kernel alone. */
  function Chosen(b: Info, n: nat, k: nat): Option<nat>
    requires k <= |b.memory|
    decreases |b.memory| - k
  {
    if k == |b.memory| then None
    else
      var d := b.memory[k];
      if d.kind == USABLE && Candidate(b, d, n) + n <= Last(d) then Some(Candidate(b, d, n)) else Chosen(b, n, k + 1)
  }

  lemma CandidateFirst(b: Info, i: nat, n: nat)
    requires i < |b.memory| && b.memory[i].kind == USABLE && n > 0
    ensures Candidate(b, b.memory[i], n) + n <= Last(b.memory[i]) ==> Place(b, i, Candidate(b, b.memory[i], n), n)
    ensures forall q :: Place(b, i, q, n) ==> Candidate(b, b.memory[i], n) <= q
  {
    hide First, Last;
  }

  /** The first place, if there is one, is the chosen page. */
  lemma {:induction false} ChosenFirst(b: Info, n: nat, k: nat)
    requires k <= |b.memory| && n > 0 && forall j, q :: 0 <= j < k ==> !Place(b, j, q, n)
    ensures Chosen(b, n, k).None? ==> forall j, q :: 0 <= j < |b.memory| ==> !Place(b, j, q, n)
    ensures Chosen(b, n, k).Some? ==> exists i :: 0 <= i < |b.memory| && FirstPlace(b, i, Chosen(b, n, k).value, n)
    decreases |b.memory| - k
  {
    hide First, Last, Candidate;
    if k < |b.memory| {
      var d := b.memory[k];
      if d.kind == USABLE { CandidateFirst(b, k, n); }
      if d.kind == USABLE && Candidate(b, d, n) + n <= Last(d) {
        assert FirstPlace(b, k, Candidate(b, d, n), n);
      } else {
        forall q ensures !Place(b, k, q, n) {}
        ChosenFirst(b, n, k + 1);
      }
    }
  }

  /** No whole usable page touches the bytes from lo up to hi. */
  ghost predicate KeptOut(ds: seq<Descriptor>, lo: nat, hi: nat) {
    forall page :: Usable(ds, page) ==> !Meets(page, 1, lo, hi)
  }

  /** A memory map that does not offer a range keeps the bitmap off it. */
  lemma StorageMisses(b: Info, i: nat, page: nat, n: nat, lo: nat, hi: nat)
    requires i < |b.memory| && Place(b, i, page, n) && KeptOut(b.memory, lo, hi) && n > 0 && lo < hi
    ensures !Meets(page, n, lo, hi)
  {
    if Meets(page, n, lo, hi) {
      var q := if lo / PAGE_SIZE < page then page else lo / PAGE_SIZE;
      assert page <= q < page + n;
      assert Holds(b.memory[i], q);
      assert Meets(q, 1, lo, hi);
    }
  }

  lemma {:induction false} ChosenSame(b: Info, b': Info, n: nat, k: nat)
    requires k <= |b.memory| && b'.memory == b.memory
    requires b'.kernelBase == b.kernelBase && b'.kernelSize == b.kernelSize
    ensures Chosen(b', n, k) == Chosen(b, n, k)
    decreases |b.memory| - k
  {
    if k < |b.memory| { ChosenSame(b, b', n, k + 1); }
  }

  /**
   The search looks at neither the initial file system nor the boot record: wherever it finds a place, the same place
   is found when one of them already lies there.
   */
  lemma StorageBlind(b: Info, n: nat, size: nat)
    requires n > 0 && size > 0 && Chosen(b, n, 0).Some?
    ensures var at := Chosen(b, n, 0).value;
      var b' := b.(discBase := at * PAGE_SIZE, discSize := size, self := at * PAGE_SIZE);
      && Chosen(b', n, 0) == Some(at)
      && Meets(at, n, b'.discBase, b'.discBase + b'.discSize) && Meets(at, n, b'.self, b'.self + BOOT_RECORD)
  {
    hide Chosen;
    var at := Chosen(b, n, 0).value;
    ChosenSame(b, b.(discBase := at * PAGE_SIZE, discSize := size, self := at * PAGE_SIZE), n, 0);
  }

  /** The end of the highest usable descriptor. */
  function Top(ds: seq<Descriptor>): nat {
    if ds == [] then 0
    else
      var d, t := ds[|ds| - 1], Top(ds[..|ds| - 1]);
      if d.kind == USABLE && End(d) > t then End(d) else t
  }

  /** Bytes of bitmap for memory up to top, in whole pages. */
  function BitmapBytes(top: nat): nat { Up((Up(top) + 7) / 8) * PAGE_SIZE }

  method MaxPhys(b: Info) returns (top: nat)
    ensures top == Top(b.memory)
    ensures forall i :: 0 <= i < |b.memory| && b.memory[i].kind == USABLE ==> End(b.memory[i]) <= top
    ensures top != 0 ==> exists i :: 0 <= i < |b.memory| && b.memory[i].kind == USABLE && End(b.memory[i]) == top
  {
    top := 0;
    for k := 0 to |b.memory|
      invariant top == Top(b.memory[..k])
      invariant forall i :: 0 <= i < k && b.memory[i].kind == USABLE ==> End(b.memory[i]) <= top
      invariant top != 0 ==> exists i :: 0 <= i < k && b.memory[i].kind == USABLE && End(b.memory[i]) == top
    {
      assert b.memory[..k + 1][..k] == b.memory[..k];
      if b.memory[k].kind == USABLE && End(b.memory[k]) > top { top := End(b.memory[k]); }
    }
    assert b.memory[..|b.memory|] == b.memory;
  }

  /** find_bitmap_storage: the first place, in the order of the memory map. */
  method FindStorage(b: Info, bytes: nat) returns (r: Option<nat>)
    requires bytes > 0
    ensures r == Chosen(b, Up(bytes), 0)
    ensures r.None? ==> forall i, page :: 0 <= i < |b.memory| ==> !Place(b, i, page, Up(bytes))
    ensures r.Some? ==> exists i :: 0 <= i < |b.memory| && FirstPlace(b, i, r.value, Up(bytes))
  {
    var n := Up(bytes);
    ChosenFirst(b, n, 0);
    hide Candidate, FirstPlace;
    for k := 0 to |b.memory|
      invariant Chosen(b, n, 0) == Chosen(b, n, k)
    {
      var d := b.memory[k];
      if d.kind == USABLE {
        CandidateFirst(b, k, n);
        var at := if First(d) < FIRST_PAGE then FIRST_PAGE else First(d);
        while at + n <= Last(d)
          invariant First(d) <= at && FIRST_PAGE <= at
          invariant forall page :: 0 <= page < at ==> !Place(b, k, page, n)
        {
          if !OnKernel(b, at, n) {
            assert Place(b, k, at, n);
            return Some(at);
          }
          at := at + 1;
        }
      }
    }
    return None;
  }

  lemma DisjointStep(ds: seq<Descriptor>, k: nat)
    requires k < |ds|
    ensures Disjoint(ds[..k + 1]) <==>
            Disjoint(ds[..k]) && forall page :: Holds(ds[k], page) ==> !Usable(ds[..k], page)
  {
    var s, t := ds[..k + 1], ds[..k];
    assert forall i :: 0 <= i < k ==> s[i] == t[i];
    if Disjoint(s) {
      forall i, j, page | 0 <= i < j < k && Holds(t[i], page) ensures !Holds(t[j], page) {
        assert Holds(s[i], page);
      }
      forall i, page | 0 <= i < k && Holds(t[i], page) ensures !Holds(ds[k], page) {
        assert Holds(s[i], page) && s[k] == ds[k];
      }
    }
    if Disjoint(t) && forall page :: Holds(ds[k], page) ==> !Usable(t, page) {
      forall i, j, page | 0 <= i < j < k + 1 && Holds(s[i], page) ensures !Holds(s[j], page) {
        assert Holds(t[i], page);
      }
    }
  }

  lemma LastFits(d: Descriptor, top: nat)
    requires End(d) <= top
    ensures End(d) / PAGE_SIZE <= Up(top) && (First(d) < Last(d) ==> Last(d) <= Up(top))
  {
  }

  /** What the bitmap says after the first k descriptors. */
  ghost predicate Opened(ds: seq<Descriptor>, k: nat, busy: seq<bool>)
    requires k <= |ds|
  {
    forall page :: 0 <= page < |busy| ==> busy[page] == !Usable(ds[..k], page)
  }

  lemma OpenStep(ds: seq<Descriptor>, k: nat, was: seq<bool>, now: seq<bool>)
    requires k < |ds| && Opened(ds, k, was) && ds[k].kind == USABLE && First(ds[k]) < Last(ds[k]) <= |was|
    requires now == SetRun(was, First(ds[k]), Last(ds[k]) - First(ds[k]), false)
    ensures Opened(ds, k + 1, now)
    ensures Disjoint(ds[..k + 1]) <==>
            Disjoint(ds[..k]) && forall i :: First(ds[k]) <= i < Last(ds[k]) ==> was[i]
  {
    hide First, Last, Usable, Disjoint, SetRun;
    DisjointStep(ds, k);
    UsableStep(ds, k);
    assert forall i :: First(ds[k]) <= i < Last(ds[k]) ==> Holds(ds[k], i);
    forall page | 0 <= page < |now| ensures now[page] == !Usable(ds[..k + 1], page) {
      assert was[page] == !Usable(ds[..k], page);
    }
  }

  lemma SkipStep(ds: seq<Descriptor>, k: nat, busy: seq<bool>)
    requires k < |ds| && Opened(ds, k, busy) && !(ds[k].kind == USABLE && First(ds[k]) < Last(ds[k]))
    ensures Opened(ds, k + 1, busy) && (Disjoint(ds[..k + 1]) <==> Disjoint(ds[..k]))
  {
    hide First, Last, Usable, Disjoint;
    DisjointStep(ds, k);
    UsableStep(ds, k);
  }

  method OpenAll(b: Info, pmm: Allocator, top: nat)
    requires pmm.Valid() && pmm.Balanced() && pmm.total == Up(top) && pmm.slack == 0
    requires forall i :: 0 <= i < |b.memory| && b.memory[i].kind == USABLE ==> End(b.memory[i]) <= top
    requires pmm.busy == seq(pmm.total, i => true)
    modifies pmm, pmm.bitmap
    ensures pmm.Valid() && pmm.Balanced() && pmm.used == old(pmm.used)
    ensures pmm.slack == 0 <==> Disjoint(b.memory)
    ensures Opened(b.memory, |b.memory|, pmm.busy)
  {
    hide Allocator.Valid, First, Last, End, Opened, Disjoint;
    OpenStart(b.memory, pmm.busy);
    for k := 0 to |b.memory|
      invariant pmm.Valid() && pmm.Balanced() && pmm.used == old(pmm.used) && |pmm.busy| == pmm.total
      invariant pmm.slack == 0 <==> Disjoint(b.memory[..k])
      invariant Opened(b.memory, k, pmm.busy)
    {
      var d := b.memory[k];
      if d.kind == USABLE && First(d) < Last(d) {
        LastFits(d, top);
        ghost var was := pmm.busy;
        pmm.Open(First(d), Last(d));
        OpenStep(b.memory, k, was, pmm.busy);
      } else {
        SkipStep(b.memory, k, pmm.busy);
      }
    }
    assert b.memory[..|b.memory|] == b.memory;
  }

  lemma OpenStart(ds: seq<Descriptor>, busy: seq<bool>)
    requires forall i :: 0 <= i < |busy| ==> busy[i]
    ensures Opened(ds, 0, busy) && Disjoint(ds[..0])
  {
  }

  lemma UsableStep(ds: seq<Descriptor>, k: nat)
    requires k < |ds|
    ensures forall page :: Usable(ds[..k + 1], page) <==> Usable(ds[..k], page) || Holds(ds[k], page)
  {
    var s, t := ds[..k + 1], ds[..k];
    forall page ensures Usable(s, page) <==> Usable(t, page) || Holds(ds[k], page) {
      if Usable(t, page) {
        var i :| 0 <= i < k && Holds(t[i], page);
        assert Holds(s[i], page);
      }
      if Holds(ds[k], page) { assert Holds(s[k], page); }
      if Usable(s, page) {
        var i :| 0 <= i < k + 1 && Holds(s[i], page);
        if i < k { assert Holds(t[i], page); }
      }
    }
  }

  ghost predicate ReservedTo(rs: seq<(nat, nat)>, k: nat, was: seq<bool>, busy: seq<bool>)
    requires k <= |rs|
  {
    |was| == |busy| && forall page :: 0 <= page < |busy| ==> busy[page] == (was[page] || Covered(rs[..k], page))
  }

  lemma NothingReserved(rs: seq<(nat, nat)>, busy: seq<bool>)
    ensures ReservedTo(rs, 0, busy, busy)
  {
  }

  lemma ReserveStep(rs: seq<(nat, nat)>, k: nat, was: seq<bool>, busy: seq<bool>, busy': seq<bool>)
    requires k < |rs| && rs[k].0 <= rs[k].1 && ReservedTo(rs, k, was, busy)
    requires busy' == SetRun(busy, rs[k].0, rs[k].1 - rs[k].0, true)
    ensures ReservedTo(rs, k + 1, was, busy')
  {
    var s, t := rs[..k + 1], rs[..k];
    assert forall i :: 0 <= i < k ==> s[i] == t[i];
    forall page: nat ensures Covered(s, page) <==> Covered(t, page) || rs[k].0 <= page < rs[k].1 {
      if Covered(t, page) {
        var i :| 0 <= i < |t| && t[i].0 <= page < t[i].1;
        assert s[i].0 <= page < s[i].1;
      }
      if rs[k].0 <= page < rs[k].1 { assert s[k].0 <= page < s[k].1; }
    }
  }

  method ReserveAll(rs: seq<(nat, nat)>, pmm: Allocator)
    requires pmm.Valid() && pmm.Balanced()
    requires forall i :: 0 <= i < |rs| ==> rs[i].0 <= rs[i].1
    modifies pmm, pmm.bitmap
    ensures pmm.Valid() && pmm.Balanced() && pmm.used == old(pmm.used) && pmm.slack == old(pmm.slack)
    ensures |pmm.busy| == |old(pmm.busy)|
    ensures forall page :: 0 <= page < |pmm.busy| ==> pmm.busy[page] == (old(pmm.busy)[page] || Covered(rs, page))
  {
    hide Allocator.Valid, Covered;
    pmm.SlackFree();
    NothingReserved(rs, pmm.busy);
    for k := 0 to |rs|
      invariant pmm.Valid() && pmm.Balanced() && pmm.used == old(pmm.used) && pmm.slack == old(pmm.slack)
      invariant |pmm.busy| == pmm.total && ReservedTo(rs, k, old(pmm.busy), pmm.busy)
    {
      ghost var was := pmm.busy;
      pmm.Reserve(rs[k].0, rs[k].1);
      ReserveStep(rs, k, old(pmm.busy), was, pmm.busy);
    }
    assert rs[..|rs|] == rs;
  }

  /** A page is busy unless the memory map offers it and no reserved range covers it. */
  ghost predicate Initial(b: Info, at: nat, bytes: nat, busy: seq<bool>) {
    forall page :: 0 <= page < |busy| ==>
      busy[page] == (!Usable(b.memory, page) || Covered(Reserved(b, at, bytes), page))
  }

  method Fill(b: Info, top: nat, bytes: nat, at: nat) returns (pmm: Allocator)
    requires forall i :: 0 <= i < |b.memory| && b.memory[i].kind == USABLE ==> End(b.memory[i]) <= top
    requires Up(top) <= bytes * 8
    ensures fresh(pmm) && fresh(pmm.bitmap) && pmm.bitmap.Length == bytes && pmm.total == Up(top)
    ensures pmm.Valid() && pmm.Balanced() && pmm.used == 0
    ensures pmm.free == Clear(pmm.busy) <==> Disjoint(b.memory)
    ensures Disjoint(b.memory) ==> pmm.Exact() && pmm.fixed == pmm.busy
    ensures Initial(b, at, bytes, pmm.busy)
  {
    hide Allocator.Valid, Disjoint, Up, Reserved, Usable, Covered;
    pmm := new Allocator(Up(top), bytes);
    OpenAll(b, pmm, top);
    ReservedOk(b, at, bytes);
    ghost var was := pmm.busy;
    pmm.SlackFree();
    ReserveAll(Reserved(b, at, bytes), pmm);
    pmm.SlackFree();
    if pmm.slack == 0 { pmm.Seal(); }
    InitialBusy(b, at, bytes, was, pmm.busy);
  }

  lemma InitialBusy(b: Info, at: nat, bytes: nat, was: seq<bool>, busy: seq<bool>)
    requires Opened(b.memory, |b.memory|, was) && |was| == |busy|
    requires forall page :: 0 <= page < |busy| ==> busy[page] == (was[page] || Covered(Reserved(b, at, bytes), page))
    ensures Initial(b, at, bytes, busy)
  {
    hide Reserved, Usable, Covered;
    assert b.memory[..|b.memory|] == b.memory;
  }

  // ----- the same in bytes -----

  /** All bytes of the page lie in one usable descriptor. */
  ghost predicate Available(b: Info, page: nat) {
    exists i :: 0 <= i < |b.memory| && Contains(b.memory[i], page)
  }

  predicate Contains(d: Descriptor, page: nat) {
    d.kind == 7 && d.start <= page * 4096 && (page + 1) * 4096 <= d.start + d.pages * 4096
  }

  /** A byte of the page is below 1 MiB, or is the bitmap's, the kernel's, the initial file system's or the record's. */
  predicate Kept(b: Info, at: nat, bytes: nat, page: nat) {
    || page * 4096 < 0x10_0000
    || Meets(page, 1, at * 4096, at * 4096 + bytes)
    || Meets(page, 1, b.kernelBase, b.kernelBase + b.kernelSize)
    || (b.discBase != 0 && b.discSize != 0 && Meets(page, 1, b.discBase, b.discBase + b.discSize))
    || Meets(page, 1, b.self, b.self + BOOT_RECORD)
  }

  lemma HoldsIff(d: Descriptor, page: nat)
    ensures Holds(d, page) <==> Contains(d, page)
  {
  }

  lemma RangeMeets(lo: nat, hi: nat, page: nat)
    ensures lo / PAGE_SIZE <= page < Up(hi) <==> Meets(page, 1, lo, hi)
  {
  }

  lemma KeptIff(b: Info, at: nat, bytes: nat, page: nat)
    requires bytes % PAGE_SIZE == 0
    ensures Covered(Reserved(b, at, bytes), page) <==> Kept(b, at, bytes, page)
  {
    hide Meets, Up;
    var rs := Reserved(b, at, bytes);
    RangeMeets(b.kernelBase, b.kernelBase + b.kernelSize, page);
    RangeMeets(b.discBase, b.discBase + b.discSize, page);
    RangeMeets(b.self, b.self + BOOT_RECORD, page);
    RangeMeets(at * 4096, at * 4096 + bytes, page);
    BitmapEnd(at, bytes);
    forall i | 0 <= i < |rs| ensures rs[i].0 <= page < rs[i].1 ==> Kept(b, at, bytes, page) {}
    var last := |rs| - 1;
    assert rs[0] == (0, FIRST_PAGE) && rs[2] == (at, at + Up(bytes)) && rs[last].0 == b.self / PAGE_SIZE;
    assert b.discBase != 0 && b.discSize != 0 ==> rs[4].0 == b.discBase / PAGE_SIZE;
    assert rs[3].0 == b.kernelBase / PAGE_SIZE;
  }

  lemma BitmapEnd(at: nat, bytes: nat)
    requires bytes % PAGE_SIZE == 0
    ensures at * 4096 / PAGE_SIZE == at && Up(at * 4096 + bytes) == at + Up(bytes)
  {
  }

  /** A page is free after start-up exactly when it is available and none of its bytes is kept. */
  ghost predicate FreeExactly(b: Info, at: nat, bytes: nat, busy: seq<bool>) {
    forall page :: 0 <= page < |busy| ==> (!busy[page] <==> Available(b, page) && !Kept(b, at, bytes, page))
  }

  lemma InitialFree(b: Info, at: nat, bytes: nat, busy: seq<bool>)
    requires Initial(b, at, bytes, busy) && bytes % PAGE_SIZE == 0
    ensures FreeExactly(b, at, bytes, busy)
  {
    hide Reserved, Covered, Kept, Holds, Contains;
    forall page | 0 <= page < |busy|
      ensures !busy[page] <==> Available(b, page) && !Kept(b, at, bytes, page)
    {
      KeptIff(b, at, bytes, page);
      forall i | 0 <= i < |b.memory| ensures Holds(b.memory[i], page) <==> Contains(b.memory[i], page) {
        HoldsIff(b.memory[i], page);
      }
    }
  }

  /**
   pmm_init; None where the kernel panics. The bitmap gets the first place that the memory map offers
   clear of the kernel, and the free counter is the number of free pages if and only if the memory map
   lists no page twice.
   */
  method Start(b: Info) returns (r: Option<Allocator>, at: nat)
    ensures r.Some? ==> fresh(r.value) && fresh(r.value.bitmap)
    ensures r.Some? ==> r.value.Valid() && r.value.Balanced() && r.value.used == 0
    ensures r.Some? ==> (r.value.free == Clear(r.value.busy) <==> Disjoint(b.memory))
    ensures r.Some? && Disjoint(b.memory) ==> r.value.Exact() && r.value.fixed == r.value.busy
    ensures r.Some? ==> Initial(b, at, r.value.bitmap.Length, r.value.busy)
    ensures r.Some? ==> FreeExactly(b, at, r.value.bitmap.Length, r.value.busy)
    ensures r.Some? ==> forall page :: 0 <= page < FIRST_PAGE && page < r.value.total ==>
      r.value.total == |r.value.busy| && r.value.busy[page]
    ensures r.None? <==> Top(b.memory) == 0 || Chosen(b, Up(BitmapBytes(Top(b.memory))), 0).None?
    ensures r.Some? ==> r.value.total == Up(Top(b.memory)) && r.value.bitmap.Length == BitmapBytes(Top(b.memory))
    ensures r.Some? ==> Chosen(b, Up(r.value.bitmap.Length), 0) == Some(at)
    ensures r.Some? ==> exists i :: 0 <= i < |b.memory| && FirstPlace(b, i, at, Up(r.value.bitmap.Length))
  {
    hide Allocator.Valid, Disjoint, Reserved, FirstPlace, Usable, Covered, Initial, Clear, Allocator.Balanced, Top,
         Chosen, FreeExactly;
    r, at := None, 0;
    var top := MaxPhys(b);
    if top == 0 { return; }
    BitmapSize(Up(top));
    var bytes := BitmapBytes(top);
    var place := FindStorage(b, bytes);
    if place.None? { return; }
    at := place.value;
    var pmm := Fill(b, top, bytes, at);
    LowBusy(b, at, bytes, pmm.busy);
    InitialFree(b, at, bytes, pmm.busy);
    pmm.SlackFree();
    r := Some(pmm);
  }

  /** The low megabyte is never given out. */
  lemma LowBusy(b: Info, at: nat, bytes: nat, busy: seq<bool>)
    requires Initial(b, at, bytes, busy)
    ensures forall page :: 0 <= page < FIRST_PAGE && page < |busy| ==> busy[page]
  {
    assert Reserved(b, at, bytes)[0] == (0, FIRST_PAGE);
    assert forall page :: 0 <= page < FIRST_PAGE ==> Covered(Reserved(b, at, bytes), page);
  }

  lemma ReservedOk(b: Info, at: nat, bytes: nat)
    ensures forall i :: 0 <= i < |Reserved(b, at, bytes)| ==> Reserved(b, at, bytes)[i].0 <= Reserved(b, at, bytes)[i].1
  {
  }

  lemma BitmapSize(total: nat)
    requires total > 0
    ensures 0 < (total + 7) / 8 <= Up((total + 7) / 8) * PAGE_SIZE && total <= Up((total + 7) / 8) * PAGE_SIZE * 8
  {
    var b := (total + 7) / 8;
    assert b <= Up(b) * PAGE_SIZE;
  }
}
