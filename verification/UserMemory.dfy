/**
 Memory of the user processes: creating an address space, giving and taking pages, loading a program image.
 Every operation keeps the frames of the processes apart and shows no process another's bytes.
 */
module UserMemory {
  import opened Words
  import opened Pmm
  import opened PageTables
  import opened Vmm
  import opened Ownership

  const MAX_PROCESSES: nat := 32
  const MAX_REGIONS: nat := 64
  const MAX_PAGES: nat := 1024
  const USER_BASE: nat := 0x80_0000_0000
  const USER_LIMIT: nat := 0x8000_0000_0000
  const ALLOC_BASE: nat := 0xa0_0000_0000
  const ALLOC_LIMIT: nat := 0xa0_0040_0000

  const EINVAL: nat := 22
  const ENOMEM: nat := 12

  /** Panic: the kernel stopped. Fail: an error code for the caller. */
  datatype Answer = Panic | Fail(code: nat) | Done(value: nat)

  /** A run of pages given to a process, at consecutive frames. */
  datatype Region = Region(virt: nat, frame: nat, pages: nat)

  datatype Proc = Proc(root: nat, slots: seq<Option<Region>>, next: nat, total: nat, entry: nat, stack: nat)

  lemma UserRange(p: nat)
    requires USER_BASE / 4096 <= p < USER_LIMIT / 4096
    ensures UserPage(p)
  {
    Prefixes(p);
  }

  // ----- the records of a process -----

  ghost predicate RegionOk(ts: Tables, root: nat, g: Region, next: nat) {
    && g.virt % 4096 == 0 && ALLOC_BASE <= g.virt && g.pages > 0 && g.virt + g.pages * 4096 <= next
    && forall p: nat :: g.virt / 4096 <= p < g.virt / 4096 + g.pages ==>
       At(ts, root, p) == Some(g.frame + (p - g.virt / 4096))
  }

  predicate Apart(a: Region, b: Region) { a.virt + a.pages * 4096 <= b.virt || b.virt + b.pages * 4096 <= a.virt }

  function PagesOf(slots: seq<Option<Region>>): nat {
    if |slots| == 0 then 0
    else PagesOf(slots[..|slots| - 1]) + (if slots[|slots| - 1].Some? then slots[|slots| - 1].value.pages else 0)
  }

  lemma {:induction false} PagesUpdate(slots: seq<Option<Region>>, s: nat, g: Option<Region>)
    requires s < |slots|
    ensures PagesOf(slots[s := g]) ==
      PagesOf(slots) - (if slots[s].Some? then slots[s].value.pages else 0) + (if g.Some? then g.value.pages else 0)
    decreases |slots|
  {
    var n := |slots| - 1;
    if s == n {
      assert slots[s := g][..n] == slots[..n];
    } else {
      assert slots[s := g][..n] == slots[..n][s := g];
      PagesUpdate(slots[..n], s, g);
    }
  }

  ghost predicate ProcOk(ts: Tables, p: Proc) {
    && |p.slots| == MAX_REGIONS && p.next % 4096 == 0 && ALLOC_BASE <= p.next <= ALLOC_LIMIT
    && p.total == PagesOf(p.slots) && p.total <= MAX_PAGES
    && (forall s :: 0 <= s < MAX_REGIONS && p.slots[s].Some? ==> RegionOk(ts, p.root, p.slots[s].value, p.next))
    && (forall s, t :: 0 <= s < t < MAX_REGIONS && p.slots[s].Some? && p.slots[t].Some? ==>
       Apart(p.slots[s].value, p.slots[t].value))
  }

  /** No region of the process touches the n pages from start on. */
  ghost predicate Untouched(p: Proc, start: nat, n: nat) {
    forall s :: 0 <= s < |p.slots| && p.slots[s].Some? ==>
      p.slots[s].value.virt / 4096 + p.slots[s].value.pages <= start || start + n <= p.slots[s].value.virt / 4096
  }

  /** Outside the n pages from start on under root, every page of every process keeps its frame. */
  ghost predicate Moved(ts: Tables, ts': Tables, hs: Homes, kernel: nat, root: nat, start: nat, n: nat) {
    forall r, p: nat :: Private(hs, kernel, r, p) && !(r == root && start <= p < start + n) ==>
      At(ts', r, p) == At(ts, r, p)
  }

  lemma ProcKept(ts: Tables, ts': Tables, hs: Homes, kernel: nat, p: Proc, root: nat, start: nat, n: nat)
    requires ProcOk(ts, p) && Moved(ts, ts', hs, kernel, root, start, n) && IsRoot(hs, p.root) && p.root != kernel
    requires p.root != root || Untouched(p, start, n)
    ensures ProcOk(ts', p)
  {
    hide At, PagesOf;
    forall s | 0 <= s < MAX_REGIONS && p.slots[s].Some? ensures RegionOk(ts', p.root, p.slots[s].value, p.next) {
      var g := p.slots[s].value;
      assert RegionOk(ts, p.root, g, p.next);
      forall q: nat | g.virt / 4096 <= q < g.virt / 4096 + g.pages
        ensures At(ts', p.root, q) == Some(g.frame + (q - g.virt / 4096))
      {
        UserRange(q);
        assert Private(hs, kernel, p.root, q);
      }
    }
  }

  ghost predicate Procs(ts: Tables, hs: Homes, kernel: nat, ps: seq<Proc>) {
    && (forall i :: 0 <= i < |ps| ==> IsRoot(hs, ps[i].root) && ps[i].root != kernel && ProcOk(ts, ps[i]))
    && (forall i, j :: 0 <= i < j < |ps| ==> ps[i].root != ps[j].root)
  }

  lemma ProcsStep(ts: Tables, hs: Homes, ts': Tables, hs': Homes, kernel: nat, ps: seq<Proc>, i: nat, q: Proc,
      start: nat, n: nat)
    requires Procs(ts, hs, kernel, ps) && i < |ps| && q.root == ps[i].root && ProcOk(ts', q)
    requires Grown(ts, hs, ts', hs') && Moved(ts, ts', hs, kernel, q.root, start, n)
    ensures Procs(ts', hs', kernel, ps[i := q])
  {
    hide ProcOk, Moved, Present;
    forall j | 0 <= j < |ps| ensures IsRoot(hs', ps[j].root) && (j != i ==> ProcOk(ts', ps[j])) {
      if j != i { ProcKept(ts, ts', hs, kernel, ps[j], q.root, start, n); }
    }
  }

  lemma RootOf(ts: Tables, hs: Homes, kernel: nat, ps: seq<Proc>, i: nat)
    requires Procs(ts, hs, kernel, ps) && i < |ps|
    ensures IsRoot(hs, ps[i].root) && ps[i].root != kernel && ProcOk(ts, ps[i])
  {
  }

  lemma RootsKept(ts: Tables, hs: Homes, ts': Tables, hs': Homes, kernel: nat)
    requires Tree(ts, hs, kernel) && Tree(ts', hs', kernel) && Grown(ts, hs, ts', hs') && Present(ts[kernel][0])
    ensures kernel in ts' && |ts'[kernel]| == 512 && Present(ts'[kernel][0])
  {
    SlotStays(ts, hs, ts', hs', kernel);
  }

  lemma RunBound(busy: seq<bool>, at: nat, n: nat)
    requires FreeRun(busy, at, n)
    ensures at + n <= |busy|
  {
  }

  lemma GiveStep(ts: Tables, hs: Homes, kernel: nat, busy: seq<bool>, fixed: seq<bool>, ts': Tables, hs': Homes,
      busy': seq<bool>,
                 ps: seq<Proc>, i: nat, start: nat, n: nat, frame: nat, flags: Flags, ram: Ram, ram': Ram)
    requires Tree(ts, hs, kernel) && Backed(ts, busy) && Owned(ts, hs, kernel, busy, fixed)
      && Procs(ts, hs, kernel, ps) && i < |ps|
    requires |fixed| == |busy| <= FRAMES && forall f :: 0 <= f < |busy| && fixed[f] ==> busy[f]
    requires FreeRun(busy, frame, n) && |ram| == |busy| && Cleared(ram, ram', frame, n) && Untouched(ps[i], start, n)
    requires Tree(ts', hs', kernel) && Grown(ts, hs, ts', hs') && Claimed(ts, SetRun(busy, frame, n, true), ts', busy')
    requires Isolated(ts, hs, ts', ps[i].root) && Changed(ts, ts', ps[i].root, start, start + n, Mapping(frame, flags))
    ensures Owned(ts', hs', kernel, busy', fixed) && Procs(ts', hs', kernel, ps)
    ensures forall r, v: nat :: Private(hs', kernel, r, v / 4096) ==>
      Seen(ts', ram', r, v) == if r == ps[i].root && start <= v / 4096 < start + n then Some(0) else Seen(ts, ram, r, v)
  {
    hide Tree, Backed, Owned, Grown, Isolated, Changed, FreeRun, Claimed, SetRun, Cleared, At, Seen, Untouched, ProcOk,
         Procs;
    var root := ps[i].root;
    OwnMap(ts, hs, kernel, busy, fixed, SetRun(busy, frame, n, true), ts', hs', busy', root, start, n, frame, flags);
    RunBound(busy, frame, n);
    forall r, v: nat | Private(hs', kernel, r, v / 4096)
      ensures Seen(ts', ram', r, v) == if r == root && start <= v / 4096 < start + n then Some(0)
        else Seen(ts, ram, r, v)
    {
      MapSeen(ts, hs, kernel, busy, fixed, ts', hs', root, start, n, frame, flags, ram, ram', r, v);
    }
    MapMoved(ts, hs, kernel, ts', hs', root, start, n, frame, flags);
    RootOf(ts, hs, kernel, ps, i);
    ProcKept(ts, ts', hs, kernel, ps[i], root, start, n);
    ProcsStep(ts, hs, ts', hs', kernel, ps, i, ps[i], start, n);
    assert ps[i := ps[i]] == ps;
  }

  lemma MapMoved(ts: Tables, hs: Homes, kernel: nat, ts': Tables, hs': Homes, root: nat, start: nat, n: nat,
      frame: nat, flags: Flags)
    requires Tree(ts, hs, kernel) && Tree(ts', hs', kernel) && Grown(ts, hs, ts', hs') && frame + n <= FRAMES
    requires Isolated(ts, hs, ts', root) && Changed(ts, ts', root, start, start + n, Mapping(frame, flags))
    ensures Moved(ts, ts', hs, kernel, root, start, n)
  {
    forall r, p: nat | Private(hs, kernel, r, p)
      && !(r == root && start <= p < start + n) ensures At(ts', r, p) == At(ts, r, p) {
      assert Private(hs', kernel, r, p);
      hide At, Changed, Isolated, Tree, Grown;
      MapAt(ts, hs, kernel, ts', hs', root, start, n, frame, flags, r, p);
    }
  }

  // ----- giving and taking regions -----

  predicate HasFree(slots: seq<Option<Region>>) { exists s :: 0 <= s < |slots| && slots[s].None? }

  predicate FirstFree(slots: seq<Option<Region>>, s: nat) {
    s < |slots| && slots[s].None? && forall t :: 0 <= t < s ==> slots[t].Some?
  }

  method FindFree(slots: seq<Option<Region>>) returns (s: nat)
    ensures s <= |slots| && (s == |slots| <==> !HasFree(slots)) && (s < |slots| ==> FirstFree(slots, s))
  {
    s := 0;
    while s < |slots|
      invariant s <= |slots| && forall t :: 0 <= t < s ==> slots[t].Some?
    {
      if slots[s].None? { return; }
      s := s + 1;
    }
  }

  /** Why a valid request for pages can be refused: the page quota, the region table, the address range, the memory. */
  ghost predicate Exhausted(p: Proc, busy: seq<bool>, count: nat) {
    || p.total + count > MAX_PAGES || !HasFree(p.slots) || p.next + count * 4096 > ALLOC_LIMIT
    || forall f :: FIRST_PAGE <= f ==> !FreeRun(busy, f, count)
  }

  /** The record of a process that was given count pages at the next free address. */
  function Grant(p: Proc, s: nat, frame: nat, count: nat): Proc
    requires s < |p.slots|
  {
    p.(slots := p.slots[s := Some(Region(p.next, frame, count))], next := p.next + count * 4096, total :=
      p.total + count)
  }

  lemma ProcShape(ts: Tables, p: Proc)
    requires ProcOk(ts, p)
    ensures |p.slots| == MAX_REGIONS && p.next % 4096 == 0 && ALLOC_BASE <= p.next <= ALLOC_LIMIT
    ensures Untouched(p, p.next / 4096, MAX_PAGES)
  {
    forall s | 0 <= s < |p.slots| && p.slots[s].Some?
      ensures p.slots[s].value.virt / 4096 + p.slots[s].value.pages <= p.next / 4096
    {
      assert RegionOk(ts, p.root, p.slots[s].value, p.next);
    }
  }

  lemma UntouchedLess(p: Proc, start: nat, n: nat, m: nat)
    requires Untouched(p, start, n) && m <= n
    ensures Untouched(p, start, m)
  {
  }

  lemma GrantOk(ts: Tables, ts': Tables, p: Proc, s: nat, frame: nat, count: nat, flags: Flags)
    requires ProcOk(ts', p) && s < MAX_REGIONS && p.slots[s].None? && 0 < count && frame + count <= FRAMES
    requires p.total + count <= MAX_PAGES && p.next + count * 4096 <= ALLOC_LIMIT
    requires Changed(ts, ts', p.root, p.next / 4096, p.next / 4096 + count, Mapping(frame, flags))
    ensures ProcOk(ts', Grant(p, s, frame, count))
  {
    hide Entry, Pte, Present, Frame, PagesOf;
    var q := Grant(p, s, frame, count);
    var g := Region(p.next, frame, count);
    PagesUpdate(p.slots, s, Some(g));
    forall k: nat | p.next / 4096 <= k < p.next / 4096 + count ensures At(ts', p.root, k) ==
      Some(frame + (k - p.next / 4096)) {
      PteParts(frame + (k - p.next / 4096), flags);
    }
    hide At;
    assert RegionOk(ts', p.root, g, q.next);
    forall t | 0 <= t < MAX_REGIONS && q.slots[t].Some?
      ensures RegionOk(ts', q.root, q.slots[t].value, q.next) && (t != s ==> Apart(q.slots[t].value, g))
    {
      if t != s { assert RegionOk(ts', p.root, p.slots[t].value, p.next); }
    }
  }

  lemma Replaced(ts: Tables, hs: Homes, kernel: nat, ps: seq<Proc>, i: nat, q: Proc)
    requires Procs(ts, hs, kernel, ps) && i < |ps| && q.root == ps[i].root && ProcOk(ts, q)
    ensures Procs(ts, hs, kernel, ps[i := q])
  {
    hide ProcOk;
  }

  /** The process at root sees the given thing on the pages from start up to stop; nobody sees any other difference. */
  ghost predicate Shown(hs: Homes, kernel: nat, ts: Tables, ram: Ram, ts': Tables, ram': Ram, root: nat, start: nat,
      stop: nat, what: Option<byte>) {
    forall r, v: nat :: Private(hs, kernel, r, v / 4096) ==>
      Seen(ts', ram', r, v) == if r == root && start <= v / 4096 < stop then what else Seen(ts, ram, r, v)
  }

  predicate Matches(slots: seq<Option<Region>>, s: nat, ptr: u64, count: u64) {
    s < |slots| && slots[s].Some? && slots[s].value.virt == ptr && slots[s].value.pages == count % 0x1_0000_0000
  }

  method FindMatch(slots: seq<Option<Region>>, ptr: u64, count: u64) returns (s: nat)
    ensures s <= |slots| && (s < |slots| ==> Matches(slots, s, ptr, count)) && forall t: nat :: t < s ==>
      !Matches(slots, t, ptr, count)
  {
    s := 0;
    while s < |slots|
      invariant s <= |slots| && forall t: nat :: t < s ==> !Matches(slots, t, ptr, count)
    {
      if slots[s].Some? && slots[s].value.virt == ptr && slots[s].value.pages == count % 0x1_0000_0000 { return; }
      s := s + 1;
    }
  }

  /** The record of a process that gave back the region in slot s. */
  function Revoke(p: Proc, s: nat): Proc
    requires s < |p.slots| && p.slots[s].Some?
  {
    p.(slots := p.slots[s := None], total :=
      if p.slots[s].value.pages <= p.total then p.total - p.slots[s].value.pages else 0)
  }

  lemma RevokeOk(ts: Tables, p: Proc, s: nat)
    requires ProcOk(ts, p) && s < MAX_REGIONS && p.slots[s].Some?
    ensures ProcOk(ts, Revoke(p, s)) && Untouched(Revoke(p, s), p.slots[s].value.virt / 4096, p.slots[s].value.pages)
  {
    hide PagesOf, At;
    PagesUpdate(p.slots, s, None);
    var q, g := Revoke(p, s), p.slots[s].value;
    assert RegionOk(ts, p.root, g, p.next);
    forall t | 0 <= t < MAX_REGIONS && q.slots[t].Some?
      ensures RegionOk(ts, q.root, q.slots[t].value, q.next)
      ensures q.slots[t].value.virt / 4096 + q.slots[t].value.pages <= g.virt / 4096
        || g.virt / 4096 + g.pages <= q.slots[t].value.virt / 4096
    {
      var h := p.slots[t].value;
      assert RegionOk(ts, p.root, h, p.next);
      if t < s { assert Apart(h, g); } else { assert Apart(g, h); }
    }
  }

  /** The frames of a region are given out, are no tables, and are not frame 0. */
  lemma RegionAt(ts: Tables, hs: Homes, kernel: nat, busy: seq<bool>, fixed: seq<bool>, p: Proc, s: nat)
    requires ProcOk(ts, p) && s < MAX_REGIONS && p.slots[s].Some? && IsRoot(hs, p.root) && p.root != kernel
    requires Owned(ts, hs, kernel, busy, fixed)
    ensures var g := p.slots[s].value;
      && g.virt % 4096 == 0 && ALLOC_BASE <= g.virt && g.pages > 0 && g.virt + g.pages * 4096 <= ALLOC_LIMIT
      && (forall k: nat :: g.virt / 4096 <= k < g.virt / 4096 + g.pages ==>
            UserPage(k) && At(ts, p.root, k) == Some(g.frame + (k - g.virt / 4096)))
      && forall f :: g.frame <= f < g.frame + g.pages ==> Given(ts, busy, fixed, f)
  {
    hide At, PagesOf;
    var g := p.slots[s].value;
    assert RegionOk(ts, p.root, g, p.next);
    forall k: nat | g.virt / 4096 <= k < g.virt / 4096 + g.pages ensures UserPage(k) {
      UserRange(k);
    }
    forall f | g.frame <= f < g.frame + g.pages ensures Given(ts, busy, fixed, f) {
      var k := g.virt / 4096 + (f - g.frame);
      UserRange(k);
      assert Private(hs, kernel, p.root, k) && At(ts, p.root, k) == Some(f);
    }
  }

  lemma FreeStep(ts: Tables, hs: Homes, kernel: nat, busy: seq<bool>, fixed: seq<bool>, ts': Tables, ps: seq<Proc>,
      i: nat, s: nat, ram: Ram)
    requires Tree(ts, hs, kernel) && Tree(ts', hs, kernel) && Grown(ts, hs, ts', hs)
      && Owned(ts, hs, kernel, busy, fixed)
    requires Procs(ts, hs, kernel, ps) && i < |ps| && s < |ps[i].slots| && ps[i].slots[s].Some?
    requires var g := ps[i].slots[s].value;
      Isolated(ts, hs, ts', ps[i].root) && Changed(ts, ts', ps[i].root, g.virt / 4096, g.virt / 4096 + g.pages, Removal)
    ensures var g := ps[i].slots[s].value;
      && Owned(ts', hs, kernel, SetRun(busy, g.frame, g.pages, false), fixed)
      && Procs(ts', hs, kernel, ps[i := Revoke(ps[i], s)])
      && Shown(hs, kernel, ts, ram, ts', ram, ps[i].root, g.virt / 4096, g.virt / 4096 + g.pages, None)
      && forall f :: g.frame <= f < g.frame + g.pages ==> Returnable(ts', fixed, f)
  {
    hide Links, Owned, Grown, Isolated, Changed, At, Entry, SetRun, ProcOk, Procs;
    var p, g := ps[i], ps[i].slots[s].value;
    RootOf(ts, hs, kernel, ps, i);
    ProcShape(ts, p);
    RegionAt(ts, hs, kernel, busy, fixed, p, s);
    assert ts'.Keys == ts.Keys;
    forall f | g.frame <= f < g.frame + g.pages ensures Returnable(ts', fixed, f) {
      assert Given(ts, busy, fixed, f);
    }
    OwnFree(ts, hs, kernel, busy, fixed, ts', p.root, g.virt / 4096, g.pages, g.frame);
    UnmapMoved(ts, hs, kernel, ts', p.root, g.virt / 4096, g.pages);
    RevokeOk(ts, p, s);
    ProcKept(ts, ts', hs, kernel, Revoke(p, s), p.root, g.virt / 4096, g.pages);
    ProcsStep(ts, hs, ts', hs, kernel, ps, i, Revoke(p, s), g.virt / 4096, g.pages);
  }

  lemma UnmapMoved(ts: Tables, hs: Homes, kernel: nat, ts': Tables, root: nat, start: nat, n: nat)
    requires Isolated(ts, hs, ts', root) && Changed(ts, ts', root, start, start + n, Removal) && IsRoot(hs, root)
    ensures Moved(ts, ts', hs, kernel, root, start, n)
    ensures forall p: nat :: start <= p < start + n && p < SPACE ==> At(ts', root, p).None?
  {
    hide Entry;
    forall r, p: nat | Private(hs, kernel, r, p)
      && !(r == root && start <= p < start + n) ensures At(ts', r, p) == At(ts, r, p) {
      UserPageBound(p);
    }
  }

  // ----- new processes -----

  function NewProc(root: nat): Proc { Proc(root, seq(MAX_REGIONS, s => None), ALLOC_BASE, 0, 0, 0) }

  /** Nothing is mapped in the user half. */
  ghost predicate Empty(ts: Tables, root: nat) { forall p: nat :: UserPage(p) ==> At(ts, root, p).None? }

  lemma {:induction false} NoPages(slots: seq<Option<Region>>)
    requires forall s :: 0 <= s < |slots| ==> slots[s].None?
    ensures PagesOf(slots) == 0
    decreases |slots|
  {
    if |slots| > 0 { NoPages(slots[..|slots| - 1]); }
  }

  lemma CreatedAt(ts: Tables, hs: Homes, kernel: nat, busy: seq<bool>, ts': Tables, hs': Homes, busy': seq<bool>,
      root: nat, r: nat, p: nat)
    requires Created(ts, hs, busy, ts', hs', busy', kernel, root) && Private(hs', kernel, r, p)
    ensures r == root ==> At(ts', r, p).None?
    ensures r != root ==> Private(hs, kernel, r, p) && At(ts', r, p) == At(ts, r, p)
  {
    hide Entry;
    UserPageBound(p);
  }

  lemma CreateOk(ts: Tables, hs: Homes, kernel: nat, busy: seq<bool>, fixed: seq<bool>, ts': Tables, hs': Homes,
      busy': seq<bool>,
                 root: nat, ps: seq<Proc>, ram: Ram)
    requires Tree(ts, hs, kernel) && Owned(ts, hs, kernel, busy, fixed) && Procs(ts, hs, kernel, ps)
    requires Created(ts, hs, busy, ts', hs', busy', kernel, root)
    ensures Owned(ts', hs', kernel, busy', fixed) && Procs(ts', hs', kernel, ps + [NewProc(root)])
    ensures Empty(ts', root) && OthersSame(ts, hs, kernel, ram, ts', ram, root)
    ensures kernel in ts && kernel in ts' && ts'[kernel] == ts[kernel]
    ensures root !in hs && hs' == hs[root := Home(root, 4, 0)]
  {
    hide Entry, Links, ProcOk, Owned;
    forall r, p: nat | Private(hs', kernel, r, p)
      ensures At(ts', r, p).None? || (Private(hs, kernel, r, p) && At(ts', r, p) == At(ts, r, p))
    {
      CreatedAt(ts, hs, kernel, busy, ts', hs', busy', root, r, p);
    }
    OwnKeep(ts, hs, kernel, busy, fixed, ts', hs', busy');
    assert IsRoot(hs', root) && root != kernel;
    forall p: nat | UserPage(p) ensures At(ts', root, p).None? {
      CreatedAt(ts, hs, kernel, busy, ts', hs', busy', root, root, p);
    }
    forall r, v: nat | r != root && Private(hs, kernel, r, v / 4096) ensures Seen(ts', ram, r, v) ==
      Seen(ts, ram, r, v) {
      CreatedAt(ts, hs, kernel, busy, ts', hs', busy', root, r, v / 4096);
    }
    CreatedProcs(ts, hs, kernel, busy, ts', hs', busy', root, ps);
  }

  lemma CreatedProcs(ts: Tables, hs: Homes, kernel: nat, busy: seq<bool>, ts': Tables, hs': Homes, busy': seq<bool>,
      root: nat, ps: seq<Proc>)
    requires Tree(ts, hs, kernel) && Procs(ts, hs, kernel, ps) && Created(ts, hs, busy, ts', hs', busy', kernel, root)
    ensures Procs(ts', hs', kernel, ps + [NewProc(root)])
  {
    var q := NewProc(root);
    NoPages(q.slots);
    assert ProcOk(ts', q);
    hide Entry, Links, ProcOk;
    forall r, p: nat | Private(hs, kernel, r, p) ensures At(ts', r, p) == At(ts, r, p) {
      assert Private(hs', kernel, r, p);
      CreatedAt(ts, hs, kernel, busy, ts', hs', busy', root, r, p);
    }
    forall j | 0 <= j < |ps| ensures ProcOk(ts', ps[j]) && ps[j].root != root {
      ProcKept(ts, ts', hs, kernel, ps[j], 0, 0, 0);
    }
  }

  // ----- bytes of a process -----

  /** The process at root sees the bytes from va on; nobody sees any other difference. */
  ghost predicate Copied(hs: Homes, kernel: nat, ts: Tables, ram: Ram, ram': Ram, root: nat, va: nat,
      bytes: seq<byte>) {
    forall r, v: nat :: Private(hs, kernel, r, v / 4096) ==>
      Seen(ts, ram', r, v) == if r == root && va <= v < va + |bytes| then Some(bytes[v - va]) else Seen(ts, ram, r, v)
  }

  /** A mapped user page has a frame in memory that is not frame 0, so its address is never taken for "not mapped". */
  lemma FrameOf(ts: Tables, hs: Homes, kernel: nat, busy: seq<bool>, fixed: seq<bool>, root: nat, virt: nat, ram: Ram)
    requires Owned(ts, hs, kernel, busy, fixed) && Private(hs, kernel, root, virt / 4096) && Whole(ram, |busy|)
    requires 0 < |fixed| && fixed[0]
    ensures var phys := Translate(ts, root, virt); var f := At(ts, root, virt / 4096);
      && (phys != 0 <==> Seen(ts, ram, root, virt).Some?) && (phys != 0 <==> f.Some?)
      && (f.Some? ==> f.value < |ram| && phys / 4096 == f.value && phys % 4096 == virt % 4096)
  {
    hide Entry, Frame;
    var f := At(ts, root, virt / 4096);
    if f.Some? {
      assert Given(ts, busy, fixed, f.value);
    }
  }

  lemma PokeCopied(ts: Tables, hs: Homes, kernel: nat, busy: seq<bool>, fixed: seq<bool>, root: nat, virt: nat,
      b: byte, ram: Ram, ram': Ram)
    requires Owned(ts, hs, kernel, busy, fixed) && Whole(ram, |busy|)
    requires Private(hs, kernel, root, virt / 4096) && At(ts, root, virt / 4096).Some?
    requires var f := At(ts, root, virt / 4096).value; f < |ram| && ram' == Poke(ram, f, virt % 4096, b)
    ensures Copied(hs, kernel, ts, ram, ram', root, virt, [b])
  {
    hide Owned, Whole, At, Seen, Private, Poke;
    forall r, v: nat | Private(hs, kernel, r, v / 4096)
      ensures Seen(ts, ram', r, v) == if r == root && v == virt then Some(b) else Seen(ts, ram, r, v)
    {
      StoreSeen(ts, hs, kernel, busy, fixed, root, virt, b, ram, ram', r, v);
    }
  }

  lemma ProtectStep(ts: Tables, hs: Homes, kernel: nat, busy: seq<bool>, fixed: seq<bool>, ts': Tables, ps: seq<Proc>,
      i: nat, ram: Ram)
    requires Tree(ts, hs, kernel) && Tree(ts', hs, kernel) && Grown(ts, hs, ts', hs)
      && Owned(ts, hs, kernel, busy, fixed)
    requires Procs(ts, hs, kernel, ps) && i < |ps| && SameTranslation(ts, hs, ts')
    ensures Owned(ts', hs, kernel, busy, fixed) && Procs(ts', hs, kernel, ps)
    ensures Shown(hs, kernel, ts, ram, ts', ram, ps[i].root, 0, 0, None)
  {
    hide Links, Owned, Grown, Entry, ProcOk, Procs;
    assert ts'.Keys == ts.Keys;
    forall r, p: nat | Private(hs, kernel, r, p) ensures At(ts', r, p) == At(ts, r, p) {
      UserPageBound(p);
    }
    hide At;
    OwnKeep(ts, hs, kernel, busy, fixed, ts', hs, busy);
    RootOf(ts, hs, kernel, ps, i);
    assert Moved(ts, ts', hs, kernel, ps[i].root, 0, 0);
    NothingTouched(ps[i]);
    ProcKept(ts, ts', hs, kernel, ps[i], ps[i].root, 0, 0);
    ProcsStep(ts, hs, ts', hs, kernel, ps, i, ps[i], 0, 0);
    assert ps[i := ps[i]] == ps;
  }

  lemma NothingTouched(p: Proc)
    ensures Untouched(p, 0, 0)
  {
  }

  /** Every byte of a range is on a probed page. */
  lemma Covered(ptr: nat, len: nat, off: nat, v: nat)
    requires ptr <= v < ptr + len && len <= off && off % 4096 == 0
    ensures v / 4096 < ptr / 4096 + off / 4096 || v / 4096 == (ptr + len - 1) / 4096
  {
  }

  /** The range lies in the user half and every byte of it is mapped. */
  ghost predicate Reachable(ts: Tables, ram: Ram, root: nat, ptr: nat, len: nat) {
    && USER_BASE <= ptr < USER_LIMIT && ptr + len <= USER_LIMIT
    && forall v: nat :: ptr <= v < ptr + len ==> Seen(ts, ram, root, v).Some?
  }

  lemma Probe(ts: Tables, hs: Homes, kernel: nat, busy: seq<bool>, fixed: seq<bool>, ps: seq<Proc>, i: nat, v: nat,
      ram: Ram)
    requires Owned(ts, hs, kernel, busy, fixed) && Procs(ts, hs, kernel, ps) && i < |ps| && Whole(ram, |busy|)
    requires 0 < |fixed| && fixed[0] && USER_BASE <= v < USER_LIMIT
    ensures IsRoot(hs, ps[i].root)
    ensures Translate(ts, ps[i].root, v) != 0 <==> Seen(ts, ram, ps[i].root, v).Some?
    ensures At(ts, ps[i].root, v / 4096).Some? <==> Seen(ts, ram, ps[i].root, v).Some?
  {
    hide At, Owned, Seen, Translate;
    RootOf(ts, hs, kernel, ps, i);
    UserRange(v / 4096);
    FrameOf(ts, hs, kernel, busy, fixed, ps[i].root, v, ram);
  }

  /** A bound on the page tables that the next pages of a process need. */
  function TablesAt(ts: Tables, p: Proc, count: nat): nat { NewTables(ts, p.root, p.next / 4096, count) }

  /** A bound on the page tables that n pages from start on need. */
  function NewTables(ts: Tables, root: nat, start: nat, n: nat): nat {
    TablesFor(Missing(ts, root, 4, start), start, start + n)
  }

  class System {
    const vmm: Manager
    /** The contents of the frames that are no page tables. */
    var ram: Ram
    var procs: seq<Proc>

    ghost predicate Valid()
      reads this, vmm, vmm.pmm, vmm.pmm.bitmap
    {
      && vmm.Valid() && Present(vmm.tables[vmm.kernel][0]) && Whole(ram, vmm.pmm.total)
      && Owned(vmm.tables, vmm.homes, vmm.kernel, vmm.pmm.busy, vmm.pmm.fixed)
      && |procs| < MAX_PROCESSES && Procs(vmm.tables, vmm.homes, vmm.kernel, procs)
    }

    constructor (v: Manager, memory: Ram)
      requires v.Valid() && Present(v.tables[v.kernel][0]) && Whole(memory, v.pmm.total)
      requires forall t :: IsRoot(v.homes, t) ==> t == v.kernel
      ensures Valid() && vmm == v && procs == [] && ram == memory
    {
      vmm, ram, procs := v, memory, [];
    }

    method ClearFrames(frame: nat, n: nat)
      requires frame + n <= |ram|
      modifies this`ram
      ensures Cleared(old(ram), ram, frame, n)
    {
      for k := 0 to n
        invariant Cleared(old(ram), ram, frame, k)
      {
        ram := ram[frame + k := ZeroPage()];
      }
    }

    /** Allocate n pages, clear them and map them from page start on: the steps shared by all givers of memory. */
    method Give(i: nat, start: nat, n: nat, flags: Flags) returns (a: Answer)
      requires Valid() && i < |procs| && n > 0
      requires USER_BASE / 4096 <= start && start + n <= USER_LIMIT / 4096 && Untouched(procs[i], start, n)
      modifies this`ram, vmm`tables, vmm`homes, vmm.pmm`free, vmm.pmm`used, vmm.pmm`busy, vmm.pmm.bitmap
      ensures !a.Panic? ==> Valid()
      ensures a.Fail? <==> forall f :: FIRST_PAGE <= f ==> !FreeRun(old(vmm.pmm.busy), f, n)
      ensures a.Fail? ==>
        a.code == ENOMEM && vmm.tables == old(vmm.tables) && vmm.homes == old(vmm.homes) && ram == old(ram)
      ensures a.Done? ==> FreeRun(old(vmm.pmm.busy), a.value, n)
      ensures a.Done? ==> Grown(old(vmm.tables), old(vmm.homes), vmm.tables, vmm.homes)
      ensures a.Done? ==> Isolated(old(vmm.tables), old(vmm.homes), vmm.tables, procs[i].root)
      ensures a.Done? ==> Changed(old(vmm.tables), vmm.tables, procs[i].root, start, start + n, Mapping(a.value, flags))
      ensures a.Done? ==>
        Shown(vmm.homes, vmm.kernel, old(vmm.tables), old(ram), vmm.tables, ram, procs[i].root, start, start + n,
        Some(0))
      ensures a.Done? ==>
        Spare(vmm.pmm.busy) + n <= Spare(old(vmm.pmm.busy))
        <= Spare(vmm.pmm.busy) + n + NewTables(old(vmm.tables), procs[i].root, start, n)
      ensures a.Panic? ==> Spare(old(vmm.pmm.busy)) < n + NewTables(old(vmm.tables), procs[i].root, start, n)
      ensures n == 1 ==> (a.Fail? <==> Spare(old(vmm.pmm.busy)) == 0)
    {
      hide Manager.Valid, Tree, Backed, Owned, Grown, Isolated, Changed, Entry, Leaf, Present, Procs, SetRun, Claimed,
           FreeRun, Private, Untouched, Seen, Spare, Missing, TablesFor;
      var root := procs[i].root;
      vmm.Parts();
      RootOf(vmm.tables, vmm.homes, vmm.kernel, procs, i);
      ghost var busy := vmm.pmm.busy;
      var run := vmm.TakePages(n);
      if run.None? { return Fail(ENOMEM); }
      var frame := run.value;
      RunBound(busy, frame, n);
      ClearFrames(frame, n);
      assert start * 4096 / 4096 == start && (start * 4096 + n * 4096 + 4095) / 4096 == start + n
        && frame * 4096 / 4096 == frame;
      vmm.Parts();
      var ok := vmm.Map(root, start * 4096, frame * 4096, n * 4096, flags);
      if !ok { return Panic; }
      vmm.Parts();
      GiveStep(old(vmm.tables), old(vmm.homes), vmm.kernel, busy, vmm.pmm.fixed, vmm.tables, vmm.homes, vmm.pmm.busy,
        procs, i, start, n, frame, flags, old(ram), ram);
      assert Whole(ram, vmm.pmm.total);
      RootsKept(old(vmm.tables), old(vmm.homes), vmm.tables, vmm.homes, vmm.kernel);
      return Done(frame);
    }

    /** user_alloc_pages_sys for process i. */
    method UserAlloc(i: nat, count: u64) returns (a: Answer, ghost s: nat, ghost frame: nat)
      requires Valid() && i < |procs|
      modifies this`ram, this`procs, vmm`tables, vmm`homes, vmm.pmm`free, vmm.pmm`used, vmm.pmm`busy, vmm.pmm.bitmap
      ensures !a.Panic? ==> Valid()
      ensures a.Fail? ==>
        procs == old(procs) && vmm.tables == old(vmm.tables) && vmm.homes == old(vmm.homes) && ram == old(ram)
      ensures a == Fail(EINVAL) <==> count == 0 || count > MAX_PAGES
      ensures a == Fail(ENOMEM) <==> 0 < count <= MAX_PAGES && Exhausted(old(procs)[i], old(vmm.pmm.busy), count)
      ensures a.Fail? ==> a.code == EINVAL || a.code == ENOMEM
      ensures a.Done? ==>
        a.value == old(procs)[i].next && FirstFree(old(procs)[i].slots, s) && FreeRun(old(vmm.pmm.busy), frame, count)
      ensures a.Done? ==> procs == old(procs)[i := Grant(old(procs)[i], s, frame, count)]
      ensures a.Done? ==>
        Shown(vmm.homes, vmm.kernel, old(vmm.tables), old(ram), vmm.tables, ram, procs[i].root, a.value / 4096,
        a.value / 4096 + count, Some(0))
      ensures a.Panic? ==>
        Spare(old(vmm.pmm.busy)) < count + TablesAt(old(vmm.tables), old(procs)[i], count)
      ensures a.Done? ==>
        Spare(vmm.pmm.busy) + count <= Spare(old(vmm.pmm.busy))
        <= Spare(vmm.pmm.busy) + count + TablesAt(old(vmm.tables), old(procs)[i], count)
    {
      hide Manager.Valid, Tree, Owned, Grown, Isolated, Changed, Entry, Leaf, Present, FreeRun, Private, Seen, Procs,
           ProcOk, Shown, Spare, Missing, TablesFor;
      s, frame := 0, 0;
      var p := procs[i];
      RootOf(vmm.tables, vmm.homes, vmm.kernel, procs, i);
      ProcShape(vmm.tables, p);
      vmm.Parts();
      if count == 0 || count > MAX_PAGES { return Fail(EINVAL), s, frame; }
      if p.total + count > MAX_PAGES { return Fail(ENOMEM), s, frame; }
      var slot := FindFree(p.slots);
      if slot == MAX_REGIONS { return Fail(ENOMEM), s, frame; }
      var va := (p.next + 4095) / 4096 * 4096;
      if va < ALLOC_BASE { va := ALLOC_BASE; }
      assert va == p.next;
      if va + count * 4096 > ALLOC_LIMIT { return Fail(ENOMEM), s, frame; }
      UntouchedLess(p, va / 4096, MAX_PAGES, count);
      a := Give(i, va / 4096, count, Flags(true, true, true));
      if !a.Done? { return a, s, frame; }
      s, frame := slot, a.value;
      RunBound(old(vmm.pmm.busy), a.value, count);
      RootOf(vmm.tables, vmm.homes, vmm.kernel, procs, i);
      GrantOk(old(vmm.tables), vmm.tables, p, slot, a.value, count, Flags(true, true, true));
      Replaced(vmm.tables, vmm.homes, vmm.kernel, procs, i, Grant(p, slot, a.value, count));
      procs := procs[i := Grant(p, slot, a.value, count)];
      return Done(va), s, frame;
    }

    /** user_free_pages_sys for process i: unmap first, then give the frames back. */
    method UserFree(i: nat, ptr: u64, count: u64) returns (a: Answer, ghost s: nat)
      requires Valid() && i < |procs|
      modifies this`procs, vmm`tables, vmm`homes, vmm.pmm`free, vmm.pmm`used, vmm.pmm`busy, vmm.pmm.bitmap
      ensures Valid() && !a.Panic?
      ensures a.Done? <==> ptr != 0 && count != 0 && exists t :: Matches(old(procs)[i].slots, t, ptr, count)
      ensures a.Fail? ==> a.code == EINVAL && procs == old(procs) && vmm.tables == old(vmm.tables)
      ensures a.Done? ==> Matches(old(procs)[i].slots, s, ptr, count) && forall t :: 0 <= t < s ==>
        !Matches(old(procs)[i].slots, t, ptr, count)
      ensures a.Done? ==> procs == old(procs)[i := Revoke(old(procs)[i], s)]
      ensures a.Done? ==> var g := old(procs)[i].slots[s].value;
        && vmm.pmm.busy == SetRun(old(vmm.pmm.busy), g.frame, g.pages, false)
        && Shown(vmm.homes, vmm.kernel, old(vmm.tables), ram, vmm.tables, ram, procs[i].root, ptr / 4096,
           ptr / 4096 + g.pages, None)
    {
      hide Manager.Valid, Tree, Owned, Grown, Isolated, Changed, Entry, Leaf, Present, Private, Seen, Procs, ProcOk,
           Shown, RegionOk, SetRun, At;
      s := 0;
      var p := procs[i];
      RootOf(vmm.tables, vmm.homes, vmm.kernel, procs, i);
      ProcShape(vmm.tables, p);
      vmm.Parts();
      if ptr == 0 || count == 0 { return Fail(EINVAL), s; }
      var slot := FindMatch(p.slots, ptr, count);
      if slot == MAX_REGIONS { return Fail(EINVAL), s; }
      s := slot;
      var g := p.slots[slot].value;
      RegionAt(vmm.tables, vmm.homes, vmm.kernel, vmm.pmm.busy, vmm.pmm.fixed, p, slot);
      assert g.virt / 4096 * 4096 == g.virt && (g.virt + g.pages * 4096 + 4095) / 4096 == g.virt / 4096 + g.pages;
      vmm.Unmap(p.root, g.virt, g.pages * 4096);
      vmm.Parts();
      FreeStep(old(vmm.tables), vmm.homes, vmm.kernel, vmm.pmm.busy, vmm.pmm.fixed, vmm.tables, procs, i, slot, ram);
      vmm.ReturnPages(g.frame, g.pages);
      procs := procs[i := Revoke(p, slot)];
      RootsKept(old(vmm.tables), vmm.homes, vmm.tables, vmm.homes, vmm.kernel);
      return Done(0), s;
    }

    /** process_create_user: a process that has no memory of its own yet. Fails when the process table is full. */
    method CreateProcess() returns (a: Answer)
      requires Valid()
      modifies this`procs, vmm`tables, vmm`homes, vmm.pmm`free, vmm.pmm`used, vmm.pmm`busy, vmm.pmm.bitmap
      ensures !a.Panic? ==> Valid()
      ensures a.Fail? <==> |old(procs)| + 1 >= MAX_PROCESSES
      ensures a.Fail? ==> procs == old(procs) && vmm.tables == old(vmm.tables) && vmm.homes == old(vmm.homes)
      ensures a.Done? ==> a.value == |old(procs)| && exists root :: procs == old(procs) + [NewProc(root)]
      ensures a.Done? ==> var root := procs[a.value].root;
        root !in old(vmm.homes) && vmm.homes == old(vmm.homes)[root := Home(root, 4, 0)]
      ensures a.Done? ==> Empty(vmm.tables, procs[a.value].root)
      ensures a.Done? ==>
        OthersSame(old(vmm.tables), old(vmm.homes), vmm.kernel, ram, vmm.tables, ram, procs[a.value].root)
      ensures a.Panic? <==> |old(procs)| + 1 < MAX_PROCESSES && Spare(old(vmm.pmm.busy)) == 0
      ensures a.Done? ==> Spare(old(vmm.pmm.busy)) == Spare(vmm.pmm.busy) + 1
    {
      hide Manager.Valid, Tree, Owned, Entry, Leaf, Procs, ProcOk, Created, OthersSame, Seen, Empty, Spare;
      if |procs| + 1 >= MAX_PROCESSES { return Fail(EINVAL); }
      vmm.Parts();
      var root := vmm.CreateUserRoot();
      if root.None? { return Panic; }
      vmm.Parts();
      CreateOk(old(vmm.tables), old(vmm.homes), vmm.kernel, old(vmm.pmm.busy), vmm.pmm.fixed, vmm.tables, vmm.homes,
        vmm.pmm.busy, root.value, procs, ram);
      procs := procs + [NewProc(root.value)];
      return Done(|procs| - 1);
    }

    /** Write one byte of a process through its page table; false when nothing is mapped there. */
    method PokeUser(i: nat, virt: nat, b: byte) returns (ok: bool)
      requires Valid() && i < |procs| && UserPage(virt / 4096)
      modifies this`ram, vmm`tables, vmm`homes, vmm.pmm`free, vmm.pmm`used, vmm.pmm`busy, vmm.pmm.bitmap
      ensures Valid() && vmm.tables == old(vmm.tables) && vmm.homes == old(vmm.homes)
        && vmm.pmm.busy == old(vmm.pmm.busy)
      ensures ok <==> Seen(vmm.tables, old(ram), procs[i].root, virt).Some?
      ensures !ok ==> ram == old(ram)
      ensures ok ==> Copied(vmm.homes, vmm.kernel, vmm.tables, old(ram), ram, procs[i].root, virt, [b])
    {
      hide Manager.Valid, Tree, Owned, Entry, Procs, ProcOk, Copied, Frame, Present;
      vmm.Parts();
      RootOf(vmm.tables, vmm.homes, vmm.kernel, procs, i);
      FrameOf(vmm.tables, vmm.homes, vmm.kernel, vmm.pmm.busy, vmm.pmm.fixed, procs[i].root, virt, ram);
      var phys := vmm.VirtToPhys(procs[i].root, virt);
      if phys == 0 { return false; }
      var was := ram;
      ram := Poke(ram, phys / 4096, phys % 4096, b);
      PokeCopied(vmm.tables, vmm.homes, vmm.kernel, vmm.pmm.busy, vmm.pmm.fixed, procs[i].root, virt, b, was, ram);
      return true;
    }

    /** vmm_protect_in for process i: no byte that anyone sees changes. */
    method ProtectUser(i: nat, virt: nat, size: nat, flags: Flags) returns (ok: bool, ghost stop: nat)
      requires Valid() && i < |procs| && virt + size <= SPACE * 4096
      modifies vmm`tables, vmm`homes, vmm.pmm`free, vmm.pmm`used, vmm.pmm`busy, vmm.pmm.bitmap
      ensures Valid() && vmm.homes == old(vmm.homes) && Grown(old(vmm.tables), vmm.homes, vmm.tables, vmm.homes)
      ensures Shown(vmm.homes, vmm.kernel, old(vmm.tables), ram, vmm.tables, ram, procs[i].root, 0, 0, None)
      ensures Changed(old(vmm.tables), vmm.tables, procs[i].root, virt / 4096, stop, Flagging(flags))
      ensures virt / 4096 <= stop && (ok ==> stop == (virt + size + 4095) / 4096)
      ensures !ok ==> stop < (virt + size + 4095) / 4096 && At(old(vmm.tables), procs[i].root, stop).None?
      ensures vmm.pmm.busy == old(vmm.pmm.busy)
    {
      hide Manager.Valid, Tree, Owned, Grown, Isolated, Changed, Entry, Leaf, Present, Procs, Shown, SameTranslation,
           Frame;
      vmm.Parts();
      RootOf(vmm.tables, vmm.homes, vmm.kernel, procs, i);
      ok, stop := vmm.Protect(procs[i].root, virt, size, flags);
      vmm.Parts();
      ProtectStep(old(vmm.tables), vmm.homes, vmm.kernel, vmm.pmm.busy, vmm.pmm.fixed, vmm.tables, procs, i, ram);
      RootsKept(old(vmm.tables), vmm.homes, vmm.tables, vmm.homes, vmm.kernel);
    }

    /**
     user_range_ok for process i: one probe per page and one for the last byte decide whether every byte of the
     range is in the user half and mapped.
     */
    method RangeOk(i: nat, ptr: u64, len: u64) returns (ok: bool)
      requires Valid() && i < |procs|
      modifies vmm`tables, vmm`homes, vmm.pmm`free, vmm.pmm`used, vmm.pmm`busy, vmm.pmm.bitmap
      ensures Valid() && vmm.tables == old(vmm.tables) && vmm.homes == old(vmm.homes)
        && vmm.pmm.busy == old(vmm.pmm.busy)
      ensures ok <==> Reachable(vmm.tables, ram, procs[i].root, ptr, len)
    {
      hide Manager.Valid, Tree, Owned, Entry, Leaf, Present, Procs, ProcOk, Seen, Frame, Translate;
      if ptr < USER_BASE || ptr >= USER_LIMIT || len > USER_LIMIT - ptr { return false; }
      var root := procs[i].root;
      var off := 0;
      while off < len
        invariant off % 4096 == 0 && Valid() && vmm.tables == old(vmm.tables) && vmm.homes == old(vmm.homes)
          && vmm.pmm.busy == old(vmm.pmm.busy)
        invariant forall k: nat :: ptr / 4096 <= k < ptr / 4096 + off / 4096 ==> At(vmm.tables, root, k).Some?
      {
        vmm.Parts();
        Probe(vmm.tables, vmm.homes, vmm.kernel, vmm.pmm.busy, vmm.pmm.fixed, procs, i, ptr + off, ram);
        var phys := vmm.VirtToPhys(root, ptr + off);
        if phys == 0 { return false; }
        assert (ptr + off) / 4096 == ptr / 4096 + off / 4096;
        off := off + 4096;
      }
      if len > 0 {
        vmm.Parts();
        Probe(vmm.tables, vmm.homes, vmm.kernel, vmm.pmm.busy, vmm.pmm.fixed, procs, i, ptr + len - 1, ram);
        var phys := vmm.VirtToPhys(root, ptr + len - 1);
        if phys == 0 { return false; }
      }
      forall v: nat | ptr <= v < ptr + len ensures Seen(vmm.tables, ram, root, v).Some? {
        Covered(ptr, len, off, v);
        vmm.Parts();
        Probe(vmm.tables, vmm.homes, vmm.kernel, vmm.pmm.busy, vmm.pmm.fixed, procs, i, v, ram);
      }
      return true;
    }
  }
}
