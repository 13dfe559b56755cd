/**
 Who may touch which page of physical memory: every frame mapped in the user half of a process is given out
 by the page allocator, is no page table, and is mapped there once only. What a process sees are the bytes of
 its frames.
 */
module Ownership {
  import opened Words
  import opened Pmm
  import opened PageTables
  import opened Vmm

  type Ram = seq<seq<byte>>

  /** The frame of a page of an address space. */
  function At(ts: Tables, r: nat, p: nat): Option<nat> {
    if Present(Entry(ts, r, p)) then Some(Frame(Entry(ts, r, p))) else None
  }

  /** A page of the user half of an address space other than the kernel's. */
  predicate Private(hs: Homes, kernel: nat, r: nat, p: nat) { IsRoot(hs, r) && r != kernel && UserPage(p) }

  /** A frame that a process may hold. */
  predicate Given(ts: Tables, busy: seq<bool>, fixed: seq<bool>, f: nat) {
    f < |busy| && busy[f] && f < |fixed| && !fixed[f] && f !in ts
  }

  ghost predicate Owned(ts: Tables, hs: Homes, kernel: nat, busy: seq<bool>, fixed: seq<bool>) {
    && (forall r, p: nat :: Private(hs, kernel, r, p) && At(ts, r, p).Some? ==>
       Given(ts, busy, fixed, At(ts, r, p).value))
    && (forall r, p: nat, s, q: nat ::
          Private(hs, kernel, r, p) && Private(hs, kernel, s, q) && At(ts, r, p).Some? && At(ts, r, p) == At(ts, s, q)
          ==> r == s && p == q)
  }

  /**
   The general step: every page either keeps its frame or is one of the pages from start on that got
   consecutive frames from base on, which were free before.
   */
  lemma OwnStep(ts: Tables, hs: Homes, kernel: nat, busy: seq<bool>, fixed: seq<bool>, ts': Tables, hs': Homes,
      busy': seq<bool>,
                root: nat, start: nat, n: nat, base: nat)
    requires Owned(ts, hs, kernel, busy, fixed)
    requires forall r, p: nat :: Private(hs', kernel, r, p) && At(ts', r, p).Some? ==>
      (r == root && start <= p < start + n && At(ts', r, p) == Some(base + (p - start))) ||
      (Private(hs, kernel, r, p) && At(ts', r, p) == At(ts, r, p))
    requires forall f :: base <= f < base + n ==> f < |busy| && !busy[f] && Given(ts', busy', fixed, f)
    requires forall r, p: nat ::
      Private(hs', kernel, r, p) && Private(hs, kernel, r, p) && At(ts', r, p).Some?
        && At(ts', r, p) == At(ts, r, p) ==>
        Given(ts', busy', fixed, At(ts', r, p).value)
    ensures Owned(ts', hs', kernel, busy', fixed)
  {
    hide At, Private, IsRoot, UserPage;
    forall r, p: nat, s, q: nat | Private(hs', kernel, r, p) && Private(hs', kernel, s, q) && At(ts', r, p).Some?
      && At(ts', r, p) == At(ts', s, q)
      ensures r == s && p == q
    {
      if Private(hs, kernel, r, p) && At(ts', r, p) == At(ts, r, p) {
        assert Given(ts, busy, fixed, At(ts, r, p).value);
      }
      if Private(hs, kernel, s, q) && At(ts', s, q) == At(ts, s, q) {
        assert Given(ts, busy, fixed, At(ts, s, q).value);
      }
    }
  }

  /** New frames from the allocator, mapped at consecutive pages. */
  lemma OwnMap(ts: Tables, hs: Homes, kernel: nat, busy: seq<bool>, fixed: seq<bool>, busy1: seq<bool>,
               ts': Tables, hs': Homes, busy': seq<bool>, root: nat, start: nat, n: nat, base: nat, flags: Flags)
    requires Tree(ts, hs, kernel) && Backed(ts, busy) && Owned(ts, hs, kernel, busy, fixed)
    requires |fixed| == |busy| <= FRAMES && forall i :: 0 <= i < |busy| && fixed[i] ==> busy[i]
    requires FreeRun(busy, base, n) && busy1 == SetRun(busy, base, n, true)
    requires Tree(ts', hs', kernel) && Grown(ts, hs, ts', hs') && Claimed(ts, busy1, ts', busy')
    requires Isolated(ts, hs, ts', root) && Changed(ts, ts', root, start, start + n, Mapping(base, flags))
    ensures Owned(ts', hs', kernel, busy', fixed)
  {
    forall f | base <= f < base + n ensures f < |busy| && !busy[f] && Given(ts', busy', fixed, f) {
      assert f !in ts;
    }
    forall r, p: nat | Private(hs', kernel, r, p) && At(ts', r, p).Some?
      ensures (r == root && start <= p < start + n && At(ts', r, p) == Some(base + (p - start))) ||
              (Private(hs, kernel, r, p) && At(ts', r, p) == At(ts, r, p))
    {
      MapAt(ts, hs, kernel, ts', hs', root, start, n, base, flags, r, p);
    }
    hide Entry, Frame, Present, Links;
    OwnStep(ts, hs, kernel, busy, fixed, ts', hs', busy', root, start, n, base);
  }

  lemma MapAt(ts: Tables, hs: Homes, kernel: nat, ts': Tables, hs': Homes, root: nat, start: nat, n: nat, base: nat,
      flags: Flags, r: nat, p: nat)
    requires Tree(ts, hs, kernel) && Tree(ts', hs', kernel) && Grown(ts, hs, ts', hs') && base + n <= FRAMES
    requires Isolated(ts, hs, ts', root) && Changed(ts, ts', root, start, start + n, Mapping(base, flags))
    requires Private(hs', kernel, r, p)
    ensures Private(hs, kernel, r, p)
    ensures At(ts', r, p) == if r == root && start <= p < start + n then Some(base + (p - start)) else At(ts, r, p)
  {
    hide Entry, Pte, Frame, Present, Links;
    UserPageBound(p);
    if r == root && start <= p < start + n {
      PteParts(base + (p - start), flags);
    }
  }

  /** Nothing moves, and only free pages became tables. */
  lemma OwnKeep(ts: Tables, hs: Homes, kernel: nat, busy: seq<bool>, fixed: seq<bool>, ts': Tables, hs': Homes,
      busy': seq<bool>)
    requires Owned(ts, hs, kernel, busy, fixed)
    requires forall r, p: nat :: Private(hs', kernel, r, p) ==>
      At(ts', r, p).None? || (Private(hs, kernel, r, p) && At(ts', r, p) == At(ts, r, p))
    requires forall f: nat :: Given(ts, busy, fixed, f) ==> Given(ts', busy', fixed, f)
    ensures Owned(ts', hs', kernel, busy', fixed)
  {
    hide At, Private, Given;
    OwnStep(ts, hs, kernel, busy, fixed, ts', hs', busy', 0, 0, 0, 0);
  }

  /** Different pages have different frames. */
  lemma OneOwner(ts: Tables, hs: Homes, kernel: nat, busy: seq<bool>, fixed: seq<bool>, r: nat, p: nat, s: nat, q: nat)
    requires Owned(ts, hs, kernel, busy, fixed) && Private(hs, kernel, r, p) && Private(hs, kernel, s, q)
      && At(ts, r, p).Some?
    ensures r != s || p != q ==> At(ts, s, q) != At(ts, r, p)
  {
  }

  /** Pages are unmapped first, then their frames go back to the allocator. */
  lemma OwnFree(ts: Tables, hs: Homes, kernel: nat, busy: seq<bool>, fixed: seq<bool>, ts': Tables, root: nat,
      start: nat, n: nat, base: nat)
    requires Tree(ts, hs, kernel) && Tree(ts', hs, kernel) && Owned(ts, hs, kernel, busy, fixed)
    requires IsRoot(hs, root) && root != kernel
    requires Isolated(ts, hs, ts', root) && Changed(ts, ts', root, start, start + n, Removal)
    requires forall p: nat :: start <= p < start + n ==> UserPage(p) && At(ts, root, p) == Some(base + (p - start))
    requires ts'.Keys == ts.Keys
    ensures Owned(ts', hs, kernel, SetRun(busy, base, n, false), fixed)
  {
    var busy' := SetRun(busy, base, n, false);
    hide Entry, Links, Frame;
    forall r, p: nat | Private(hs, kernel, r, p) && At(ts', r, p).Some?
      ensures At(ts', r, p) == At(ts, r, p) && Given(ts', busy', fixed, At(ts', r, p).value)
    {
      UserPageBound(p);
      assert !(r == root && start <= p < start + n);
      var f := At(ts, r, p).value;
      assert base <= f < base + n ==> At(ts, root, start + (f - base)) == Some(f);
      forall q: nat | start <= q < start + n ensures At(ts, root, q) != Some(f) {
        OneOwner(ts, hs, kernel, busy, fixed, r, p, root, q);
      }
    }
    OwnStep(ts, hs, kernel, busy, fixed, ts', hs, busy', 0, 0, 0, 0);
  }

  // ----- what a process sees -----

  predicate Whole(ram: Ram, total: nat) { |ram| == total && forall f :: 0 <= f < total ==> |ram[f]| == 4096 }

  /** The byte at a virtual address. */
  function Seen(ts: Tables, ram: Ram, r: nat, virt: nat): Option<byte> {
    match At(ts, r, virt / 4096)
    case Some(f) => if f < |ram| && |ram[f]| == 4096 then Some(ram[f][virt % 4096]) else None
    case None => None
  }

  /** No process but the one at root sees a difference. */
  ghost predicate OthersSame(ts: Tables, hs: Homes, kernel: nat, ram: Ram, ts': Tables, ram': Ram, root: nat) {
    forall r, v: nat :: r != root && Private(hs, kernel, r, v / 4096) ==> Seen(ts', ram', r, v) == Seen(ts, ram, r, v)
  }

  function ZeroPage(): (z: seq<byte>)
    ensures |z| == 4096 && forall k :: 0 <= k < 4096 ==> z[k] == 0
  {
    seq(4096, k => 0)
  }

  /** Frames base, ..., base + n - 1 were cleared. */
  ghost predicate Cleared(ram: Ram, ram': Ram, base: nat, n: nat) {
    |ram'| == |ram| && forall f :: 0 <= f < |ram| ==> ram'[f] == if base <= f < base + n then ZeroPage() else ram[f]
  }

  /** A process that gets new frames sees zeros there; nobody sees any other difference. */
  lemma MapSeen(ts: Tables, hs: Homes, kernel: nat, busy: seq<bool>, fixed: seq<bool>, ts': Tables, hs': Homes,
                root: nat, start: nat, n: nat, base: nat, flags: Flags, ram: Ram, ram': Ram, r: nat, v: nat)
    requires Tree(ts, hs, kernel) && Tree(ts', hs', kernel) && Grown(ts, hs, ts', hs')
      && Owned(ts, hs, kernel, busy, fixed)
    requires FreeRun(busy, base, n) && |busy| <= FRAMES && |ram| == |busy| && Cleared(ram, ram', base, n)
    requires Isolated(ts, hs, ts', root) && Changed(ts, ts', root, start, start + n, Mapping(base, flags))
    requires Private(hs', kernel, r, v / 4096)
    ensures Seen(ts', ram', r, v) == if r == root && start <= v / 4096 < start + n then Some(0) else Seen(ts, ram, r, v)
  {
    hide Tree, Links, Grown, Isolated, Changed, At, Private;
    MapAt(ts, hs, kernel, ts', hs', root, start, n, base, flags, r, v / 4096);
    if At(ts, r, v / 4096).Some? {
      assert Given(ts, busy, fixed, At(ts, r, v / 4096).value);
    }
  }

  function Poke(ram: Ram, f: nat, at: nat, b: byte): (r: Ram)
    requires f < |ram| && at < |ram[f]|
    ensures |r| == |ram| && forall k :: 0 <= k < |ram| ==> |r[k]| == |ram[k]|
  {
    var page: seq<byte> := ram[f][at := b];
    ram[f := page]
  }

  /** A byte written through a page of one process is seen by that process only. */
  lemma StoreSeen(ts: Tables, hs: Homes, kernel: nat, busy: seq<bool>, fixed: seq<bool>, root: nat, virt: nat,
      b: byte, ram: Ram, ram': Ram, r: nat, v: nat)
    requires Owned(ts, hs, kernel, busy, fixed) && Whole(ram, |busy|)
    requires Private(hs, kernel, root, virt / 4096) && At(ts, root, virt / 4096).Some?
    requires var f := At(ts, root, virt / 4096).value; f < |ram| && ram' == Poke(ram, f, virt % 4096, b)
    requires Private(hs, kernel, r, v / 4096)
    ensures Seen(ts, ram', r, v) == if r == root && v == virt then Some(b) else Seen(ts, ram, r, v)
  {
    hide At, Private;
    var f := At(ts, root, virt / 4096).value;
    if At(ts, r, v / 4096) == Some(f) {
      assert r == root && v / 4096 == virt / 4096;
    }
  }
}
