/**
 Four-level page tables as values. Frames and pages are numbers in units of 4096 bytes; a table holds 512
 words, each 0 or a frame address with flag bits. Homes say whose table a table is and what it covers; they
 exist only in proofs.
 */
module PageTables {
  import opened Words

  const SPACE: nat := 0x10_0000_0000  // pages below 2^48
  const FRAMES: nat := 0x100_0000_0000  // frames below 2^52

  datatype Flags = Flags(write: bool, user: bool, nx: bool)

  type Tables = map<nat, seq<u64>>

  // ----- entries -----

  function Bit(b: bool, weight: nat): nat { if b then weight else 0 }

  function FlagBits(f: Flags): nat { Bit(f.write, 2) + Bit(f.user, 4) + Bit(f.nx, 0x8000_0000_0000_0000) }

  /** A present entry: the frame address under the address mask, or-ed with the flags. */
  function Pte(frame: nat, f: Flags): u64 { frame % FRAMES * 4096 + 1 + FlagBits(f) }

  predicate Present(e: u64) { e % 2 == 1 }

  function Frame(e: u64): nat { e / 4096 % FRAMES }

  /** The entry with its flags replaced. */
  function Reflag(e: u64, f: Flags): u64 { Pte(Frame(e), f) }

  lemma PteParts(frame: nat, f: Flags)
    ensures Present(Pte(frame, f)) && Frame(Pte(frame, f)) == frame % FRAMES
  {
    var a := frame % FRAMES;
    var low := 1 + Bit(f.write, 2) + Bit(f.user, 4);
    var top := Bit(f.nx, 0x8000_0000_0000_0000);
    assert Pte(frame, f) == a * 4096 + low + top;
    assert (a * 4096 + low + top) / 4096 == a + top / 4096;
    assert top / 4096 == Bit(f.nx, 0x8_0000_0000_0000) && top % 2 == 0;
    assert Bit(f.nx, 0x8_0000_0000_0000) == Bit(f.nx, 8) * FRAMES * 256;
  }

  /** Different flags or frames give different words: nothing is lost in an entry. */
  lemma PteInjective(a: nat, f: Flags, b: nat, g: Flags)
    requires a < FRAMES && b < FRAMES && Pte(a, f) == Pte(b, g)
    ensures a == b && f == g
  {
    PteParts(a, f);
    PteParts(b, g);
  }

  /** A table entry as the processor reads it: present, write, user and no-execute bits, and the frame number. */
  lemma PteBits(frame: nat, f: Flags)
    requires frame < FRAMES
    ensures var e := Pte(frame, f);
      && e % 2 == 1 && (e / 2 % 2 == 1 <==> f.write) && (e / 4 % 2 == 1 <==> f.user) && e / 8 % 512 == 0
      && (e / 0x8000_0000_0000_0000 == 1 <==> f.nx) && e / 4096 % FRAMES == frame
  {
    PteParts(frame, f);
    PteSum(frame, f);
    var w, u, x := if f.write then 1 else 0, if f.user then 1 else 0, if f.nx then 1 else 0;
    hide Pte;
    LowBits(frame, w, u, x);
    HighBit(frame * 4096 + 1 + w * 2 + u * 4, x);
  }

  lemma PteSum(frame: nat, f: Flags)
    requires frame < FRAMES
    ensures Pte(frame, f) == frame * 4096 + 1 + (if f.write then 1 else 0) * 2 + (if f.user then 1 else 0) * 4
                             + (if f.nx then 1 else 0) * 0x8000_0000_0000_0000
  {
  }

  /** The twelve low bits, peeled off one after the other. */
  lemma LowBits(frame: nat, w: nat, u: nat, x: nat)
    requires w <= 1 && u <= 1
    ensures var e := frame * 4096 + 1 + w * 2 + u * 4 + x * 0x8000_0000_0000_0000;
      e % 2 == 1 && e / 2 % 2 == w && e / 4 % 2 == u && e / 8 % 512 == 0
  {
    var e := frame * 4096 + 1 + w * 2 + u * 4 + x * 0x8000_0000_0000_0000;
    var high := frame + x * 0x8_0000_0000_0000;
    Peel(high * 2048 + u * 2 + w, 1, e);
    Peel(high * 1024 + u, w, e / 2);
    Peel(high * 512, u, e / 4);
    assert e / 8 == high * 512;
  }

  lemma Peel(rest: nat, bit: nat, e: nat)
    requires bit <= 1 && e == rest * 2 + bit
    ensures e / 2 == rest && e % 2 == bit
  {
  }

  lemma HighBit(low: nat, x: nat)
    requires low < 0x8000_0000_0000_0000
    ensures (low + x * 0x8000_0000_0000_0000) / 0x8000_0000_0000_0000 == x
  {
  }

  // ----- addresses -----

  /** The part of a page number above a table of the given level: a table of level n covers 512^n pages. */
  function Prefix(level: nat, page: nat): nat {
    if level == 0 then page else Prefix(level - 1, page) / 512
  }

  function Index(level: nat, page: nat): (i: nat)
    requires level > 0
    ensures i < 512
  {
    Prefix(level - 1, page) % 512
  }

  lemma PrefixStep(level: nat, page: nat)
    requires level > 0
    ensures Prefix(level - 1, page) == Prefix(level, page) * 512 + Index(level, page)
  {
  }

  lemma Prefixes(page: nat)
    ensures Prefix(0, page) == page && Prefix(1, page) == page / 512 && Prefix(2, page) == page / 512 / 512
    ensures Prefix(3, page) == page / 512 / 512 / 512 && Prefix(4, page) == page / 512 / 512 / 512 / 512
  {
    assert Prefix(1, page) == Prefix(0, page) / 512;
    assert Prefix(2, page) == Prefix(1, page) / 512;
    assert Prefix(3, page) == Prefix(2, page) / 512;
    assert Prefix(4, page) == Prefix(3, page) / 512;
  }

  lemma Quotients(x: nat)
    ensures x / 4096 / 512 == x / 0x20_0000 && x / 0x20_0000 / 512 == x / 0x4000_0000
      && x / 0x4000_0000 / 512 == x / 0x80_0000_0000
  {
  }

  /** The four nine-bit slices of an address are the indices of its page. */
  lemma Slices(virt: nat)
    ensures Index(4, virt / 4096) == virt / 0x80_0000_0000 % 512
    ensures Index(3, virt / 4096) == virt / 0x4000_0000 % 512
    ensures Index(2, virt / 4096) == virt / 0x20_0000 % 512
    ensures Index(1, virt / 4096) == virt / 0x1000 % 512
  {
    Prefixes(virt / 4096);
    hide Prefix;
    Quotients(virt);
  }

  lemma TopPrefix(page: nat)
    requires page < SPACE
    ensures Prefix(4, page) == 0
  {
    Prefixes(page);
  }

  /** Below 2^48 the four slices determine the page. */
  lemma SlicesInjective(p: nat, q: nat)
    requires p < SPACE && q < SPACE
    requires Index(4, p) == Index(4, q) && Index(3, p) == Index(3, q) && Index(2, p) == Index(2, q)
      && Index(1, p) == Index(1, q)
    ensures p == q
  {
    TopPrefix(p);
    TopPrefix(q);
    PrefixStep(4, p);
    PrefixStep(4, q);
    PrefixStep(3, p);
    PrefixStep(3, q);
    PrefixStep(2, p);
    PrefixStep(2, q);
    PrefixStep(1, p);
    PrefixStep(1, q);
  }

  predicate UserSlot(i: nat) { 1 <= i < 256 }

  /** Pages of the user half: slots 1 to 255 of a root table. */
  predicate UserPage(page: nat) { page < SPACE && UserSlot(Index(4, page)) }

  // ----- the walk -----

  /** The last-level table that covers a page, if the walk gets there. */
  function Leaf(ts: Tables, t: nat, level: nat, page: nat): Option<nat>
    decreases level
  {
    if t !in ts || |ts[t]| != 512 || level == 0 then None
    else if level == 1 then Some(t)
    else if !Present(ts[t][Index(level, page)]) then None
    else Leaf(ts, Frame(ts[t][Index(level, page)]), level - 1, page)
  }

  /** The entry of a page under a root; 0 when a table is missing on the way. */
  function Entry(ts: Tables, root: nat, page: nat): u64 {
    match Leaf(ts, root, 4, page)
    case Some(t) => if t in ts && |ts[t]| == 512 then ts[t][Index(1, page)] else 0
    case None => 0
  }

  /** How many tables are missing on the way to a page. */
  function Missing(ts: Tables, t: nat, level: nat, page: nat): nat
    decreases level
  {
    if t !in ts || |ts[t]| != 512 || level <= 1 then 0
    else if !Present(ts[t][Index(level, page)]) then level - 1
    else Missing(ts, Frame(ts[t][Index(level, page)]), level - 1, page)
  }

  lemma {:induction false} MissingBound(ts: Tables, t: nat, level: nat, page: nat)
    requires level >= 1
    ensures Missing(ts, t, level, page) <= level - 1
    decreases level
  {
    if t in ts && |ts[t]| == 512 && level > 1 && Present(ts[t][Index(level, page)]) {
      MissingBound(ts, Frame(ts[t][Index(level, page)]), level - 1, page);
    }
  }

  /** Virtual to physical address; 0 where nothing is mapped. */
  function Translate(ts: Tables, root: nat, virt: nat): nat {
    var e := Entry(ts, root, virt / 4096);
    if Present(e) then Frame(e) * 4096 + virt % 4096 else 0
  }

  // ----- whose table is it -----

  datatype Home = Home(root: nat, level: nat, prefix: nat)

  type Homes = map<nat, Home>

  /**
   c is where slot i of a table at h may lead. Below the root everything belongs to one root; in a root the
   slots outside the user half may also lead to the kernel's own tables.
   */
  predicate Linked(kernel: nat, h: Home, i: nat, c: Home) {
    && c.level == h.level - 1 && c.prefix == h.prefix * 512 + i
    && (c.root == h.root || (h.level == 4 && !UserSlot(i) && c.root == kernel))
  }

  predicate HomeOk(t: nat, h: Home) { 1 <= h.level <= 4 && (h.level == 4 ==> h == Home(t, 4, 0)) }

  ghost predicate Shape(ts: Tables, hs: Homes) {
    ts.Keys == hs.Keys && forall t :: t in ts ==> |ts[t]| == 512 && t < FRAMES && HomeOk(t, hs[t])
  }

  ghost predicate Links(ts: Tables, hs: Homes, kernel: nat)
    requires Shape(ts, hs)
  {
    forall t, i :: t in ts && hs[t].level > 1 && 0 <= i < 512 && Present(ts[t][i]) ==>
      Frame(ts[t][i]) in hs && Linked(kernel, hs[t], i, hs[Frame(ts[t][i])])
  }

  ghost predicate Tree(ts: Tables, hs: Homes, kernel: nat) {
    Shape(ts, hs) && Links(ts, hs, kernel) && IsRoot(hs, kernel)
  }

  lemma TableAt(ts: Tables, hs: Homes, kernel: nat, t: nat)
    requires Tree(ts, hs, kernel)
    ensures Shape(ts, hs) && (t in ts <==> t in hs) && (t in hs ==> |ts[t]| == 512 && HomeOk(t, hs[t]))
  {
  }

  /** Following a present entry goes one level down. */
  lemma ChildAt(ts: Tables, hs: Homes, kernel: nat, t: nat, i: nat)
    requires Tree(ts, hs, kernel) && t in hs && hs[t].level > 1 && i < 512 && Present(ts[t][i])
    ensures Frame(ts[t][i]) in hs && hs[Frame(ts[t][i])].level == hs[t].level - 1
  {
    assert Linked(kernel, hs[t], i, hs[Frame(ts[t][i])]);
  }

  predicate IsRoot(hs: Homes, r: nat) { r in hs && hs[r] == Home(r, 4, 0) }

  /** The last-level table found for a page covers that page, and in the user half it is the root's own. */
  lemma {:induction false} LeafHome(ts: Tables, hs: Homes, kernel: nat, t: nat, level: nat, page: nat)
    requires Tree(ts, hs, kernel) && t in hs && hs[t].level == level && hs[t].prefix == Prefix(level, page)
    requires Leaf(ts, t, level, page).Some?
    ensures var l := Leaf(ts, t, level, page).value;
      l in hs && hs[l].level == 1 && hs[l].prefix == Prefix(1, page) &&
      (level < 4 || UserSlot(Index(4, page)) ==> hs[l].root == hs[t].root) &&
      (hs[l].root == hs[t].root || hs[l].root == kernel)
    decreases level
  {
    if level > 1 {
      var i := Index(level, page);
      var c := Frame(ts[t][i]);
      assert Linked(kernel, hs[t], i, hs[c]);
      PrefixStep(level, page);
      LeafHome(ts, hs, kernel, c, level - 1, page);
    }
  }

  lemma RootLeaf(ts: Tables, hs: Homes, kernel: nat, r: nat, page: nat)
    requires Tree(ts, hs, kernel) && IsRoot(hs, r) && page < SPACE && Leaf(ts, r, 4, page).Some?
    ensures var l := Leaf(ts, r, 4, page).value;
      l in hs && hs[l].level == 1 && hs[l].prefix == page / 512 &&
      (UserPage(page) ==> hs[l].root == r) && (hs[l].root == r || hs[l].root == kernel)
  {
    TopPrefix(page);
    LeafHome(ts, hs, kernel, r, 4, page);
    Prefixes(page);
  }

  lemma EntryAt(ts: Tables, hs: Homes, kernel: nat, r: nat, page: nat)
    requires Tree(ts, hs, kernel) && IsRoot(hs, r)
    ensures match Leaf(ts, r, 4, page)
      case None => Entry(ts, r, page) == 0 && !Present(Entry(ts, r, page))
      case Some(l) => l in ts && |ts[l]| == 512 && Entry(ts, r, page) == ts[l][Index(1, page)]
  {
    if Leaf(ts, r, 4, page).Some? { LeafLevel(ts, hs, kernel, r, 4, page); }
  }

  /** No table is missing exactly when the walk gets to the last one. */
  lemma {:induction false} MissingNone(ts: Tables, hs: Homes, kernel: nat, t: nat, level: nat, page: nat)
    requires Tree(ts, hs, kernel) && t in hs && hs[t].level == level
    ensures Missing(ts, t, level, page) == 0 <==> Leaf(ts, t, level, page).Some?
    decreases level
  {
    if level > 1 && Present(ts[t][Index(level, page)]) {
      ChildAt(ts, hs, kernel, t, Index(level, page));
      MissingNone(ts, hs, kernel, Frame(ts[t][Index(level, page)]), level - 1, page);
    }
  }

  lemma MappedNone(ts: Tables, hs: Homes, kernel: nat, r: nat, page: nat)
    requires Tree(ts, hs, kernel) && IsRoot(hs, r) && Present(Entry(ts, r, page))
    ensures Missing(ts, r, 4, page) == 0
  {
    hide Leaf, Missing;
    EntryAt(ts, hs, kernel, r, page);
    MissingNone(ts, hs, kernel, r, 4, page);
  }

  lemma {:induction false} PrefixUp(k: nat, level: nat, p: nat, q: nat)
    requires k <= level && Prefix(k, p) == Prefix(k, q)
    ensures Prefix(level, p) == Prefix(level, q)
    decreases level
  {
    if k < level { PrefixUp(k, level - 1, p, q); }
  }

  /** Two pages under the same table of level k share everything above it. */
  lemma {:induction false} MissingNear(ts: Tables, hs: Homes, kernel: nat, t: nat, level: nat, p: nat, q: nat, k: nat)
    requires Tree(ts, hs, kernel) && t in hs && hs[t].level == level && 1 <= k
    requires Missing(ts, t, level, q) == 0 && Prefix(k, p) == Prefix(k, q)
    ensures Missing(ts, t, level, p) <= k - 1
    decreases level
  {
    if level <= k {
      MissingBound(ts, t, level, p);
    } else {
      PrefixUp(k, level - 1, p, q);
      assert Index(level, p) == Index(level, q);
      ChildAt(ts, hs, kernel, t, Index(level, q));
      MissingNear(ts, hs, kernel, Frame(ts[t][Index(level, q)]), level - 1, p, q, k);
    }
  }

  lemma FrameBound(e: u64)
    ensures Frame(e) < FRAMES && Frame(e) % FRAMES == Frame(e)
  {
  }

  // ----- writing an entry of a last-level table -----

  function Put(ts: Tables, t: nat, i: nat, e: u64): Tables
    requires t in ts && i < |ts[t]|
  {
    var words: seq<u64> := ts[t][i := e];
    ts[t := words]
  }

  lemma {:induction false} PutLeaf(ts: Tables, hs: Homes, kernel: nat, l: nat, i: nat, e: u64, t: nat, level: nat,
      page: nat)
    requires Tree(ts, hs, kernel) && l in hs && hs[l].level == 1 && i < 512
    requires t in hs && hs[t].level == level
    ensures Leaf(Put(ts, l, i, e), t, level, page) == Leaf(ts, t, level, page)
    decreases level
  {
    if level > 1 && Present(ts[t][Index(level, page)]) {
      var c := Frame(ts[t][Index(level, page)]);
      assert Linked(kernel, hs[t], Index(level, page), hs[c]);
      PutLeaf(ts, hs, kernel, l, i, e, c, level - 1, page);
    }
  }

  lemma PutTree(ts: Tables, hs: Homes, kernel: nat, l: nat, i: nat, e: u64)
    requires Tree(ts, hs, kernel) && l in hs && hs[l].level == 1 && i < 512
    ensures Tree(Put(ts, l, i, e), hs, kernel)
  {
    var ts' := Put(ts, l, i, e);
    assert ts'.Keys == ts.Keys;
    forall t, j | t in ts' && hs[t].level > 1 && 0 <= j < 512 && Present(ts'[t][j])
      ensures Frame(ts'[t][j]) in hs && Linked(kernel, hs[t], j, hs[Frame(ts'[t][j])])
    {
      assert ts'[t] == ts[t];
    }
  }

  /** Writing the entry of one page of a root changes that page, and other roots only where they share. */
  lemma PutEntry(ts: Tables, hs: Homes, kernel: nat, root: nat, page: nat, e: u64, r: nat, p: nat)
    requires Tree(ts, hs, kernel) && IsRoot(hs, root) && IsRoot(hs, r) && page < SPACE && p < SPACE
    requires Leaf(ts, root, 4, page).Some?
    ensures var l := Leaf(ts, root, 4, page).value; l in ts && |ts[l]| == 512
    ensures var now := Entry(Put(ts, Leaf(ts, root, 4, page).value, Index(1, page), e), r, p);
      && (p != page ==> now == Entry(ts, r, p))
      && (p == page && r == root ==> now == e)
      && (UserPage(page) && r != root ==> now == Entry(ts, r, p))
      && (now == Entry(ts, r, p) || (now == e && Entry(ts, r, p) == Entry(ts, root, page)))
  {
    RootLeaf(ts, hs, kernel, root, page);
    var l := Leaf(ts, root, 4, page).value;
    PutLeaf(ts, hs, kernel, l, Index(1, page), e, r, 4, p);
    if Leaf(ts, r, 4, p) == Some(l) {
      RootLeaf(ts, hs, kernel, r, p);
      assert Index(1, page) == page % 512 && Index(1, p) == p % 512;
    }
  }

  // ----- hanging a new table into an empty slot -----

  function Zero(): seq<u64> { seq(512, i => 0) }

  function Grow(ts: Tables, t: nat, i: nat, c: nat, e: u64): Tables
    requires t in ts && i < |ts[t]|
  {
    var words: seq<u64> := ts[t][i := e];
    ts[c := Zero()][t := words]
  }

  lemma GrowNew(ts: Tables, t: nat, i: nat, c: nat, e: u64)
    requires t in ts && i < |ts[t]| && t != c
    ensures c in Grow(ts, t, i, c, e) && Grow(ts, t, i, c, e)[c] == Zero()
  {
  }

  lemma GrowAt(ts: Tables, t: nat, i: nat, c: nat, e: u64)
    requires t in ts && i < |ts[t]|
    ensures t in Grow(ts, t, i, c, e) && |Grow(ts, t, i, c, e)[t]| == |ts[t]| && Grow(ts, t, i, c, e)[t][i] == e
  {
  }

  function ChildHome(h: Home, i: nat): Home
    requires h.level > 0
  {
    Home(h.root, h.level - 1, h.prefix * 512 + i)
  }

  lemma GrowTree(ts: Tables, hs: Homes, kernel: nat, t: nat, i: nat, c: nat, e: u64)
    requires Tree(ts, hs, kernel) && t in hs && hs[t].level > 1 && i < 512 && c !in ts && c < FRAMES
    requires Present(e) && Frame(e) == c
    ensures Tree(Grow(ts, t, i, c, e), hs[c := ChildHome(hs[t], i)], kernel)
  {
    var ts', hs' := Grow(ts, t, i, c, e), hs[c := ChildHome(hs[t], i)];
    assert c != t;
    assert ts'.Keys == ts.Keys + {c} == hs'.Keys;
    assert forall j :: 0 <= j < 512 ==> !Present(ts'[c][j]);
    forall s, j | s in ts' && hs'[s].level > 1 && 0 <= j < 512 && Present(ts'[s][j])
      ensures Frame(ts'[s][j]) in hs' && Linked(kernel, hs'[s], j, hs'[Frame(ts'[s][j])])
    {
      if s != c && !(s == t && j == i) { assert ts'[s][j] == ts[s][j]; }
    }
  }

  /** The new table is empty, so no page changes anywhere. */
  lemma {:induction false} GrowLeaf(ts: Tables, hs: Homes, kernel: nat, t: nat, i: nat, c: nat, e: u64, s: nat,
      level: nat, p: nat)
    requires Tree(ts, hs, kernel) && t in hs && hs[t].level > 1 && i < 512 && c !in ts && c < FRAMES
    requires Present(e) && Frame(e) == c && !Present(ts[t][i])
    requires s in hs && hs[s].level == level
    ensures var a := Leaf(ts, s, level, p); var b := Leaf(Grow(ts, t, i, c, e), s, level, p);
      a == b || (a.None? && b == Some(c)) || (a.None? && b.None?)
    decreases level
  {
    var ts' := Grow(ts, t, i, c, e);
    assert c != t && s != c;
    if level > 1 {
      var j := Index(level, p);
      if s == t && j == i {
        EmptyLeaf(ts', c, level - 1, p);
      } else {
        assert ts'[s][j] == ts[s][j];
        if Present(ts[s][j]) {
          assert Linked(kernel, hs[s], j, hs[Frame(ts[s][j])]);
          GrowLeaf(ts, hs, kernel, t, i, c, e, Frame(ts[s][j]), level - 1, p);
        }
      }
    }
  }

  lemma EmptyLeaf(ts: Tables, c: nat, level: nat, p: nat)
    requires c in ts && ts[c] == Zero() && level > 0
    ensures Leaf(ts, c, level, p) == if level == 1 then Some(c) else None
  {
  }

  lemma GrowEntry(ts: Tables, hs: Homes, kernel: nat, t: nat, i: nat, c: nat, e: u64, r: nat, p: nat)
    requires Tree(ts, hs, kernel) && t in hs && hs[t].level > 1 && i < 512 && c !in ts && c < FRAMES
    requires Present(e) && Frame(e) == c && !Present(ts[t][i]) && IsRoot(hs, r)
    ensures Entry(Grow(ts, t, i, c, e), r, p) == Entry(ts, r, p)
  {
    var ts' := Grow(ts, t, i, c, e);
    GrowLeaf(ts, hs, kernel, t, i, c, e, r, 4, p);
    var b := Leaf(ts', r, 4, p);
    if b.Some? {
      if b.value == c {
        assert ts'[c][Index(1, p)] == 0;
      } else {
        LeafLevel(ts, hs, kernel, r, 4, p);
      }
    }
  }

  lemma {:induction false} LeafLevel(ts: Tables, hs: Homes, kernel: nat, t: nat, level: nat, page: nat)
    requires Tree(ts, hs, kernel) && t in hs && hs[t].level == level && Leaf(ts, t, level, page).Some?
    ensures Leaf(ts, t, level, page).value in hs && hs[Leaf(ts, t, level, page).value].level == 1
    decreases level
  {
    if level > 1 {
      var c := Frame(ts[t][Index(level, page)]);
      assert Linked(kernel, hs[t], Index(level, page), hs[c]);
      LeafLevel(ts, hs, kernel, c, level - 1, page);
    }
  }
}
