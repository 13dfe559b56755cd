/**
 The physical page allocator: a bitmap with one bit per page and four counters.
 A set bit is a busy page; allocation takes the lowest fitting run at or above 1 MiB.
 */
module Pmm {
  import opened Words

  const PAGE_SIZE: nat := 4096
  const FIRST_PAGE: nat := 256  // 1 MiB

  // ----- bits -----

  /** 1 << k */
  function Mask(k: nat): bv8
    requires k < 8
  {
    if k == 0 then 1 else if k == 1 then 2 else if k == 2 then 4 else if k == 3 then 8
    else if k == 4 then 16 else if k == 5 then 32 else if k == 6 then 64 else 128
  }

  predicate TestBit(b: bv8, k: nat)
    requires k < 8
  {
    b & Mask(k) != 0
  }

  lemma SetClear(b: bv8, k: nat, j: nat)
    requires k < 8 && j < 8
    ensures TestBit(b | Mask(k), j) == (j == k || TestBit(b, j))
    ensures TestBit(b & !Mask(k), j) == (j != k && TestBit(b, j))
  {
  }

  // ----- counting -----

  function Clear(busy: seq<bool>): nat {
    if |busy| == 0 then 0 else Clear(busy[..|busy| - 1]) + (if busy[|busy| - 1] then 0 else 1)
  }

  /** Busy pages among at, at+1, ..., at+n-1 that exist. */
  function BusyIn(busy: seq<bool>, at: nat, n: nat): nat {
    if n == 0 then 0 else BusyIn(busy, at, n - 1) + (if at + n - 1 < |busy| && busy[at + n - 1] then 1 else 0)
  }

  lemma {:induction false} ClearUpdate(busy: seq<bool>, i: nat, b: bool)
    requires i < |busy|
    ensures Clear(busy[i := b]) == Clear(busy) + (if busy[i] then 1 else 0) - (if b then 1 else 0)
    decreases |busy|
  {
    var n := |busy| - 1;
    if i == n {
      assert busy[i := b][..n] == busy[..n];
    } else {
      assert busy[i := b][..n] == busy[..n][i := b];
      ClearUpdate(busy[..n], i, b);
    }
  }

  /** Busy pages that were not busy from the start: those the allocator gave out. */
  function Held(busy: seq<bool>, fixed: seq<bool>): nat
    requires |busy| == |fixed|
  {
    if |busy| == 0 then 0
    else Held(busy[..|busy| - 1], fixed[..|busy| - 1]) + (if busy[|busy| - 1] && !fixed[|busy| - 1] then 1 else 0)
  }

  lemma {:induction false} HeldUpdate(busy: seq<bool>, fixed: seq<bool>, i: nat, b: bool)
    requires i < |busy| == |fixed| && !fixed[i]
    ensures Held(busy[i := b], fixed) == Held(busy, fixed) + (if b then 1 else 0) - (if busy[i] then 1 else 0)
    decreases |busy|
  {
    var n := |busy| - 1;
    if i == n {
      assert busy[i := b][..n] == busy[..n];
    } else {
      assert busy[i := b][..n] == busy[..n][i := b];
      HeldUpdate(busy[..n], fixed[..n], i, b);
    }
  }

  lemma {:induction false} HeldNone(busy: seq<bool>)
    ensures Held(busy, busy) == 0
    decreases |busy|
  {
    if |busy| > 0 { HeldNone(busy[..|busy| - 1]); }
  }

  lemma {:induction false} ClearNone(busy: seq<bool>)
    requires forall i :: 0 <= i < |busy| ==> busy[i]
    ensures Clear(busy) == 0
    decreases |busy|
  {
    if |busy| > 0 { ClearNone(busy[..|busy| - 1]); }
  }

  lemma {:induction false} BusyInFull(busy: seq<bool>, at: nat, n: nat)
    requires at + n <= |busy|
    ensures BusyIn(busy, at, n) <= n
    ensures BusyIn(busy, at, n) == n <==> forall i :: at <= i < at + n ==> busy[i]
    decreases n
  {
    if n > 0 {
      BusyInFull(busy, at, n - 1);
      assert at + n - 1 < |busy|;
    }
  }

  lemma BusyInStep(busy: seq<bool>, at: nat, n: nat)
    ensures BusyIn(busy, at, 0) == 0
    ensures BusyIn(busy, at, n + 1) == BusyIn(busy, at, n) + if at + n < |busy| && busy[at + n] then 1 else 0
  {
  }

  // ----- the abstract effect of the operations -----

  ghost predicate FreeRun(busy: seq<bool>, at: nat, n: nat) {
    at + n <= |busy| && forall i :: at <= i < at + n ==> !busy[i]
  }

  /** How many pages at or above 1 MiB are free. */
  function Spare(busy: seq<bool>): nat { if |busy| <= FIRST_PAGE then 0 else Clear(busy[FIRST_PAGE..]) }

  lemma {:induction false} ClearZero(busy: seq<bool>)
    ensures Clear(busy) == 0 <==> forall i :: 0 <= i < |busy| ==> busy[i]
    decreases |busy|
  {
    if |busy| > 0 {
      ClearZero(busy[..|busy| - 1]);
      assert forall i :: 0 <= i < |busy| - 1 ==> busy[..|busy| - 1][i] == busy[i];
    }
  }

  /** A single page can be had exactly when one is spare. */
  lemma SpareNone(busy: seq<bool>)
    ensures Spare(busy) == 0 <==> forall s :: FIRST_PAGE <= s ==> !FreeRun(busy, s, 1)
  {
    hide Clear;
    if |busy| > FIRST_PAGE {
      var high := busy[FIRST_PAGE..];
      ClearZero(high);
      assert forall i :: 0 <= i < |high| ==> high[i] == busy[FIRST_PAGE + i];
      if forall s :: FIRST_PAGE <= s ==> !FreeRun(busy, s, 1) {
        forall i | 0 <= i < |high| ensures high[i] { assert !FreeRun(busy, FIRST_PAGE + i, 1); }
      }
      if forall i :: 0 <= i < |high| ==> high[i] {
        forall s | FIRST_PAGE <= s ensures !FreeRun(busy, s, 1) {
          if s < |busy| { assert high[s - FIRST_PAGE]; }
        }
      }
    }
  }

  lemma SpareSet(busy: seq<bool>, i: nat)
    requires FIRST_PAGE <= i < |busy| && !busy[i]
    ensures Spare(busy[i := true]) + 1 == Spare(busy)
  {
    hide Clear;
    assert busy[i := true][FIRST_PAGE..] == busy[FIRST_PAGE..][i - FIRST_PAGE := true];
    ClearUpdate(busy[FIRST_PAGE..], i - FIRST_PAGE, true);
  }

  /** A run that is taken is spare no longer. */
  lemma {:induction false} SpareTake(busy: seq<bool>, at: nat, n: nat)
    requires FIRST_PAGE <= at && FreeRun(busy, at, n)
    ensures Spare(SetRun(busy, at, n, true)) + n == Spare(busy)
    decreases n
  {
    hide Spare;
    if n == 0 {
      assert SetRun(busy, at, 0, true) == busy;
    } else {
      SpareTake(busy, at, n - 1);
      var s := SetRun(busy, at, n - 1, true);
      assert SetRun(busy, at, n, true) == s[at + n - 1 := true];
      SpareSet(s, at + n - 1);
    }
  }

  /** While the low megabyte is busy, as it is after start-up, the spare pages are the free ones. */
  lemma SpareClear(busy: seq<bool>)
    requires forall i :: 0 <= i < FIRST_PAGE && i < |busy| ==> busy[i]
    ensures Spare(busy) == Clear(busy)
  {
    if |busy| <= FIRST_PAGE { ClearZero(busy); } else { ClearSplit(busy, FIRST_PAGE); ClearZero(busy[..FIRST_PAGE]); }
  }

  lemma {:induction false} ClearSplit(busy: seq<bool>, k: nat)
    requires k <= |busy|
    ensures Clear(busy) == Clear(busy[..k]) + Clear(busy[k..])
    decreases |busy|
  {
    if k == |busy| {
      assert busy[..k] == busy && busy[k..] == [];
    } else {
      var n := |busy| - 1;
      ClearSplit(busy[..n], k);
      assert busy[..n][..k] == busy[..k] && busy[..n][k..] == busy[k..][..n - k];
    }
  }

  function SetRun(busy: seq<bool>, at: nat, n: nat, b: bool): (r: seq<bool>)
    ensures |r| == |busy|
    ensures forall i :: 0 <= i < |busy| ==> r[i] == if at <= i < at + n then b else busy[i]
  {
    seq(|busy|, i requires 0 <= i < |busy| => if at <= i < at + n then b else busy[i])
  }

  lemma SetRunStep(busy: seq<bool>, at: nat, n: nat, b: bool)
    ensures at + n < |busy| ==> SetRun(busy, at, n + 1, b) == SetRun(busy, at, n, b)[at + n := b]
    ensures at + n >= |busy| ==> SetRun(busy, at, n + 1, b) == SetRun(busy, at, n, b)
    ensures SetRun(busy, at, 0, b) == busy
  {
  }

  /** Used pages left after releasing some: the counter stops at zero. */
  function Drop(used: nat, released: nat): nat {
    if released <= used then used - released else 0
  }

  lemma DropStep(used: nat, released: nat)
    ensures Drop(used, 0) == used && Drop(used, released + 1) == Drop(Drop(used, released), 1)
  {
  }

  /**
   Conservation: freeing keeps free + used + reserved exactly when no more busy pages are released than
   are counted as used; otherwise pages that were reserved have been given away.
   */
  lemma FreeBalance(free: nat, used: nat, reserved: int, total: nat, released: nat)
    requires free + used + reserved == total
    ensures free + released + Drop(used, released) + reserved == total <==> released <= used
  {
  }

  /** Alloc then Free of the same run restores the bitmap and gives back exactly the pages taken. */
  lemma AllocFree(busy: seq<bool>, at: nat, n: nat)
    requires FreeRun(busy, at, n)
    ensures SetRun(SetRun(busy, at, n, true), at, n, false) == busy && BusyIn(SetRun(busy, at, n, true), at, n) == n
  {
    BusyInFull(SetRun(busy, at, n, true), at, n);
  }

  class Allocator {
    const bitmap: array<bv8>
    const total: nat
    var free: nat
    var used: nat
    /** Negative (wrapped around in 64 bits) only when the memory map lists pages twice. */
    var reserved: int
    /** What the bitmap says, page by page. */
    ghost var busy: seq<bool>
    /** How many pages the free counter counts twice. */
    ghost var slack: nat

    /** The pages busy at the end of the start, which nobody was given. */
    ghost var fixed: seq<bool>

    ghost predicate Valid()
      reads this, bitmap
    {
      && total <= bitmap.Length * 8 && |busy| == total && free == Clear(busy) + slack
      && forall i :: 0 <= i < total ==> busy[i] == TestBit(bitmap[i / 8], i % 8)
    }

    /** No page is lost or counted twice. */
    ghost predicate Balanced()
      reads this
    {
      free + used + reserved == total
    }

    /** The counters are exact: free, given out and reserved pages add up, and each is the number it names. */
    ghost predicate Exact()
      reads this
    {
      && slack == 0 && Counted()
      && forall i :: 0 <= i < |busy| && fixed[i] ==> busy[i]
    }

    ghost predicate Counted()
      reads this
    {
      Balanced() && |fixed| == |busy| && used == Held(busy, fixed)
    }

    lemma SlackFree()
      requires Valid()
      ensures |busy| == total && (free == Clear(busy) <==> slack == 0)
    {
    }

    /** Every page busy, as pmm_init starts. */
    constructor (pages: nat, bytes: nat)
      requires pages <= bytes * 8
      ensures Valid() && fresh(bitmap) && bitmap.Length == bytes && total == pages && busy == seq(pages, i => true)
      ensures free == 0 && used == 0 && reserved == pages && slack == 0
    {
      bitmap := new bv8[bytes](i => 0xff);
      total, free, used, reserved := pages, 0, 0, pages;
      busy, slack, fixed := seq(pages, i => true), 0, [];
      new;
      ClearNone(busy);
      assert forall k :: 0 <= k < 8 ==> TestBit(0xff, k);
    }

    method SetPage(page: nat, b: bool)
      requires Valid() && page < total && busy[page] != b
      modifies bitmap, this`free, this`busy
      ensures Valid() && busy == old(busy)[page := b] && free == old(free) + (if b then -1 else 1)
    {
      ClearUpdate(busy, page, b);
      var was, k := bitmap[page / 8], page % 8;
      bitmap[page / 8] := if b then was | Mask(k) else was & !Mask(k);
      busy := busy[page := b];
      free := if b then free - 1 else free + 1;
      forall i | 0 <= i < total
        ensures busy[i] == TestBit(bitmap[i / 8], i % 8)
      {
        SetClear(was, k, i % 8);
      }
    }

    /** bitmap_test */
    method Test(page: nat) returns (r: bool)
      requires Valid() && page < total
      ensures r == busy[page]
    {
      return TestBit(bitmap[page / 8], page % 8);
    }

    /** The scan for a free run; page numbers, None when there is none. */
    method FindRun(count: nat) returns (r: Option<nat>)
      requires Valid() && count > 0
      ensures r.Some? ==> r.value >= FIRST_PAGE && FreeRun(busy, r.value, count)
      ensures r.Some? ==> forall s :: FIRST_PAGE <= s < r.value ==> !FreeRun(busy, s, count)
      ensures r.None? ==> forall s :: FIRST_PAGE <= s ==> !FreeRun(busy, s, count)
    {
      hide TestBit, Clear;
      var run, start, page := 0, 0, FIRST_PAGE;
      while page < total
        invariant FIRST_PAGE <= page && run < count && run <= page - FIRST_PAGE
        invariant page <= total ==> FreeRun(busy, page - run, run) && (run > 0 ==> start == page - run)
        invariant total < page ==> page == FIRST_PAGE && run == 0
        invariant run < page - FIRST_PAGE ==> page - run - 1 < total && busy[page - run - 1]
        invariant forall s :: FIRST_PAGE <= s < page - run ==> !FreeRun(busy, s, count)
      {
        var taken := Test(page);
        if !taken {
          if run == 0 { start := page; }
          run := run + 1;
          if run == count { return Some(start); }
        } else {
          forall s | FIRST_PAGE <= s < page + 1
            ensures !FreeRun(busy, s, count)
          {
            if page - run <= s { assert s <= page < s + count; }
          }
          run := 0;
        }
        page := page + 1;
      }
      return None;
    }

    /** Take the lowest run of count free pages; the result is its first page. */
    method Alloc(count: nat) returns (r: Option<nat>)
      requires Valid()
      modifies bitmap, this`free, this`used, this`busy
      ensures Valid() && (old(Balanced()) ==> Balanced()) && (old(Exact()) ==> Exact())
      ensures r.None? <==> count == 0 || forall s :: FIRST_PAGE <= s ==> !FreeRun(old(busy), s, count)
      ensures r.None? ==> busy == old(busy) && used == old(used)
      ensures r.Some? ==> r.value >= FIRST_PAGE && FreeRun(old(busy), r.value, count)
      ensures r.Some? ==> forall s :: FIRST_PAGE <= s < r.value ==> !FreeRun(old(busy), s, count)
      ensures r.Some? ==> busy == SetRun(old(busy), r.value, count, true) && used == old(used) + count
    {
      hide TestBit, Clear, Held, SetRun;
      if count == 0 { return None; }
      r := FindRun(count);
      if r.None? { return; }
      var start := r.value;
      assert FreeRun(busy, start, count);
      ghost var was := busy;
      SetRunStep(was, start, 0, true);
      for i := 0 to count
        invariant Valid() && used == old(used) && busy == SetRun(was, start, i, true) && free == old(free) - i
        invariant old(Exact()) ==> |fixed| == |busy| && Held(busy, fixed) == used + i
      {
        SetRunStep(was, start, i, true);
        if old(Exact()) { HeldUpdate(busy, fixed, start + i, true); }
        SetPage(start + i, true);
      }
      used := used + count;
    }

    /** Release count pages from the address on; pages that are already free or do not exist are skipped. */
    method Free(address: nat, count: nat)
      requires Valid()
      modifies bitmap, this`free, this`used, this`busy
      ensures Valid()
      ensures old(Exact())
        && (forall i :: 0 <= i < total && address / PAGE_SIZE <= i < address / PAGE_SIZE + count ==> !fixed[i])
        ==> Exact()
      ensures address == 0 ==> busy == old(busy) && free == old(free) && used == old(used)
      ensures var released := BusyIn(old(busy), address / PAGE_SIZE, count);
        address != 0 ==>
          && busy == SetRun(old(busy), address / PAGE_SIZE, count, false)
          && free == old(free) + released && used == Drop(old(used), released)
          && (old(Balanced()) ==> (Balanced() <==> released <= old(used)))
    {
      hide TestBit, Clear, BusyIn, SetRun, Held, Drop;
      if address == 0 { return; }
      var page := address / PAGE_SIZE;
      ghost var was := busy;
      ghost var exact := Exact() && forall i :: 0 <= i < total && page <= i < page + count ==> !fixed[i];
      BusyInStep(was, page, 0);
      DropStep(used, 0);
      SetRunStep(was, page, 0, false);
      for i := 0 to count
        invariant Valid() && busy == SetRun(was, page, i, false) && free == old(free) + BusyIn(was, page, i)
        invariant used == Drop(old(used), BusyIn(was, page, i))
        invariant exact ==> Counted()
      {
        SetRunStep(was, page, i, false);
        BusyInStep(was, page, i);
        DropStep(old(used), BusyIn(was, page, i));
        ReleasePage(page + i);
      }
      if exact {
        forall i | 0 <= i < |busy| && fixed[i] ensures busy[i] {
          assert was[i] && !(page <= i < page + count);
        }
      }
      if old(Balanced()) { FreeBalance(old(free), old(used), reserved, total, BusyIn(was, page, count)); }
    }

    method ReleasePage(page: nat)
      requires Valid()
      modifies bitmap, this`free, this`used, this`busy
      ensures Valid()
      ensures page < total && old(busy)[page] ==>
                busy == old(busy)[page := false] && free == old(free) + 1 && used == Drop(old(used), 1)
      ensures !(page < total && old(busy)[page]) ==> busy == old(busy) && free == old(free) && used == old(used)
      ensures page < total ==> busy == old(busy)[page := false]
      ensures old(Counted()) && (page < total ==> !fixed[page]) ==> Counted()
    {
      hide TestBit, Clear, Held;
      if page >= total { return; }
      if Counted() && !fixed[page] { HeldUpdate(busy, fixed, page, false); }
      var taken := Test(page);
      if taken {
        SetPage(page, false);
        if used > 0 { used := used - 1; }
      }
    }

    /** Mark the pages of a usable range free, as pmm_init does for each descriptor. */
    method Open(first: nat, last: nat)
      requires Valid() && first <= last <= total
      modifies bitmap, this`free, this`reserved, this`busy, this`slack
      ensures Valid() && used == old(used) && (old(Balanced()) ==> Balanced())
      ensures busy == SetRun(old(busy), first, last - first, false)
      ensures slack == old(slack) <==> forall i :: first <= i < last ==> old(busy)[i]
      ensures slack >= old(slack)
    {
      hide TestBit, Clear, BusyIn, SetRun;
      ghost var was := busy;
      SetRunStep(was, first, 0, false);
      BusyInStep(was, first, 0);
      for page := first to last
        invariant Valid() && busy == SetRun(was, first, page - first, false)
        invariant free + reserved == old(free) + old(reserved)
        invariant slack == old(slack) + (page - first) - BusyIn(was, first, page - first)
      {
        SetRunStep(was, first, page - first, false);
        assert busy[page] == was[page];
        OpenPage(page);
        BusyInStep(was, first, page - first);
      }
      BusyInFull(was, first, last - first);
    }

    method OpenPage(page: nat)
      requires Valid() && page < total
      modifies bitmap, this`free, this`reserved, this`busy, this`slack
      ensures Valid() && busy == old(busy)[page := false] && free + reserved == old(free) + old(reserved)
      ensures slack == old(slack) + if old(busy)[page] then 0 else 1
    {
      hide TestBit, Clear;
      var taken := Test(page);
      if taken { SetPage(page, false); } else { free, slack := free + 1, slack + 1; }
      reserved := reserved - 1;
    }

    /** From here on pages are only given out and taken back. */
    ghost method Seal()
      requires Valid() && Balanced() && slack == 0 && used == 0
      modifies this`fixed
      ensures Valid() && Exact() && fixed == busy
    {
      fixed := busy;
      HeldNone(busy);
    }

    /** reserve_range, in pages: what was free becomes reserved. */
    method Reserve(first: nat, last: nat)
      requires Valid() && first <= last
      modifies bitmap, this`free, this`reserved, this`busy
      ensures Valid() && used == old(used) && (old(Balanced()) ==> Balanced())
      ensures busy == SetRun(old(busy), first, last - first, true)
    {
      hide TestBit, Clear;
      ghost var was := busy;
      SetRunStep(was, first, 0, true);
      var page := first;
      while page < last && page < total
        invariant first <= page <= last && Valid() && busy == SetRun(was, first, page - first, true)
        invariant free + reserved == old(free) + old(reserved)
      {
        SetRunStep(was, first, page - first, true);
        var taken := Test(page);
        if !taken {
          SetPage(page, true);
          reserved := reserved + 1;
        }
        page := page + 1;
      }
    }
  }
}
