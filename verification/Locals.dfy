/**
 Local variables in the compiler: every variable gets a range of the stack frame below the saved rbx, the frame
 size is patched in when the function is finished, and a declaration without a value zeroes its variable.
 Sizes and offsets are 32-bit numbers that wrap around.
 */
module Locals {
  import opened Words

  const MAX_LOCALS: nat := 64
  const HALF := 0x8000_0000

  /** The signed reading of the low 32 bits. */
  function S32(x: int): (r: int)
    ensures -HALF <= r < HALF && (-HALF <= x < HALF ==> r == x)
  {
    (x + HALF) % TWO32 - HALF
  }

  /** size is a 32-bit number; the variable starts at rbp - offset. */
  datatype Local = Local(name: string, offset: int, size: nat)

  /** Bytes a variable takes: whole slots of eight, and one slot for an empty type. */
  function Bytes(size: nat): (r: nat)
    ensures r >= 8 && r >= size && r % 8 == 0
  {
    if size == 0 then 8 else (size + 7) / 8 * 8
  }

  /** The same as align_up_u32 computes it. */
  function Bytes32(size: nat): nat {
    ((if size == 0 then 8 else size) + 7) % TWO32 / 8 * 8
  }

  lemma BytesAgree(size: nat, x: int)
    requires size < TWO32
    ensures S32(x + S32(Bytes32(size))) == S32(x + Bytes(size))
    ensures size <= TWO32 - 8 ==> Bytes32(size) == Bytes(size)
  {
    hide Bytes, Bytes32, S32;
    if size <= TWO32 - 8 {
      BytesExact(size);
      WrapAdd(Bytes(size), x);
    } else {
      BytesWrap(size);
      Turn(x, 1);
    }
  }

  lemma BytesExact(size: nat)
    requires size <= TWO32 - 8
    ensures Bytes32(size) == Bytes(size)
  {
    var m := if size == 0 then 8 else size;
    assert (m + 7) % TWO32 == m + 7;
  }

  /** The last seven sizes: rounding up reaches 2^32, which the 32-bit sum takes for zero. */
  lemma BytesWrap(size: nat)
    requires TWO32 - 8 < size < TWO32
    ensures Bytes32(size) == 0 && Bytes(size) == TWO32
  {
    assert TWO32 <= size + 7 < TWO32 + 7;
    assert (size + 7) / 8 == TWO32 / 8;
    assert (size + 7) % TWO32 < 8;
  }

  lemma Turn(x: int, n: int)
    ensures S32(x + TWO32 * n) == S32(x)
  {
    assert (x + HALF + TWO32 * n) % TWO32 == (x + HALF) % TWO32;
  }

  lemma WrapAdd(x: int, b: int)
    ensures S32(S32(x) + b) == S32(x + b)
  {
    var n := (x + HALF) / TWO32;
    assert S32(x) == x - TWO32 * n;
    Turn(x + b, -n);
  }

  /** Stack below rbp that the variables and the saved rbx take. */
  function Total(vs: seq<Local>): (r: nat)
    ensures r >= 8
  {
    if vs == [] then 8 else Total(vs[..|vs| - 1]) + Bytes(vs[|vs| - 1].size)
  }

  lemma TotalMore(vs: seq<Local>, v: Local)
    ensures Total(vs + [v]) == Total(vs) + Bytes(v.size)
  {
    assert (vs + [v])[..|vs|] == vs;
  }

  /** Every variable has the offset that the table gave it. */
  ghost predicate Placed(vs: seq<Local>) {
    forall k :: 0 <= k < |vs| ==> vs[k].size < TWO32 && vs[k].offset == S32(Total(vs[..k + 1]))
  }

  /** The frame size as the prologue subtracts it, a signed 32-bit number. */
  function FrameOf(stackSize: int): int {
    S32((stackSize % TWO32 + 32 + 15) % TWO32 / 16 * 16)
  }

  /** The variables lie one below the other, under the saved rbx and above everything that is pushed. */
  ghost predicate LaidOut(vs: seq<Local>, frame: int) {
    && (forall k :: 0 <= k < |vs| ==> vs[k].offset - Bytes(vs[k].size) >= 8 && vs[k].offset + 32 <= frame)
    && (forall i, j :: 0 <= i < j < |vs| ==> vs[i].offset <= vs[j].offset - Bytes(vs[j].size))
  }

  /** A byte of a variable, relative to rbp. */
  ghost predicate ByteOf(v: Local, a: int) { -v.offset <= a < -v.offset + Bytes(v.size) }

  /** Then no two variables share a byte, none has a byte of the saved rbx or above, none lies below rsp. */
  lemma Disjoint(vs: seq<Local>, frame: int, i: nat, j: nat, a: int)
    requires LaidOut(vs, frame) && i < |vs| && j < |vs| && ByteOf(vs[i], a)
    ensures -frame + 32 <= a < -8 && (i != j ==> !ByteOf(vs[j], a))
  {
  }

  lemma {:induction false} TotalMonotone(vs: seq<Local>, k: nat)
    requires k <= |vs|
    ensures Total(vs[..k]) <= Total(vs)
    decreases |vs| - k
  {
    if k < |vs| {
      assert vs[..k + 1][..k] == vs[..k];
      TotalMonotone(vs, k + 1);
    } else {
      assert vs[..k] == vs;
    }
  }

  lemma TotalStep(vs: seq<Local>, k: nat)
    requires k < |vs|
    ensures Total(vs[..k + 1]) == Total(vs[..k]) + Bytes(vs[k].size)
  {
    assert vs[..k + 1][..k] == vs[..k];
  }

  lemma FrameExact(total: nat)
    requires 8 <= total < HALF && total % 8 == 0
    ensures total <= HALF - 48 ==> FrameOf(total) >= total + 32 && FrameOf(total) % 16 == 0
    ensures total > HALF - 48 ==> FrameOf(total) < 0
  {
    hide FrameOf, S32;
    FrameIs(total);
    Signed(Sixteens(total + 32));
  }

  function Sixteens(n: nat): (r: nat)
    ensures n <= r < n + 16 && r % 16 == 0
  {
    (n + 15) / 16 * 16
  }

  lemma FrameIs(total: nat)
    requires total < HALF
    ensures FrameOf(total) == S32(Sixteens(total + 32))
  {
    hide S32;
    Low(total);
    Low(total + 47);
  }

  lemma Low(n: nat)
    requires n < TWO32
    ensures n % TWO32 == n
  {
  }

  lemma Signed(n: nat)
    requires n < HALF + 48
    ensures n < HALF ==> S32(n) == n
    ensures n >= HALF ==> S32(n) < 0
  {
  }

  lemma {:induction false} TotalSlots(vs: seq<Local>)
    ensures Total(vs) % 8 == 0
    decreases |vs|
  {
    if vs != [] { TotalSlots(vs[..|vs| - 1]); }
  }

  /** Without wrap-around the variables are where they should be. */
  lemma LaidWhenSmall(vs: seq<Local>)
    requires Placed(vs) && Total(vs) <= HALF - 48
    ensures LaidOut(vs, FrameOf(S32(Total(vs))))
  {
    hide Bytes, Total, FrameOf, S32;
    TotalSlots(vs);
    TotalLow(vs);
    FrameExact(Total(vs));
    Small(Total(vs));
    forall k | 0 <= k < |vs| ensures ExactAt(vs, k) {
      Exactly(vs, k);
    }
    forall i, j | 0 <= i < j < |vs| ensures vs[i].offset <= vs[j].offset - Bytes(vs[j].size) {
      assert ExactAt(vs, i) && ExactAt(vs, j);
      assert vs[..j][..i + 1] == vs[..i + 1];
      TotalMonotone(vs[..j], i + 1);
    }
    forall k | 0 <= k < |vs|
      ensures vs[k].offset - Bytes(vs[k].size) >= 8 && vs[k].offset + 32 <= FrameOf(S32(Total(vs)))
    {
      assert ExactAt(vs, k);
    }
  }

  /** Variable k starts exactly where the sizes up to it say. */
  ghost predicate ExactAt(vs: seq<Local>, k: nat) {
    k < |vs| && vs[k].offset == Total(vs[..k]) + Bytes(vs[k].size) == Total(vs[..k + 1]) <= Total(vs)
      && 8 <= Total(vs[..k])
  }

  lemma Exactly(vs: seq<Local>, k: nat)
    requires Placed(vs) && Total(vs) <= HALF - 48 && k < |vs|
    ensures ExactAt(vs, k)
  {
    hide Bytes, Total, S32;
    TotalStep(vs, k);
    TotalMonotone(vs, k + 1);
    TotalLow(vs[..k]);
    Small(Total(vs[..k + 1]));
  }

  lemma Small(x: int)
    requires -HALF <= x < HALF
    ensures S32(x) == x
  {
  }

  lemma TotalLow(vs: seq<Local>)
    ensures Total(vs) >= 8
  {
  }

  lemma {:induction false} Stacked(vs: seq<Local>, frame: int, k: nat)
    requires LaidOut(vs, frame) && k < |vs|
    ensures vs[k].offset >= Total(vs[..k + 1])
    decreases k
  {
    hide Bytes;
    TotalStep(vs, k);
    if k == 0 {
      assert vs[..0] == [];
    } else {
      Stacked(vs, frame, k - 1);
    }
  }

  /**
   The variables of a function are disjoint from each other, from the saved rbx and from the pushed
   temporaries if and only if they take less than two gigabytes together.
   */
  lemma LaidIff(vs: seq<Local>)
    requires Placed(vs)
    ensures LaidOut(vs, FrameOf(S32(Total(vs)))) <==> Total(vs) <= HALF - 48
  {
    hide Bytes, FrameOf;
    if vs != [] && LaidOut(vs, FrameOf(S32(Total(vs)))) {
      var k := |vs| - 1;
      Stacked(vs, FrameOf(S32(Total(vs))), k);
      assert vs[..k + 1] == vs;
      TotalSlots(vs);
      FrameLow(S32(Total(vs)));
      FrameExact(Total(vs));
    }
    if Total(vs) <= HALF - 48 { LaidWhenSmall(vs); }
  }

  lemma FrameLow(x: int)
    ensures FrameOf(x) < HALF
  {
  }

  // ----- zeroing -----

  function Slots(size: nat): nat { Bytes32(size) / 8 }

  /** The stores of a declaration without a value: relative to rbp, from the variable's offset upward. */
  function Zeroed(offset: int, size: nat): (r: seq<int>)
    ensures |r| == Slots(size)
  {
    seq(Slots(size), i requires 0 <= i < Slots(size) => S32(8 * i - offset))
  }

  /** Every store is to a slot of the variable. */
  ghost predicate ZeroInside(v: Local, size: nat) {
    forall i :: 0 <= i < Slots(size) ==>
      ByteOf(v, Zeroed(v.offset, size)[i]) && ByteOf(v, Zeroed(v.offset, size)[i] + 7)
  }

  /** Every slot of the variable is stored to. */
  ghost predicate ZeroCovers(v: Local, size: nat) {
    forall a :: 0 <= a < Bytes(v.size) && a % 8 == 0 ==> a - v.offset in Zeroed(v.offset, size)
  }

  lemma SlotsOf(size: nat)
    requires size <= HALF
    ensures 8 * Slots(size) == Bytes(size)
  {
    hide Bytes32;
    BytesExact(size);
  }

  lemma ZeroAt(offset: int, size: nat, i: nat)
    requires i < Slots(size)
    ensures Zeroed(offset, size)[i] == S32(8 * i - offset)
  {
  }

  /**
   A declaration zeroes inside the variable it finds if and only if its own type has no more slots than the
   variable's type, and all of the variable if and only if it has no fewer.
   */
  lemma ZeroIff(v: Local, size: nat)
    requires Bytes(v.size) + 8 <= v.offset < HALF && size < TWO32
    ensures ZeroInside(v, size) <==> Slots(size) <= Slots(v.size)
    ensures ZeroCovers(v, size) <==> Slots(size) >= Slots(v.size)
  {
    hide Bytes, Zeroed, Bytes32, Slots;
    SlotsOf(v.size);
    forall i: nat | i < Slots(size) && i <= Slots(v.size) ensures Zeroed(v.offset, size)[i] == 8 * i - v.offset {
      ZeroAt(v.offset, size, i);
    }
    if Slots(size) > Slots(v.size) {
      var i := Slots(v.size);
      assert !ByteOf(v, Zeroed(v.offset, size)[i]);
    }
    CoverIff(v, size);
  }

  /** So in every function whose variables fit, whichever variable a declaration finds. */
  lemma ZeroInTable(vs: seq<Local>, k: nat, size: nat)
    requires Placed(vs) && Total(vs) <= HALF - 48 && k < |vs| && size < TWO32
    ensures ZeroInside(vs[k], size) <==> Slots(size) <= Slots(vs[k].size)
    ensures ZeroCovers(vs[k], size) <==> Slots(size) >= Slots(vs[k].size)
  {
    hide Bytes, Zeroed, Bytes32, Slots, Total, S32, Placed, ZeroInside, ZeroCovers;
    Exactly(vs, k);
    ZeroIff(vs[k], size);
  }

  lemma CoverIff(v: Local, size: nat)
    requires Bytes(v.size) + 8 <= v.offset < HALF && size < TWO32 && 8 * Slots(v.size) == Bytes(v.size)
    requires forall i: nat :: i < Slots(size) && i <= Slots(v.size) ==> Zeroed(v.offset, size)[i] == 8 * i - v.offset
    ensures ZeroCovers(v, size) <==> Slots(size) >= Slots(v.size)
  {
    hide Bytes, Zeroed, Bytes32, Slots;
    var z := Zeroed(v.offset, size);
    assert |z| == Slots(size) by { ZeroLen(v.offset, size); }
    if Slots(size) >= Slots(v.size) {
      forall a | 0 <= a < Bytes(v.size) && a % 8 == 0 ensures a - v.offset in z {
        assert z[a / 8] == a - v.offset;
      }
    } else {
      var a := 8 * (Slots(v.size) - 1);
      forall i | 0 <= i < |z| ensures z[i] != a - v.offset {}
      assert 0 <= a < Bytes(v.size) && a % 8 == 0 && a - v.offset !in z;
    }
  }

  lemma ZeroLen(offset: int, size: nat)
    ensures |Zeroed(offset, size)| == Slots(size)
  {
  }

  /**
   Where the store after the variable's own slots goes: into the variable declared before it, or, for the first
   variable, into the saved rbx, and the next two into the saved rbp and the return address.
   */
  lemma ZeroSpills(vs: seq<Local>, k: nat, size: nat)
    requires Placed(vs) && Total(vs) <= HALF - 48 && k < |vs| && size < TWO32 && Slots(size) > Slots(vs[k].size)
    ensures var a := Zeroed(vs[k].offset, size)[Slots(vs[k].size)];
      if k == 0 then a == -8 else ByteOf(vs[k - 1], a) && !ByteOf(vs[k], a)
    ensures k == 0 && Slots(size) > Slots(vs[0].size) + 2 ==>
      Zeroed(vs[0].offset, size)[Slots(vs[0].size) + 1] == 0 && Zeroed(vs[0].offset, size)[Slots(vs[0].size) + 2] == 8
  {
    hide Bytes, Zeroed, Bytes32, Slots, Total, S32, Placed;
    var n := Slots(vs[k].size);
    SpillAt(vs, k);
    ZeroAt(vs[k].offset, size, n);
    if k == 0 {
      if Slots(size) > n + 2 {
        ZeroAt(vs[0].offset, size, n + 1);
        ZeroAt(vs[0].offset, size, n + 2);
        Small(0);
        Small(8);
      }
    } else {
      LeastBytes(vs[k - 1].size);
    }
  }

  /** Behind its slots a variable borders on the one before it. */
  lemma SpillAt(vs: seq<Local>, k: nat)
    requires Placed(vs) && Total(vs) <= HALF - 48 && k < |vs|
    ensures 8 * Slots(vs[k].size) - vs[k].offset == if k == 0 then -8 else -vs[k - 1].offset
    ensures S32(8 * Slots(vs[k].size) - vs[k].offset) == 8 * Slots(vs[k].size) - vs[k].offset
    ensures 8 * Slots(vs[k].size) == Bytes(vs[k].size)
  {
    hide Bytes, Bytes32, Slots, Total, S32, Placed;
    Exactly(vs, k);
    SmallSlots(vs[k].size, Total(vs[..k]), Total(vs));
    Small(-(Total(vs[..k]) as int));
    if k == 0 {
      assert vs[..0] == [];
      FirstTotal();
    } else {
      Exactly(vs, k - 1);
      assert vs[..(k - 1) + 1] == vs[..k];
    }
  }

  lemma LeastBytes(size: nat)
    ensures Bytes(size) >= 8
  {
  }

  lemma FirstTotal()
    ensures Total([]) == 8
  {
  }

  lemma SmallSlots(size: nat, before: nat, total: nat)
    requires before + Bytes(size) <= total <= HALF - 48
    ensures 8 * Slots(size) == Bytes(size) && 0 <= before
  {
    hide Slots;
    SlotsOf(size);
  }

  // ----- the table in place -----

  class LocalTable {
    var vars: seq<Local>
    var stackSize: int

    ghost predicate Valid()
      reads this
    {
      |vars| <= MAX_LOCALS && Placed(vars) && stackSize == S32(Total(vars))
    }

    /** A new function: only the saved rbx. */
    constructor ()
      ensures Valid() && vars == []
    {
      vars, stackSize := [], 8;
    }

    /** add_var_type */
    method AddVar(name: string, size: nat) returns (ok: bool)
      requires Valid() && size < TWO32
      modifies this
      ensures Valid() && ok == (|old(vars)| < MAX_LOCALS)
      ensures if ok then vars == old(vars) + [Local(name, stackSize, size)] else vars == old(vars)
    {
      hide Bytes, Bytes32, S32, Total;
      if |vars| >= MAX_LOCALS { return false; }
      BytesAgree(size, stackSize);
      WrapAdd(Total(vars), Bytes(size));
      stackSize := S32(stackSize + S32(Bytes32(size)));
      var v := Local(name, stackSize, size);
      TotalMore(vars, v);
      PlacedMore(vars, v);
      vars := vars + [v];
      return true;
    }

    /** find_var: the variable first declared under a name. */
    method FindVar(name: string) returns (r: Option<nat>)
      ensures r.Some? ==> r.value < |vars| && vars[r.value].name == name && forall j :: 0 <= j < r.value ==>
        vars[j].name != name
      ensures r.None? ==> forall j :: 0 <= j < |vars| ==> vars[j].name != name
    {
      for i := 0 to |vars|
        invariant forall j :: 0 <= j < i ==> vars[j].name != name
      {
        if vars[i].name == name { return Some(i); }
      }
      return None;
    }

    /** A declaration without a value: the variable it finds or adds, and the stores it emits. */
    method Let(name: string, size: nat) returns (ok: bool, k: nat, stores: seq<int>)
      requires Valid() && size < TWO32
      modifies this
      ensures Valid() && (!ok ==> vars == old(vars) && |vars| == MAX_LOCALS)
      ensures ok ==> k <= |old(vars)| && k < |vars| && vars[k].name == name && (k < |old(vars)| ==> vars == old(vars))
      ensures ok && k == |old(vars)| ==>
        vars == old(vars) + [vars[k]] && vars[k].size == size && forall j :: 0 <= j < k ==> old(vars)[j].name != name
      ensures ok ==> stores == Zeroed(vars[k].offset, size)
      ensures ok && Total(vars) <= HALF - 48 ==> (ZeroInside(vars[k], size) <==> Slots(size) <= Slots(vars[k].size))
    {
      hide Bytes, Bytes32, S32, Total, Placed;
      stores, k := [], 0;
      var found := FindVar(name);
      if found.Some? {
        ok, k := true, found.value;
      } else {
        k := |vars|;
        ok := AddVar(name, size);
        if !ok { return; }
      }
      for i := 0 to Slots(size)
        invariant |stores| == i && forall j :: 0 <= j < i ==> stores[j] == S32(8 * j - vars[k].offset)
      {
        stores := stores + [S32(8 * i - vars[k].offset)];
      }
      assert stores == Zeroed(vars[k].offset, size);
      if Total(vars) <= HALF - 48 { ZeroInTable(vars, k, size); }
    }

    /** The frame size that is patched into the prologue. */
    method FrameSize() returns (frame: int)
      requires Valid()
      ensures LaidOut(vars, frame) <==> Total(vars) <= HALF - 48
    {
      LaidIff(vars);
      frame := FrameOf(stackSize);
    }
  }

  lemma PlacedMore(vs: seq<Local>, v: Local)
    requires Placed(vs) && v.size < TWO32 && v.offset == S32(Total(vs + [v]))
    ensures Placed(vs + [v])
  {
    hide S32, Total;
    var ws := vs + [v];
    forall k | 0 <= k < |ws| ensures ws[k].size < TWO32 && ws[k].offset == S32(Total(ws[..k + 1])) {
      if k < |vs| { assert ws[..k + 1] == vs[..k + 1]; } else { assert ws[..k + 1] == ws; }
    }
  }

  /**
   A first variable of eight bytes declared again as an array of four words: the second declaration stores to
   its one slot, then to the saved rbx, the saved rbp and the return address.
   */
  method DeclaredAgain() returns (stores: seq<int>)
    ensures stores == [-16, -8, 0, 8]
  {
    hide Bytes32, S32, Total, Zeroed, Slots;
    var t := new LocalTable();
    var ok, k, first := t.Let("x", 8);
    assert t.vars == [t.vars[0]] && t.vars[0].name == "x";
    ok, k, stores := t.Let("x", 32);
    FourStores(t.vars);
  }

  lemma FourStores(vs: seq<Local>)
    requires Placed(vs) && |vs| == 1 && vs[0].size == 8
    ensures Zeroed(vs[0].offset, 32) == [-16, -8, 0, 8]
  {
    assert vs[..1] == vs && vs[..0] == [];
    TotalStep(vs, 0);
    assert Total(vs) == 16;
  }
}
