/** Struct layout in the compiler: offsets, size and alignment are computed while the fields are read. */
module Layout {
  import opened Words

  /** A field's size and alignment; an alignment of 0 counts as 1. */
  datatype Field = Field(size: nat, align: nat)

  /** The alignments that types have. */
  predicate AlignOk(a: nat) { a == 1 || a == 2 || a == 4 || a == 8 }

  predicate Aligned(n: nat, a: nat) {
    if a == 2 then n % 2 == 0 else if a == 4 then n % 4 == 0 else if a == 8 then n % 8 == 0 else true
  }

  /** Round up to a multiple of an alignment. */
  function Up(n: nat, a: nat): (r: nat)
    requires AlignOk(a)
    ensures n <= r < n + a && Aligned(r, a)
  {
    if a == 2 then (n + 1) / 2 * 2 else if a == 4 then (n + 3) / 4 * 4 else if a == 8 then (n + 7) / 8 * 8 else n
  }

  function AlignOf(f: Field, packed: bool): nat { if packed || f.align == 0 then 1 else f.align }

  /** The fields from offset lo on are in order, apart from each other, aligned, and end by hi. */
  ghost predicate Laid(fs: seq<Field>, offsets: seq<nat>, packed: bool, hi: nat) {
    && |offsets| == |fs|
    && (forall i :: 0 <= i < |fs| ==> Aligned(offsets[i], AlignOf(fs[i], packed)) && offsets[i] + fs[i].size <= hi)
    && (forall i, j :: 0 <= i < j < |fs| ==> offsets[i] + fs[i].size <= offsets[j])
  }

  function SizeSum(fs: seq<Field>): nat {
    if fs == [] then 0 else SizeSum(fs[..|fs| - 1]) + fs[|fs| - 1].size
  }

  /** In a packed struct nothing but the fields takes space. */
  ghost predicate Packed(fs: seq<Field>, offsets: seq<nat>) {
    |offsets| == |fs| && forall i :: 0 <= i < |fs| ==> offsets[i] == SizeSum(fs[..i])
  }

  /** The same as align_up_u32 computes it, in 32 bits. */
  function Up32(n: nat, a: nat): nat
    requires AlignOk(a) && n < TWO32
  {
    if a == 2 then (n + 1) % TWO32 / 2 * 2 else if a == 4 then (n + 3) % TWO32 / 4 * 4
      else if a == 8 then (n + 7) % TWO32 / 8 * 8 else n
  }

  lemma Up32Is(n: nat, a: nat)
    requires AlignOk(a) && n < TWO32
    ensures n <= Up(n, a) < n + 8 && Aligned(Up(n, a), a)
    ensures if Up(n, a) < TWO32 then Up32(n, a) == Up(n, a) else Up32(n, a) == 0
  {
    if a == 2 { Two(n); } else if a == 4 { Four(n); } else if a == 8 { Eight(n); }
  }

  lemma Two(n: nat)
    requires n < TWO32
    ensures var u := (n + 1) / 2 * 2;
      n <= u < n + 2 && u % 2 == 0 && (n + 1) % TWO32 / 2 * 2 == if u < TWO32 then u else 0
  {
  }

  lemma Four(n: nat)
    requires n < TWO32
    ensures var u := (n + 3) / 4 * 4;
      n <= u < n + 4 && u % 4 == 0 && (n + 3) % TWO32 / 4 * 4 == if u < TWO32 then u else 0
  {
  }

  lemma Eight(n: nat)
    requires n < TWO32
    ensures var u := (n + 7) / 8 * 8;
      n <= u < n + 8 && u % 8 == 0 && (n + 7) % TWO32 / 8 * 8 == if u < TWO32 then u else 0
  {
  }

  predicate FieldsOk(fs: seq<Field>) {
    forall i :: 0 <= i < |fs| ==> (fs[i].align == 0 || AlignOk(fs[i].align)) && fs[i].size < TWO32
  }

  /** Where the first i fields end, and their largest alignment, without any limit on sizes. */
  function Ends(fs: seq<Field>, packed: bool, i: nat): nat
    requires i <= |fs| && FieldsOk(fs)
  {
    if i == 0 then 0 else Up(Ends(fs, packed, i - 1), AlignOf(fs[i - 1], packed)) + fs[i - 1].size
  }

  function MaxAlign(fs: seq<Field>, packed: bool, i: nat): (r: nat)
    requires i <= |fs| && FieldsOk(fs)
    ensures AlignOk(r) && (forall k :: 0 <= k < i ==> AlignOf(fs[k], packed) <= r) && (packed ==> r == 1)
  {
    if i == 0 then 1
    else
      var r, a := MaxAlign(fs, packed, i - 1), AlignOf(fs[i - 1], packed);
      if a > r then a else r
  }

  /** The size of a struct in unlimited arithmetic. */
  function FullSize(fs: seq<Field>, packed: bool): nat
    requires FieldsOk(fs)
  {
    Up(Ends(fs, packed, |fs|), MaxAlign(fs, packed, |fs|))
  }

  /** Some field ends beyond 32 bits, or overlaps a later one. */
  ghost predicate Broken(fs: seq<Field>, offsets: seq<nat>, i: nat) {
    && |offsets| == i <= |fs|
    && ((exists k :: 0 <= k < i && offsets[k] + fs[k].size >= TWO32)
        || exists j, k :: 0 <= j < k < i && offsets[j] + fs[j].size > offsets[k])
  }

  lemma BrokenMore(fs: seq<Field>, offsets: seq<nat>, i: nat, at: nat)
    requires Broken(fs, offsets, i) && i < |fs|
    ensures Broken(fs, offsets + [at], i + 1)
  {
    var os := offsets + [at];
    assert forall k :: 0 <= k < i ==> os[k] == offsets[k];
    if k :| 0 <= k < i && offsets[k] + fs[k].size >= TWO32 {
      assert os[k] + fs[k].size >= TWO32;
    } else {
      var j, k :| 0 <= j < k < i && offsets[j] + fs[j].size > offsets[k];
      assert os[j] + fs[j].size > os[k];
    }
  }

  lemma BrokenNot(fs: seq<Field>, offsets: seq<nat>, packed: bool, size: nat)
    requires Broken(fs, offsets, |fs|) && size < TWO32
    ensures !Laid(fs, offsets, packed, size)
  {
  }

  /** The first i fields have been placed, without wrap-around so far, or hopelessly. */
  ghost predicate Placed(fs: seq<Field>, offsets: seq<nat>, packed: bool, i: nat, size: nat)
    requires i <= |fs| && FieldsOk(fs)
  {
    var e := Ends(fs, packed, i);
    && |offsets| == i && size < TWO32
    && (e < TWO32 ==>
       size == e && Laid(fs[..i], offsets, packed, e) && (packed ==> e == SizeSum(fs[..i]) && Packed(fs[..i], offsets)))
    && (e < TWO32 && i > 0 ==> offsets[i - 1] + fs[i - 1].size == e)
    && (e >= TWO32 ==> Broken(fs, offsets, i))
  }

  lemma PlacedStart(fs: seq<Field>, packed: bool)
    requires FieldsOk(fs)
    ensures Placed(fs, [], packed, 0, 0)
  {
    assert fs[..0] == [];
  }

  lemma PlacedStep(fs: seq<Field>, offsets: seq<nat>, packed: bool, i: nat, size: nat)
    requires FieldsOk(fs) && i < |fs| && Placed(fs, offsets, packed, i, size)
    ensures var at := Up32(size, AlignOf(fs[i], packed));
      Placed(fs, offsets + [at], packed, i + 1, (at + fs[i].size) % TWO32)
  {
    hide Laid, Packed, Broken, Aligned, Up, Up32;
    var a, e := AlignOf(fs[i], packed), Ends(fs, packed, i);
    var at, full := Up32(size, a), Up(e, a);
    Up32Is(size, a);
    UpAligned(e, a);
    var os := offsets + [at];
    assert Ends(fs, packed, i + 1) == full + fs[i].size;
    if e >= TWO32 {
      BrokenMore(fs, offsets, i, at);
    } else if full >= TWO32 {
      Overlap(fs, os, i, i - 1);
    } else if full + fs[i].size >= TWO32 {
      TooLong(fs, os, i);
    } else {
      LaidMore(fs, offsets, packed, size, i, at);
      if packed { UpOne(e); PackedStep(fs, offsets, i); }
    }
  }

  lemma UpOne(n: nat)
    ensures Up(n, 1) == n
  {
  }

  lemma UpAligned(n: nat, a: nat)
    requires AlignOk(a)
    ensures n <= Up(n, a) && Aligned(Up(n, a), a)
  {
  }

  lemma Overlap(fs: seq<Field>, os: seq<nat>, i: nat, j: nat)
    requires j < i < |fs| && |os| == i + 1 && os[j] + fs[j].size > os[i]
    ensures Broken(fs, os, i + 1)
  {
  }

  lemma TooLong(fs: seq<Field>, os: seq<nat>, i: nat)
    requires i < |fs| && |os| == i + 1 && os[i] + fs[i].size >= TWO32
    ensures Broken(fs, os, i + 1)
  {
  }

  lemma PackedStep(fs: seq<Field>, offsets: seq<nat>, i: nat)
    requires i < |fs| && Packed(fs[..i], offsets)
    ensures Packed(fs[..i + 1], offsets + [SizeSum(fs[..i])]) && SizeSum(fs[..i + 1]) == SizeSum(fs[..i]) + fs[i].size
  {
    assert fs[..i + 1][..i] == fs[..i];
    PackedMore(fs, offsets, i);
  }

  lemma LaidWider(fs: seq<Field>, offsets: seq<nat>, packed: bool, hi: nat, hi': nat)
    requires Laid(fs, offsets, packed, hi) && hi <= hi'
    ensures Laid(fs, offsets, packed, hi')
  {
  }

  lemma NoFields(fs: seq<Field>, packed: bool)
    requires FieldsOk(fs)
    ensures fs == [] ==> Ends(fs, packed, |fs|) == 0
  {
  }

  lemma Finished(fs: seq<Field>, offsets: seq<nat>, packed: bool, size: nat)
    requires FieldsOk(fs) && Placed(fs, offsets, packed, |fs|, size)
    ensures var last := Up32(size, MaxAlign(fs, packed, |fs|));
      && (Laid(fs, offsets, packed, last) <==> FullSize(fs, packed) < TWO32)
      && (FullSize(fs, packed) < TWO32 ==>
         last == FullSize(fs, packed) && (packed ==> last == SizeSum(fs) && Packed(fs, offsets)))
  {
    hide Up, Up32, Ends;
    var e, a := Ends(fs, packed, |fs|), MaxAlign(fs, packed, |fs|);
    var last := Up32(size, a);
    assert fs[..|fs|] == fs;
    UpAligned(e, a);
    UpOne(e);
    Up32Is(size, a);
    NoFields(fs, packed);
    if e >= TWO32 {
      BrokenNot(fs, offsets, packed, last);
    } else if Up(e, a) >= TWO32 {
      assert offsets[|fs| - 1] + fs[|fs| - 1].size > last;
    } else {
      LaidWider(fs, offsets, packed, e, last);
    }
  }

  /**
   scan_structs for one struct: every field gets its offset; the size is rounded up to the largest alignment.
   The fields are in order, disjoint, aligned and inside the struct if and only if its size has 32 bits.
   */
  method LayOut(fs: seq<Field>, packed: bool) returns (offsets: seq<nat>, size: nat, align: nat)
    requires FieldsOk(fs)
    ensures Laid(fs, offsets, packed, size) <==> FullSize(fs, packed) < TWO32
    ensures AlignOk(align) && forall i :: 0 <= i < |fs| ==> AlignOf(fs[i], packed) <= align
    ensures FullSize(fs, packed) < TWO32 ==> size == FullSize(fs, packed) && Aligned(size, align)
    ensures packed ==> align == 1
    ensures packed && FullSize(fs, packed) < TWO32 ==> size == SizeSum(fs) && Packed(fs, offsets)
  {
    hide Laid, Packed, Broken, Placed, Ends, Up, Up32;
    offsets, size, align := [], 0, 1;
    PlacedStart(fs, packed);
    for i := 0 to |fs|
      invariant size < TWO32 && Placed(fs, offsets, packed, i, size) && align == MaxAlign(fs, packed, i)
    {
      var a := AlignOf(fs[i], packed);
      var at := Up32(size, a);
      PlacedStep(fs, offsets, packed, i, size);
      Up32Is(size, a);
      offsets := offsets + [at];
      size := (at + fs[i].size) % TWO32;
      if a > align { align := a; }
    }
    Finished(fs, offsets, packed, size);
    UpAligned(Ends(fs, packed, |fs|), align);
    size := Up32(size, align);
  }

  lemma LaidMore(fs: seq<Field>, offsets: seq<nat>, packed: bool, size: nat, i: nat, at: nat)
    requires i < |fs| && Laid(fs[..i], offsets, packed, size) && size <= at && Aligned(at, AlignOf(fs[i], packed))
    ensures Laid(fs[..i + 1], offsets + [at], packed, at + fs[i].size)
  {
    var gs, os := fs[..i + 1], offsets + [at];
    forall k | 0 <= k < i ensures gs[k] == fs[..i][k] && os[k] == offsets[k] {}
    assert gs[i] == fs[i] && os[i] == at;
  }

  lemma PackedMore(fs: seq<Field>, offsets: seq<nat>, i: nat)
    requires i < |fs| && Packed(fs[..i], offsets)
    ensures Packed(fs[..i + 1], offsets + [SizeSum(fs[..i])])
  {
    var gs, os := fs[..i + 1], offsets + [SizeSum(fs[..i])];
    forall k | 0 <= k < |gs| ensures os[k] == SizeSum(gs[..k]) {
      assert gs[..k] == fs[..k];
      if k < i { assert fs[..i][..k] == fs[..k] && offsets[k] == SizeSum(fs[..i][..k]); }
    }
  }
}
