/** Listing a directory of the disk: directories exist only as prefixes of file names. */
module Directory {
  import opened Words
  import opened OreFs

  const SLASH: byte := 47

  /** What comes before the first slash. */
  function Upto(s: seq<byte>): (r: seq<byte>)
    ensures |r| <= |s| && s[..|r|] == r && (|r| < |s| ==> s[|r|] == SLASH) && SLASH !in r
  {
    if s == [] || s[0] == SLASH then [] else [s[0]] + Upto(s[1..])
  }

  /** One line of a listing. */
  datatype Listed = Listed(name: seq<byte>, isDir: bool, size: u64)

  predicate Under(name: seq<byte>, dir: seq<byte>) {
    dir == [] || (|name| > |dir| && name[..|dir|] == dir && name[|dir|] == SLASH)
  }

  /** The name of a file relative to a directory that it is under. */
  function Relative(name: seq<byte>, dir: seq<byte>): seq<byte>
    requires Under(name, dir)
  {
    if dir == [] then name else name[|dir| + 1..]
  }

  /** disk_direct_child: the child of a directory that an entry lies in or is. */
  function Child(e: Entry, dir: seq<byte>): Option<Listed> {
    var name := CStr(e.name);
    if !Under(name, dir) then None
    else
      var rel := Relative(name, dir);
      if rel == [] then None
      else
        var c := Upto(rel);
        if |c| < |rel| then Some(Listed(c, true, 0)) else Some(Listed(c, false, e.size))
  }

  /** Entry i is where its child appears first. */
  ghost predicate FirstAt(es: seq<Entry>, dir: seq<byte>, i: nat) {
    i < |es| && Child(es[i], dir).Some? && !SeenBefore(es, dir, i, Child(es[i], dir).value.name)
  }

  ghost predicate SeenBefore(es: seq<Entry>, dir: seq<byte>, i: nat, name: seq<byte>)
    requires i <= |es|
  {
    exists j :: 0 <= j < i && Child(es[j], dir).Some? && Child(es[j], dir).value.name == name
  }

  /** The listing: every child once, in the order of first appearance. */
  ghost function Listing(es: seq<Entry>, dir: seq<byte>, n: nat): seq<Listed>
    requires n <= |es|
  {
    if n == 0 then []
    else if FirstAt(es, dir, n - 1) then Listing(es, dir, n - 1) + [Child(es[n - 1], dir).value]
    else Listing(es, dir, n - 1)
  }

  /** Each distinct child is listed, exactly once, as it first appears. */
  lemma {:induction false} ListingIs(es: seq<Entry>, dir: seq<byte>, n: nat)
    requires n <= |es|
    ensures forall x :: x in Listing(es, dir, n) <==>
      exists i :: 0 <= i < n && FirstAt(es, dir, i) && Child(es[i], dir).value == x
    ensures forall a, b :: 0 <= a < b < |Listing(es, dir, n)| ==>
      Listing(es, dir, n)[a].name != Listing(es, dir, n)[b].name
    decreases n
  {
    hide Child;
    if n > 0 {
      ListingIs(es, dir, n - 1);
      var front := Listing(es, dir, n - 1);
      if FirstAt(es, dir, n - 1) {
        var x := Child(es[n - 1], dir).value;
        forall a | 0 <= a < |front| ensures front[a].name != x.name {
          assert front[a] in front;
          var i :| 0 <= i < n - 1 && FirstAt(es, dir, i) && Child(es[i], dir).value == front[a];
          assert Child(es[i], dir).Some? && Child(es[i], dir).value.name == front[a].name;
        }
      }
    }
  }

  lemma {:induction false} FirstOf(es: seq<Entry>, dir: seq<byte>, i: nat) returns (j: nat)
    requires i < |es| && Child(es[i], dir).Some?
    ensures j <= i && FirstAt(es, dir, j) && Child(es[j], dir).value.name == Child(es[i], dir).value.name
    decreases i
  {
    hide Child;
    if FirstAt(es, dir, i) { j := i; } else {
      var k :| 0 <= k < i && Child(es[k], dir).Some? && Child(es[k], dir).value.name == Child(es[i], dir).value.name;
      j := FirstOf(es, dir, k);
    }
  }

  /** No child is missing from the listing. */
  lemma ListingComplete(es: seq<Entry>, dir: seq<byte>, i: nat) returns (x: Listed)
    requires i < |es| && Child(es[i], dir).Some?
    ensures x in Listing(es, dir, |es|) && x.name == Child(es[i], dir).value.name
  {
    hide Child;
    var j := FirstOf(es, dir, i);
    ListingIs(es, dir, |es|);
    x := Child(es[j], dir).value;
  }

  // ----- the listing in terms of names -----

  /** The full name of a child of a directory. */
  function Full(dir: seq<byte>, child: seq<byte>): seq<byte> { if dir == [] then child else dir + [SLASH] + child }

  /** A file of that name is a child c of the directory. */
  predicate IsIn(name: seq<byte>, dir: seq<byte>, c: seq<byte>) { c != [] && SLASH !in c && name == Full(dir, c) }

  /** A file of that name lies somewhere below a child c of the directory. */
  predicate Below(name: seq<byte>, dir: seq<byte>, c: seq<byte>) { SLASH !in c && Full(dir, c) + [SLASH] <= name }

  predicate Lies(name: seq<byte>, dir: seq<byte>, c: seq<byte>) { IsIn(name, dir, c) || Below(name, dir, c) }

  lemma UptoIs(s: seq<byte>, c: seq<byte>, t: seq<byte>)
    requires s == c + t && SLASH !in c && (t == [] || t[0] == SLASH)
    ensures Upto(s) == c
  {
    var r := Upto(s);
    hide Upto;
    UptoOk(s);
    assert forall k :: 0 <= k < |c| ==> s[k] == c[k] && s[k] != SLASH;
    assert |r| >= |c|;
    assert forall k :: 0 <= k < |r| ==> s[k] == r[k] && s[k] != SLASH;
    assert t != [] ==> s[|c|] == t[0];
    assert |r| == |c|;
    assert s[..|c|] == c;
  }

  lemma UptoOk(s: seq<byte>)
    ensures var r := Upto(s); |r| <= |s| && s[..|r|] == r && (|r| < |s| ==> s[|r|] == SLASH) && SLASH !in r
  {
  }

  lemma FullUnder(dir: seq<byte>, rel: seq<byte>)
    ensures Under(Full(dir, rel), dir) && Relative(Full(dir, rel), dir) == rel
  {
  }

  /** An entry whose name is a child of the directory, or below one, has that child. */
  lemma LiesChild(e: Entry, dir: seq<byte>, c: seq<byte>)
    requires Lies(CStr(e.name), dir, c)
    ensures Child(e, dir) == Some(if Below(CStr(e.name), dir, c) then Listed(c, true, 0) else Listed(c, false, e.size))
  {
    hide CStr, Upto, Under, Relative;
    var name := CStr(e.name);
    if Below(name, dir, c) {
      var t := name[|Full(dir, c)|..];
      BelowFull(name, dir, c);
      FullUnder(dir, c + t);
      UptoIs(c + t, c, t);
    } else {
      FullUnder(dir, c);
      UptoIs(c, c, []);
      assert c + [] == c;
    }
  }

  lemma BelowFull(name: seq<byte>, dir: seq<byte>, c: seq<byte>)
    requires Below(name, dir, c)
    ensures var t := name[|Full(dir, c)|..]; name == Full(dir, c + t) && t != [] && t[0] == SLASH
  {
    var f, t := Full(dir, c), name[|Full(dir, c)|..];
    assert (f + [SLASH])[..|f|] == f && name[|f|] == (f + [SLASH])[|f|];
    assert name == f + t;
    assert dir != [] ==> f + t == dir + [SLASH] + (c + t);
  }

  /** The child of an entry is where its name lies. */
  lemma ChildLies(e: Entry, dir: seq<byte>)
    requires Child(e, dir).Some?
    ensures Lies(CStr(e.name), dir, Child(e, dir).value.name)
  {
    hide CStr, Upto;
    var name := CStr(e.name);
    var rel := Relative(name, dir);
    var c := Upto(rel);
    UptoOk(rel);
    assert name == Full(dir, rel);
    if |c| < |rel| {
      assert rel == c + rel[|c|..];
      assert Full(dir, c) + [SLASH] <= name;
    } else {
      assert c == rel;
    }
  }

  /**
   Entry i decides the line: its name is the child's or lies below it, no earlier one's does, and the line is a
   directory of size 0 or a file of the entry's size accordingly.
   */
  ghost predicate Decides(es: seq<Entry>, dir: seq<byte>, i: nat, x: Listed) {
    && i < |es| && Lies(CStr(es[i].name), dir, x.name)
    && (forall j :: 0 <= j < i ==> !Lies(CStr(es[j].name), dir, x.name))
    && x == if Below(CStr(es[i].name), dir, x.name) then Listed(x.name, true, 0) else Listed(x.name, false, es[i].size)
  }

  lemma DecidesIff(es: seq<Entry>, dir: seq<byte>, i: nat, x: Listed)
    ensures Decides(es, dir, i, x) <==> FirstAt(es, dir, i) && Child(es[i], dir).value == x
  {
    hide Child, CStr, Lies, Below;
    if i < |es| {
      forall j | 0 <= j <= i
        ensures Lies(CStr(es[j].name), dir, x.name) <==>
          Child(es[j], dir).Some? && Child(es[j], dir).value.name == x.name
      {
        if Lies(CStr(es[j].name), dir, x.name) { LiesChild(es[j], dir, x.name); }
        if Child(es[j], dir).Some? { ChildLies(es[j], dir); }
      }
      if Lies(CStr(es[i].name), dir, x.name) { LiesChild(es[i], dir, x.name); }
    }
  }

  /** The lines of a listing are exactly those that some entry decides. */
  lemma ListingExact(es: seq<Entry>, dir: seq<byte>, x: Listed)
    ensures x in Listing(es, dir, |es|) <==> exists i :: 0 <= i < |es| && Decides(es, dir, i, x)
  {
    hide Child, Decides;
    ListingIs(es, dir, |es|);
    forall i | 0 <= i < |es| ensures Decides(es, dir, i, x) <==> FirstAt(es, dir, i) && Child(es[i], dir).value == x {
      DecidesIff(es, dir, i, x);
    }
  }

  /** Every file in or below a child of the directory gives it a line. */
  lemma ListingHas(es: seq<Entry>, dir: seq<byte>, i: nat, c: seq<byte>) returns (x: Listed)
    requires i < |es| && Lies(CStr(es[i].name), dir, c)
    ensures x in Listing(es, dir, |es|) && x.name == c
  {
    hide Child;
    LiesChild(es[i], dir, c);
    x := ListingComplete(es, dir, i);
  }

  /** Lines stand in the order of the entries that decide them. */
  lemma {:induction false} ListingOrdered(es: seq<Entry>, dir: seq<byte>, n: nat, a: nat, b: nat)
      returns (i: nat, j: nat)
    requires n <= |es| && a < b < |Listing(es, dir, n)|
    ensures i < j < n && Decides(es, dir, i, Listing(es, dir, n)[a]) && Decides(es, dir, j, Listing(es, dir, n)[b])
    decreases n
  {
    hide Child, Decides;
    var front, all := Listing(es, dir, n - 1), Listing(es, dir, n);
    if b < |front| {
      i, j := ListingOrdered(es, dir, n - 1, a, b);
    } else {
      assert front[a] in front;
      ListingIs(es, dir, n - 1);
      i :| 0 <= i < n - 1 && FirstAt(es, dir, i) && Child(es[i], dir).value == front[a];
      j := n - 1;
      DecidesIff(es, dir, i, all[a]);
      DecidesIff(es, dir, j, all[b]);
    }
  }

  /** vfs_readdir_path on the disk: line index of the listing, or nothing past its end. */
  method ReadDir(es: seq<Entry>, dir: seq<byte>, index: nat) returns (r: Option<Listed>)
    ensures r == if index < |Listing(es, dir, |es|)| then Some(Listing(es, dir, |es|)[index]) else None
  {
    hide Child;
    var emitted := 0;
    for i := 0 to |es|
      invariant emitted == |Listing(es, dir, i)| && emitted <= index
    {
      var c := Child(es[i], dir);
      if c.Some? {
        var duplicate := false;
        for j := 0 to i
          invariant !duplicate && !SeenBefore(es, dir, j, c.value.name)
        {
          var d := Child(es[j], dir);
          if d.Some? && d.value.name == c.value.name {
            duplicate := true;
            break;
          }
        }
        if !duplicate {
          assert FirstAt(es, dir, i);
          ListingPrefix(es, dir, i + 1, |es|);
          if emitted == index { return c; }
          emitted := emitted + 1;
        }
      }
    }
    return None;
  }

  lemma {:induction false} ListingPrefix(es: seq<Entry>, dir: seq<byte>, m: nat, n: nat)
    requires m <= n <= |es|
    ensures Listing(es, dir, m) <= Listing(es, dir, n)
    decreases n
  {
    hide FirstAt, Child;
    if m < n { ListingPrefix(es, dir, m, n - 1); }
  }

  // ----- stat -----

  ghost predicate HasChildren(es: seq<Entry>, rel: seq<byte>) {
    if rel == [] then es != [] else exists i :: 0 <= i < |es| && Under(CStr(es[i].name), rel)
  }

  /** vfs_stat for a nonempty path below /disk/: a file of that name, else a directory if it has children. */
  ghost function Stat(es: seq<Entry>, rel: seq<byte>): Option<Listed> {
    var i := LookupPath(es, rel);
    if i.Some? && i.value < |es| then Some(Listed(CStr(es[i.value].name), false, es[i.value].size))
    else if HasChildren(es, rel) then Some(Listed(rel, true, 0))
    else None
  }

  ghost predicate IsFile(es: seq<Entry>, name: seq<byte>) { exists i :: 0 <= i < |es| && CStr(es[i].name) == name }

  lemma ChildName(e: Entry, dir: seq<byte>)
    requires Child(e, dir).Some?
    ensures var x := Child(e, dir).value; var name := CStr(e.name); var full := Full(dir, x.name);
      x.name != [] ==> (!x.isDir ==> name == full && x.size == e.size) && (x.isDir ==> Under(name, full) && x.size == 0)
  {
    hide CStr;
    var x, name := Child(e, dir).value, CStr(e.name);
    var rel := Relative(name, dir);
    var full := Full(dir, x.name);
    assert rel[..|x.name|] == x.name;
    if dir == [] {
      assert name == rel;
    } else {
      assert name == dir + [SLASH] + rel;
      assert name[..|full|] == full;
    }
  }

  /**
   Stat of a child listed under a path without a doubled slash says what the listing says -- kind and size --
   if and only if it is not both a directory in the listing and a file.
   */
  lemma StatAgrees(es: seq<Entry>, dir: seq<byte>, i: nat)
    requires FirstAt(es, dir, i) && Child(es[i], dir).value.name != [] && (dir == [] || dir[0] != SLASH)
    ensures var x := Child(es[i], dir).value; var s := Stat(es, Full(dir, x.name));
      (s.Some? && s.value.isDir == x.isDir && s.value.size == x.size) <==> !(x.isDir && IsFile(es, Full(dir, x.name)))
  {
    hide CStr, Lookup;
    var x := Child(es[i], dir).value;
    var full := Full(dir, x.name);
    ChildName(es[i], dir);
    PlainPath(es, full);
    LookupIs(es, full);
    var f := Lookup(es, full);
    if !x.isDir {
      SameChild(es, dir, f.value, i);
    } else {
      assert full != [] && Under(CStr(es[i].name), full);
    }
  }

  /** A path below /disk/ that has no leading slash is looked up as it is. */
  lemma PlainPath(es: seq<Entry>, rel: seq<byte>)
    requires rel != [] && rel[0] != SLASH
    ensures LookupPath(es, rel) == Lookup(es, rel)
  {
    hide Lookup;
  }

  /** A doubled slash is taken off before files are looked up, and only then. */
  lemma DoubledSlash(es: seq<Entry>, rel: seq<byte>)
    requires rel != [] && rel[0] != SLASH && DiskPath([SLASH] + rel).None?
    ensures IsFile(es, rel) ==> Stat(es, [SLASH] + rel) == Stat(es, rel)
    ensures !IsFile(es, rel) ==>
      Stat(es, [SLASH] + rel) == if HasChildren(es, [SLASH] + rel) then Some(Listed([SLASH] + rel, true, 0)) else None
  {
    hide Lookup, CStr, HasChildren;
    PlainPath(es, rel);
    LookupIs(es, rel);
    assert ([SLASH] + rel)[1..] == rel;
  }

  /** An entry with the full name of a child is that child of the directory. */
  lemma SameChild(es: seq<Entry>, dir: seq<byte>, f: nat, i: nat)
    requires FirstAt(es, dir, i) && f <= i && !Child(es[i], dir).value.isDir
    requires CStr(es[f].name) == CStr(es[i].name)
    ensures f == i
  {
    hide CStr;
    assert Child(es[f], dir).Some? && Child(es[f], dir).value.name == Child(es[i], dir).value.name;
  }
}
