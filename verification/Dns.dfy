/** DNS names, sections 3.1 and 4.1.4 of RFC 1035: writing a host name as labels and skipping a name. */
module Dns {
  import opened Words

  const DOT: byte := 46

  /** The labels of a host name. */
  function Split(host: seq<byte>): (r: seq<seq<byte>>)
    ensures |r| > 0
  {
    if host == [] then [[]]
    else
      var n := |host| - 1;
      var front := Split(host[..n]);
      if host[n] == DOT then front + [[]] else front[..|front| - 1] + [front[|front| - 1] + [host[n]]]
  }

  function Dotted(labels: seq<seq<byte>>): seq<byte>
    requires |labels| > 0
  {
    if |labels| == 1 then labels[0] else Dotted(labels[..|labels| - 1]) + [DOT] + labels[|labels| - 1]
  }

  /** Splitting loses nothing. */
  lemma {:induction false} SplitDotted(host: seq<byte>)
    ensures Dotted(Split(host)) == host
    decreases |host|
  {
    if host != [] {
      var n := |host| - 1;
      SplitDotted(host[..n]);
      var front := Split(host[..n]);
      assert host == host[..n] + [host[n]];
      if host[n] == DOT { DottedMore(front); } else { DottedGrown(front, host[n]); }
    }
  }

  lemma DottedMore(front: seq<seq<byte>>)
    requires |front| > 0
    ensures Dotted(front + [[]]) == Dotted(front) + [DOT]
  {
    assert (front + [[]])[..|front|] == front;
  }

  lemma DottedGrown(front: seq<seq<byte>>, b: byte)
    requires |front| > 0
    ensures Dotted(front[..|front| - 1] + [front[|front| - 1] + [b]]) == Dotted(front) + [b]
  {
    var n := |front| - 1;
    var grown := front[..n] + [front[n] + [b]];
    assert grown[..n] == front[..n];
  }

  /** A label after its length. */
  function Piece(l: seq<byte>): seq<byte> { [|l| % 256] + l }

  function Encode(labels: seq<seq<byte>>): seq<byte> {
    if labels == [] then [] else Encode(labels[..|labels| - 1]) + Piece(labels[|labels| - 1])
  }

  lemma EncodeStep(labels: seq<seq<byte>>, l: seq<byte>)
    ensures Encode(labels + [l]) == Encode(labels) + Piece(l) && Encode([]) == []
  {
    assert (labels + [l])[..|labels|] == labels;
  }

  lemma Assoc(a: seq<byte>, b: seq<byte>, c: seq<byte>)
    ensures (a + b) + c == a + (b + c) && [] + a == a && a + [] == a
  {
  }

  /** A name ends in the root or in a pointer to the rest. */
  datatype Tail = Root | Pointer(hi: byte, lo: byte)

  predicate TailOk(t: Tail) { t.Root? || t.hi >= 192 }

  function TailBytes(t: Tail): seq<byte> { if t.Root? then [0] else [t.hi, t.lo] }

  predicate LabelsOk(labels: seq<seq<byte>>) { forall i :: 0 <= i < |labels| ==> 1 <= |labels[i]| <= 63 }

  lemma {:induction false} EncodeFront(l: seq<byte>, labels: seq<seq<byte>>)
    ensures Encode([l] + labels) == Piece(l) + Encode(labels)
    decreases |labels|
  {
    hide Encode, Piece;
    if labels == [] {
      EncodeStep([], l);
      assert [] + [l] == [l] && [l] + labels == [l];
      Assoc(Piece(l), [], []);
    } else {
      var n := |labels| - 1;
      var front, last := labels[..n], labels[n];
      EncodeFront(l, front);
      EncodeStep(front, last);
      EncodeStep([l] + front, last);
      assert front + [last] == labels && ([l] + front) + [last] == [l] + labels;
      Assoc(Piece(l), Encode(front), Piece(last));
    }
  }

  /** Read labels up to the tail. */
  function Decode(s: seq<byte>): Option<(seq<seq<byte>>, seq<byte>)> {
    if s == [] then None
    else if s[0] == 0 || s[0] >= 192 then Some(([], s))
    else if 1 + s[0] as int > |s| then None
    else
      var rest := Decode(s[1 + s[0] as int..]);
      if rest.None? then None else Some(([s[1..1 + s[0] as int]] + rest.value.0, rest.value.1))
  }

  /** Decoding gives the labels back, and what follows them. */
  lemma {:induction false} DecodeEncode(labels: seq<seq<byte>>, rest: seq<byte>)
    requires LabelsOk(labels) && rest != [] && (rest[0] == 0 || rest[0] >= 192)
    ensures Decode(Encode(labels) + rest) == Some((labels, rest))
    decreases |labels|
  {
    hide Decode, Encode, Piece;
    if labels == [] {
      EncodeStep([], []);
      Assoc(rest, [], []);
      DecodeTail(rest);
    } else {
      var l, tl := labels[0], labels[1..];
      assert [l] + tl == labels && 1 <= |l| <= 63;
      EncodeFront(l, tl);
      Assoc(Piece(l), Encode(tl), rest);
      DecodeEncode(tl, rest);
      DecodeLabel(l, Encode(tl) + rest);
    }
  }

  lemma DecodeTail(rest: seq<byte>)
    requires rest != [] && (rest[0] == 0 || rest[0] >= 192)
    ensures Decode(rest) == Some(([], rest))
  {
  }

  lemma PieceAt(l: seq<byte>, t: seq<byte>)
    requires 1 <= |l| <= 63
    ensures |Piece(l) + t| == 1 + |l| + |t| && (Piece(l) + t)[0] == |l|
    ensures (Piece(l) + t)[1..1 + |l|] == l && (Piece(l) + t)[1 + |l|..] == t
  {
  }

  lemma DecodeLabel(l: seq<byte>, t: seq<byte>)
    requires 1 <= |l| <= 63 && Decode(t).Some?
    ensures Decode(Piece(l) + t) == Some(([l] + Decode(t).value.0, Decode(t).value.1))
  {
    PieceAt(l, t);
    hide Piece;
    var s := Piece(l) + t;
    DecodeOnce(s);
  }

  lemma DecodeOnce(s: seq<byte>)
    requires |s| > 0 && 0 < s[0] < 192 && 1 + s[0] as int <= |s| && Decode(s[1 + s[0] as int..]).Some?
    ensures var rest := Decode(s[1 + s[0] as int..]).value;
      Decode(s) == Some(([s[1..1 + s[0] as int]] + rest.0, rest.1))
  {
  }

  /** The name part of write_dns_query: bytes go in as they are read, each length when its label ends. */
  method WriteName(buf: array<byte>, off: nat, host: seq<byte>) returns (end: nat)
    requires off + |host| + 2 <= buf.Length
    modifies buf
    ensures end == off + |host| + 2 && buf[off..end] == Encode(Split(host)) + [0]
    ensures forall i :: 0 <= i < buf.Length && !(off <= i < end) ==> buf[i] == old(buf[i])
  {
    hide Split, Encode, Piece;
    var dst, labelPos, labelLen := off + 1, off, 0;
    ghost var done: seq<seq<byte>>, last: seq<byte> := [], [];
    assert host[..0] == [];
    SplitNone();
    EncodeStep([], []);
    for src := 0 to |host|
      invariant dst == off + src + 1 && off <= labelPos && labelPos + 1 + labelLen == dst && labelLen == |last|
      invariant Split(host[..src]) == done + [last]
      invariant |Encode(done)| == labelPos - off
        && (forall i :: 0 <= i < labelPos - off ==> buf[off + i] == Encode(done)[i])
      invariant forall i :: 0 <= i < labelLen ==> buf[labelPos + 1 + i] == last[i]
      invariant forall i :: 0 <= i < buf.Length && !(off <= i < dst) ==> buf[i] == old(buf[i])
    {
      var ch := host[src];
      SplitStep(host, src);
      if ch == DOT {
        buf[labelPos] := labelLen % 256;
        EncodeMore(done, last, buf, off, labelPos);
        done, last := done + [last], [];
        labelPos := dst;
        dst := dst + 1;
        labelLen := 0;
      } else {
        buf[dst] := ch;
        last := last + [ch];
        dst := dst + 1;
        labelLen := labelLen + 1;
      }
    }
    assert host[..|host|] == host;
    buf[labelPos] := labelLen % 256;
    EncodeMore(done, last, buf, off, labelPos);
    buf[dst] := 0;
    end := dst + 1;
    assert buf[off..end] == Encode(done + [last]) + [0];
  }

  /** Once its length is stored, the last label is part of the encoding. */
  lemma EncodeMore(done: seq<seq<byte>>, last: seq<byte>, buf: array<byte>, off: nat, at: nat)
    requires off <= at && at + 1 + |last| <= buf.Length && |Encode(done)| == at - off
    requires forall i :: 0 <= i < at - off ==> buf[off + i] == Encode(done)[i]
    requires buf[at] == |last| % 256 && forall i :: 0 <= i < |last| ==> buf[at + 1 + i] == last[i]
    ensures |Encode(done + [last])| == at + 1 + |last| - off
    ensures forall i :: 0 <= i < at + 1 + |last| - off ==> buf[off + i] == Encode(done + [last])[i]
  {
    hide Encode;
    EncodeStep(done, last);
    forall i | 0 <= i < at + 1 + |last| - off ensures buf[off + i] == (Encode(done) + Piece(last))[i] {
      var n := at - off;
      if i > n { assert buf[at + 1 + (i - n - 1)] == last[i - n - 1]; }
    }
  }

  lemma SplitNone()
    ensures Split([]) == [] + [[]]
  {
  }

  lemma SplitStep(host: seq<byte>, i: nat)
    requires i < |host|
    ensures var front := Split(host[..i]);
      Split(host[..i + 1]) == if host[i] == DOT then front + [[]]
        else front[..|front| - 1] + [front[|front| - 1] + [host[i]]]
  {
    assert host[..i + 1][..i] == host[..i];
  }

  /** The bytes of a name. */
  function Name(labels: seq<seq<byte>>, tail: Tail): seq<byte> { Encode(labels) + TailBytes(tail) }

  /** The tail of the name at offset off and all that follows, if the name ends inside the bytes. */
  function RestAt(s: seq<byte>, off: nat): Option<seq<byte>> {
    if off <= |s| && Decode(s[off..]).Some? then Some(Decode(s[off..]).value.1) else None
  }

  lemma RestStep(s: seq<byte>, off: nat)
    requires off < |s| && 0 < s[off] < 192
    ensures RestAt(s, off) == RestAt(s, off + 1 + s[off] as int)
  {
    var n := 1 + s[off] as int;
    if off + n <= |s| { assert s[off..][n..] == s[off + n..]; }
  }

  lemma RestEnd(s: seq<byte>, off: nat)
    ensures off < |s| && (s[off] == 0 || s[off] >= 192) ==> RestAt(s, off) == Some(s[off..])
    ensures off >= |s| ==> RestAt(s, off).None?
  {
  }

  /** How many bytes of its tail a name has: the root's zero or a pointer. */
  function TailSize(first: byte): nat { if first == 0 then 1 else 2 }

  /**
   skip_dns_name looks for the end of a name wherever the lengths lead it. It stays inside the buffer if and only if
   the name ends there, and then lands just behind it.
   */
  method SkipName(buf: array<byte>, off: nat) returns (end: nat, inside: bool)
    ensures inside <==> RestAt(buf[..], off).Some?
    ensures inside ==> var rest := RestAt(buf[..], off).value;
      0 < |rest| <= buf.Length && end == buf.Length - |rest| + TailSize(rest[0])
  {
    hide RestAt;
    end := off;
    RestEnd(buf[..], end);
    while end < buf.Length && buf[end] != 0
      invariant RestAt(buf[..], off) == RestAt(buf[..], end)
      decreases buf.Length - end
    {
      RestEnd(buf[..], end);
      if buf[end] >= 192 { return end + 2, true; }
      RestStep(buf[..], end);
      end := end + 1 + buf[end] as int;
    }
    RestEnd(buf[..], end);
    inside := end < buf.Length;
    end := end + 1;
  }

  /** At a well-formed name, whatever it ends in, that is where the name ends. */
  lemma NameSkipped(s: seq<byte>, off: nat, labels: seq<seq<byte>>, tail: Tail)
    requires LabelsOk(labels) && TailOk(tail) && off + |Name(labels, tail)| <= |s|
    requires s[off..off + |Name(labels, tail)|] == Name(labels, tail)
    ensures RestAt(s, off).Some?
    ensures var rest := RestAt(s, off).value;
      0 < |rest| <= |s| && |s| - |rest| + TailSize(rest[0]) == off + |Name(labels, tail)|
  {
    hide Encode, Decode;
    TwoParts(s, off, Encode(labels), TailBytes(tail));
    DecodeEncode(labels, s[off + |Encode(labels)|..]);
  }

  lemma TwoParts(s: seq<byte>, off: nat, a: seq<byte>, b: seq<byte>)
    requires off + |a + b| <= |s| && s[off..off + |a + b|] == a + b && b != []
    ensures s[off..] == a + s[off + |a|..] && s[off + |a|] == b[0]
  {
    var t := s[off..off + |a + b|];
    assert forall k :: 0 <= k < |a + b| ==> s[off + k] == t[k];
  }

  /**
   The encoder followed by the skipper: for every host name with labels of 1 to 63 bytes both end at the same
   place, where the query type goes, and the bytes between decode to the labels of the host.
   */
  method WriteAndSkip(buf: array<byte>, off: nat, host: seq<byte>) returns (written: nat, skipped: nat)
    requires off + |host| + 2 <= buf.Length && LabelsOk(Split(host))
    modifies buf
    ensures written == skipped == off + |host| + 2 <= buf.Length
    ensures Decode(buf[off..written]) == Some((Split(host), [0])) && Dotted(Split(host)) == host
    ensures forall i :: 0 <= i < buf.Length && !(off <= i < written) ==> buf[i] == old(buf[i])
  {
    hide Split, Encode, Decode;
    written := WriteName(buf, off, host);
    SplitDotted(host);
    DecodeEncode(Split(host), [0]);
    assert Name(Split(host), Root) == buf[off..written];
    NameSkipped(buf[..], off, Split(host), Root);
    var inside;
    skipped, inside := SkipName(buf, off);
  }
}
