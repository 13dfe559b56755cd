/** The packet code of the network program: the Internet checksum and the end of an HTTP header. */
module Network {
  import opened Words

  // ----- the Internet checksum, section 1 of RFC 1071 -----

  const ONES: nat := 65535

  /** The one's complement value of a sum of 16-bit words: 0 only for 0, else the residue in 1 to 65535. */
  function Ones(x: nat): nat { if x == 0 then 0 else (x - 1) % ONES + 1 }

  lemma OnesFold(x: nat)
    requires x > ONES
    ensures Ones(x % 65536 + x / 65536) == Ones(x) && x % 65536 + x / 65536 < x
  {
    var q := x / 65536;
    assert x == 65535 * q + (x % 65536 + q);
    OnesShift(x % 65536 + q, q);
  }

  lemma OnesShift(y: nat, q: nat)
    requires y > 0
    ensures Ones(y + 65535 * q) == Ones(y)
  {
    ModShift(y - 1, q);
  }

  lemma {:induction false} ModShift(y: nat, q: nat)
    ensures (y + 65535 * q) % 65535 == y % 65535
    decreases q
  {
    if q > 0 {
      ModShift(y, q - 1);
      assert (y + 65535 * (q - 1) + 65535) % 65535 == (y + 65535 * (q - 1)) % 65535;
    }
  }

  /** Folding on the way does not change the outcome. */
  lemma OnesAdd(x: nat, y: nat)
    ensures Ones(Ones(x) + y) == Ones(x + y)
  {
    if x > 0 {
      var q := (x - 1) / ONES;
      assert x + y == Ones(x) + y + 65535 * q;
      OnesShift(Ones(x) + y, q);
    }
  }

  /** The sum of the big-endian 16-bit words of a byte string; an odd last byte counts as the high half of a word. */
  function Total(s: seq<byte>): nat {
    if |s| == 0 then 0
    else if |s| == 1 then s[0] as int * 256
    else s[0] as int * 256 + s[1] as int + Total(s[2..])
  }

  lemma OnesSmall(x: nat)
    ensures x <= ONES ==> Ones(x) == x
    ensures Ones(x) <= ONES
  {
  }

  lemma TotalStep(s: seq<byte>)
    ensures |s| == 0 ==> Total(s) == 0
    ensures |s| == 1 ==> Total(s) == s[0] as int * 256
    ensures |s| >= 2 ==> Total(s) == s[0] as int * 256 + s[1] as int + Total(s[2..])
  {
  }

  method Fold(x: nat) returns (sum: nat)
    ensures sum == Ones(x) && sum <= ONES
  {
    sum := x;
    while sum > 65535
      invariant Ones(sum) == Ones(x)
    {
      OnesFold(sum);
      sum := sum % 65536 + sum / 65536;
    }
    OnesSmall(sum);
  }

  /** The checksum of len bytes from off on, started from an earlier sum. */
  method Checksum(buf: array<byte>, off: nat, len: nat, start: nat) returns (c: nat)
    requires off + len <= buf.Length
    ensures c == ONES - Ones(start + Total(buf[off..off + len])) && c <= ONES
  {
    hide Ones, Total;
    var sum: nat := Fold(start);
    OnesAdd(start, Total(buf[off..off + len]));
    var i := 0;
    while i + 1 < len
      invariant i <= len && sum <= ONES
        && Ones(sum + Total(buf[off + i..off + len])) == Ones(start + Total(buf[off..off + len]))
    {
      ghost var rest := buf[off + i..off + len];
      assert rest[2..] == buf[off + i + 2..off + len];
      TotalStep(rest);
      var w := buf[off + i] as int * 256 + buf[off + i + 1] as int;
      OnesAdd(sum + w, Total(rest[2..]));
      sum := Fold(sum + w);
      i := i + 2;
    }
    if i < len {
      ghost var rest := buf[off + i..off + len];
      assert rest == [buf[off + i]];
      TotalStep(rest);
      sum := Fold(sum + buf[off + i] as int * 256);
    } else {
      TotalStep(buf[off + i..off + len]);
    }
    OnesSmall(sum);
    c := ONES - sum;
  }

  /** put_u16: a big-endian word at an offset. */
  function PutWord(s: seq<byte>, k: nat, v: nat): seq<byte>
    requires k + 1 < |s| && v <= ONES
  {
    s[..k] + [v / 256, v % 256] + s[k + 2..]
  }

  /** A word stored at an even offset adds itself to the sum. */
  lemma {:induction false} TotalField(s: seq<byte>, k: nat, v: nat)
    requires k % 2 == 0 && k + 1 < |s| && s[k] == 0 && s[k + 1] == 0 && v <= ONES
    ensures Total(PutWord(s, k, v)) == Total(s) + v
    decreases |s|
  {
    var t := PutWord(s, k, v);
    if k == 0 {
      assert t[2..] == s[2..];
    } else {
      assert t[2..] == PutWord(s[2..], k - 2, v);
      TotalField(s[2..], k - 2, v);
    }
  }

  /** Storing the checksum of a packet in its zeroed field makes the checksum of the whole packet zero. */
  lemma ChecksumVerifies(s: seq<byte>, k: nat, start: nat)
    requires k % 2 == 0 && k + 1 < |s| && s[k] == 0 && s[k + 1] == 0
    ensures var c := ONES - Ones(start + Total(s));
      ONES - Ones(start + Total(PutWord(s, k, c))) == 0
  {
    var x := start + Total(s);
    var c := ONES - Ones(x);
    TotalField(s, k, c);
    if x > 0 {
      var q := (x - 1) / ONES;
      assert x + c == ONES + 65535 * q;
      OnesShift(ONES, q);
    }
  }

  /** The sum over the pseudo header of section 3.1 of RFC 9293: addresses, protocol 6, length. */
  function Pseudo(src: nat, dst: nat, len: nat): nat
  {
    src / 65536 % 65536 + src % 65536 + dst / 65536 % 65536 + dst % 65536 + 6 + len
  }

  /** A 16-bit and a 32-bit number in network order. */
  function Net16(x: nat): seq<byte>
    requires x < 65536
  {
    [x / 256, x % 256]
  }

  function Net32(x: nat): seq<byte>
    requires x < 0x1_0000_0000
  {
    Net16(x / 65536) + Net16(x % 65536)
  }

  /** The twelve bytes of a pseudo header: source and destination address, a zero, the protocol, the length. */
  function PseudoHeader(src: nat, dst: nat, len: nat): seq<byte>
    requires src < 0x1_0000_0000 && dst < 0x1_0000_0000 && len < 65536
  {
    Net32(src) + Net32(dst) + [0, 6] + Net16(len)
  }

  lemma TotalWord(x: nat, s: seq<byte>)
    requires x < 65536
    ensures Total(Net16(x) + s) == x + Total(s)
  {
    assert (Net16(x) + s)[2..] == s;
  }

  /** The checksum over pseudo header and segment is the checksum of the two as one byte string. */
  lemma PseudoIs(src: nat, dst: nat, len: nat, segment: seq<byte>)
    requires src < 0x1_0000_0000 && dst < 0x1_0000_0000 && len < 65536
    ensures Total(PseudoHeader(src, dst, len) + segment) == Pseudo(src, dst, len) + Total(segment)
  {
    hide Net16, Total;
    var s5 := Net16(len) + segment;
    var s4 := Net16(6) + s5;
    var s3 := Net16(dst % 65536) + s4;
    var s2 := Net16(dst / 65536) + s3;
    var s1 := Net16(src % 65536) + s2;
    TotalWord(len, segment);
    TotalWord(6, s5);
    TotalWord(dst % 65536, s4);
    TotalWord(dst / 65536, s3);
    TotalWord(src % 65536, s2);
    TotalWord(src / 65536, s1);
    ProtocolWord();
    assert PseudoHeader(src, dst, len) + segment == Net16(src / 65536) + s1;
    Halves(src);
    Halves(dst);
  }

  lemma ProtocolWord()
    ensures Net16(6) == [0, 6]
  {
  }

  lemma Halves(x: nat)
    requires x < 0x1_0000_0000
    ensures x / 65536 < 65536 && x / 65536 % 65536 == x / 65536
  {
  }

  /** tcp_checksum over the segment at offset 34. */
  method TcpChecksum(buf: array<byte>, src: nat, dst: nat, len: nat) returns (c: nat)
    requires 34 + len <= buf.Length
    ensures c == ONES - Ones(Pseudo(src, dst, len) + Total(buf[34..34 + len]))
  {
    hide Ones, Total;
    var a, b, d, e := src / 65536 % 65536, src % 65536, dst / 65536 % 65536, dst % 65536;
    var sum := Fold(a);
    OnesAdd(a, b);
    sum := Fold(sum + b);
    OnesAdd(a + b, d);
    sum := Fold(sum + d);
    OnesAdd(a + b + d, e);
    sum := Fold(sum + e);
    OnesAdd(a + b + d + e, 6);
    sum := Fold(sum + 6);
    OnesAdd(a + b + d + e + 6, len);
    sum := Fold(sum + len);
    OnesAdd(Pseudo(src, dst, len), Total(buf[34..34 + len]));
    c := Checksum(buf, 34, len, sum);
  }

  /** Storing it where it was computed makes the TCP checksum of the segment verify. */
  method StoreTcpChecksum(buf: array<byte>, src: nat, dst: nat, len: nat)
    requires 34 + len <= buf.Length && len >= 20
    modifies buf
    ensures ONES - Ones(Pseudo(src, dst, len) + Total(buf[34..34 + len])) == 0
    ensures forall i :: 0 <= i < buf.Length && i != 50 && i != 51 ==> buf[i] == old(buf[i])
  {
    buf[50] := 0;
    buf[51] := 0;
    ghost var s := buf[34..34 + len];
    var c := TcpChecksum(buf, src, dst, len);
    ChecksumVerifies(s, 16, Pseudo(src, dst, len));
    buf[50] := c / 256;
    buf[51] := c % 256;
    assert buf[34..34 + len] == PutWord(s, 16, c);
  }

  // ----- the end of an HTTP header, section 2.1 of RFC 9112 -----

  const END: seq<byte> := [13, 10, 13, 10]

  /** The stream ends with the first k bytes of CR LF CR LF. */
  predicate Ends(t: seq<byte>, k: nat)
    requires k <= 4
  {
    k == 0 || (t != [] && t[|t| - 1] == END[k - 1] && Ends(t[..|t| - 1], k - 1))
  }

  lemma EndPart(k: nat)
    requires 1 <= k <= 4
    ensures END[..k] == END[..k - 1] + [END[k - 1]]
  {
    if k == 1 {
      assert END[..1] == [END[0]] && END[..0] == [];
    } else if k == 2 {
      assert END[..2] == [END[0], END[1]] && END[..1] == [END[0]];
    } else if k == 3 {
      assert END[..3] == [END[0], END[1], END[2]] && END[..2] == [END[0], END[1]];
    } else {
      assert END[..4] == [END[0], END[1], END[2], END[3]] && END[..3] == [END[0], END[1], END[2]];
    }
  }

  lemma EndsUnfold(t: seq<byte>, k: nat)
    requires k <= 4
    ensures Ends(t, k) <==> k == 0 || (t != [] && t[|t| - 1] == END[k - 1] && Ends(t[..|t| - 1], k - 1))
  {
  }

  /** That is what it says. */
  lemma {:induction false} EndsIs(t: seq<byte>, k: nat)
    requires k <= 4
    ensures Ends(t, k) <==> |t| >= k && t[|t| - k..] == END[..k]
    decreases k
  {
    hide Ends;
    EndsUnfold(t, k);
    if k > 0 {
      EndPart(k);
      if t != [] {
        var u := t[..|t| - 1];
        EndsIs(u, k - 1);
        if |t| >= k { assert t[|t| - k..] == u[|u| - (k - 1)..] + [t[|t| - 1]]; }
      }
    }
  }

  /** The header automaton; 4 is the end. */
  function Next(state: nat, ch: byte): nat {
    if state == 0 then (if ch == 13 then 1 else 0)
    else if state == 1 then (if ch == 10 then 2 else if ch == 13 then 1 else 0)
    else if state == 2 then (if ch == 13 then 3 else 0)
    else if ch == 10 then 4 else if ch == 13 then 1 else 0
  }

  /** The state is the longest part of the end mark that the stream so far ends with. */
  predicate Tracks(t: seq<byte>, state: nat) {
    state < 4 && Ends(t, state) && (state < 1 ==> !Ends(t, 1)) && (state < 2 ==> !Ends(t, 2))
      && (state < 3 ==> !Ends(t, 3))
  }

  lemma NextTracks(t: seq<byte>, state: nat, ch: byte)
    requires Tracks(t, state)
    ensures Next(state, ch) == 4 <==> Ends(t + [ch], 4)
    ensures Next(state, ch) != 4 ==> Tracks(t + [ch], Next(state, ch))
  {
    EndsStep(t, ch, 0);
    EndsStep(t, ch, 1);
    EndsStep(t, ch, 2);
    EndsStep(t, ch, 3);
    EndsLast(t);
    hide Ends;
  }

  lemma EndsStep(t: seq<byte>, ch: byte, k: nat)
    requires k < 4
    ensures Ends(t + [ch], k + 1) <==> Ends(t, k) && ch == END[k]
    ensures Ends(t, 0) && Ends(t + [ch], 0)
  {
    assert (t + [ch])[..|t|] == t;
  }

  /** A stream does not end with CR and with LF. */
  lemma EndsLast(t: seq<byte>)
    ensures !(Ends(t, 1) && Ends(t, 2)) && !(Ends(t, 3) && Ends(t, 2))
  {
  }

  /** The length of the shortest beginning of a stream that ends the header. */
  ghost predicate HeaderEnd(t: seq<byte>, n: nat) {
    n <= |t| && Ends(t[..n], 4) && forall m :: 0 <= m < n ==> !Ends(t[..m], 4)
  }

  /** The scan of one segment of the stream, after the bytes before it; the result is where the body starts. */
  method ScanSegment(ghost before: seq<byte>, segment: seq<byte>, state: nat) returns (state': nat, done: Option<nat>)
    requires Tracks(before, state) && forall m :: 0 <= m <= |before| ==> !Ends(before[..m], 4)
    ensures done.None? ==> Tracks(before + segment, state') && forall m :: 0 <= m <= |before + segment| ==>
      !Ends((before + segment)[..m], 4)
    ensures done.Some? ==> done.value <= |segment| && HeaderEnd(before + segment, |before| + done.value)
  {
    hide Ends, Tracks;
    state' := state;
    ghost var t := before + segment;
    assert t[..|before|] == before;
    forall m | 0 <= m <= |before| ensures !Ends(t[..m], 4) { assert t[..m] == before[..m]; }
    for i := 0 to |segment|
      invariant Tracks(t[..|before| + i], state') && forall m :: 0 <= m <= |before| + i ==> !Ends(t[..m], 4)
    {
      var ch := segment[i];
      assert t[..|before| + i + 1] == t[..|before| + i] + [ch];
      NextTracks(t[..|before| + i], state', ch);
      state' := Next(state', ch);
      if state' == 4 { return 0, Some(i + 1); }
    }
    assert t[..|before| + |segment|] == t;
    return state', None;
  }

  function Joined(segments: seq<seq<byte>>): seq<byte> {
    if segments == [] then [] else Joined(segments[..|segments| - 1]) + segments[|segments| - 1]
  }

  /** Scanning a stream segment by segment finds the end of the header wherever the segments are cut. */
  method ScanStream(segments: seq<seq<byte>>) returns (found: Option<(nat, nat)>)
    ensures found.None? ==> forall m :: 0 <= m <= |Joined(segments)| ==> !Ends(Joined(segments)[..m], 4)
    ensures found.Some? ==> found.value.0 < |segments| && found.value.1 <= |segments[found.value.0]|
    ensures found.Some? ==>
      HeaderEnd(Joined(segments[..found.value.0 + 1]), |Joined(segments[..found.value.0])| + found.value.1)
  {
    var state := 0;
    assert Joined(segments[..0]) == [];
    for i := 0 to |segments|
      invariant Tracks(Joined(segments[..i]), state)
      invariant forall m :: 0 <= m <= |Joined(segments[..i])| ==> !Ends(Joined(segments[..i])[..m], 4)
    {
      hide Ends, Tracks;
      assert segments[..i + 1][..i] == segments[..i];
      var done;
      state, done := ScanSegment(Joined(segments[..i]), segments[i], state);
      if done.Some? { return Some((i, done.value)); }
    }
    assert segments[..|segments|] == segments;
    return None;
  }
}
