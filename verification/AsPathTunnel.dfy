/** Encoding and decoding are inverse, and an AS4_PATH carries four-byte AS numbers unharmed through
    any number of speakers that know only two-byte ones. */
module AsPathTunnel {
  import opened Wrappers
  import opened AsPathModel

  // ---- Round trips --------------------------------------------------------------------

  /** What decoding can recover: everything, or what a two-byte speaker sees. */
  function Seen(ns: seq<AsNum>, wide: bool): seq<AsNum> {
    if wide then ns else CompatAll(ns)
  }

  function SeenPath(p: Path, wide: bool): Path {
    if wide then p else CompatPath(p)
  }

  lemma {:induction false} AsRoundTrip(n: AsNum, wide: bool, rest: seq<Byte>)
    ensures AsFrom(AsBytes(n, wide) + rest, wide) == if wide then n else Compat(n)
  {
    var b := AsBytes(n, wide);
    var d := b + rest;
    assert d[0] == b[0] && d[1] == b[1];
    if wide {
      assert d[2] == b[2] && d[3] == b[3];
      Recomposed(n);
    }
  }

  lemma {:induction false} Recomposed(n: AsNum)
    ensures n / 0x100_0000 * 0x100_0000 + n / 0x1_0000 % 256 * 0x1_0000 + n / 256 % 256 * 256 + n % 256 == n
  {
    assert n / 256 == n / 256 % 256 + n / 0x1_0000 * 256;
    assert n / 0x1_0000 == n / 0x1_0000 % 256 + n / 0x100_0000 * 256;
  }

  lemma {:induction false} ListFromStep(b: seq<Byte>, tail: seq<Byte>, n: nat, wide: bool)
    requires |b| == Width(wide) && |tail| >= Size(n, wide)
    ensures ListFrom(b + tail, n + 1, wide) == [AsFrom(b + tail, wide)] + ListFrom(tail, n, wide)
  {
    assert (b + tail)[Width(wide)..] == tail;
  }

  lemma {:induction false} ListRoundTrip(ns: seq<AsNum>, wide: bool, rest: seq<Byte>)
    ensures ListFrom(ListBytes(ns, wide) + rest, |ns|, wide) == Seen(ns, wide)
  {
    if ns != [] {
      var b := AsBytes(ns[0], wide);
      var tail := ListBytes(ns[1..], wide) + rest;
      assert ListBytes(ns, wide) + rest == b + tail;
      ListFromStep(b, tail, |ns| - 1, wide);
      AsRoundTrip(ns[0], wide, tail);
      ListRoundTrip(ns[1..], wide, rest);
    }
  }

  /** Decoding an encoded path gives the path back. */
  lemma {:induction false} PathRoundTrip(p: Path, wide: bool)
    requires Encodable(p)
    ensures PathFrom(PathBytes(p, wide), wide) == Ok(SeenPath(p, wide))
  {
    if p != [] {
      var rest := PathBytes(p[1..], wide);
      PathRoundTrip(p[1..], wide);
      SegmentRoundTrip(p[0], wide, rest);
      assert SeenPath(p, wide) == [Segment(p[0].kind, Seen(p[0].ases, wide))] + SeenPath(p[1..], wide);
    }
  }

  function Behind(s: Segment, r: Decoded): Decoded {
    if r.Ok? then Ok([s] + r.path) else r
  }

  /** One round of the decoding loop. */
  lemma {:induction false} PathFromStep(d: seq<Byte>, wide: bool, t: SegType, n: nat)
    requires |d| >= 2 && TypeOf(d[0]) == Some(t) && d[1] == n && 2 + Size(n, wide) <= |d|
    ensures PathFrom(d, wide) ==
            Behind(Segment(t, ListFrom(d[2..], n, wide)), PathFrom(d[2 + Size(n, wide)..], wide))
  {
  }

  lemma {:induction false} SegmentRoundTrip(s: Segment, wide: bool, rest: seq<Byte>)
    requires |s.ases| <= 255
    ensures PathFrom(SegmentBytes(s, wide) + rest, wide) ==
            Behind(Segment(s.kind, Seen(s.ases, wide)), PathFrom(rest, wide))
  {
    SegmentFrom(s, wide, rest);
    PathFromStep(SegmentBytes(s, wide) + rest, wide, s.kind, |s.ases|);
    ListRoundTrip(s.ases, wide, rest);
  }

  /** Where a segment ends. */
  lemma {:induction false} SegmentFrom(s: Segment, wide: bool, rest: seq<Byte>)
    requires |s.ases| <= 255
    ensures var d := SegmentBytes(s, wide) + rest;
            && |d| >= 2 + Size(|s.ases|, wide)
            && d[0] == TypeByte(s.kind) && d[1] == |s.ases|
            && d[2..] == ListBytes(s.ases, wide) + rest
            && d[2 + Size(|s.ases|, wide)..] == rest
  {
  }

  lemma {:induction false} AsBytesBack(d: seq<Byte>, wide: bool)
    requires |d| >= Width(wide)
    ensures AsBytes(AsFrom(d, wide), wide) == d[..Width(wide)]
  {
    if wide {
      Digits(d[0], d[1], d[2], d[3]);
      assert d[..4] == [d[0], d[1], d[2], d[3]];
    } else {
      assert d[..2] == [d[0], d[1]];
    }
  }

  lemma {:induction false} Digits(a: int, b: int, c: int, e: int)
    requires 0 <= a < 256 && 0 <= b < 256 && 0 <= c < 256 && 0 <= e < 256
    ensures var n := a * 0x100_0000 + b * 0x1_0000 + c * 256 + e;
            && 0 <= n < 0x1_0000_0000
            && n / 0x100_0000 == a && n / 0x1_0000 % 256 == b && n / 256 % 256 == c && n % 256 == e
  {
    var n := a * 0x100_0000 + b * 0x1_0000 + c * 256 + e;
    assert n / 256 == a * 0x1_0000 + b * 256 + c;
    assert n / 0x1_0000 == a * 256 + b;
  }

  lemma {:induction false} ListBytesBack(d: seq<Byte>, n: nat, wide: bool)
    requires |d| >= Size(n, wide)
    ensures ListBytes(ListFrom(d, n, wide), wide) == d[..Size(n, wide)]
    decreases n
  {
    if n > 0 {
      AsBytesBack(d, wide);
      ListBytesBack(d[Width(wide)..], n - 1, wide);
      var w := Width(wide);
      assert d[..Size(n, wide)] == d[..w] + d[w..][..Size(n - 1, wide)];
    }
  }

  /** Encoding a decoded path gives the bytes back, so no two byte strings mean the same path. */
  lemma {:induction false} BytesRoundTrip(d: seq<Byte>, wide: bool)
    requires PathFrom(d, wide).Ok?
    ensures Encodable(PathFrom(d, wide).path) && PathBytes(PathFrom(d, wide).path, wide) == d
    decreases |d|
  {
    if d != [] {
      var n: nat := d[1];
      var rest := d[2 + Size(n, wide)..];
      var s := Segment(TypeOf(d[0]).value, ListFrom(d[2..], n, wide));
      PathFromStep(d, wide, s.kind, n);
      BytesRoundTrip(rest, wide);
      SegmentBytesBack(d, n, wide, s);
      EncodeBehind(s, PathFrom(rest, wide).path, wide);
    }
  }

  lemma {:induction false} SegmentBytesBack(d: seq<Byte>, n: nat, wide: bool, s: Segment)
    requires |d| >= 2 && d[1] == n && 2 + Size(n, wide) <= |d| && TypeOf(d[0]) == Some(s.kind)
    requires s.ases == ListFrom(d[2..], n, wide)
    ensures SegmentBytes(s, wide) + d[2 + Size(n, wide)..] == d
  {
    var k := Size(n, wide);
    var body := d[2..];
    ListBytesBack(body, n, wide);
    assert d[2 + k..] == body[k..];
    assert d == [d[0], d[1]] + body;
    Rejoined([d[0], d[1]], body, k);
  }

  lemma {:induction false} Rejoined(head: seq<Byte>, body: seq<Byte>, k: nat)
    requires k <= |body|
    ensures head + body[..k] + body[k..] == head + body
  {
  }

  lemma {:induction false} EncodeBehind(s: Segment, p: Path, wide: bool)
    requires |s.ases| <= 255 && Encodable(p)
    ensures Encodable([s] + p) && PathBytes([s] + p, wide) == SegmentBytes(s, wide) + PathBytes(p, wide)
  {
    assert ([s] + p)[1..] == p;
  }

  // ---- Prepending ---------------------------------------------------------------------

  function Reversed(ns: seq<AsNum>): (r: seq<AsNum>)
    ensures |r| == |ns|
  {
    if ns == [] then [] else Reversed(ns[1..]) + [ns[0]]
  }

  /** The segment that the prepended numbers form or join. */
  function Joined(p: Path, front: seq<AsNum>): Path
    requires Prependable(p)
  {
    if p == [] || p[0].kind == AsSet then [Segment(AsSequence, front)] + p
    else [Segment(AsSequence, front + p[0].ases)] + p[1..]
  }

  lemma {:induction false} PrependAllShape(p: Path, ns: seq<AsNum>)
    requires Prependable(p) && ns != []
    ensures PrependAll(p, ns) == Joined(p, Reversed(ns))
    decreases |ns|
  {
    if |ns| == 1 {
      assert ns[1..] == [] && Reversed(ns) == [ns[0]];
    } else {
      PrependAllShape(Prepend(p, ns[0]), ns[1..]);
      JoinedPrepend(p, ns[0], Reversed(ns[1..]));
    }
  }

  lemma {:induction false} JoinedPrepend(p: Path, n: AsNum, front: seq<AsNum>)
    requires Prependable(p)
    ensures Joined(Prepend(p, n), front) == Joined(p, front + [n])
  {
    var p1 := Prepend(p, n);
    if p == [] || p[0].kind == AsSet {
      assert p1[1..] == p;
    } else {
      assert p1[1..] == p[1..];
      assert front + ([n] + p[0].ases) == front + [n] + p[0].ases;
    }
  }

  ghost predicate Narrow(ns: seq<AsNum>) {
    forall i | 0 <= i < |ns| :: ns[i] < 0x1_0000
  }

  lemma {:induction false} CompatAllConcat(ns: seq<AsNum>, ms: seq<AsNum>)
    ensures CompatAll(ns + ms) == CompatAll(ns) + CompatAll(ms)
  {
  }

  lemma {:induction false} PathLengthCompat(p: Path)
    ensures PathLength(CompatPath(p)) == PathLength(p)
  {
    if p != [] {
      assert CompatPath(p)[1..] == CompatPath(p[1..]);
      PathLengthCompat(p[1..]);
    }
  }

  lemma {:induction false} CompatPathAgain(p: Path)
    ensures CompatPath(CompatPath(p)) == CompatPath(p)
  {
    forall i | 0 <= i < |p| ensures CompatPath(CompatPath(p))[i] == CompatPath(p)[i] {
      assert CompatAll(CompatAll(p[i].ases)) == CompatAll(p[i].ases);
    }
  }

  // ---- Two-byte speakers --------------------------------------------------------------

  /** Each speaker decodes the AS_PATH, prepends its number and encodes the path again. It aborts
      on a segment that grows beyond 255. */
  function Hops(d: seq<Byte>, ns: seq<AsNum>): Option<seq<Byte>>
    decreases |ns|
  {
    if ns == [] then Some(d)
    else
      match PathFrom(d, false)
      case Corrupt => None
      case Aborted => None
      case Ok(p) =>
        if Prependable(p) && Encodable(Prepend(p, ns[0])) then
          Hops(PathBytes(Prepend(p, ns[0]), false), ns[1..])
        else None
  }

  lemma {:induction false} PrependCompat(p: Path, n: AsNum)
    requires Prependable(p) && n < 0x1_0000
    ensures Prependable(CompatPath(p)) && CompatPath(Prepend(p, n)) == Prepend(CompatPath(p), n)
  {
    var q := CompatPath(p);
    var l, r := CompatPath(Prepend(p, n)), Prepend(q, n);
    if p != [] && p[0].kind != AsSet {
      CompatAllConcat([n], p[0].ases);
    }
    assert |l| == |r|;
    forall i | 0 <= i < |l| ensures l[i] == r[i] {}
  }

  /** What arrives is the path of the sender as seen by two-byte speakers, with their numbers in
      front. They all get through if and only if the front segment does not grow beyond 255. */
  lemma {:induction false} HopsArrive(p: Path, ns: seq<AsNum>)
    requires Encodable(p) && Prependable(p) && CompatPath(p) == p && Narrow(ns)
    ensures Hops(PathBytes(p, false), ns).Some? <==> Encodable(PrependAll(p, ns))
    ensures Encodable(PrependAll(p, ns)) ==>
              Hops(PathBytes(p, false), ns) == Some(PathBytes(PrependAll(p, ns), false)) &&
              CompatPath(PrependAll(p, ns)) == PrependAll(p, ns)
    decreases |ns|
  {
    if ns != [] {
      PathRoundTrip(p, false);
      PrependCompat(p, ns[0]);
      var p1 := Prepend(p, ns[0]);
      if Encodable(p1) {
        HopsArrive(p1, ns[1..]);
      } else {
        FrontOnlyGrows(p1, ns[1..]);
      }
    }
  }

  lemma {:induction false} FrontOnlyGrows(p: Path, ns: seq<AsNum>)
    requires Prependable(p) && !Encodable(p)
    ensures !Encodable(PrependAll(p, ns))
    decreases |ns|
  {
    if ns != [] {
      var p1 := Prepend(p, ns[0]);
      var i :| 0 <= i < |p| && |p[i].ases| > 255;
      assert if p[0].kind == AsSet then |p1[i + 1].ases| > 255 else |p1[i].ases| > 255;
      FrontOnlyGrows(p1, ns[1..]);
    }
  }

  // ---- Merging ------------------------------------------------------------------------

  /** Segments of equal length, counted from the end, are left alone. */
  lemma {:induction false} PadSkips(newer: Path, older: Path, i: nat, j: nat, length: nat)
    requires 1 <= i <= j <= |newer| + 1 && |newer| <= |older|
    requires forall k | i <= k < j :: SegmentLength(FromEnd(older, k)) == SegmentLength(FromEnd(newer, k))
    ensures PadFrom(newer, older, i, length) == PadFrom(newer, older, j, length)
    decreases j - i
  {
    if i < j { PadSkips(newer, older, i + 1, j, length); }
  }

  lemma {:induction false} PathLengthConcat(p: Path, q: Path)
    ensures PathLength(p + q) == PathLength(p) + PathLength(q)
  {
    if p == [] {
      assert p + q == q;
    } else {
      assert (p + q)[1..] == p[1..] + q;
      PathLengthConcat(p[1..], q);
    }
  }

  lemma {:induction false} JoinedLength(p: Path, front: seq<AsNum>)
    requires Prependable(p)
    ensures PathLength(Joined(p, front)) == |front| + PathLength(p)
  {
    assert Joined(p, front)[1..] == if p == [] || p[0].kind == AsSet then p else p[1..];
  }

  lemma {:induction false} SegmentLengthCompat(p: Path, k: nat)
    requires 1 <= k <= |p|
    ensures SegmentLength(FromEnd(CompatPath(p), k)) == SegmentLength(FromEnd(p, k))
  {
    var s := p[|p| - k];
    assert CompatPath(p)[|p| - k] == Segment(s.kind, CompatAll(s.ases));
  }

  lemma {:induction false} FromEndTail<T>(s: seq<T>, t: seq<T>, n: nat, k: nat)
    requires 1 <= k <= n <= |s| && n <= |t| && s[|s| - n..] == t[|t| - n..]
    ensures FromEnd(s, k) == FromEnd(t, k)
  {
    assert s[|s| - n..][n - k] == FromEnd(s, k);
    assert t[|t| - n..][n - k] == FromEnd(t, k);
  }

  /** Paths with the same end, as two-byte speakers see it. */
  lemma {:induction false} SegmentLengthsAgree(p: Path, c: Path, q: Path, n: nat)
    requires c == CompatPath(p) && n <= |p| && n <= |q| && q[|q| - n..] == c[|c| - n..]
    ensures forall k | 1 <= k <= n :: SegmentLength(FromEnd(q, k)) == SegmentLength(FromEnd(p, k))
  {
    forall k | 1 <= k <= n ensures SegmentLength(FromEnd(q, k)) == SegmentLength(FromEnd(p, k)) {
      SegmentLengthCompat(p, k);
      FromEndTail(q, c, n, k);
    }
  }

  /** The front segment of the AS_PATH is new as a whole. */
  lemma {:induction false} MergeNewSegment(p: Path, front: seq<AsNum>)
    requires p == [] || p[0].kind == AsSet
    requires front != []
    ensures CrossValidate(p, Joined(CompatPath(p), front)) == Merged(Joined(p, front), |front| + PathLength(p))
  {
    var q := Joined(CompatPath(p), front);
    NewPadFrom(p, front);
    CrossFromAdd(p, q);
    WholeSegment(p, q, front);
    assert [q[0]] + p == Joined(p, front);
  }

  /** No segment of the AS4_PATH needs padding. */
  lemma {:induction false} NewPadFrom(p: Path, front: seq<AsNum>)
    requires p == [] || p[0].kind == AsSet
    requires front != []
    ensures var q := Joined(CompatPath(p), front);
            && |q| == |p| + 1 && q[0] == Segment(AsSequence, front) && PathLength(q) == |front| + PathLength(p)
            && PadFrom(p, q, 1, PathLength(p)) == Merged(p, PathLength(p))
  {
    var c := CompatPath(p);
    var q := Joined(c, front);
    PathLengthCompat(p);
    JoinedLength(c, front);
    assert q[1..] == c && c[0..] == c;
    SegmentLengthsAgree(p, c, q, |p|);
    PadSkips(p, q, 1, |p| + 1, PathLength(p));
    assert PadFrom(p, q, |p| + 1, PathLength(p)) == Merged(p, PathLength(p));
  }

  /** Padding had nothing to do, and whole segments are missing. */
  lemma {:induction false} CrossFromAdd(p: Path, q: Path)
    requires |p| <= |q| && PathLength(p) < PathLength(q)
    requires PadFrom(p, q, 1, PathLength(p)) == Merged(p, PathLength(p))
    ensures CrossValidate(p, q) == AddSegments(Merged(p, PathLength(p)), q)
  {
  }

  lemma {:induction false} WholeSegment(p: Path, q: Path, front: seq<AsNum>)
    requires |q| == |p| + 1 && q[0] == Segment(AsSequence, front) && front != []
    requires PathLength(q) == |front| + PathLength(p)
    ensures AddSegments(Merged(p, PathLength(p)), q) == Merged([q[0]] + p, PathLength(q))
  {
    assert q[..1] == [q[0]] && PathLength([q[0]]) == |front|;
  }

  /** The front segment of the AS_PATH has grown. */
  lemma {:induction false} MergeGrownSegment(p: Path, front: seq<AsNum>)
    requires p != [] && p[0].kind == AsSequence
    requires front != []
    ensures CrossValidate(p, Joined(CompatPath(p), front)) == Merged(Joined(p, front), |front| + PathLength(p))
  {
    var c := CompatPath(p);
    var q := Joined(c, front);
    PathLengthCompat(p);
    JoinedLength(c, front);
    GrownPadFrom(p, front);
    CrossFromPad(p, q, Joined(p, front));
  }

  lemma {:induction false} GrownPadFrom(p: Path, front: seq<AsNum>)
    requires p != [] && p[0].kind == AsSequence && front != []
    ensures PadFrom(p, Joined(CompatPath(p), front), 1, PathLength(p)) ==
            Merged(Joined(p, front), PathLength(p) + |front|)
  {
    var c := CompatPath(p);
    var q := Joined(c, front);
    assert q[1..] == c[1..];
    SegmentLengthsAgree(p, c, q, |p| - 1);
    PadSkips(p, q, 1, |p|, PathLength(p));
    GrownPadded(p[0].ases, front);
    PadLast(p, q, Segment(AsSequence, front + p[0].ases), |front|);
    assert p[0 := Segment(AsSequence, front + p[0].ases)] == Joined(p, front);
  }

  /** Padding was enough. */
  lemma {:induction false} CrossFromPad(p: Path, q: Path, r: Path)
    requires |p| <= |q| && PathLength(p) < PathLength(q)
    requires PadFrom(p, q, 1, PathLength(p)) == Merged(r, PathLength(q))
    ensures CrossValidate(p, q) == Merged(r, PathLength(q))
  {
  }

  lemma {:induction false} PadLast(p: Path, q: Path, s: Segment, growth: nat)
    requires p != [] && |p| == |q| && SegmentLength(q[0]) > SegmentLength(p[0])
    requires PadSegment(q[0], p[0]) == Padded(s, growth)
    ensures PadFrom(p, q, |p|, PathLength(p)) == Merged(p[0 := s], PathLength(p) + growth)
  {
    assert FromEnd(q, |p|) == q[0] && FromEnd(p, |p|) == p[0];
  }

  lemma {:induction false} GrownAgrees(ns: seq<AsNum>, front: seq<AsNum>)
    ensures SuffixAgrees(front + CompatAll(ns), ns)
  {
    var older := front + CompatAll(ns);
    forall i | 1 <= i <= |ns| ensures Compat(FromEnd(older, i)) == Compat(FromEnd(ns, i)) {
      assert FromEnd(older, i) == CompatAll(ns)[|ns| - i];
    }
  }

  lemma {:induction false} GrownPadded(ns: seq<AsNum>, front: seq<AsNum>)
    ensures PadSegment(Segment(AsSequence, front + CompatAll(ns)), Segment(AsSequence, ns)) ==
            Padded(Segment(AsSequence, front + ns), |front|)
  {
    GrownAgrees(ns, front);
    assert (front + CompatAll(ns))[..|front|] == front;
  }

  /** Merging recovers the four-byte path behind whatever two-byte speakers prepended, and its
      segment count and path length are those of the AS_PATH that was received. */
  lemma {:induction false} MergeRecovers(p: Path, ns: seq<AsNum>)
    requires Prependable(p)
    ensures var q := PrependAll(CompatPath(p), ns);
            var r := PrependAll(p, ns);
            && CrossValidate(p, q) == Merged(r, PathLength(r))
            && |q| == |r| && PathLength(q) == PathLength(r)
  {
    if ns == [] {
      PathLengthCompat(p);
    } else {
      MergeRecoversJoined(p, ns, Reversed(ns));
    }
  }

  lemma {:induction false} MergeRecoversJoined(p: Path, ns: seq<AsNum>, front: seq<AsNum>)
    requires Prependable(p) && ns != [] && front == Reversed(ns)
    ensures var q := PrependAll(CompatPath(p), ns);
            var r := PrependAll(p, ns);
            && CrossValidate(p, q) == Merged(r, PathLength(r))
            && |q| == |r| && PathLength(q) == PathLength(r)
  {
    PrependAllShape(p, ns);
    PrependAllShape(CompatPath(p), ns);
    JoinedSizes(p, front);
    JoinedMerges(p, front);
  }

  lemma {:induction false} JoinedMerges(p: Path, front: seq<AsNum>)
    requires Prependable(p) && front != []
    ensures CrossValidate(p, Joined(CompatPath(p), front)) == Merged(Joined(p, front), |front| + PathLength(p))
  {
    if p == [] || p[0].kind == AsSet {
      MergeNewSegment(p, front);
    } else {
      MergeGrownSegment(p, front);
    }
  }

  lemma {:induction false} JoinedSizes(p: Path, front: seq<AsNum>)
    requires Prependable(p)
    ensures Prependable(CompatPath(p)) && |Joined(CompatPath(p), front)| == |Joined(p, front)|
    ensures PathLength(Joined(p, front)) == |front| + PathLength(p)
    ensures PathLength(Joined(CompatPath(p), front)) == |front| + PathLength(p)
  {
    PathLengthCompat(p);
    JoinedLength(p, front);
    JoinedLength(CompatPath(p), front);
  }

  /** The tunnel: a path is sent as an AS_PATH and an AS4_PATH, two-byte speakers prepend their
      numbers, and the receiver decodes and merges both. It gets the speakers' numbers in front of
      the original path, provided no segment ever outgrew 255. */
  lemma {:induction false} TunnelRoundTrip(p: Path, ns: seq<AsNum>)
    requires Prependable(p) && Narrow(ns) && Encodable(PrependAll(p, ns)) && Encodable(p)
    ensures Hops(PathBytes(p, false), ns).Some?
    ensures var received := PathFrom(Hops(PathBytes(p, false), ns).value, false);
            var received4 := PathFrom(PathBytes(p, true), true);
            var result := PrependAll(p, ns);
            && received.Ok? && received4.Ok?
            && CrossValidate(received4.path, received.path) == Merged(result, PathLength(result))
            && |received.path| == |result| && PathLength(received.path) == PathLength(result)
  {
    var c := CompatPath(p);
    PathRoundTrip(p, true);
    CompatPathAgain(p);
    EncodesAlike(p);
    assert Prependable(c);
    if ns != [] {
      PrependAllShape(p, ns);
      PrependAllShape(c, ns);
    }
    assert Encodable(PrependAll(c, ns));
    HopsArrive(c, ns);
    PathRoundTrip(PrependAll(c, ns), false);
    MergeRecovers(p, ns);
  }

  lemma {:induction false} ListEncodesAlike(ns: seq<AsNum>)
    ensures ListBytes(ns, false) == ListBytes(CompatAll(ns), false)
  {
    if ns != [] {
      ListEncodesAlike(ns[1..]);
      assert CompatAll(ns)[1..] == CompatAll(ns[1..]);
    }
  }

  /** The two-byte encoding does not depend on more than two-byte speakers see. */
  lemma {:induction false} EncodesAlike(p: Path)
    requires Encodable(p)
    ensures Encodable(CompatPath(p)) && PathBytes(p, false) == PathBytes(CompatPath(p), false)
  {
    if p != [] {
      EncodesAlike(p[1..]);
      ListEncodesAlike(p[0].ases);
      assert CompatPath(p)[1..] == CompatPath(p[1..]);
    }
  }
}
