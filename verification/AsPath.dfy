/** The AS path object: a list of segments with its cached lengths, encoded into and decoded from
    byte buffers, and merged in place. */
module AsPath {
  import opened Wrappers
  import opened AsPathModel
  import opened AsPathTunnel

  // ---- Byte buffers -------------------------------------------------------------------

  function Splice(s: seq<Byte>, pos: nat, b: seq<Byte>): (r: seq<Byte>)
    requires pos + |b| <= |s|
    ensures |r| == |s|
  {
    s[..pos] + b + s[pos + |b|..]
  }

  lemma SpliceTwice(s: seq<Byte>, pos: nat, a: seq<Byte>, b: seq<Byte>)
    requires pos + |a| + |b| <= |s|
    ensures Splice(Splice(s, pos, a), pos + |a|, b) == Splice(s, pos, a + b)
  {
    var t := Splice(s, pos, a);
    assert t[..pos + |a|] == s[..pos] + a;
    assert t[pos + |a| + |b|..] == s[pos + |a| + |b|..];
  }

  lemma {:induction false} ListBytesSnoc(ns: seq<AsNum>, n: AsNum, wide: bool)
    ensures ListBytes(ns + [n], wide) == ListBytes(ns, wide) + AsBytes(n, wide)
  {
    if ns == [] {
      assert ns + [n] == [n] && [n][1..] == [];
    } else {
      assert (ns + [n])[1..] == ns[1..] + [n];
      ListBytesSnoc(ns[1..], n, wide);
    }
  }

  lemma {:induction false} PathBytesSnoc(p: Path, s: Segment, wide: bool)
    requires Encodable(p) && |s.ases| <= 255
    ensures Encodable(p + [s]) && PathBytes(p + [s], wide) == PathBytes(p, wide) + SegmentBytes(s, wide)
  {
    if p == [] {
      assert p + [s] == [s] && [s][1..] == [];
    } else {
      assert (p + [s])[1..] == p[1..] + [s];
      PathBytesSnoc(p[1..], s, wide);
    }
  }

  lemma ListBytesNext(ns: seq<AsNum>, i: nat, wide: bool)
    requires i < |ns|
    ensures ListBytes(ns[..i + 1], wide) == ListBytes(ns[..i], wide) + AsBytes(ns[i], wide)
  {
    ListBytesSnoc(ns[..i], ns[i], wide);
    assert ns[..i] + [ns[i]] == ns[..i + 1];
  }

  lemma EncodedNext(before: seq<Byte>, p: Path, i: nat, wide: bool)
    requires i < |p| && Encodable(p[..i]) && |p[i].ases| <= 255
    requires |PathBytes(p[..i], wide)| + WireLength(p[i..], wide) <= |before|
    ensures WireLength(p[i..], wide) == 2 + Size(|p[i].ases|, wide) + WireLength(p[i + 1..], wide)
    ensures Encodable(p[..i + 1])
    ensures var done := PathBytes(p[..i], wide);
            var b := SegmentBytes(p[i], wide);
            && PathBytes(p[..i + 1], wide) == done + b
            && Splice(Splice(before, 0, done), |done|, b) == Splice(before, 0, done + b)
  {
    assert p[i..][1..] == p[i + 1..];
    SpliceTwice(before, 0, PathBytes(p[..i], wide), SegmentBytes(p[i], wide));
    PathBytesSnoc(p[..i], p[i], wide);
    assert p[..i] + [p[i]] == p[..i + 1];
  }

  method PutAs(n: AsNum, wide: bool, buf: array<Byte>, pos: nat)
    requires pos + Width(wide) <= buf.Length
    modifies buf
    ensures buf[..] == Splice(old(buf[..]), pos, AsBytes(n, wide))
  {
    if wide {
      buf[pos] := n / 0x100_0000;
      buf[pos + 1] := n / 0x1_0000 % 256;
      buf[pos + 2] := n / 256 % 256;
      buf[pos + 3] := n % 256;
    } else {
      var x := if n > 0xffff then AS_TRAN else n;
      buf[pos] := x / 256;
      buf[pos + 1] := x % 256;
    }
  }

  method PutHeader(a: Byte, b: Byte, buf: array<Byte>, pos: nat)
    requires pos + 2 <= buf.Length
    modifies buf
    ensures buf[..] == Splice(old(buf[..]), pos, [a, b])
  {
    buf[pos] := a;
    buf[pos + 1] := b;
  }

  /** The size of an encoded path, which aborting does not keep from being computed first. */
  function WireLength(p: Path, wide: bool): nat {
    if p == [] then 0 else 2 + Size(|p[0].ases|, wide) + WireLength(p[1..], wide)
  }

  lemma {:induction false} WireLengthIs(p: Path, wide: bool)
    requires Encodable(p)
    ensures |PathBytes(p, wide)| == WireLength(p, wide)
  {
    if p != [] { WireLengthIs(p[1..], wide); }
  }

  method PutList(ns: seq<AsNum>, wide: bool, buf: array<Byte>, pos: nat)
    requires pos + Size(|ns|, wide) <= buf.Length
    modifies buf
    ensures buf[..] == Splice(old(buf[..]), pos, ListBytes(ns, wide))
  {
    ghost var before := buf[..];
    ghost var done: seq<Byte> := [];
    var i := 0;
    while i < |ns|
      invariant i <= |ns| && done == ListBytes(ns[..i], wide)
      invariant buf[..] == Splice(before, pos, done)
    {
      ListBytesNext(ns, i, wide);
      SpliceTwice(before, pos, done, AsBytes(ns[i], wide));
      PutAs(ns[i], wide, buf, pos + Size(i, wide));
      done := done + AsBytes(ns[i], wide);
      i := i + 1;
    }
    assert ns[..i] == ns;
  }

  /** ASSegment::encode and AS4Segment::encode into a buffer. */
  method EncodeSegment(s: Segment, wide: bool, buf: array<Byte>, pos: nat)
    requires |s.ases| <= 255 && pos + 2 + Size(|s.ases|, wide) <= buf.Length
    modifies buf
    ensures buf[..] == Splice(old(buf[..]), pos, SegmentBytes(s, wide))
  {
    PutHeader(TypeByte(s.kind), |s.ases|, buf, pos);
    PutList(s.ases, wide, buf, pos + 2);
    SpliceTwice(old(buf[..]), pos, [TypeByte(s.kind), |s.ases|], ListBytes(s.ases, wide));
  }

  lemma SpliceWhole(s: seq<Byte>, b: seq<Byte>)
    requires |b| == |s|
    ensures Splice(s, 0, b) == b
  {
  }

  /** The loop of ASPath::encode and AS4Path::encode over the segments. */
  method EncodeInto(p: Path, wide: bool, buf: array<Byte>) returns (aborted: bool)
    requires buf.Length == WireLength(p, wide)
    modifies buf
    ensures aborted == !Encodable(p)
    ensures !aborted ==> buf[..] == PathBytes(p, wide)
  {
    var i, pos := 0, 0;
    ghost var before := buf[..];
    assert p[0..] == p && p[..0] == [];
    while i < |p|
      invariant i <= |p| && Encodable(p[..i]) && pos == |PathBytes(p[..i], wide)|
      invariant pos + WireLength(p[i..], wide) == buf.Length
      invariant buf[..] == Splice(before, 0, PathBytes(p[..i], wide))
    {
      if |p[i].ases| > 255 { return true; }
      EncodedNext(before, p, i, wide);
      EncodeSegment(p[i], wide, buf, pos);
      pos := pos + 2 + Size(|p[i].ases|, wide);
      i := i + 1;
    }
    assert p[..i] == p;
    SpliceWhole(before, PathBytes(p, wide));
    return false;
  }

  // ---- Decoding -----------------------------------------------------------------------

  lemma ListNext(ns: seq<AsNum>, d: seq<Byte>, n: nat, wide: bool)
    requires |d| >= Size(n + 1, wide)
    ensures ns + [AsFrom(d, wide)] + ListFrom(d[Width(wide)..], n, wide) == ns + ListFrom(d, n + 1, wide)
  {
  }

  /** The loop of ASSegment::decode and AS4Segment::decode over the AS numbers. */
  method DecodeList(d: seq<Byte>, n: nat, wide: bool) returns (ns: seq<AsNum>)
    requires Size(n, wide) <= |d|
    ensures ns == ListFrom(d, n, wide)
  {
    ns := [];
    var left, rest := n, d;
    while left > 0
      invariant |rest| >= Size(left, wide)
      invariant ns + ListFrom(rest, left, wide) == ListFrom(d, n, wide)
    {
      ListNext(ns, rest, left - 1, wide);
      ns := ns + [AsFrom(rest, wide)];
      left, rest := left - 1, rest[Width(wide)..];
    }
  }

  datatype Status = Fine | IsCorrupt | HasAborted

  /** The size check of a segment, and the segment itself. */
  method DecodeSegment(d: seq<Byte>, wide: bool) returns (status: Status, s: Segment, len: nat)
    requires d != []
    ensures status.Fine? ==> 2 <= len <= |d| && PathFrom(d, wide) == Behind(s, PathFrom(d[len..], wide))
    ensures status.IsCorrupt? ==> PathFrom(d, wide) == Corrupt
    ensures status.HasAborted? ==> PathFrom(d, wide) == Aborted
  {
    s, len := Segment(AsNone, []), 0;
    if |d| < 2 || 2 + Size(d[1], wide) > |d| {
      status := if wide then HasAborted else IsCorrupt;
      return;
    }
    var t := TypeOf(d[0]);
    if t.None? { return IsCorrupt, s, len; }
    var n: nat := d[1];
    var ns := DecodeList(d[2..], n, wide);
    PathFromStep(d, wide, t.value, n);
    status, s, len := Fine, Segment(t.value, ns), 2 + Size(n, wide);
  }

  // ---- Padding a segment --------------------------------------------------------------

  method PadSetWith(older: seq<AsNum>, newer: seq<AsNum>) returns (padded: seq<AsNum>)
    ensures padded == PadSet(older, |older|, newer)
  {
    padded := newer;
    var i := |older|;
    while i > 0
      invariant 0 <= i <= |older| && PadSet(older, i, padded) == PadSet(older, |older|, newer)
    {
      i := i - 1;
      var n := older[i];
      if Compat(n) != AS_TRAN && n !in padded {
        padded := [n] + padded;
      }
    }
  }

  /** Compare from the back until the newer list ends, the older one ends, or they differ. */
  method CompareSuffix(older: seq<AsNum>, newer: seq<AsNum>) returns (agree: bool, overrun: bool)
    ensures agree == SuffixAgrees(older, newer)
    ensures overrun == (agree && |newer| > |older|)
  {
    var i := 1;
    while i <= |newer|
      invariant 1 <= i <= Min(|older|, |newer|) + 1
      invariant forall k | 1 <= k < i :: Compat(FromEnd(older, k)) == Compat(FromEnd(newer, k))
      decreases |newer| - i
    {
      if i > |older| { return true, true; }
      if Compat(FromEnd(older, i)) != Compat(FromEnd(newer, i)) { return false, false; }
      i := i + 1;
    }
    return true, false;
  }

  method CopyMissing(older: seq<AsNum>, newer: seq<AsNum>) returns (padded: seq<AsNum>, growth: nat)
    requires |newer| <= |older|
    ensures padded == older[..|older| - |newer|] + newer && growth == |older| - |newer|
  {
    padded, growth := newer, 0;
    var i := |older| - |newer|;
    ghost var missing := older[..i];
    while i > 0
      invariant 0 <= i <= |missing| && padded == missing[i..] + newer && growth == |missing| - i
    {
      i := i - 1;
      assert missing[i..] == [older[i]] + missing[i + 1..];
      padded, growth := [older[i]] + padded, growth + 1;
    }
  }

  method Pad(older: Segment, newer: Segment) returns (r: Padding)
    ensures r == PadSegment(older, newer)
  {
    if newer.kind != AsSet && older.kind != AsSet {
      var agree, overrun := CompareSuffix(older.ases, newer.ases);
      if overrun { return Overrun; }
      if agree {
        var padded, growth := CopyMissing(older.ases, newer.ases);
        return Padded(Segment(newer.kind, padded), growth);
      }
    }
    var padded := PadSetWith(older.ases, newer.ases);
    if |older.ases| < |padded| { return NoEnd; }
    return Padded(Segment(AsSet, padded), 0);
  }

  datatype MergeStatus = MergeFine | MergeDiverges | MergeOverruns | MergeAborts

  function StatusOf(m: Merge): MergeStatus {
    match m
    case Merged(_, _) => MergeFine
    case Diverges => MergeDiverges
    case Overruns => MergeOverruns
    case AbortMerge => MergeAborts
  }

  // ---- Numbers found ------------------------------------------------------------------

  function After(numbers: seq<AsNum>, r: Search): Search {
    if r.Found? then Found(numbers + r.numbers) else r
  }

  lemma {:induction false} LackingNext(p: Path, ns: seq<AsNum>, j: nat, r: seq<AsNum>)
    requires j < |ns|
    ensures r + Lacking(p, ns[j..]) == (if Lacks(p, ns[j]) then r + [ns[j]] else r) + Lacking(p, ns[j + 1..])
  {
    assert ns[j..][1..] == ns[j + 1..];
  }

  lemma AfterNone(r: Search)
    ensures After([], r) == r
  {
    if r.Found? { assert [] + r.numbers == r.numbers; }
  }

  lemma AfterTwo(x: seq<AsNum>, y: seq<AsNum>, r: Search)
    ensures After(x, After(y, r)) == After(x + y, r)
  {
    if r.Found? { assert x + (y + r.numbers) == x + y + r.numbers; }
  }

  // ---- The object ---------------------------------------------------------------------

  class AsPath {
    var segments: Path
    var numSegments: nat
    var pathLen: nat

    /** The cached numbers are right. */
    ghost predicate Valid()
      reads this
    {
      numSegments == |segments| && pathLen == PathLength(segments)
    }

    constructor ()
      ensures Valid() && segments == []
    {
      segments, numSegments, pathLen := [], 0, 0;
    }

    method AddSegment(s: Segment)
      requires Valid()
      modifies this
      ensures Valid() && segments == old(segments) + [s]
    {
      PathLengthConcat(segments, [s]);
      segments := segments + [s];
      numSegments := numSegments + 1;
      pathLen := pathLen + SegmentLength(s);
    }

    method PrependAs(n: AsNum) returns (aborted: bool)
      requires Valid()
      modifies this
      ensures aborted == !Prependable(old(segments))
      ensures !aborted ==> Valid() && segments == Prepend(old(segments), n)
    {
      if |segments| == 0 || segments[0].kind == AsSet {
        segments := [Segment(AsSequence, [n])] + segments;
        numSegments := numSegments + 1;
      } else {
        if segments[0].kind != AsSequence { return true; }
        segments := segments[0 := Segment(AsSequence, [n] + segments[0].ases)];
      }
      pathLen := pathLen + 1;
      aborted := false;
      assert segments == Prepend(old(segments), n);
    }

    method WireSize(wide: bool) returns (size: nat)
      ensures size == WireLength(segments, wide)
    {
      size := 0;
      var i := 0;
      while i < |segments|
        invariant i <= |segments| && size + WireLength(segments[i..], wide) == WireLength(segments, wide)
      {
        size := size + 2 + Size(|segments[i].ases|, wide);
        assert segments[i..][1..] == segments[i + 1..];
        i := i + 1;
      }
    }

    /** ASPath::encode and AS4Path::encode into a new buffer. */
    method Encode(wide: bool) returns (aborted: bool, buf: array<Byte>)
      requires Valid()
      ensures aborted == !Encodable(segments)
      ensures !aborted ==> fresh(buf) && buf[..] == PathBytes(segments, wide)
    {
      var size := WireSize(wide);
      buf := new Byte[size];
      aborted := EncodeInto(segments, wide, buf);
    }

    /** ASPath::decode and AS4Path::decode, called on a new object only. */
    method Decode(d: seq<Byte>, wide: bool) returns (status: Status)
      requires Valid() && segments == []
      modifies this
      ensures var r := PathFrom(d, wide);
              && (status.Fine? <==> r.Ok?) && (status.IsCorrupt? <==> r.Corrupt?)
              && (r.Ok? ==> Valid() && segments == r.path)
    {
      var rest := d;
      while rest != []
        invariant Valid()
        invariant PathFrom(d, wide) == Prefixed(segments, PathFrom(rest, wide))
        decreases |rest|
      {
        var s, len;
        status, s, len := DecodeSegment(rest, wide);
        if !status.Fine? { return; }
        PrefixedBehind(segments, s, PathFrom(rest[len..], wide));
        AddSegment(s);
        rest := rest[len..];
      }
      status := Fine;
    }

    /** Give up the segments for those of the AS_PATH. The cached numbers are not reset. */
    method CopySegments(older: AsPath)
      requires older != this
      modifies this
      ensures segments == older.segments && pathLen == old(pathLen) + PathLength(older.segments)
    {
      segments := [];
      var i := 0;
      while i < |older.segments|
        invariant i <= |older.segments| && segments == older.segments[..i]
        invariant pathLen == old(pathLen) + PathLength(older.segments[..i])
      {
        PathLengthConcat(older.segments[..i], [older.segments[i]]);
        assert older.segments[..i + 1] == older.segments[..i] + [older.segments[i]];
        segments := segments + [older.segments[i]];
        numSegments := numSegments + 1;
        pathLen := pathLen + SegmentLength(older.segments[i]);
        i := i + 1;
      }
      assert older.segments[..i] == older.segments;
    }

    /** The search of do_patchup through the AS_PATH. */
    method FindLacking(older: AsPath) returns (r: Search)
      requires older.Valid()
      ensures r == SearchFrom(segments, older.segments, 0, older.pathLen, 1 + pathLen == older.pathLen)
    {
      var numbers: seq<AsNum> := [];
      var i := 0;
      ghost var one := 1 + pathLen == older.pathLen;
      ghost var whole := SearchFrom(segments, older.segments, 0, older.pathLen, one);
      AfterNone(whole);
      while i < older.pathLen
        invariant i <= older.pathLen && (one ==> numbers == [])
        invariant whole == After(numbers, SearchFrom(segments, older.segments, i, older.pathLen, one))
        decreases older.pathLen - i
      {
        if i >= older.numSegments { return NoSegment; }
        var s := older.segments[i];
        if |s.ases| < SegmentLength(s) { return NoNumber; }
        var here := LackingOf(s.ases[..SegmentLength(s)]);
        if 1 + pathLen == older.pathLen && here != [] {
          assert numbers + here[..1] == here[..1];
          return Found(here[..1]);
        }
        AfterTwo(numbers, here, SearchFrom(segments, older.segments, i + 1, older.pathLen, one));
        numbers := numbers + here;
        i := i + 1;
      }
      assert numbers + [] == numbers;
      r := Found(numbers);
    }

    method LackingOf(ns: seq<AsNum>) returns (r: seq<AsNum>)
      ensures r == Lacking(segments, ns)
    {
      r := [];
      var j := 0;
      while j < |ns|
        invariant j <= |ns| && Lacking(segments, ns) == r + Lacking(segments, ns[j..])
      {
        LackingNext(segments, ns, j, r);
        if Lacks(segments, ns[j]) { r := r + [ns[j]]; }
        j := j + 1;
      }
    }

    /** Pad the front up to the length of the AS_PATH. */
    method Inflated(total: nat) returns (status: MergeStatus)
      requires segments != [] && Prependable(segments) && numSegments == |segments|
      modifies this
      ensures var m := Inflate(old(segments), old(pathLen), total);
              && status == StatusOf(m)
              && (status.MergeFine? ==> segments == m.path && pathLen == m.length && numSegments == |segments|)
    {
      ghost var whole := Inflate(segments, pathLen, total);
      while pathLen < total
        invariant segments != [] && Prependable(segments) && numSegments == |segments|
        invariant Inflate(segments, pathLen, total) == whole
        decreases total - pathLen
      {
        if segments[0].ases == [] { return MergeAborts; }
        var n := segments[0].ases[0];
        if segments[0].kind == AsSet {
          segments := [Segment(AsSequence, [n])] + segments;
          numSegments := numSegments + 1;
        } else {
          segments := [Segment(AsSequence, [n] + segments[0].ases)] + segments[1..];
        }
        pathLen := pathLen + 1;
      }
      status := MergeFine;
    }

    /** AS4Path::do_patchup. */
    method DoPatchup(older: AsPath) returns (status: MergeStatus)
      requires older != this && older.Valid() && numSegments == |segments|
      modifies this
      ensures var m := AsPathModel.DoPatchup(old(segments), older.segments, old(pathLen));
              && status == StatusOf(m)
              && (status.MergeFine? ==> segments == m.path && pathLen == m.length && numSegments == |segments|)
    {
      var r := FindLacking(older);
      match r {
        case NoSegment => return MergeAborts;
        case NoNumber => return MergeOverruns;
        case Found(numbers) => status := Front(numbers, older.pathLen);
      }
    }

    method Front(numbers: seq<AsNum>, total: nat) returns (status: MergeStatus)
      requires numSegments == |segments|
      modifies this
      ensures var m := PutFound(old(segments), numbers, old(pathLen), total);
              && status == StatusOf(m)
              && (status.MergeFine? ==> segments == m.path && pathLen == m.length && numSegments == |segments|)
    {
      if |segments| == 0 { return MergeOverruns; }
      if segments[0].kind == AsSet {
        if numbers == [] { return MergeOverruns; }
        segments := [Segment(AsSet, segments[0].ases + [numbers[0]])] + segments[1..];
      } else {
        segments := [Segment(AsSet, numbers)] + segments;
        numSegments, pathLen := numSegments + 1, pathLen + 1;
      }
      status := Inflated(total);
    }

    method PadOne(older: AsPath, i: nat) returns (status: MergeStatus)
      requires older != this && older.Valid() && numSegments == |segments|
      requires 1 <= i <= |segments| && i <= |older.segments|
      modifies this
      ensures var m := AsPathModel.PadOne(old(segments), older.segments, i, old(pathLen));
              && status == StatusOf(m)
              && (status.MergeFine? ==> segments == m.path && pathLen == m.length && numSegments == |segments|)
    {
      var o, n := FromEnd(older.segments, i), FromEnd(segments, i);
      if SegmentLength(o) < SegmentLength(n) {
        status := DoPatchup(older);
        return;
      }
      if SegmentLength(o) > SegmentLength(n) {
        var r := Pad(o, n);
        match r {
          case NoEnd => return MergeDiverges;
          case Overrun => return MergeOverruns;
          case Padded(s, growth) =>
            segments := segments[|segments| - i := s];
            pathLen := pathLen + growth;
        }
      }
      status := MergeFine;
    }

    /** The loop that pads segment by segment, from the last one to the first. */
    method PadSegments(older: AsPath) returns (status: MergeStatus)
      requires older != this && older.Valid() && numSegments == |segments|
      modifies this
      ensures var m := PadFrom(old(segments), older.segments, 1, old(pathLen));
              && status == StatusOf(m)
              && (status.MergeFine? ==> segments == m.path && pathLen == m.length && numSegments == |segments|)
    {
      var i := 1;
      ghost var whole := PadFrom(segments, older.segments, 1, pathLen);
      while i <= numSegments
        invariant 1 <= i && numSegments == |segments|
        invariant PadFrom(segments, older.segments, i, pathLen) == whole
        decreases |older.segments| + 1 - i
      {
        if i > older.numSegments { return MergeAborts; }
        status := PadOne(older, i);
        if !status.MergeFine? { return; }
        i := i + 1;
      }
      status := MergeFine;
    }

    /** Prepend the segments of the AS_PATH that the AS4_PATH lacks. */
    method PrependMissing(older: AsPath)
      requires older != this && numSegments == |segments| <= |older.segments|
      modifies this
      ensures var front := older.segments[..|older.segments| - |old(segments)|];
              segments == front + old(segments) && pathLen == PathLength(front) + old(pathLen)
    {
      var i := |older.segments| - numSegments;
      ghost var front := older.segments[..i];
      while i > 0
        invariant 0 <= i <= |front| && segments == front[i..] + old(segments)
        invariant pathLen == PathLength(front[i..]) + old(pathLen)
      {
        i := i - 1;
        var s := older.segments[i];
        assert front[i..] == [s] + front[i + 1..];
        segments := [s] + segments;
        numSegments := numSegments + 1;
        pathLen := pathLen + SegmentLength(s);
      }
    }

    /** AS4Path::cross_validate. */
    method CrossValidate(older: AsPath) returns (status: MergeStatus)
      requires older != this && Valid() && older.Valid()
      modifies this
      ensures var m := AsPathModel.CrossValidate(old(segments), older.segments);
              status == StatusOf(m) && (status.MergeFine? ==> segments == m.path && pathLen == m.length)
    {
      if older.pathLen < pathLen {
        CopySegments(older);
        return MergeFine;
      }
      if older.pathLen == pathLen { return MergeFine; }
      if older.numSegments < numSegments {
        status := DoPatchup(older);
        return;
      }
      status := PadSegments(older);
      if status.MergeFine? { status := AddMissing(older); }
    }

    /** Whole segments are added if padding was not enough. */
    method AddMissing(older: AsPath) returns (status: MergeStatus)
      requires older != this && older.Valid() && numSegments == |segments|
      modifies this
      ensures var m := AddSegments(Merged(old(segments), old(pathLen)), older.segments);
              status == StatusOf(m) && (status.MergeFine? ==> segments == m.path && pathLen == m.length)
    {
      if older.pathLen == pathLen { return MergeFine; }
      if older.numSegments <= numSegments { return MergeAborts; }
      PrependMissing(older);
      status := if older.pathLen == pathLen then MergeFine else MergeAborts;
    }

    /** ASPath::merge_as4_path: assignment takes over the segments and leaves the cached numbers. */
    method MergeAs4Path(as4: AsPath) returns (status: MergeStatus)
      requires as4 != this && Valid() && as4.Valid()
      modifies this, as4
      ensures var m := AsPathModel.CrossValidate(old(as4.segments), old(segments));
              && status == StatusOf(m)
              && (status.MergeFine? ==>
                    segments == m.path && numSegments == old(numSegments) && pathLen == old(pathLen))
    {
      status := as4.CrossValidate(this);
      if status.MergeFine? { segments := as4.segments; }
    }

    /** What TunnelRoundTrip says of the objects: a path received through two-byte speakers ends up
        whole and with the right numbers. */
    method Receive(d: seq<Byte>, d4: seq<Byte>, ghost p: Path, ghost ns: seq<AsNum>) returns (status: Status)
      requires Valid() && segments == []
      requires Prependable(p) && Narrow(ns) && Encodable(p) && Encodable(PrependAll(p, ns))
      requires d4 == PathBytes(p, true) && Hops(PathBytes(p, false), ns) == Some(d)
      modifies this
      ensures status == Fine && Valid() && segments == PrependAll(p, ns)
    {
      TunnelRoundTrip(p, ns);
      status := Decode(d, false);
      var as4 := new AsPath();
      var _ := as4.Decode(d4, true);
      var _ := MergeAs4Path(as4);
    }
  }

  function Prefixed(p: Path, r: Decoded): Decoded {
    if r.Ok? then Ok(p + r.path) else r
  }

  lemma PrefixedBehind(p: Path, s: Segment, r: Decoded)
    ensures Prefixed(p, Behind(s, r)) == Prefixed(p + [s], r)
  {
    if r.Ok? { assert p + ([s] + r.path) == p + [s] + r.path; }
  }
}
