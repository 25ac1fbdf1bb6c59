/** AS paths: their two wire formats, and how an AS4_PATH is merged into an AS_PATH. */
module AsPathModel {
  import opened Wrappers

  type AsNum = x: int | 0 <= x < 0x1_0000_0000
  /** An AS number that fits into two bytes. */
  type As16 = x: int | 0 <= x < 0x1_0000

  const AS_TRAN: As16 := 23456

  datatype SegType = AsNone | AsSet | AsSequence | AsConfedSequence | AsConfedSet

  datatype Segment = Segment(kind: SegType, ases: seq<AsNum>)
  type Path = seq<Segment>

  /** AsNum::as(): the number a two-byte speaker sees. */
  function Compat(n: AsNum): As16 {
    if n > 0xffff then AS_TRAN else n
  }

  function CompatAll(ns: seq<AsNum>): (r: seq<AsNum>)
    ensures |r| == |ns| && forall i | 0 <= i < |ns| :: r[i] == Compat(ns[i])
  {
    seq(|ns|, i requires 0 <= i < |ns| => Compat(ns[i]))
  }

  /** The path a two-byte speaker sees. */
  function CompatPath(p: Path): (r: Path)
    ensures |r| == |p| && forall i | 0 <= i < |p| :: r[i] == Segment(p[i].kind, CompatAll(p[i].ases))
  {
    seq(|p|, i requires 0 <= i < |p| => Segment(p[i].kind, CompatAll(p[i].ases)))
  }

  // ---- Lengths ------------------------------------------------------------------------

  function SegmentLength(s: Segment): nat {
    match s.kind
    case AsSet => 1
    case AsConfedSet => 1
    case AsSequence => |s.ases|
    case AsConfedSequence => |s.ases|
    case AsNone => 0
  }

  function PathLength(p: Path): nat {
    if p == [] then 0 else SegmentLength(p[0]) + PathLength(p[1..])
  }

  // ---- Wire formats -------------------------------------------------------------------

  function TypeByte(t: SegType): Byte {
    match t
    case AsNone => 0
    case AsSet => 1
    case AsSequence => 2
    case AsConfedSequence => 3
    case AsConfedSet => 4
  }

  function TypeOf(b: Byte): Option<SegType> {
    if b == 0 then Some(AsNone) else if b == 1 then Some(AsSet) else if b == 2 then Some(AsSequence)
    else if b == 3 then Some(AsConfedSequence) else if b == 4 then Some(AsConfedSet) else None
  }

  /** Bytes per AS number. */
  function Width(wide: bool): nat {
    if wide then 4 else 2
  }

  /** Bytes of a list of AS numbers. */
  function Size(n: nat, wide: bool): nat {
    if wide then 4 * n else 2 * n
  }

  function AsBytes(n: AsNum, wide: bool): (d: seq<Byte>)
    ensures |d| == Width(wide)
  {
    if wide then [n / 0x100_0000, n / 0x1_0000 % 256, n / 256 % 256, n % 256]
    else [Compat(n) / 256, Compat(n) % 256]
  }

  function AsFrom(d: seq<Byte>, wide: bool): AsNum
    requires |d| >= Width(wide)
  {
    var a: int, b: int := d[0], d[1];
    if wide then (var c: int, e: int := d[2], d[3]; a * 0x100_0000 + b * 0x1_0000 + c * 256 + e) else a * 256 + b
  }

  function ListBytes(ns: seq<AsNum>, wide: bool): (d: seq<Byte>)
    ensures |d| == Size(|ns|, wide)
  {
    if ns == [] then [] else AsBytes(ns[0], wide) + ListBytes(ns[1..], wide)
  }

  function ListFrom(d: seq<Byte>, n: nat, wide: bool): (ns: seq<AsNum>)
    requires |d| >= Size(n, wide)
    ensures |ns| == n
    decreases n
  {
    if n == 0 then [] else [AsFrom(d, wide)] + ListFrom(d[Width(wide)..], n - 1, wide)
  }

  /** A segment can be encoded only if its size fits into one byte; otherwise encoding aborts. */
  predicate Encodable(p: Path) {
    forall i | 0 <= i < |p| :: |p[i].ases| <= 255
  }

  function SegmentBytes(s: Segment, wide: bool): (d: seq<Byte>)
    requires |s.ases| <= 255
    ensures |d| == 2 + Size(|s.ases|, wide)
  {
    [TypeByte(s.kind), |s.ases|] + ListBytes(s.ases, wide)
  }

  function PathBytes(p: Path, wide: bool): seq<Byte>
    requires Encodable(p)
  {
    if p == [] then [] else SegmentBytes(p[0], wide) + PathBytes(p[1..], wide)
  }

  datatype Decoded = Ok(path: Path) | Corrupt | Aborted

  /** The size of a segment that does not fit is a corrupt AS_PATH, but aborts in an AS4_PATH. A
      lone byte never holds a segment, whatever follows it in memory. */
  function PathFrom(d: seq<Byte>, wide: bool): Decoded
    decreases |d|
  {
    if d == [] then Ok([])
    else if |d| < 2 || 2 + Size(d[1], wide) > |d| then (if wide then Aborted else Corrupt)
    else if TypeOf(d[0]).None? then Corrupt
    else
      var s := Segment(TypeOf(d[0]).value, ListFrom(d[2..], d[1], wide));
      match PathFrom(d[2 + Size(d[1], wide)..], wide)
      case Ok(p) => Ok([s] + p)
      case e => e
  }

  // ---- Prepending ---------------------------------------------------------------------

  /** ASPath::prepend_as, which aborts on a path that begins with any other kind of segment. */
  predicate Prependable(p: Path) {
    p == [] || p[0].kind == AsSet || p[0].kind == AsSequence
  }

  function Prepend(p: Path, n: AsNum): (r: Path)
    requires Prependable(p)
    ensures Prependable(r)
  {
    if p == [] || p[0].kind == AsSet then [Segment(AsSequence, [n])] + p
    else [Segment(AsSequence, [n] + p[0].ases)] + p[1..]
  }

  /** Speakers prepend one after the other, so the last number ends up first. */
  function PrependAll(p: Path, ns: seq<AsNum>): (r: Path)
    requires Prependable(p)
    ensures Prependable(r)
    decreases |ns|
  {
    if ns == [] then p else PrependAll(Prepend(p, ns[0]), ns[1..])
  }

  // ---- Merging ------------------------------------------------------------------------

  /** Prepend to the set what the older segment has and it lacks, from its first i numbers. */
  function PadSet(older: seq<AsNum>, i: nat, newer: seq<AsNum>): seq<AsNum>
    requires i <= |older|
    decreases i
  {
    if i == 0 then newer
    else if Compat(older[i - 1]) != AS_TRAN && older[i - 1] !in newer
    then PadSet(older, i - 1, [older[i - 1]] + newer)
    else PadSet(older, i - 1, newer)
  }

  function Min(a: nat, b: nat): nat {
    if a <= b then a else b
  }

  /** The i-th last element. */
  function FromEnd<T>(s: seq<T>, i: nat): T
    requires 1 <= i <= |s|
  {
    s[|s| - i]
  }

  /** Compared from the back, the lists agree as far as both go, as two-byte speakers see them. */
  predicate SuffixAgrees(older: seq<AsNum>, newer: seq<AsNum>) {
    forall i | 1 <= i <= Min(|older|, |newer|) :: Compat(FromEnd(older, i)) == Compat(FromEnd(newer, i))
  }

  /** NoEnd is the padding loop that makes the longer list longer still; Overrun compares beyond the
      front of the older list. */
  datatype Padding = Padded(segment: Segment, growth: nat) | NoEnd | Overrun

  function PadAsSet(older: Segment, newer: Segment): Padding {
    var padded := PadSet(older.ases, |older.ases|, newer.ases);
    if |older.ases| < |padded| then NoEnd else Padded(Segment(AsSet, padded), 0)
  }

  /** AS4Path::pad_segment, with the growth of the cached path length. */
  function PadSegment(older: Segment, newer: Segment): Padding {
    if newer.kind == AsSet || older.kind == AsSet || !SuffixAgrees(older.ases, newer.ases) then PadAsSet(older, newer)
    else if |newer.ases| > |older.ases| then Overrun
    else
      var missing := older.ases[..|older.ases| - |newer.ases|];
      Padded(Segment(newer.kind, missing + newer.ases), |missing|)
  }

  predicate Contains(p: Path, n: AsNum) {
    exists s | s in p :: n in s.ases
  }

  /** The numbers that two-byte speakers have seen and the path lacks. */
  predicate Lacks(p: Path, n: AsNum) {
    Compat(n) != AS_TRAN && !Contains(p, n)
  }

  function Lacking(p: Path, ns: seq<AsNum>): seq<AsNum> {
    if ns == [] then []
    else (if Lacks(p, ns[0]) then [ns[0]] else []) + Lacking(p, ns[1..])
  }

  /** The search of do_patchup for numbers that the AS4_PATH lacks. It counts segments up to the
      length of the path, and of a set it looks at the first number only. */
  datatype Search = Found(numbers: seq<AsNum>) | NoSegment | NoNumber

  function SearchFrom(newer: Path, older: Path, i: nat, total: nat, one: bool): Search
    decreases total - i
  {
    if i >= total then Found([])
    else if i >= |older| then NoSegment
    else if |older[i].ases| < SegmentLength(older[i]) then NoNumber
    else
      var here := Lacking(newer, older[i].ases[..SegmentLength(older[i])]);
      if one && here != [] then Found(here[..1])
      else
        match SearchFrom(newer, older, i + 1, total, one)
        case Found(rest) => Found(here + rest)
        case r => r
  }

  /** Merged comes with the cached path length. Overruns reads beyond the end of a list. */
  datatype Merge = Merged(path: Path, length: nat) | Diverges | Overruns | AbortMerge

  /** Prepend the first number again and again until the path is long enough. */
  function Inflate(p: Path, length: nat, total: nat): Merge
    requires p != [] && Prependable(p)
    decreases total - length
  {
    if length >= total then Merged(p, length)
    else if p[0].ases == [] then AbortMerge
    else Inflate(Prepend(p, p[0].ases[0]), length + 1, total)
  }

  /** The numbers found become a set at the front; of a set that is there already, only the first
      joins it. */
  function PutFound(newer: Path, numbers: seq<AsNum>, length: nat, total: nat): Merge {
    if newer == [] then Overruns
    else if newer[0].kind != AsSet then Inflate([Segment(AsSet, numbers)] + newer, length + 1, total)
    else if numbers == [] then Overruns
    else Inflate([Segment(AsSet, newer[0].ases + [numbers[0]])] + newer[1..], length, total)
  }

  /** AS4Path::do_patchup. */
  function DoPatchup(newer: Path, older: Path, length: nat): Merge {
    var total := PathLength(older);
    match SearchFrom(newer, older, 0, total, 1 + length == total)
    case NoSegment => AbortMerge
    case NoNumber => Overruns
    case Found(numbers) => PutFound(newer, numbers, length, total)
  }

  /** Make the i-th last segment as long as the one as far from the end of the AS_PATH. A segment
      that is too long is patched up. */
  function PadOne(newer: Path, older: Path, i: nat, length: nat): Merge
    requires 1 <= i <= |newer| && i <= |older|
  {
    var o, n := FromEnd(older, i), FromEnd(newer, i);
    if SegmentLength(o) == SegmentLength(n) then Merged(newer, length)
    else if SegmentLength(o) < SegmentLength(n) then DoPatchup(newer, older, length)
    else
      match PadSegment(o, n)
      case Padded(s, growth) => Merged(newer[|newer| - i := s], length + growth)
      case NoEnd => Diverges
      case Overrun => Overruns
  }

  /** Pad from the i-th last segment on. After a patchup the loop goes on with what that made of the
      path. */
  function PadFrom(newer: Path, older: Path, i: nat, length: nat): Merge
    requires 1 <= i
    decreases |older| + 1 - i
  {
    if i > |newer| then Merged(newer, length)
    else if i > |older| then AbortMerge
    else
      match PadOne(newer, older, i, length)
      case Merged(p, l) => PadFrom(p, older, i + 1, l)
      case m => m
  }

  /** What is still missing are whole segments. */
  function AddSegments(m: Merge, older: Path): Merge {
    if !m.Merged? || m.length == PathLength(older) then m
    else if |older| <= |m.path| then AbortMerge
    else
      var front := older[..|older| - |m.path|];
      if PathLength(older) != m.length + PathLength(front) then AbortMerge
      else Merged(front + m.path, PathLength(older))
  }

  /** AS4Path::cross_validate: the AS4_PATH brought in line with the AS_PATH. Where it is replaced,
      the cached length is not reset. */
  function CrossValidate(newer: Path, older: Path): Merge {
    if PathLength(older) < PathLength(newer) then Merged(older, PathLength(newer) + PathLength(older))
    else if PathLength(older) == PathLength(newer) then Merged(newer, PathLength(newer))
    else if |older| < |newer| then DoPatchup(newer, older, PathLength(newer))
    else AddSegments(PadFrom(newer, older, 1, PathLength(newer)), older)
  }
}
