/** What path attributes of each type hold, and how that is written and read. */
module AttributeValues {
  import opened Wrappers
  import opened AttributeModel
  import AsPathModel
  import MpReachModel

  predicate IsKnown(kind: nat) {
    1 <= kind <= 10 || kind == 14 || kind == 15 || kind == 17 || kind == 18
  }

  /** Communities and cluster identifiers are numbers of four bytes, like AS numbers. */
  type Word = AsPathModel.AsNum

  /** Communities are held in a std::set, here the sequence it is iterated in. */
  datatype Value =
    | Plain(bytes: seq<Byte>)
    | AsPath(path: AsPathModel.Path)
    | Communities(ids: seq<Word>)
    | Clusters(ids: seq<Word>)
    | Reach(reach: MpReachModel.MpReach)
    | Unreach(unreach: MpReachModel.MpUnreach)

  /** An attribute of a type that has a class of its own. Of any other type the bytes are kept as
      they came, except that the flags may have been changed. */
  datatype Attribute =
    | Known(flags: Byte, kind: Byte, value: Value)
    | Unknown(flags: Byte, data: seq<Byte>)

  // ---- What is acceptable -------------------------------------------------------------

  predicate Ascending(ws: seq<Word>) {
    forall i, j | 0 <= i < j < |ws| :: ws[i] < ws[j]
  }

  predicate AllZero(b: seq<Byte>) {
    b == [] || (b[0] == 0 && AllZero(b[1..]))
  }

  /** Not zero, not multicast and, for IPv4, not of class E. */
  predicate IsUnicast(b: seq<Byte>)
    requires |b| > 0
  {
    b[0] < (if |b| == 4 then 224 else 255) && !AllZero(b)
  }

  predicate PlainOk(kind: nat, b: seq<Byte>) {
    if kind == ORIGIN then |b| == 1 && b[0] <= 2
    else if kind == NEXT_HOP then (|b| == 4 || |b| == 16) && IsUnicast(b)
    else if kind == MED || kind == LOCAL_PREF || kind == ORIGINATOR_ID then |b| == 4
    else if kind == ATOMIC_AGGREGATE then b == []
    else (kind == AGGREGATOR || kind == AS4_AGGREGATOR) && |b| == 8
  }

  predicate ValueOk(kind: nat, v: Value) {
    match v
    case Plain(b) => PlainOk(kind, b)
    case AsPath(p) => (kind == AS_PATH || kind == AS4_PATH) && AsPathModel.Encodable(p)
    case Communities(ids) => kind == COMMUNITY && Ascending(ids)
    case Clusters(ids) => kind == CLUSTER_LIST
    case Reach(m) => kind == MP_REACH_NLRI && MpReachModel.IsReach(m)
    case Unreach(u) => kind == MP_UNREACH_NLRI && MpReachModel.IsUnreach(u)
  }

  /** The two high bits of the flags, optional and transitive, that a type must have. */
  function Class(kind: nat): (c: nat)
    ensures 1 <= c <= 3
  {
    if kind == MED || 9 <= kind <= 15 then 2
    else if kind <= 6 then 1
    else 3
  }

  predicate WellFormed(a: Attribute) {
    match a
    case Known(f, k, v) => f % 16 == 0 && f / 64 == Class(k) && ValueOk(k, v) && |Payload(k, v)| < 0x1_0000
    case Unknown(f, d) =>
      && HasHeader(d) && TlvSize(d) == |d| && !IsKnown(d[1])
      && f % 16 == 0 && f >= 128 && Extended(f) == Extended(d[0])
  }

  function KindOf(a: Attribute): Byte
    requires WellFormed(a)
  {
    match a
    case Known(_, k, _) => k
    case Unknown(_, d) => d[1]
  }

  // ---- Writing ------------------------------------------------------------------------

  function Payload(kind: nat, v: Value): seq<Byte>
    requires ValueOk(kind, v)
  {
    match v
    case Plain(b) => b
    case AsPath(p) => AsPathModel.PathBytes(p, true)
    case Communities(ids) => AsPathModel.ListBytes(ids, true)
    case Clusters(ids) => AsPathModel.ListBytes(ids, true)
    case Reach(m) => MpReachModel.Payload(m)
    case Unreach(u) => MpReachModel.UnreachPayload(u)
  }

  function Encoded(a: Attribute): seq<Byte>
    requires WellFormed(a)
  {
    match a
    case Known(f, k, v) => Header(f, k, |Payload(k, v)|) + Payload(k, v)
    case Unknown(f, d) => d[0 := f]
  }

  // ---- Reading ------------------------------------------------------------------------

  /** The groups of four bytes; up to three bytes left over are passed over. */
  function Words(p: seq<Byte>): (ws: seq<Word>)
    ensures |ws| == |p| / 4
  {
    AsPathModel.ListFrom(p, |p| / 4, true)
  }

  /** std::set::insert. */
  function Insert(x: Word, s: seq<Word>): seq<Word> {
    if s == [] || x < s[0] then [x] + s
    else if x == s[0] then s
    else [s[0]] + Insert(x, s[1..])
  }

  /** What has been inserted once all of ws are. */
  function InsertAll(ws: seq<Word>, s: seq<Word>): seq<Word> {
    if ws == [] then s else InsertAll(ws[1..], Insert(ws[0], s))
  }

  function PathValue(d: AsPathModel.Decoded): Option<Value> {
    if d.Ok? then Some(AsPath(d.path)) else None
  }

  function ReachFrom(p: seq<Byte>): Option<Value> {
    var r := MpReachModel.OrElse(MpReachModel.DecodePayload(p, MpReachModel.IPv6),
                                 MpReachModel.DecodePayload(p, MpReachModel.IPv4));
    if r.Fine? then Some(Reach(r.value)) else None
  }

  function UnreachFrom(p: seq<Byte>): Option<Value> {
    var r := MpReachModel.OrElse(MpReachModel.DecodeUnreach(p, MpReachModel.IPv6),
                                 MpReachModel.DecodeUnreach(p, MpReachModel.IPv4));
    if r.Fine? then Some(Unreach(r.value)) else None
  }

  /** None if the bytes are refused, abort the process or do not settle the value. */
  function ValueFrom(kind: nat, p: seq<Byte>): Option<Value> {
    if kind == AS_PATH || kind == AS4_PATH then PathValue(AsPathModel.PathFrom(p, true))
    else if kind == COMMUNITY then Some(Communities(InsertAll(Words(p), [])))
    else if kind == CLUSTER_LIST then Some(Clusters(Words(p)))
    else if kind == MP_REACH_NLRI then ReachFrom(p)
    else if kind == MP_UNREACH_NLRI then UnreachFrom(p)
    else if PlainOk(kind, p) then Some(Plain(p))
    else None
  }

  /** The same from a peer; one without four-byte AS numbers writes an AS_PATH and an AGGREGATOR with
      two-byte numbers. */
  function ReceivedFrom(kind: nat, p: seq<Byte>, wide: bool): Option<Value> {
    if wide || (kind != AS_PATH && kind != AGGREGATOR) then ValueFrom(kind, p)
    else if kind == AS_PATH then PathValue(AsPathModel.PathFrom(p, false))
    else if |p| == 6 then Some(Plain([0, 0] + p))
    else None
  }

  /** PathAttribute::create on bytes that hold one attribute, of a peer with or without four-byte AS
      numbers. */
  function Received(d: seq<Byte>, wide: bool): Option<Attribute>
    requires HasHeader(d) && TlvSize(d) == |d|
  {
    if !IsKnown(d[1]) then (if d[0] < 128 then None else Some(Unknown(ValidFlags(d[0]), d)))
    else if d[0] / 64 != Class(d[1]) then None
    else
      match ReceivedFrom(d[1], d[HeaderSize(d[0])..], wide)
      case Some(v) => Some(Known(ValidFlags(d[0]), d[1], v))
      case None => None
  }

  /** The same without a peer, which counts as having four-byte AS numbers. */
  function Created(d: seq<Byte>): Option<Attribute>
    requires HasHeader(d) && TlvSize(d) == |d|
  {
    Received(d, true)
  }

  // ---- What an encoder leaves behind --------------------------------------------------

  /** Encoding a CLUSTER_LIST of 256 bytes or more aborts. */
  predicate Writable(a: Attribute) {
    a.Known? && a.value.Clusters? ==> |a.value.ids| < 64
  }

  /** The bytes of some attribute of the type. */
  ghost predicate IsImage(d: seq<Byte>, kind: nat) {
    exists a :: WellFormed(a) && Writable(a) && KindOf(a) == kind && Encoded(a) == d
  }

  /** What is stored holds nothing but encoded attributes. */
  ghost predicate Storable(s: Slots) {
    forall i | 0 <= i <= MAX_ATTRIBUTE && s[i].Some? :: IsImage(s[i].value, i)
  }

  // ---- Copies -------------------------------------------------------------------------

  function ClonedValue(v: Value): Value {
    if v.Reach? then Reach(v.reach.(linkLocal := MpReachModel.NoAddress(v.reach.family))) else v
  }

  /** PathAttribute::clone: the copy has the flags its class starts with, and no link-local next
      hop. The bytes of an unknown attribute are copied with its flags. */
  function Cloned(a: Attribute): Attribute {
    match a
    case Known(_, k, v) => Known(64 * Class(k), k, ClonedValue(v))
    case Unknown(_, _) => a
  }
}
