/** The MP_REACH_NLRI and MP_UNREACH_NLRI attributes (sections 3 to 5 of RFC 4760). */
module MpReachModel {
  import opened Wrappers
  import opened Nets
  import opened AttributeModel

  datatype Safi = Unicast | Multicast
  datatype Family = IPv4 | IPv6

  /** Bytes of an address. */
  function AddressSize(f: Family): nat {
    if f.IPv4? then 4 else 16
  }

  function NoAddress(f: Family): seq<Byte> {
    seq(AddressSize(f), _ => 0)
  }

  /** The bytes of the next hops, a link-local next hop of zeros standing for none, and prefixes. */
  datatype MpReach = MpReach(family: Family, safi: Safi, nextHop: seq<Byte>, linkLocal: seq<Byte>, nlri: seq<Net>)
  datatype MpUnreach = MpUnreach(family: Family, safi: Safi, withdrawn: seq<Net>)

  predicate AreNets(ns: seq<Net>, f: Family) {
    forall i | 0 <= i < |ns| :: |ns[i]| <= 8 * AddressSize(f)
  }

  /** IPv4 unicast prefixes travel outside the attributes, and only IPv6 has link-local next hops. */
  predicate IsReach(m: MpReach) {
    && |m.nextHop| == |m.linkLocal| == AddressSize(m.family) && AreNets(m.nlri, m.family)
    && (m.family.IPv4? ==> m.safi.Multicast? && m.linkLocal == NoAddress(IPv4))
  }

  predicate IsUnreach(u: MpUnreach) {
    AreNets(u.withdrawn, u.family) && (u.family.IPv4? ==> u.safi.Multicast?)
  }

  const OPTIONAL: Byte := 0x80

  // ---- Bits and bytes -----------------------------------------------------------------

  function Bit(b: seq<bool>, i: nat): int {
    if i < |b| && b[i] then 1 else 0
  }

  /** The first eight bits, missing ones being zero. */
  function ByteOf(b: seq<bool>): Byte {
    128 * Bit(b, 0) + 64 * Bit(b, 1) + 32 * Bit(b, 2) + 16 * Bit(b, 3) +
    8 * Bit(b, 4) + 4 * Bit(b, 5) + 2 * Bit(b, 6) + Bit(b, 7)
  }

  function BitsOf(x: Byte): (b: seq<bool>)
    ensures |b| == 8
  {
    [x / 128 % 2 == 1, x / 64 % 2 == 1, x / 32 % 2 == 1, x / 16 % 2 == 1,
     x / 8 % 2 == 1, x / 4 % 2 == 1, x / 2 % 2 == 1, x % 2 == 1]
  }

  /** The bytes of the masked address that hold the prefix. */
  function Packed(n: seq<bool>): (d: seq<Byte>)
    ensures |d| == (|n| + 7) / 8
    decreases |n|
  {
    if n == [] then [] else [ByteOf(n)] + Packed(if |n| < 8 then [] else n[8..])
  }

  function Unpacked(d: seq<Byte>): (b: seq<bool>)
    ensures |b| == 8 * |d|
  {
    if d == [] then [] else BitsOf(d[0]) + Unpacked(d[1..])
  }

  // ---- Encoding -----------------------------------------------------------------------

  function NlriBytes(ns: seq<Net>): seq<Byte>
    requires forall i | 0 <= i < |ns| :: |ns[i]| <= 128
  {
    if ns == [] then [] else [|ns[0]|] + Packed(ns[0]) + NlriBytes(ns[1..])
  }

  function SafiByte(s: Safi): Byte {
    if s.Unicast? then 1 else 2
  }

  /** AFI and SAFI. */
  function FamilyBytes(f: Family, s: Safi): seq<Byte> {
    [0, if f.IPv4? then 1 else 2, SafiByte(s)]
  }

  function NextHopBytes(m: MpReach): seq<Byte>
    requires IsReach(m)
  {
    if m.linkLocal == NoAddress(m.family) then [AddressSize(m.family)] + m.nextHop
    else [2 * AddressSize(m.family)] + m.nextHop + m.linkLocal
  }

  /** Family, next hops, no SNPAs, prefixes. */
  function Payload(m: MpReach): seq<Byte>
    requires IsReach(m)
  {
    FamilyBytes(m.family, m.safi) + NextHopBytes(m) + [0] + NlriBytes(m.nlri)
  }

  function UnreachPayload(u: MpUnreach): seq<Byte>
    requires IsUnreach(u)
  {
    FamilyBytes(u.family, u.safi) + NlriBytes(u.withdrawn)
  }

  /** Room is only looked for while there are prefixes. */
  predicate HasRoom(m: MpReach, space: nat)
    requires IsReach(m)
  {
    m.nlri == [] || |Payload(m)| + 4 <= space
  }

  function Encode(m: MpReach): seq<Byte>
    requires IsReach(m) && |Payload(m)| < 0x1_0000
  {
    Header(OPTIONAL, MP_REACH_NLRI, |Payload(m)|) + Payload(m)
  }

  // ---- Decoding -----------------------------------------------------------------------

  /** Undetermined: the family or the last prefix reaches beyond the attribute, and its bits are
      whatever follows in memory. Other reads beyond the end are always found out afterwards. */
  datatype Read<+T> = Fine(value: T) | Malformed | Undetermined

  datatype DecodedNlri = Prefixes(nlri: seq<Net>) | BadLength | Beyond

  function Behind(n: Net, r: DecodedNlri): DecodedNlri {
    if r.Prefixes? then Prefixes([n] + r.nlri) else r
  }

  /** Bytes of a prefix of the given length. */
  function ByteCount(len: nat): nat {
    (len + 7) / 8
  }

  function NlriFrom(d: seq<Byte>, f: Family): DecodedNlri
    decreases |d|
  {
    if d == [] then Prefixes([])
    else
      var bytes := ByteCount(d[0]);
      if bytes > AddressSize(f) then BadLength
      else if 1 + bytes > |d| then Beyond
      else
        Behind(Unpacked(d[1..1 + bytes])[..d[0]], NlriFrom(d[1 + bytes..], f))
  }

  /** Step over the SNPAs; None if they reach beyond the end. */
  function SkipSnpas(d: seq<Byte>, pos: nat, count: nat): (r: Option<nat>)
    ensures r.Some? ==> pos <= r.value <= |d|
    decreases count
  {
    if pos > |d| then None
    else if count == 0 then Some(pos)
    else if pos == |d| then None
    else SkipSnpas(d, pos + 1 + d[pos], count - 1)
  }

  /** The SAFI, if family and SAFI are as the decoder of the family wants them. */
  function SafiFrom(p: seq<Byte>, f: Family): Option<Safi>
    requires |p| >= 3
  {
    if p[0] != 0 || p[1] != (if f.IPv4? then 1 else 2) || (p[2] != 1 && p[2] != 2) then None
    else if f.IPv4? && p[2] == 1 then None
    else Some(if p[2] == 1 then Unicast else Multicast)
  }

  /** SAFI and next hops, and where they end; None if anything is wrong with them. */
  datatype Front = Front(safi: Safi, nextHop: seq<Byte>, linkLocal: seq<Byte>, end: nat)

  function FrontFrom(p: seq<Byte>, f: Family): Option<Front> {
    var n := AddressSize(f);
    if |p| < 4 || SafiFrom(p, f).None? || (p[3] != n && (f.IPv4? || p[3] != 2 * n)) || 4 + p[3] > |p| then None
    else
      Some(Front(SafiFrom(p, f).value, p[4..4 + n], if p[3] == n then NoAddress(f) else p[4 + n..4 + 2 * n], 4 + p[3]))
  }

  function WithNlri(f: Front, family: Family, r: DecodedNlri): Read<MpReach> {
    match r
    case Prefixes(ns) => Fine(MpReach(family, f.safi, f.nextHop, f.linkLocal, ns))
    case BadLength => Malformed
    case Beyond => Undetermined
  }

  function DecodePayload(p: seq<Byte>, family: Family): Read<MpReach> {
    var f := FrontFrom(p, family);
    if f.None? || f.value.end >= |p| then Malformed
    else
      var pos := SkipSnpas(p, f.value.end + 1, p[f.value.end]);
      if pos.None? then Malformed else WithNlri(f.value, family, NlriFrom(p[pos.value..], family))
  }

  function DecodeUnreach(p: seq<Byte>, family: Family): Read<MpUnreach> {
    if |p| < 3 then Undetermined
    else if SafiFrom(p, family).None? then Malformed
    else
      match NlriFrom(p[3..], family)
      case Prefixes(ns) => Fine(MpUnreach(family, SafiFrom(p, family).value, ns))
      case BadLength => Malformed
      case Beyond => Undetermined
  }

  /** PathAttribute::create tries IPv6 first and IPv4 if that fails. */
  function OrElse<T>(r: Read<T>, s: Read<T>): Read<T> {
    if r.Malformed? then s else r
  }

  /** The flags must say optional and not transitive. */
  function Decode(d: seq<Byte>, family: Family): Read<MpReach>
    requires HasHeader(d) && TlvSize(d) == |d|
  {
    if d[0] / 64 != 2 then Malformed else DecodePayload(d[HeaderSize(d[0])..], family)
  }
}
