/** Path attributes as type-length-value triples, and the canonical form of a list of them. */
module AttributeModel {
  import opened Wrappers

  const MAX_ATTRIBUTE: nat := 20

  const ORIGIN: nat := 1
  const AS_PATH: nat := 2
  const NEXT_HOP: nat := 3
  const MED: nat := 4
  const LOCAL_PREF: nat := 5
  const ATOMIC_AGGREGATE: nat := 6
  const AGGREGATOR: nat := 7
  const COMMUNITY: nat := 8
  const ORIGINATOR_ID: nat := 9
  const CLUSTER_LIST: nat := 10
  const MP_REACH_NLRI: nat := 14
  const MP_UNREACH_NLRI: nat := 15
  const AS4_PATH: nat := 17
  const AS4_AGGREGATOR: nat := 18

  // ---- Flags --------------------------------------------------------------------------

  /** The four low bits of the flags are not used. */
  function ValidFlags(f: Byte): Byte {
    f - f % 16
  }

  /** The flag 0x10: the length takes two bytes. */
  predicate Extended(f: Byte) {
    f / 16 % 2 == 1
  }

  function WithExtended(f: Byte, on: bool): (r: Byte)
    ensures Extended(r) == on
  {
    if Extended(f) == on then f else if on then f + 16 else f - 16
  }

  // ---- One attribute ------------------------------------------------------------------

  function HeaderSize(f: Byte): nat {
    if Extended(f) then 4 else 3
  }

  /** The header length of data that has at least a header, and the size it announces. */
  predicate HasHeader(d: seq<Byte>) {
    |d| >= 3 && (Extended(d[0]) ==> |d| >= 4)
  }

  function PayloadSize(d: seq<Byte>): nat
    requires HasHeader(d)
  {
    if Extended(d[0]) then (var high: int, low: int := d[2], d[3]; high * 256 + low) else d[2]
  }

  function TlvSize(d: seq<Byte>): nat
    requires HasHeader(d)
  {
    PayloadSize(d) + HeaderSize(d[0])
  }

  /** Exactly one attribute of the given type, with no unused flag set. */
  predicate IsTlv(d: seq<Byte>, kind: nat) {
    HasHeader(d) && TlvSize(d) == |d| && d[1] == kind && d[0] % 16 == 0
  }

  /** PathAttribute::set_header: the length field is as long as the payload calls for. */
  function Header(flags: Byte, kind: Byte, size: nat): seq<Byte>
    requires size < 0x1_0000
  {
    if size > 255 then [ValidFlags(WithExtended(flags, true)), kind, size / 256, size % 256]
    else [ValidFlags(WithExtended(flags, false)), kind, size]
  }

  // ---- A list of attributes -----------------------------------------------------------

  /** For each type the bytes of its attribute, if there is one. */
  type Slots = s: seq<Option<seq<Byte>>> | |s| == MAX_ATTRIBUTE + 1 witness seq(MAX_ATTRIBUTE + 1, i => None)

  const NO_SLOTS: Slots := seq(MAX_ATTRIBUTE + 1, i => None)

  ghost predicate WellFormedSlots(s: Slots) {
    forall i | 0 <= i <= MAX_ATTRIBUTE && s[i].Some? :: IsTlv(s[i].value, i)
  }

  /** NEXT_HOP takes the place of ORIGIN, which moves AS_PATH. */
  function AttOrder(i: nat): (t: nat)
    requires i <= MAX_ATTRIBUTE
    ensures t <= MAX_ATTRIBUTE
  {
    if i == 1 then 3 else if i == 2 then 1 else if i == 3 then 2 else i
  }

  function SlotBytes(s: Option<seq<Byte>>): seq<Byte> {
    if s.Some? then s.value else []
  }

  /** The canonical form from the i-th attribute in order on. */
  function CanonicalFrom(s: Slots, i: nat): seq<Byte>
    requires i <= MAX_ATTRIBUTE + 1
    decreases |s| - i
  {
    if i > MAX_ATTRIBUTE then [] else SlotBytes(s[AttOrder(i)]) + CanonicalFrom(s, i + 1)
  }

  function Canonical(s: Slots): seq<Byte> {
    CanonicalFrom(s, 0)
  }

  /** FastPathAttributeList::quick_decode: find where each attribute is. None if the data is
      corrupt. Fewer than three bytes never hold an attribute, whatever follows them in memory. */
  function QuickDecode(d: seq<Byte>, s: Slots): Option<Slots>
    decreases |d|
  {
    if d == [] then Some(s)
    else if !HasHeader(d) || |d| < TlvSize(d) then None
    else QuickDecode(d[TlvSize(d)..], if d[1] <= MAX_ATTRIBUTE then s[d[1] := Some(d[..TlvSize(d)])] else s)
  }
}
