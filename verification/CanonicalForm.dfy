/** Decoding the canonical form of an attribute list finds every attribute again. */
module CanonicalForm {
  import opened Wrappers
  import opened AttributeModel

  /** A header and the payload it was made for are one attribute. */
  lemma HeaderTlv(flags: Byte, kind: Byte, p: seq<Byte>)
    requires |p| < 0x1_0000
    ensures var d := Header(flags, kind, |p|) + p;
            && IsTlv(d, kind) && d[0] == ValidFlags(WithExtended(flags, |p| > 255))
            && PayloadSize(d) == |p| && d[HeaderSize(d[0])..] == p
  {
    var h := Header(flags, kind, |p|);
    var d := h + p;
    assert d[0] == h[0] && d[1] == h[1] && d[2] == h[2];
    if |p| > 255 { assert d[3] == h[3]; }
  }

  // ---- The list -----------------------------------------------------------------------

  /** Where a type stands in the canonical order. */
  function Rank(t: nat): nat {
    if t == 3 then 1 else if t == 1 then 2 else if t == 2 then 3 else t
  }

  /** The slots found once the first i attributes in order have been decoded. */
  function Upto(s: Slots, i: nat): Slots {
    seq(MAX_ATTRIBUTE + 1, t requires 0 <= t <= MAX_ATTRIBUTE => if Rank(t) < i then s[t] else None)
  }

  lemma UptoNext(s: Slots, i: nat)
    requires i <= MAX_ATTRIBUTE
    ensures Upto(s, i + 1) == Upto(s, i)[AttOrder(i) := s[AttOrder(i)]]
  {
  }

  /** One attribute at the front of some data. */
  lemma FrontTlv(d: seq<Byte>, kind: nat, rest: seq<Byte>)
    requires IsTlv(d, kind)
    ensures HasHeader(d + rest) && TlvSize(d + rest) == |d| && (d + rest)[1] == kind
    ensures (d + rest)[..|d|] == d && (d + rest)[|d|..] == rest
  {
  }

  lemma {:induction false} DecodeNext(d: seq<Byte>, kind: nat, rest: seq<Byte>, s: Slots)
    requires IsTlv(d, kind) && kind <= MAX_ATTRIBUTE
    ensures QuickDecode(d + rest, s) == QuickDecode(rest, s[kind := Some(d)])
  {
    FrontTlv(d, kind, rest);
  }

  lemma {:induction false} DecodeFrom(s: Slots, i: nat)
    requires WellFormedSlots(s) && i <= MAX_ATTRIBUTE + 1
    ensures QuickDecode(CanonicalFrom(s, i), Upto(s, i)) == Some(s)
    decreases MAX_ATTRIBUTE + 1 - i
  {
    if i > MAX_ATTRIBUTE {
      assert Upto(s, i) == s;
    } else {
      var t := AttOrder(i);
      UptoNext(s, i);
      DecodeFrom(s, i + 1);
      if s[t].Some? {
        DecodeNext(s[t].value, t, CanonicalFrom(s, i + 1), Upto(s, i));
      } else {
        assert Upto(s, i)[t := None] == Upto(s, i);
        assert SlotBytes(s[t]) + CanonicalFrom(s, i + 1) == CanonicalFrom(s, i + 1);
      }
    }
  }

  /** Decoding the canonical form recovers the bytes of every attribute, and so canonicalizing
      once more gives the same bytes. */
  lemma CanonicalRoundTrip(s: Slots)
    requires WellFormedSlots(s)
    ensures QuickDecode(Canonical(s), NO_SLOTS) == Some(s)
  {
    assert Upto(s, 0) == NO_SLOTS;
    DecodeFrom(s, 0);
  }

  /** Equal canonical forms mean equal lists. */
  lemma CanonicalInjective(s: Slots, s': Slots)
    requires WellFormedSlots(s) && WellFormedSlots(s') && Canonical(s) == Canonical(s')
    ensures s == s'
  {
    CanonicalRoundTrip(s);
    CanonicalRoundTrip(s');
  }

  /** A list with a next hop begins with it, if and only if it has no attribute of type 0. */
  lemma NextHopFirst(s: Slots)
    requires WellFormedSlots(s) && s[3].Some?
    ensures s[3].value <= Canonical(s) <==> s[0].None?
  {
    if s[0].None? {
      assert CanonicalFrom(s, 0) == CanonicalFrom(s, 1);
      assert CanonicalFrom(s, 1) == s[3].value + CanonicalFrom(s, 2);
    } else {
      FrontTlv(s[0].value, 0, CanonicalFrom(s, 1));
      assert Canonical(s) == s[0].value + CanonicalFrom(s, 1);
      assert s[3].value[1] == 3 && Canonical(s)[1] == 0;
    }
  }
}
