/** Encoding and decoding MP_REACH_NLRI and MP_UNREACH_NLRI, and that they are inverse. */
module MpReach {
  import opened Wrappers
  import opened Nets
  import opened AttributeModel
  import opened CanonicalForm
  import opened MpReachModel

  // ---- Bits and bytes -----------------------------------------------------------------

  lemma Halved(y: nat, b: int)
    requires 0 <= b <= 1
    ensures (2 * y + b) / 2 == y && (2 * y + b) % 2 == b
  {
  }

  /** The low four of eight bits, and what is left above them. */
  lemma LowBits(h: nat, b4: int, b5: int, b6: int, b7: int)
    requires 0 <= b4 <= 1 && 0 <= b5 <= 1 && 0 <= b6 <= 1 && 0 <= b7 <= 1
    ensures var x := 16 * h + 8 * b4 + 4 * b5 + 2 * b6 + b7;
            && x / 16 == h && x / 8 % 2 == b4 && x / 4 % 2 == b5 && x / 2 % 2 == b6 && x % 2 == b7
  {
    var x := 16 * h + 8 * b4 + 4 * b5 + 2 * b6 + b7;
    assert x / 2 == 8 * h + 4 * b4 + 2 * b5 + b6;
    assert x / 4 == 4 * h + 2 * b4 + b5;
    assert x / 8 == 2 * h + b4;
    Halved(2 * h + b4, b5);
    Halved(4 * h + 2 * b4 + b5, b6);
    Halved(8 * h + 4 * b4 + 2 * b5 + b6, b7);
    Halved(h, b4);
  }

  lemma BitsRoundTrip(b: seq<bool>, i: nat)
    requires i < 8
    ensures BitsOf(ByteOf(b))[i] == (i < |b| && b[i])
  {
    var x := ByteOf(b);
    var h := 8 * Bit(b, 0) + 4 * Bit(b, 1) + 2 * Bit(b, 2) + Bit(b, 3);
    LowBits(h, Bit(b, 4), Bit(b, 5), Bit(b, 6), Bit(b, 7));
    LowBits(0, Bit(b, 0), Bit(b, 1), Bit(b, 2), Bit(b, 3));
    HighBits(x, h);
  }

  lemma HighBits(x: nat, h: nat)
    requires x / 16 == h
    ensures x / 32 == h / 2 && x / 64 == h / 4 && x / 128 == h / 8
  {
  }

  /** Packing pads with zeros, so the bits come back once the padding is cut off. */
  lemma {:induction false} PackRoundTrip(n: seq<bool>)
    ensures Unpacked(Packed(n))[..|n|] == n
    decreases |n|
  {
    if n != [] {
      var rest := if |n| < 8 then [] else n[8..];
      PackRoundTrip(rest);
      var u := Unpacked(Packed(n));
      assert Packed(n)[1..] == Packed(rest);
      assert u == BitsOf(ByteOf(n)) + Unpacked(Packed(rest));
      forall i | 0 <= i < |n| ensures u[i] == n[i] {
        if i < 8 {
          BitsRoundTrip(n, i);
        } else {
          assert u[i] == Unpacked(Packed(rest))[..|rest|][i - 8];
        }
      }
    }
  }

  // ---- Prefixes -----------------------------------------------------------------------

  lemma {:induction false} NlriFromStep(n: Net, rest: seq<Byte>, f: Family)
    requires |n| <= 8 * AddressSize(f)
    ensures NlriFrom([|n|] + Packed(n) + rest, f) == MpReachModel.Behind(n, NlriFrom(rest, f))
  {
    var d: seq<Byte> := [|n|] + Packed(n) + rest;
    var bytes := ByteCount(|n|);
    assert d[0] == |n| && d[1..1 + bytes] == Packed(n) && d[1 + bytes..] == rest;
    PackRoundTrip(n);
  }

  lemma NetsOf(ns: seq<Net>, f: Family)
    requires AreNets(ns, f) && ns != []
    ensures AreNets(ns[1..], f) && |ns[0]| <= 8 * AddressSize(f) && forall i | 0 <= i < |ns| :: |ns[i]| <= 128
  {
  }

  lemma {:induction false} NlriRoundTrip(ns: seq<Net>, f: Family)
    requires AreNets(ns, f)
    ensures NlriFrom(NlriBytes(ns), f) == Prefixes(ns)
  {
    if ns != [] {
      NetsOf(ns, f);
      var rest := NlriBytes(ns[1..]);
      NlriFromStep(ns[0], rest, f);
      NlriRoundTrip(ns[1..], f);
      assert NlriBytes(ns) == [|ns[0]|] + Packed(ns[0]) + rest;
      assert MpReachModel.Behind(ns[0], Prefixes(ns[1..])) == Prefixes(ns) by { assert [ns[0]] + ns[1..] == ns; }
    }
  }

  /** Whatever is read are prefixes of the family, and writing them again takes as many bytes. */
  lemma {:induction false} NlriSize(d: seq<Byte>, f: Family)
    requires NlriFrom(d, f).Prefixes?
    ensures AreNets(NlriFrom(d, f).nlri, f) && |NlriBytes(NlriFrom(d, f).nlri)| == |d|
    decreases |d|
  {
    if d != [] {
      var bytes := ByteCount(d[0]);
      NlriSize(d[1 + bytes..], f);
      var ns := NlriFrom(d, f).nlri;
      assert ns[1..] == NlriFrom(d[1 + bytes..], f).nlri;
      assert |ns[0]| == d[0];
    }
  }

  // ---- The attributes -----------------------------------------------------------------

  lemma SafiRoundTrip(f: Family, s: Safi, rest: seq<Byte>)
    requires f.IPv4? ==> s.Multicast?
    ensures SafiFrom(FamilyBytes(f, s) + rest, f) == Some(s)
    ensures f.IPv4? ==> SafiFrom(FamilyBytes(f, s) + rest, IPv6) == None
  {
    var p := FamilyBytes(f, s) + rest;
    assert p[..3] == FamilyBytes(f, s);
    assert p[0] == p[..3][0] && p[1] == p[..3][1] && p[2] == p[..3][2];
  }

  lemma FrontRoundTrip(m: MpReach, rest: seq<Byte>)
    requires IsReach(m)
    ensures var front := FamilyBytes(m.family, m.safi) + NextHopBytes(m);
            FrontFrom(front + rest, m.family) == Some(Front(m.safi, m.nextHop, m.linkLocal, |front|))
  {
    var hops := NextHopBytes(m);
    var p := FamilyBytes(m.family, m.safi) + hops + rest;
    var n := AddressSize(m.family);
    assert p == FamilyBytes(m.family, m.safi) + (hops + rest);
    SafiRoundTrip(m.family, m.safi, hops + rest);
    assert p[3] == hops[0];
    assert p[4..4 + n] == hops[1..1 + n] == m.nextHop;
    if m.linkLocal != NoAddress(m.family) { assert p[4 + n..4 + 2 * n] == m.linkLocal; }
  }

  lemma PayloadRoundTrip(m: MpReach)
    requires IsReach(m)
    ensures DecodePayload(Payload(m), m.family) == Fine(m)
  {
    var front := FamilyBytes(m.family, m.safi) + NextHopBytes(m);
    var rest := [0] + NlriBytes(m.nlri);
    var p := Payload(m);
    assert p == front + rest;
    FrontRoundTrip(m, rest);
    assert p[|front|] == 0;
    assert p[|front| + 1..] == NlriBytes(m.nlri);
    assert SkipSnpas(p, |front| + 1, 0) == Some(|front| + 1);
    NlriRoundTrip(m.nlri, m.family);
  }

  lemma OtherFamily(p: seq<Byte>, f: Family)
    requires |p| >= 3 && SafiFrom(p, f).None?
    ensures DecodePayload(p, f) == Malformed
  {
  }

  lemma NotIPv6(m: MpReach)
    requires IsReach(m) && m.family.IPv4?
    ensures |Payload(m)| >= 3 && SafiFrom(Payload(m), IPv6).None?
  {
    var rest := NextHopBytes(m) + [0] + NlriBytes(m.nlri);
    assert Payload(m) == FamilyBytes(m.family, m.safi) + rest;
    SafiRoundTrip(m.family, m.safi, rest);
  }

  lemma ReachByFamily(m: MpReach, f: Family)
    requires IsReach(m) && (f != m.family ==> f == IPv6)
    ensures DecodePayload(Payload(m), f) == if f == m.family then Fine(m) else Malformed
  {
    if f == m.family {
      PayloadRoundTrip(m);
    } else {
      NotIPv6(m);
      OtherFamily(Payload(m), f);
    }
  }

  /** The attribute is told from one of the other family. */
  lemma ReachRoundTrip(m: MpReach)
    requires IsReach(m)
    ensures OrElse(DecodePayload(Payload(m), IPv6), DecodePayload(Payload(m), IPv4)) == Fine(m)
  {
    ReachByFamily(m, IPv6);
    if m.family.IPv4? { ReachByFamily(m, IPv4); }
  }

  lemma UnreachRoundTrip(u: MpUnreach)
    requires IsUnreach(u)
    ensures OrElse(DecodeUnreach(UnreachPayload(u), IPv6), DecodeUnreach(UnreachPayload(u), IPv4)) == Fine(u)
  {
    SafiRoundTrip(u.family, u.safi, NlriBytes(u.withdrawn));
    assert UnreachPayload(u)[3..] == NlriBytes(u.withdrawn);
    NlriRoundTrip(u.withdrawn, u.family);
  }

  /** What is decoded can be encoded, and takes no more bytes. */
  lemma DecodedIsReach(p: seq<Byte>, f: Family)
    requires DecodePayload(p, f).Fine?
    ensures IsReach(DecodePayload(p, f).value) && |Payload(DecodePayload(p, f).value)| <= |p|
  {
    var front := FrontFrom(p, f).value;
    var pos := SkipSnpas(p, front.end + 1, p[front.end]).value;
    NlriSize(p[pos..], f);
  }

  lemma DecodedIsUnreach(p: seq<Byte>, f: Family)
    requires DecodeUnreach(p, f).Fine?
    ensures IsUnreach(DecodeUnreach(p, f).value) && |UnreachPayload(DecodeUnreach(p, f).value)| == |p|
  {
    NlriSize(p[3..], f);
  }

  /** Decoding an encoded attribute gives it back, with the short and the long header. */
  lemma RoundTrip(m: MpReach)
    requires IsReach(m) && |Payload(m)| < 0x1_0000
    ensures IsTlv(Encode(m), MP_REACH_NLRI)
    ensures Decode(Encode(m), m.family) == Fine(m)
  {
    var d := Encode(m);
    HeaderTlv(OPTIONAL, MP_REACH_NLRI, Payload(m));
    assert d[0] / 64 == 2;
    assert d[HeaderSize(d[0])..] == Payload(m);
    PayloadRoundTrip(m);
  }

  // ---- The loops ----------------------------------------------------------------------

  lemma {:induction false} NlriBytesSnoc(ns: seq<Net>, n: Net)
    requires |n| <= 128 && (forall i | 0 <= i < |ns| :: |ns[i]| <= 128)
    ensures NlriBytes(ns + [n]) == NlriBytes(ns) + ([|n|] + Packed(n))
  {
    if ns == [] {
      assert ns + [n] == [n] && [n][1..] == [];
    } else {
      assert (ns + [n])[1..] == ns[1..] + [n];
      NlriBytesSnoc(ns[1..], n);
    }
  }

  /** Sum up the size, giving up as soon as it does not fit. */
  method Measure(m: MpReach, space: nat) returns (fits: bool, len: nat)
    requires IsReach(m)
    ensures fits == HasRoom(m, space)
    ensures fits ==> len == |Payload(m)|
  {
    len := 2 + 1 + 1 + AddressSize(m.family) + 1;
    if m.linkLocal != NoAddress(m.family) { len := len + AddressSize(m.family); }
    var i := 0;
    ghost var fixed := len;
    assert m.nlri[..0] == [];
    while i < |m.nlri|
      invariant i <= |m.nlri| && len == fixed + |NlriBytes(m.nlri[..i])|
      invariant i > 0 ==> len + 4 <= space
    {
      len := len + 1 + ByteCount(|m.nlri[i]|);
      MeasuredNext(m.nlri, i);
      if space < len + 4 { return false, len; }
      i := i + 1;
    }
    assert m.nlri[..i] == m.nlri;
    fits := true;
  }

  lemma MeasuredNext(ns: seq<Net>, i: nat)
    requires i < |ns| && (forall i | 0 <= i < |ns| :: |ns[i]| <= 128)
    ensures |NlriBytes(ns[..i + 1])| == |NlriBytes(ns[..i])| + 1 + ByteCount(|ns[i]|) <= |NlriBytes(ns)|
    ensures NlriBytes(ns[..i + 1]) == NlriBytes(ns[..i]) + ([|ns[i]|] + Packed(ns[i]))
  {
    assert ns[..i] + [ns[i]] == ns[..i + 1];
    NlriBytesSnoc(ns[..i], ns[i]);
    NlriBytesConcat(ns[..i + 1], ns[i + 1..]);
    assert ns[..i + 1] + ns[i + 1..] == ns;
  }

  lemma {:induction false} NlriBytesConcat(ns: seq<Net>, ms: seq<Net>)
    requires (forall i | 0 <= i < |ns| :: |ns[i]| <= 128) && (forall i | 0 <= i < |ms| :: |ms[i]| <= 128)
    ensures NlriBytes(ns + ms) == NlriBytes(ns) + NlriBytes(ms)
  {
    if ns == [] {
      assert ns + ms == ms;
    } else {
      assert (ns + ms)[1..] == ns[1..] + ms;
      NlriBytesConcat(ns[1..], ms);
    }
  }

  /** Write the prefixes. The running size never gets down to zero, so none is left out. */
  method WriteNlri(ns: seq<Net>, len: nat) returns (d: seq<Byte>)
    requires (forall i | 0 <= i < |ns| :: |ns[i]| <= 128) && len > |NlriBytes(ns)|
    ensures d == NlriBytes(ns)
  {
    d := [];
    var left := len;
    var i := 0;
    assert ns[..0] == [];
    while i < |ns|
      invariant i <= |ns| && d == NlriBytes(ns[..i]) && left == len - |d|
    {
      MeasuredNext(ns, i);
      left := left - (1 + ByteCount(|ns[i]|));
      if left <= 0 { break; }
      d := d + ([|ns[i]|] + Packed(ns[i]));
      i := i + 1;
    }
    assert ns[..i] == ns;
  }

  /** MPReachNLRIAttribute::encode of either family; None if it does not fit. */
  method EncodeAttribute(m: MpReach, space: nat) returns (r: Option<seq<Byte>>)
    requires IsReach(m) && space <= 0x1_0000
    ensures HasRoom(m, space) ==> |Payload(m)| < 0x1_0000 && r == Some(Encode(m))
    ensures !HasRoom(m, space) ==> r == None
  {
    var fits, len := Measure(m, space);
    if !fits { return None; }
    var nlri := WriteNlri(m.nlri, len);
    var d := Header(OPTIONAL, MP_REACH_NLRI, len);
    d := d + (FamilyBytes(m.family, m.safi) + NextHopBytes(m) + [0] + nlri);
    r := Some(d);
  }

  method ReadNlri(d: seq<Byte>, f: Family) returns (r: DecodedNlri)
    ensures r == NlriFrom(d, f)
  {
    var ns: seq<Net> := [];
    var rest := d;
    ghost var whole := NlriFrom(d, f);
    InFrontNothing(whole);
    while rest != []
      invariant whole == InFront(ns, NlriFrom(rest, f))
      decreases |rest|
    {
      var bytes := ByteCount(rest[0]);
      if bytes > AddressSize(f) { return BadLength; }
      if 1 + bytes > |rest| { return Beyond; }
      var n := Unpacked(rest[1..1 + bytes])[..rest[0]];
      NlriStep(rest, f);
      InFrontNext(ns, n, NlriFrom(rest[1 + bytes..], f));
      ns := ns + [n];
      rest := rest[1 + bytes..];
    }
    r := Prefixes(ns);
  }

  lemma {:induction false} NlriStep(d: seq<Byte>, f: Family)
    requires d != [] && ByteCount(d[0]) <= AddressSize(f) && 1 + ByteCount(d[0]) <= |d|
    ensures var bytes := ByteCount(d[0]);
            NlriFrom(d, f) == MpReachModel.Behind(Unpacked(d[1..1 + bytes])[..d[0]], NlriFrom(d[1 + bytes..], f))
  {
  }

  function InFront(ns: seq<Net>, r: DecodedNlri): DecodedNlri {
    if r.Prefixes? then Prefixes(ns + r.nlri) else r
  }

  lemma InFrontNothing(r: DecodedNlri)
    ensures InFront([], r) == r
  {
    if r.Prefixes? { assert [] + r.nlri == r.nlri; }
  }

  lemma InFrontNext(ns: seq<Net>, n: Net, r: DecodedNlri)
    ensures InFront(ns, MpReachModel.Behind(n, r)) == InFront(ns + [n], r)
  {
    if r.Prefixes? { assert ns + ([n] + r.nlri) == ns + [n] + r.nlri; }
  }

  /** Step over the SNPAs. The end is only looked at when all are passed. */
  method StepOver(p: seq<Byte>, start: nat, count: nat) returns (pos: Option<nat>)
    requires start <= |p|
    ensures pos == SkipSnpas(p, start, count)
  {
    var at: nat, left: nat := start, count;
    while left > 0 && at < |p|
      invariant SkipSnpas(p, at, left) == SkipSnpas(p, start, count)
    {
      at := at + 1 + p[at];
      left := left - 1;
    }
    pos := if left > 0 || at > |p| then None else Some(at);
  }

  /** MPReachNLRIAttribute::MPReachNLRIAttribute of either family on received bytes. */
  method DecodeAttribute(d: seq<Byte>, family: Family) returns (r: Read<MpReach>)
    requires HasHeader(d) && TlvSize(d) == |d|
    ensures r == Decode(d, family)
  {
    if d[0] / 64 != 2 { return Malformed; }
    var p := d[HeaderSize(d[0])..];
    var f := FrontFrom(p, family);
    if f.None? || f.value.end >= |p| { return Malformed; }
    var pos := StepOver(p, f.value.end + 1, p[f.value.end]);
    if pos.None? { return Malformed; }
    var nlri := ReadNlri(p[pos.value..], family);
    r := WithNlri(f.value, family, nlri);
  }
}
