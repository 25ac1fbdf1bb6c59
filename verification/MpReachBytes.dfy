/** Exactly which received multiprotocol attributes are written back as they came. */
module MpReachBytes {
  import opened Wrappers
  import opened Nets
  import opened AttributeModel
  import opened MpReachModel
  import MpReach

  // ---- Padding ------------------------------------------------------------------------

  /** The bits behind a prefix of the given length are zero. */
  predicate ZeroBehind(b: seq<Byte>, len: nat) {
    forall i | len <= i < 8 * |b| :: !Unpacked(b)[i]
  }

  /** So for each prefix in turn. */
  predicate PaddingClear(d: seq<Byte>)
    decreases |d|
  {
    d == [] || (
      var bytes := ByteCount(d[0]);
      1 + bytes <= |d| && ZeroBehind(d[1..1 + bytes], d[0]) && PaddingClear(d[1 + bytes..]))
  }

  lemma Half(x: nat, y: nat)
    requires x / 2 == y / 2 && (x % 2 == 1) == (y % 2 == 1)
    ensures x == y
  {
  }

  /** Four bits and what is above them make a number. */
  lemma Nibble(x: nat, y: nat)
    requires x / 16 == y / 16 && (x / 8 % 2 == 1) == (y / 8 % 2 == 1) && (x / 4 % 2 == 1) == (y / 4 % 2 == 1)
    requires (x / 2 % 2 == 1) == (y / 2 % 2 == 1) && (x % 2 == 1) == (y % 2 == 1)
    ensures x == y
  {
    Halves(x);
    Halves(y);
    Half(x / 8, y / 8);
    Half(x / 4, y / 4);
    Half(x / 2, y / 2);
    Half(x, y);
  }

  lemma Halves(x: nat)
    ensures x / 8 / 2 == x / 16 && x / 4 / 2 == x / 8 && x / 2 / 2 == x / 4
  {
  }

  lemma Sixteenths(x: Byte)
    ensures x / 16 / 16 == 0 && x / 16 / 8 == x / 128 && x / 16 / 4 == x / 64 && x / 16 / 2 == x / 32
  {
  }

  /** The bits make the byte. */
  lemma BitsInjective(x: Byte, y: Byte)
    requires BitsOf(x) == BitsOf(y)
    ensures x == y
  {
    SameHigh(x, y);
    SameLow(x, y);
  }

  lemma SameHigh(x: Byte, y: Byte)
    requires BitsOf(x) == BitsOf(y)
    ensures x / 16 == y / 16
  {
    var b, c := BitsOf(x), BitsOf(y);
    assert b[0] == c[0] && b[1] == c[1] && b[2] == c[2] && b[3] == c[3];
    Sixteenths(x);
    Sixteenths(y);
    Nibble(x / 16, y / 16);
  }

  lemma SameLow(x: Byte, y: Byte)
    requires BitsOf(x) == BitsOf(y) && x / 16 == y / 16
    ensures x == y
  {
    var b, c := BitsOf(x), BitsOf(y);
    assert b[4] == c[4] && b[5] == c[5] && b[6] == c[6] && b[7] == c[7];
    Nibble(x, y);
  }

  lemma {:induction false} UnpackedInjective(x: seq<Byte>, y: seq<Byte>)
    requires |x| == |y| && Unpacked(x) == Unpacked(y)
    ensures x == y
  {
    if x != [] {
      assert Unpacked(x)[..8] == BitsOf(x[0]) && Unpacked(y)[..8] == BitsOf(y[0]);
      assert Unpacked(x)[8..] == Unpacked(x[1..]) && Unpacked(y)[8..] == Unpacked(y[1..]);
      BitsInjective(x[0], y[0]);
      UnpackedInjective(x[1..], y[1..]);
      assert x == [x[0]] + x[1..] && y == [y[0]] + y[1..];
    }
  }

  /** Packing writes zeros behind the prefix. */
  lemma {:induction false} PackedPads(n: seq<bool>)
    ensures ZeroBehind(Packed(n), |n|)
    decreases |n|
  {
    if n != [] {
      var rest := if |n| < 8 then [] else n[8..];
      PackedPads(rest);
      var u := Unpacked(Packed(n));
      assert Packed(n)[1..] == Packed(rest);
      assert u == BitsOf(ByteOf(n)) + Unpacked(Packed(rest));
      forall i | |n| <= i < 8 * |Packed(n)| ensures !u[i] {
        if i < 8 {
          MpReach.BitsRoundTrip(n, i);
        } else {
          assert u[i] == Unpacked(Packed(rest))[i - 8];
        }
      }
    }
  }

  /** Bytes are those of the prefix they hold if and only if the bits behind it are zero. */
  lemma PackedAlike(b: seq<Byte>, len: nat)
    requires |b| == ByteCount(len) && len <= 8 * |b|
    ensures Packed(Unpacked(b)[..len]) == b <==> ZeroBehind(b, len)
  {
    var n := Unpacked(b)[..len];
    var d := Packed(n);
    PackedPads(n);
    MpReach.PackRoundTrip(n);
    if ZeroBehind(b, len) {
      forall i | 0 <= i < 8 * |b| ensures Unpacked(d)[i] == Unpacked(b)[i] {
        if i < len { assert Unpacked(d)[..len][i] == n[i]; }
      }
      UnpackedInjective(d, b);
    }
  }

  // ---- Prefixes -----------------------------------------------------------------------

  lemma {:induction false} NlriHead(d: seq<Byte>, f: Family)
    requires d != [] && NlriFrom(d, f).Prefixes?
    ensures var bytes := ByteCount(d[0]);
            var ns := NlriFrom(d, f).nlri;
            && 1 + bytes <= |d| && ns != [] && NlriFrom(d[1 + bytes..], f) == Prefixes(ns[1..])
            && ns[0] == Unpacked(d[1..1 + bytes])[..d[0]]
  {
    var rest := NlriFrom(d[1 + ByteCount(d[0])..], f);
    assert NlriFrom(d, f).nlri[1..] == rest.nlri;
  }

  lemma {:induction false} NlriAlike(d: seq<Byte>, f: Family)
    requires NlriFrom(d, f).Prefixes?
    ensures AreNets(NlriFrom(d, f).nlri, f) && (NlriBytes(NlriFrom(d, f).nlri) == d <==> PaddingClear(d))
    decreases |d|
  {
    MpReach.NlriSize(d, f);
    if d != [] {
      var bytes := ByteCount(d[0]);
      var ns := NlriFrom(d, f).nlri;
      NlriHead(d, f);
      NlriAlike(d[1 + bytes..], f);
      PackedAlike(d[1..1 + bytes], d[0]);
      SplitsAlike(d[0], Packed(ns[0]), NlriBytes(ns[1..]), d, bytes);
    }
  }

  lemma SplitsAlike(x: Byte, y: seq<Byte>, z: seq<Byte>, d: seq<Byte>, n: nat)
    requires |y| == n && 1 + n <= |d| && d[0] == x
    ensures [x] + y + z == d <==> y == d[1..1 + n] && z == d[1 + n..]
  {
    var w := [x] + y + z;
    assert w[1..1 + n] == y && w[1 + n..] == z;
    assert d == [x] + d[1..1 + n] + d[1 + n..];
  }

  // ---- The attributes -----------------------------------------------------------------

  predicate RestSettled(p: seq<Byte>, k: nat)
    requires k < |p|
  {
    p[k] == 0 && PaddingClear(p[k + 1..])
  }

  /** No link-local next hop of zeros, no SNPAs, and clear padding. */
  predicate ReachSettled(p: seq<Byte>, f: Family) {
    && |p| >= 4 && 4 + p[3] < |p|
    && (p[3] == 2 * AddressSize(f) ==> p[4 + AddressSize(f)..4 + 2 * AddressSize(f)] != NoAddress(f))
    && RestSettled(p, p[3] as int + 4)
  }

  lemma ReachAlike(p: seq<Byte>, f: Family)
    requires DecodePayload(p, f).Fine?
    ensures IsReach(DecodePayload(p, f).value)
    ensures Payload(DecodePayload(p, f).value) == p <==> ReachSettled(p, f)
  {
    MpReach.DecodedIsReach(p, f);
    var m := DecodePayload(p, f).value;
    FrontIs(p, f);

    if m.linkLocal == NoAddress(f) && p[3] == 2 * AddressSize(f) {
      Shorter(p, f, m);
    } else {
      FrontAlike(p, f, m);
      if p[4 + p[3]] == 0 { NlriOf(p, f, m, 4 + p[3]); }
      RestAlike(p, f, m, 4 + p[3]);
      LinkLocalIs(p, f, m);
    }
  }

  lemma FrontIs(p: seq<Byte>, f: Family)
    requires DecodePayload(p, f).Fine?
    ensures |p| >= 4 && 4 + p[3] < |p| && FrontFrom(p, f).Some? && FrontFrom(p, f).value.end == 4 + p[3]
    ensures DecodePayload(p, f).value.family == f
    ensures p[3] == AddressSize(f) || p[3] == 2 * AddressSize(f)
  {
  }

  /** A link-local next hop of zeros is left out. */
  lemma Shorter(p: seq<Byte>, f: Family, m: MpReachModel.MpReach)
    requires DecodePayload(p, f) == Fine(m) && IsReach(m)
    requires |p| >= 4 && p[3] == 2 * AddressSize(f) && m.linkLocal == NoAddress(f)
    ensures Payload(m) != p && !ReachSettled(p, f)
  {
    assert Payload(m)[3] == AddressSize(f);
    assert m.linkLocal == p[4 + AddressSize(f)..4 + 2 * AddressSize(f)];
  }

  lemma LinkLocalIs(p: seq<Byte>, f: Family, m: MpReachModel.MpReach)
    requires DecodePayload(p, f) == Fine(m) && |p| >= 4 && 4 + p[3] < |p|
    ensures p[3] == 2 * AddressSize(f) ==> m.linkLocal == p[4 + AddressSize(f)..4 + 2 * AddressSize(f)]
  {
  }

  lemma FrontAlike(p: seq<Byte>, f: Family, m: MpReachModel.MpReach)
    requires DecodePayload(p, f) == Fine(m) && IsReach(m) && |p| >= 4 && 4 + p[3] < |p|
    requires p[3] == AddressSize(f) || (p[3] == 2 * AddressSize(f) && m.linkLocal != NoAddress(f))
    ensures FamilyBytes(m.family, m.safi) + NextHopBytes(m) == p[..4 + p[3]]
  {
    var n := AddressSize(f);
    assert FamilyBytes(m.family, m.safi) == p[..3];
    assert m.nextHop == p[4..4 + n];
    if p[3] == n {
      assert NextHopBytes(m) == [p[3]] + p[4..4 + n];
    } else {
      assert m.linkLocal == p[4 + n..4 + 2 * n];
      assert NextHopBytes(m) == [p[3]] + p[4..4 + n] + p[4 + n..4 + 2 * n];
    }
  }

  lemma RestAlike(p: seq<Byte>, f: Family, m: MpReachModel.MpReach, k: nat)
    requires IsReach(m) && k < |p| && FamilyBytes(m.family, m.safi) + NextHopBytes(m) == p[..k]
    requires p[k] == 0 ==> NlriFrom(p[k + 1..], f) == Prefixes(m.nlri)
    ensures Payload(m) == p <==> RestSettled(p, k)
  {
    PayloadParts(p, m, k);
    if p[k] == 0 { NlriAlike(p[k + 1..], f); }
  }

  /** Without SNPAs the prefixes follow at once. */
  lemma NlriOf(p: seq<Byte>, f: Family, m: MpReachModel.MpReach, k: nat)
    requires DecodePayload(p, f) == Fine(m) && k < |p| && p[k] == 0
    requires FrontFrom(p, f).Some? && FrontFrom(p, f).value.end == k
    ensures NlriFrom(p[k + 1..], f) == Prefixes(m.nlri)
  {
    assert SkipSnpas(p, k + 1, 0) == Some(k + 1);
  }

  lemma PayloadParts(p: seq<Byte>, m: MpReachModel.MpReach, k: nat)
    requires IsReach(m) && k < |p| && FamilyBytes(m.family, m.safi) + NextHopBytes(m) == p[..k]
    ensures Payload(m) == p <==> p[k] == 0 && NlriBytes(m.nlri) == p[k + 1..]
  {
    var nlri := NlriBytes(m.nlri);
    var q := p[..k] + [0] + nlri;
    assert Payload(m) == q;
    assert q[k] == 0 && q[k + 1..] == nlri && q[..k] == p[..k];
    if p[k] == 0 && nlri == p[k + 1..] { assert p == p[..k] + [p[k]] + p[k + 1..]; }
  }

  lemma UnreachAlike(p: seq<Byte>, f: Family)
    requires DecodeUnreach(p, f).Fine?
    ensures IsUnreach(DecodeUnreach(p, f).value)
    ensures UnreachPayload(DecodeUnreach(p, f).value) == p <==> PaddingClear(p[3..])
  {
    MpReach.DecodedIsUnreach(p, f);
    var u := DecodeUnreach(p, f).value;
    NlriAlike(p[3..], f);
    assert FamilyBytes(u.family, u.safi) == p[..3];
    assert p == p[..3] + p[3..];
    assert UnreachPayload(u)[3..] == NlriBytes(u.withdrawn);
  }
}
