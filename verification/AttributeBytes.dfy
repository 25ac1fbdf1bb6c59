/** Decoding an attribute and encoding it again: what comes back, and exactly when nothing changes. */
module AttributeBytes {
  import opened Wrappers
  import opened AttributeModel
  import opened AttributeValues
  import opened CanonicalForm
  import AsPathModel
  import AsPathTunnel
  import MpReachModel
  import MpReach
  import MpReachBytes

  // ---- Communities --------------------------------------------------------------------

  /** Inserting keeps the order and adds just the number. */
  lemma {:induction false} InsertKeeps(x: Word, s: seq<Word>)
    requires Ascending(s)
    ensures Ascending(Insert(x, s)) && |Insert(x, s)| <= |s| + 1
    ensures forall w :: w in Insert(x, s) <==> w == x || w in s
  {
    if s != [] && x > s[0] {
      var r := Insert(x, s[1..]);
      InsertKeeps(x, s[1..]);
      assert s == [s[0]] + s[1..];
      forall i, j | 0 <= i < j < |[s[0]] + r| ensures ([s[0]] + r)[i] < ([s[0]] + r)[j] {
        assert r[j - 1] in r;
        if i > 0 { assert r[i - 1] < r[j - 1]; }
      }
    } else if s != [] && x == s[0] {
      assert x in s;
    }
  }

  /** A community attribute holds each community once, in order. */
  lemma {:induction false} InsertAllKeeps(ws: seq<Word>, s: seq<Word>)
    requires Ascending(s)
    ensures Ascending(InsertAll(ws, s)) && |InsertAll(ws, s)| <= |s| + |ws|
    ensures forall w :: w in InsertAll(ws, s) <==> w in ws || w in s
    decreases |ws|
  {
    if ws != [] {
      InsertKeeps(ws[0], s);
      InsertAllKeeps(ws[1..], Insert(ws[0], s));
      assert ws == [ws[0]] + ws[1..];
    }
  }

  lemma {:induction false} InsertLast(x: Word, s: seq<Word>)
    requires Ascending(s + [x])
    ensures Insert(x, s) == s + [x]
  {
    if s != [] {
      var t := s + [x];
      assert t[0] == s[0] && t[|s|] == x && t[0] < t[|s|];
      assert s[1..] + [x] == t[1..];
      InsertLast(x, s[1..]);
    }
  }

  lemma {:induction false} InsertAllInOrder(ws: seq<Word>, s: seq<Word>)
    requires Ascending(s + ws)
    ensures InsertAll(ws, s) == s + ws
    decreases |ws|
  {
    if ws == [] {
      assert s + ws == s;
    } else {
      var t := s + [ws[0]];
      assert t + ws[1..] == s + ws;
      assert t == (s + ws)[..|t|];
      InsertLast(ws[0], s);
      InsertAllInOrder(ws[1..], t);
    }
  }

  lemma {:induction false} WordsRoundTrip(ws: seq<Word>)
    ensures Words(AsPathModel.ListBytes(ws, true)) == ws
  {
    var d := AsPathModel.ListBytes(ws, true);
    AsPathTunnel.ListRoundTrip(ws, true, []);
    assert d + [] == d;
  }

  /** The other way about, up to three bytes left over are lost. */
  lemma {:induction false} WordsBack(p: seq<Byte>)
    ensures AsPathModel.ListBytes(Words(p), true) == p[..4 * (|p| / 4)]
  {
    AsPathTunnel.ListBytesBack(p, |p| / 4, true);
  }

  /** The loop of CommunityAttribute::CommunityAttribute over the bytes. */
  method ReadCommunities(p: seq<Byte>) returns (ids: seq<Word>)
    ensures ids == InsertAll(Words(p), [])
    ensures Ascending(ids) && forall w :: w in ids <==> w in Words(p)
  {
    ids := [];
    var rest := p;
    while |rest| >= 4
      invariant InsertAll(Words(rest), ids) == InsertAll(Words(p), [])
      decreases |rest|
    {
      assert Words(rest) == [AsPathModel.AsFrom(rest, true)] + Words(rest[4..]);
      ids := Insert(AsPathModel.AsFrom(rest, true), ids);
      rest := rest[4..];
    }
    InsertAllKeeps(Words(p), []);
  }

  // ---- Values -------------------------------------------------------------------------

  /** What was written is read again, whatever the type. */
  lemma ValueRoundTrip(kind: nat, v: Value)
    requires ValueOk(kind, v)
    ensures ValueFrom(kind, Payload(kind, v)) == Some(v)
  {
    match v
    case Plain(_) =>
    case AsPath(p) => PathValueRoundTrip(p);
    case Communities(ids) =>
      WordsRoundTrip(ids);
      assert [] + ids == ids;
      InsertAllInOrder(ids, []);
    case Clusters(ids) => WordsRoundTrip(ids);
    case Reach(m) => MpReach.ReachRoundTrip(m);
    case Unreach(u) => MpReach.UnreachRoundTrip(u);
  }

  lemma {:induction false} PathValueRoundTrip(p: AsPathModel.Path)
    requires AsPathModel.Encodable(p)
    ensures AsPathModel.PathFrom(AsPathModel.PathBytes(p, true), true) == AsPathModel.Ok(p)
  {
    AsPathTunnel.PathRoundTrip(p, true);
  }

  /** Whatever is read can be written, into no more space. */
  lemma ValueFromOk(kind: nat, p: seq<Byte>)
    requires ValueFrom(kind, p).Some?
    ensures ValueOk(kind, ValueFrom(kind, p).value) && |Payload(kind, ValueFrom(kind, p).value)| <= |p|
  {
    if kind == AS_PATH || kind == AS4_PATH {
      AsPathTunnel.BytesRoundTrip(p, true);
    } else if kind == COMMUNITY {
      InsertAllKeeps(Words(p), []);
    } else if kind == MP_REACH_NLRI {
      ReachFromOk(p);
    } else if kind == MP_UNREACH_NLRI {
      UnreachFromOk(p);
    }
  }

  lemma ReachFromOk(p: seq<Byte>)
    requires ReachFrom(p).Some?
    ensures MpReachModel.IsReach(ReachFrom(p).value.reach) && |MpReachModel.Payload(ReachFrom(p).value.reach)| <= |p|
  {
    var r := MpReachModel.DecodePayload(p, MpReachModel.IPv6);
    MpReach.DecodedIsReach(p, if r.Fine? then MpReachModel.IPv6 else MpReachModel.IPv4);
  }

  lemma UnreachFromOk(p: seq<Byte>)
    requires UnreachFrom(p).Some?
    ensures MpReachModel.IsUnreach(UnreachFrom(p).value.unreach)
    ensures |MpReachModel.UnreachPayload(UnreachFrom(p).value.unreach)| <= |p|
  {
    var r := MpReachModel.DecodeUnreach(p, MpReachModel.IPv6);
    MpReach.DecodedIsUnreach(p, if r.Fine? then MpReachModel.IPv6 else MpReachModel.IPv4);
  }

  /** The family that the second byte of a multiprotocol attribute names. */
  function FamilyOf(p: seq<Byte>): MpReachModel.Family {
    if |p| >= 2 && p[1] == 1 then MpReachModel.IPv4 else MpReachModel.IPv6
  }

  /** The payloads that are written as they were read: communities must be whole, each there once
      and in order, cluster identifiers whole; behind every prefix there must be zeros, and an
      MP_REACH_NLRI must have no SNPAs and no link-local next hop of zeros. */
  predicate Settled(kind: nat, p: seq<Byte>) {
    && (kind == COMMUNITY ==> |p| % 4 == 0 && Ascending(Words(p)))
    && (kind == CLUSTER_LIST ==> |p| % 4 == 0)
    && (kind == MP_REACH_NLRI ==> MpReachBytes.ReachSettled(p, FamilyOf(p)))
    && (kind == MP_UNREACH_NLRI ==> |p| >= 3 && MpReachBytes.PaddingClear(p[3..]))
  }

  lemma PayloadAlike(kind: nat, p: seq<Byte>)
    requires ValueFrom(kind, p).Some?
    ensures ValueOk(kind, ValueFrom(kind, p).value)
    ensures Payload(kind, ValueFrom(kind, p).value) == p <==> Settled(kind, p)
  {
    ValueFromOk(kind, p);
    if kind == AS_PATH || kind == AS4_PATH {
      AsPathTunnel.BytesRoundTrip(p, true);
    } else if kind == COMMUNITY {
      CommunitiesAlike(p);
    } else if kind == CLUSTER_LIST {
      WordsBack(p);
    } else if kind == MP_REACH_NLRI {
      ReachAlike(p);
    } else if kind == MP_UNREACH_NLRI {
      UnreachAlike(p);
    }
  }

  lemma ReachAlike(p: seq<Byte>)
    requires ReachFrom(p).Some? && MpReachModel.IsReach(ReachFrom(p).value.reach)
    ensures MpReachModel.Payload(ReachFrom(p).value.reach) == p <==> MpReachBytes.ReachSettled(p, FamilyOf(p))
  {
    ReachFamily(p);
    MpReachBytes.ReachAlike(p, FamilyOf(p));
  }

  lemma ReachFamily(p: seq<Byte>)
    requires ReachFrom(p).Some?
    ensures MpReachModel.DecodePayload(p, FamilyOf(p)) == MpReachModel.Fine(ReachFrom(p).value.reach)
  {
    ByFamily(p, MpReachModel.IPv6);
    ByFamily(p, MpReachModel.IPv4);
  }

  lemma ByFamily(p: seq<Byte>, f: MpReachModel.Family)
    ensures MpReachModel.DecodePayload(p, f).Fine? ==> FamilyOf(p) == f
    ensures MpReachModel.DecodeUnreach(p, f).Fine? ==> FamilyOf(p) == f && |p| >= 3
  {
  }

  lemma UnreachAlike(p: seq<Byte>)
    requires UnreachFrom(p).Some? && MpReachModel.IsUnreach(UnreachFrom(p).value.unreach)
    ensures |p| >= 3
    ensures MpReachModel.UnreachPayload(UnreachFrom(p).value.unreach) == p <==> MpReachBytes.PaddingClear(p[3..])
  {
    ByFamily(p, MpReachModel.IPv6);
    ByFamily(p, MpReachModel.IPv4);
    MpReachBytes.UnreachAlike(p, FamilyOf(p));
  }

  lemma CommunitiesAlike(p: seq<Byte>)
    ensures AsPathModel.ListBytes(InsertAll(Words(p), []), true) == p <==> |p| % 4 == 0 && Ascending(Words(p))
  {
    var ids := InsertAll(Words(p), []);
    InsertAllKeeps(Words(p), []);
    WordsRoundTrip(ids);
    if |p| % 4 == 0 && Ascending(Words(p)) {
      assert [] + Words(p) == Words(p);
      InsertAllInOrder(Words(p), []);
      WordsBack(p);
    }
  }

  // ---- Attributes ---------------------------------------------------------------------

  /** An encoded attribute is one attribute of its type. */
  lemma EncodedIsTlv(a: Attribute)
    requires WellFormed(a)
    ensures IsTlv(Encoded(a), KindOf(a))
  {
    if a.Known? { HeaderTlv(a.flags, a.kind, Payload(a.kind, a.value)); }
  }

  /** The same attribute, the flag for a long header as the encoder sets it. */
  function Rewritten(a: Attribute): Attribute
    requires WellFormed(a)
  {
    match a
    case Known(f, k, v) => Known(WithExtended(f, |Payload(k, v)| > 255), k, v)
    case Unknown(f, d) => Unknown(f, d[0 := f])
  }

  lemma FlagsRoundTrip(f: Byte, long: bool)
    requires f % 16 == 0
    ensures var g := WithExtended(f, long);
            g % 16 == 0 && ValidFlags(g) == g && g / 64 == f / 64 && WithExtended(g, long) == g
  {
  }

  lemma KnownRoundTrip(a: Attribute)
    requires WellFormed(a) && a.Known?
    ensures IsTlv(Encoded(a), a.kind) && Created(Encoded(a)) == Some(Rewritten(a))
  {
    var p := Payload(a.kind, a.value);
    var d := Encoded(a);
    HeaderTlv(a.flags, a.kind, p);
    FlagsRoundTrip(a.flags, |p| > 255);
    assert d[1] == a.kind && d[HeaderSize(d[0])..] == p;
    ValueRoundTrip(a.kind, a.value);
  }

  /** Decoding an encoded attribute gives it back. */
  lemma AttributeRoundTrip(a: Attribute)
    requires WellFormed(a)
    ensures IsTlv(Encoded(a), KindOf(a)) && Created(Encoded(a)) == Some(Rewritten(a))
    ensures WellFormed(Rewritten(a)) && KindOf(Rewritten(a)) == KindOf(a) && Encoded(Rewritten(a)) == Encoded(a)
  {
    EncodedIsTlv(a);
    if a.Known? {
      KnownRoundTrip(a);
      FlagsRoundTrip(a.flags, |Payload(a.kind, a.value)| > 255);
    }
  }

  /** So decoding on demand bytes that an encoder wrote does not change them. */
  lemma CreatedEncodesAlike(d: seq<Byte>, kind: nat)
    requires IsImage(d, kind)
    ensures IsTlv(d, kind) && Created(d).Some? && Writable(Created(d).value)
    ensures WellFormed(Created(d).value) && KindOf(Created(d).value) == kind && Encoded(Created(d).value) == d
  {
    var a :| WellFormed(a) && Writable(a) && KindOf(a) == kind && Encoded(a) == d;
    AttributeRoundTrip(a);
  }

  /** Whatever is decoded can be encoded, and is of the type the bytes say. */
  lemma CreatedWellFormed(d: seq<Byte>)
    requires HasHeader(d) && TlvSize(d) == |d| && Created(d).Some?
    ensures WellFormed(Created(d).value) && KindOf(Created(d).value) == d[1]
  {
    if IsKnown(d[1]) { ValueFromOk(d[1], d[HeaderSize(d[0])..]); }
  }

  // ---- From a peer --------------------------------------------------------------------

  /** The largest message; a longer payload of two-byte AS numbers would not be encoded at all. */
  const MAX_MESSAGE: nat := 4096

  ghost predicate NoNumbers(p: AsPathModel.Path) {
    forall i | 0 <= i < |p| :: p[i].ases == []
  }

  /** A path takes at most twice as many bytes with four-byte numbers as with two-byte ones, and as
      many if and only if it has no number. */
  lemma {:induction false} Widened(p: AsPathModel.Path)
    requires AsPathModel.Encodable(p)
    ensures var n := |AsPathModel.PathBytes(p, false)|;
            n <= |AsPathModel.PathBytes(p, true)| <= 2 * n
    ensures AsPathModel.PathBytes(p, true) == AsPathModel.PathBytes(p, false) <==> NoNumbers(p)
    ensures |AsPathModel.PathBytes(p, true)| == |AsPathModel.PathBytes(p, false)| ==> NoNumbers(p)
  {
    if p != [] {
      Widened(p[1..]);
      WidenedSegment(p[0]);
      if NoNumbers(p) {
        assert NoNumbers(p[1..]) && p[0].ases == [];
      }
      if |AsPathModel.PathBytes(p, true)| == |AsPathModel.PathBytes(p, false)| {
        assert p[0].ases == [] && NoNumbers(p[1..]);
        assert forall i | 1 <= i < |p| :: p[i] == p[1..][i - 1];
      }
    }
  }

  lemma WidenedSegment(s: AsPathModel.Segment)
    requires |s.ases| <= 255
    ensures |AsPathModel.SegmentBytes(s, true)| == |AsPathModel.SegmentBytes(s, false)| + 2 * |s.ases|
    ensures |AsPathModel.SegmentBytes(s, false)| == 2 + 2 * |s.ases|
    ensures s.ases == [] ==> AsPathModel.SegmentBytes(s, true) == AsPathModel.SegmentBytes(s, false)
  {
  }

  /** Whatever is read from a peer can be written, into at most twice the space. */
  lemma ReceivedFromOk(kind: nat, p: seq<Byte>, wide: bool)
    requires ReceivedFrom(kind, p, wide).Some?
    ensures ValueOk(kind, ReceivedFrom(kind, p, wide).value)
    ensures |Payload(kind, ReceivedFrom(kind, p, wide).value)| <= 2 * |p|
  {
    if wide || (kind != AS_PATH && kind != AGGREGATOR) {
      ValueFromOk(kind, p);
    } else if kind == AS_PATH {
      AsPathTunnel.BytesRoundTrip(p, false);
      Widened(AsPathModel.PathFrom(p, false).path);
    }
  }

  lemma ReceivedWellFormed(d: seq<Byte>, wide: bool)
    requires HasHeader(d) && TlvSize(d) == |d| && Received(d, wide).Some? && |d| <= MAX_MESSAGE
    ensures WellFormed(Received(d, wide).value) && KindOf(Received(d, wide).value) == d[1]
    ensures |Encoded(Received(d, wide).value)| <= 2 * |d| - 2
  {
    if IsKnown(d[1]) { ReceivedFromOk(d[1], d[HeaderSize(d[0])..], wide); }
  }

  /** As Settled; and two-byte AS numbers never come back as they were. */
  ghost predicate SettledFrom(kind: nat, p: seq<Byte>, wide: bool) {
    && Settled(kind, p)
    && (!wide ==> kind != AGGREGATOR)
    && (!wide && kind == AS_PATH ==>
          var r := AsPathModel.PathFrom(p, false);
          r.Ok? && NoNumbers(r.path))
  }

  lemma ReceivedPayloadAlike(kind: nat, p: seq<Byte>, wide: bool)
    requires ReceivedFrom(kind, p, wide).Some?
    ensures ValueOk(kind, ReceivedFrom(kind, p, wide).value)
    ensures Payload(kind, ReceivedFrom(kind, p, wide).value) == p <==> SettledFrom(kind, p, wide)
  {
    ReceivedFromOk(kind, p, wide);
    if wide || (kind != AS_PATH && kind != AGGREGATOR) {
      PayloadAlike(kind, p);
    } else if kind == AS_PATH {
      AsPathTunnel.BytesRoundTrip(p, false);
      Widened(AsPathModel.PathFrom(p, false).path);
    }
  }

  /** Received bytes survive decoding and encoding if and only if they are an encoder's: no unused
      flag, the header no longer than it has to be, a settled payload, and no two-byte AS number. */
  lemma ReencodedAlike(d: seq<Byte>, wide: bool)
    requires HasHeader(d) && TlvSize(d) == |d| && Received(d, wide).Some? && (wide || |d| <= MAX_MESSAGE)
    ensures WellFormed(Received(d, wide).value)
    ensures Encoded(Received(d, wide).value) == d <==>
            d[0] % 16 == 0 && (IsKnown(d[1]) ==>
              Extended(d[0]) == (PayloadSize(d) > 255) && SettledFrom(d[1], d[HeaderSize(d[0])..], wide))
  {
    if wide {
      CreatedWellFormed(d);
    } else {
      ReceivedWellFormed(d, wide);
    }
    if IsKnown(d[1]) {
      KnownAlike(d, wide);
    } else {
      UnknownAlike(d);
    }
  }

  lemma UnknownAlike(d: seq<Byte>)
    requires HasHeader(d)
    ensures d[0 := ValidFlags(d[0])] == d <==> d[0] % 16 == 0
  {
    assert d[0 := ValidFlags(d[0])][0] == ValidFlags(d[0]);
    if d[0] % 16 == 0 { assert d[0 := ValidFlags(d[0])] == d; }
  }

  lemma KnownAlike(d: seq<Byte>, wide: bool)
    requires HasHeader(d) && TlvSize(d) == |d| && Received(d, wide).Some? && IsKnown(d[1])
    requires WellFormed(Received(d, wide).value)
    ensures Encoded(Received(d, wide).value) == d <==>
            && d[0] % 16 == 0
            && Extended(d[0]) == (PayloadSize(d) > 255) && SettledFrom(d[1], d[HeaderSize(d[0])..], wide)
  {
    var a := Received(d, wide).value;
    ReceivedPayloadAlike(d[1], d[HeaderSize(d[0])..], wide);
    BytesAlike(d, Payload(a.kind, a.value));
  }

  /** A payload behind the header made for it, against the bytes it came from. */
  lemma BytesAlike(d: seq<Byte>, p: seq<Byte>)
    requires HasHeader(d) && TlvSize(d) == |d| && |p| < 0x1_0000
    ensures Header(ValidFlags(d[0]), d[1], |p|) + p == d <==>
            p == d[HeaderSize(d[0])..] && d[0] % 16 == 0 && Extended(d[0]) == (PayloadSize(d) > 255)
  {
    var q := d[HeaderSize(d[0])..];
    HeaderTlv(ValidFlags(d[0]), d[1], p);
    if p == q && d[0] % 16 == 0 && Extended(d[0]) == (PayloadSize(d) > 255) { HeaderAlike(d); }
  }

  lemma HeaderAlike(d: seq<Byte>)
    requires HasHeader(d) && TlvSize(d) == |d| && d[0] % 16 == 0 && Extended(d[0]) == (PayloadSize(d) > 255)
    ensures Header(ValidFlags(d[0]), d[1], PayloadSize(d)) + d[HeaderSize(d[0])..] == d
  {
    assert Header(ValidFlags(d[0]), d[1], PayloadSize(d)) == d[..HeaderSize(d[0])];
  }

  /** To be an encoder's is to survive, and not to hold more cluster identifiers than it takes. */
  lemma ImageSurvives(d: seq<Byte>)
    requires HasHeader(d) && TlvSize(d) == |d|
    ensures Created(d).Some? ==> WellFormed(Created(d).value)
    ensures IsImage(d, d[1]) <==> Created(d).Some? && Writable(Created(d).value) && Encoded(Created(d).value) == d
  {
    if Created(d).Some? { CreatedWellFormed(d); }
    if IsImage(d, d[1]) { CreatedEncodesAlike(d, d[1]); }
  }

  /** Two communities out of order: the attribute does not survive. */
  lemma CommunitiesAreReordered()
    ensures var d := [0xc0, 8, 8, 0, 0, 0, 2, 0, 0, 0, 1];
            && HasHeader(d) && TlvSize(d) == |d| && Created(d).Some? && WellFormed(Created(d).value)
            && Encoded(Created(d).value) == [0xc0, 8, 8, 0, 0, 0, 1, 0, 0, 0, 2]
            && !IsImage(d, 8)
  {
    var d: seq<Byte> := [0xc0, 8, 8, 0, 0, 0, 2, 0, 0, 0, 1];
    ReorderedIsRead(d);
    CreatedWellFormed(d);
    TwoWordsBack();
    var e := Encoded(Created(d).value);
    assert e == [0xc0, 8, 8] + [0, 0, 0, 1, 0, 0, 0, 2];
    assert e[6] != d[6];
    ImageSurvives(d);
  }

  lemma ReorderedIsRead(d: seq<Byte>)
    requires d == [0xc0, 8, 8, 0, 0, 0, 2, 0, 0, 0, 1]
    ensures HasHeader(d) && TlvSize(d) == |d| && Created(d) == Some(Known(0xc0, 8, Communities([1, 2])))
  {
    var p := d[3..];
    assert p == [0, 0, 0, 2, 0, 0, 0, 1];
    TwoWords(p);
    CommunitiesInserted();
  }

  lemma TwoWords(p: seq<Byte>)
    requires |p| == 8
    ensures Words(p) == [AsPathModel.AsFrom(p, true), AsPathModel.AsFrom(p[4..], true)]
  {
    assert AsPathModel.ListFrom(p[4..], 1, true) == [AsPathModel.AsFrom(p[4..], true)];
  }

  lemma CommunitiesInserted()
    ensures InsertAll([2, 1], []) == [1, 2]
  {
    assert [2, 1][1..] == [1] && [1][1..] == [];
    assert Insert(1, Insert(2, [])) == [1, 2];
  }

  lemma TwoWordsBack()
    ensures AsPathModel.ListBytes([1, 2], true) == [0, 0, 0, 1, 0, 0, 0, 2]
  {
    assert [1, 2][1..] == [2] && [2][1..] == [];
    assert AsPathModel.ListBytes([2], true) == AsPathModel.AsBytes(2, true);
  }

  // ---- Copies -------------------------------------------------------------------------

  /** The flag 0x20: someone on the way did not know the attribute. */
  predicate Partial(f: Byte) {
    f / 32 % 2 == 1
  }

  /** A copy has the bytes of the original, unless that was received as partial, or is an
      MP_REACH_NLRI with a link-local next hop. */
  lemma CloneAlike(a: Attribute)
    requires WellFormed(a)
    ensures WellFormed(Cloned(a)) && KindOf(Cloned(a)) == KindOf(a)
    ensures Encoded(Cloned(a)) == Encoded(a) <==>
            a.Unknown? || (!Partial(a.flags) && ClonedValue(a.value) == a.value)
  {
    if a.Known? { KnownCloneAlike(a); }
  }

  /** The copy's flags lack just the partial flag. */
  lemma CloneFlags(f: Byte, c: nat, long: bool)
    requires f % 16 == 0 && f / 64 == c <= 3
    ensures ValidFlags(WithExtended(64 * c, long)) == ValidFlags(WithExtended(f, long)) <==> !Partial(f)
  {
    FlagsRoundTrip(f, long);
    FlagsRoundTrip(64 * c, long);
    FlagBits(f, long);
    FlagBits(64 * c, long);
  }

  lemma FlagBits(f: Byte, long: bool)
    requires f % 16 == 0
    ensures WithExtended(f, long) == 64 * (f / 64) + (if Partial(f) then 32 else 0) + (if long then 16 else 0)
  {
  }

  lemma KnownCloneAlike(a: Attribute)
    requires WellFormed(a) && a.Known?
    ensures WellFormed(Cloned(a)) && KindOf(Cloned(a)) == KindOf(a)
    ensures Encoded(Cloned(a)) == Encoded(a) <==> !Partial(a.flags) && ClonedValue(a.value) == a.value
  {
    var k: nat, v := a.kind, a.value;
    CloneShorter(k, v);
    SameBytes(64 * Class(k), a.flags, a.kind, Payload(k, ClonedValue(v)), Payload(k, v));
    PayloadInjective(k, ClonedValue(v), v);
    CloneFlags(a.flags, Class(k), |Payload(k, v)| > 255);
  }

  lemma PayloadInjective(kind: nat, v: Value, w: Value)
    requires ValueOk(kind, v) && ValueOk(kind, w)
    ensures Payload(kind, v) == Payload(kind, w) <==> v == w
  {
    ValueRoundTrip(kind, v);
    ValueRoundTrip(kind, w);
  }

  lemma SameBytes(f: Byte, g: Byte, kind: Byte, p: seq<Byte>, q: seq<Byte>)
    requires |p| < 0x1_0000 && |q| < 0x1_0000
    ensures Header(f, kind, |p|) + p == Header(g, kind, |q|) + q <==>
            p == q && ValidFlags(WithExtended(f, |q| > 255)) == ValidFlags(WithExtended(g, |q| > 255))
  {
    HeaderTlv(f, kind, p);
    HeaderTlv(g, kind, q);
  }

  lemma CloneShorter(kind: nat, v: Value)
    requires ValueOk(kind, v)
    ensures ValueOk(kind, ClonedValue(v)) && |Payload(kind, ClonedValue(v))| <= |Payload(kind, v)|
  {
  }

  /** A community received as partial, and its copy. */
  lemma CloneLosesPartial()
    ensures var a := Known(0xe0, 8, Communities([1]));
            && WellFormed(a) && Encoded(a) == [0xe0, 8, 4, 0, 0, 0, 1]
            && WellFormed(Cloned(a)) && Encoded(Cloned(a)) == [0xc0, 8, 4, 0, 0, 0, 1]
  {
    var a := Known(0xe0, 8, Communities([1]));
    assert AsPathModel.ListBytes([1], true) == AsPathModel.AsBytes(1, true) + AsPathModel.ListBytes([], true);
    assert Payload(8, a.value) == [0, 0, 0, 1];
  }
}
