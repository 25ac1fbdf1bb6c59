/** Lists that do not fit into the buffer for the canonical form, and one that does not begin with
    its next hop. */
module AttributeWitness {
  import opened Wrappers
  import opened AttributeModel
  import opened AttributeValues
  import opened AttributeBytes
  import opened CanonicalForm
  import opened PathAttributeList

  // ---- A single decoded attribute -----------------------------------------------------

  function NotDecoded(): (r: Attributes)
    ensures |r| == MAX_ATTRIBUTE + 1
  {
    [None, None, None, None, None, None, None, None, None, None, None,
     None, None, None, None, None, None, None, None, None, None]
  }

  function Alone(a: Attribute, t: nat): (r: Attributes)
    requires t <= MAX_ATTRIBUTE
    ensures |r| == MAX_ATTRIBUTE + 1
  {
    NotDecoded()[t := Some(a)]
  }

  lemma {:induction false} AloneFrom(d: seq<Byte>, t: nat, i: nat)
    requires t <= MAX_ATTRIBUTE && i <= MAX_ATTRIBUTE + 1
    ensures CanonicalFrom(NO_SLOTS[t := Some(d)], i) == if i <= Rank(t) then d else []
    decreases MAX_ATTRIBUTE + 1 - i
  {
    if i <= MAX_ATTRIBUTE { AloneFrom(d, t, i + 1); }
  }

  lemma AloneSlots(a: Attribute, t: nat)
    requires t <= MAX_ATTRIBUTE && WellFormed(a)
    ensures SlotsOf(Alone(a, t), NO_SLOTS) == NO_SLOTS[t := Some(Encoded(a))]
  {
  }

  lemma {:induction false} SingleStart(s: Slots, d: seq<Byte>, k: nat, i: nat)
    requires k <= MAX_ATTRIBUTE && i <= MAX_ATTRIBUTE + 1 && s == NO_SLOTS[k := Some(d)]
    ensures StartsAt(s, i) == if i <= Rank(k) then 0 else |d|
  {
    AloneFrom(d, k, 0);
    AloneFrom(d, k, i);
  }

  lemma {:induction false} OtherFits(l: Attributes, s: Slots, d: seq<Byte>, k: nat, j: nat, space: nat)
    requires |l| == MAX_ATTRIBUTE + 1 && k <= MAX_ATTRIBUTE && j <= MAX_ATTRIBUTE && s == NO_SLOTS[k := Some(d)]
    requires l[AttOrder(j)] == None && |d| <= space
    ensures FitAt(l, s, j, space)
  {
    SingleStart(s, d, k, j + 1);
  }

  /** With nothing else in the list, only the one attribute has to fit. */
  lemma {:induction false} SingleFits(l: Attributes, s: Slots, d: seq<Byte>, k: nat, space: nat)
    requires |l| == MAX_ATTRIBUTE + 1 && k <= MAX_ATTRIBUTE && s == NO_SLOTS[k := Some(d)]
    requires forall t | 0 <= t <= MAX_ATTRIBUTE && t != k :: l[t] == None
    ensures FitFrom(l, s, 0, space) <==> |d| + Slack(l[k]) <= space && (l[k].Some? ==> Writable(l[k].value))
  {
    SingleStart(s, d, k, Rank(k) + 1);
    assert AttOrder(Rank(k)) == k;
    assert FitAt(l, s, Rank(k), space) <==> |d| + Slack(l[k]) <= space && (l[k].Some? ==> Writable(l[k].value));
    if FitAt(l, s, Rank(k), space) {
      forall j | 0 <= j <= MAX_ATTRIBUTE ensures FitAt(l, s, j, space) {
        if j != Rank(k) { OtherFits(l, s, d, k, j, space); }
      }
    }
  }

  /** A single decoded attribute fits if and only if its encoder is content. */
  lemma AloneFits(a: Attribute, k: nat, space: nat)
    requires k <= MAX_ATTRIBUTE && WellFormed(a) && KindOf(a) == k
    ensures Fitting(Alone(a, k), NO_SLOTS, space) <==> |Encoded(a)| + Slack(Some(a)) <= space && Writable(a)
  {
    AloneSlots(a, k);
    SingleFits(Alone(a, k), SlotsOf(Alone(a, k), NO_SLOTS), Encoded(a), k, space);
  }

  // ---- Lists that do not fit ----------------------------------------------------------

  function ClusterList(ids: seq<Word>): (a: Attribute)
    requires |ids| < 0x4000
    ensures WellFormed(a)
  {
    Known(0x80, 10, Clusters(ids))
  }

  /** A CLUSTER_LIST of 64 identifiers never does, however much space there is. */
  lemma LongClusterListAborts(ids: seq<Word>, space: nat)
    requires |ids| < 0x4000
    ensures Fitting(Alone(ClusterList(ids), 10), NO_SLOTS, space) <==> |ids| < 64 && 4 * |ids| + 4 <= space
  {
    AloneFits(ClusterList(ids), 10, space);
  }

  function FirstIds(n: nat): (ids: seq<Word>)
    requires n < 0x4000
    ensures |ids| == n && Ascending(ids)
  {
    seq(n, i requires 0 <= i < n => i)
  }

  /** 64 identifiers are received and decoded, but the list they are in cannot be stored. */
  lemma ClusterListWitness(ids: seq<Word>)
    requires |ids| == 64
    ensures IsTlv(Encoded(ClusterList(ids)), CLUSTER_LIST) && Created(Encoded(ClusterList(ids))).Some?
    ensures !Fitting(Alone(ClusterList(ids), 10), NO_SLOTS, CANONICAL_SPACE)
  {
    LongClusterListAborts(ids, CANONICAL_SPACE);
    AttributeRoundTrip(ClusterList(ids));
  }

  function CommunityList(n: nat): (a: Attribute)
    requires n < 0x4000
    ensures WellFormed(a)
  {
    Known(0xc0, 8, Communities(FirstIds(n)))
  }

  /** 2047 communities fill the buffer, and one more is too many. */
  lemma TooLongWitness(n: nat)
    requires n < 0x4000
    ensures Fitting(Alone(CommunityList(n), 8), NO_SLOTS, CANONICAL_SPACE) <==> n <= 2047
  {
    AloneFits(CommunityList(n), 8, CANONICAL_SPACE);
  }

  /** An AS_PATH that would just fill the buffer does not fit, its encoder wanting one byte more;
      the same bytes do fit while they are not decoded. */
  lemma FullAsPathWitness(a: Attribute, b: Undecoded, space: nat)
    requires WellFormed(a) && KindOf(a) == AS_PATH && |Encoded(a)| > 259 && b == NO_SLOTS[2 := Some(Encoded(a))]
    ensures Fitting(Alone(a, 2), NO_SLOTS, space) <==> |Encoded(a)| + 1 <= space
    ensures Fitting(NotDecoded(), b, space) <==> |Encoded(a)| <= space
  {
    AloneFits(a, 2, space);
    UndecodedFits(NotDecoded(), b, Encoded(a), 2, space);
  }

  lemma NotDecodedSlots(l: Attributes, b: Undecoded)
    requires |l| == |b| == MAX_ATTRIBUTE + 1 && forall t | 0 <= t <= MAX_ATTRIBUTE :: l[t] == None
    ensures SlotsOf(l, b) == b
  {
  }

  lemma UndecodedFits(l: Attributes, b: Undecoded, d: seq<Byte>, t: nat, space: nat)
    requires t <= MAX_ATTRIBUTE && b == NO_SLOTS[t := Some(d)]
    requires |l| == MAX_ATTRIBUTE + 1 && forall t | 0 <= t <= MAX_ATTRIBUTE :: l[t] == None
    ensures Fitting(l, b, space) <==> |d| <= space
  {
    NotDecodedSlots(l, b);
    SingleFits(l, SlotsOf(l, b), d, t, space);
  }

  // ---- A list that does not begin with its next hop -----------------------------------

  const TYPE_ZERO: seq<Byte> := [0x80, 0, 0]
  const HOP: seq<Byte> := [0x40, 3, 4, 10, 0, 0, 1]

  function ZeroAndHop(): Slots {
    [Some(TYPE_ZERO), None, None, Some(HOP), None, None, None, None, None, None, None,
     None, None, None, None, None, None, None, None, None, None]
  }

  /** An optional attribute of type 0, received and stored, comes before the next hop. */
  lemma TypeZeroWitness()
    ensures Storable(ZeroAndHop()) && Canonical(ZeroAndHop()) == TYPE_ZERO + HOP && !(HOP <= Canonical(ZeroAndHop()))
  {
    ZeroStorable();
    ZeroThenHop(ZeroAndHop(), TYPE_ZERO, HOP);
    assert (TYPE_ZERO + HOP)[0] != HOP[0];
  }

  lemma ZeroStorable()
    ensures Storable(ZeroAndHop())
  {
    var a, b := Unknown(0x80, TYPE_ZERO), Known(0x40, 3, Plain([10, 0, 0, 1]));
    assert TYPE_ZERO[0 := 0x80] == TYPE_ZERO;
    assert WellFormed(a) && Writable(a) && KindOf(a) == 0 && Encoded(a) == TYPE_ZERO;
    var hop: seq<Byte> := [10, 0, 0, 1];
    assert hop[0] != 0;
    assert WellFormed(b) && Writable(b) && KindOf(b) == 3;
    assert Encoded(b) == [0x40, 3, 4] + hop == HOP;
  }

  lemma ZeroThenHop(s: Slots, z: seq<Byte>, h: seq<Byte>)
    requires s[0] == Some(z) && s[3] == Some(h) && forall t | 1 <= t <= MAX_ATTRIBUTE && t != 3 :: s[t] == None
    ensures Canonical(s) == z + h
  {
    RestEmpty(s, h, 2);
    assert CanonicalFrom(s, 1) == h + CanonicalFrom(s, 2);
    assert CanonicalFrom(s, 0) == z + CanonicalFrom(s, 1);
  }

  lemma {:induction false} RestEmpty(s: Slots, h: seq<Byte>, i: nat)
    requires 2 <= i <= MAX_ATTRIBUTE + 1
    requires forall t | 1 <= t <= MAX_ATTRIBUTE && t != 3 :: s[t] == None
    ensures CanonicalFrom(s, i) == []
    decreases MAX_ATTRIBUTE + 1 - i
  {
    if i <= MAX_ATTRIBUTE {
      RestEmpty(s, h, i + 1);
      assert AttOrder(i) != 3 && AttOrder(i) >= 1;
    }
  }
}
