/** A list that came in one message always fits into the buffer for the canonical form, but for too many
    cluster identifiers. */
module AttributeUpdate {
  import opened Wrappers
  import opened AttributeModel
  import opened AttributeValues
  import opened AttributeBytes
  import opened CanonicalForm
  import opened PathAttributeList

  /** What an UPDATE has room for besides its header and the two length fields. */
  const MAX_ATTRIBUTES: nat := MAX_MESSAGE - 23

  // ---- Sizes --------------------------------------------------------------------------

  /** Filling a slot adds its bytes to the canonical form. */
  lemma {:induction false} FilledSize(s: Slots, s': Slots, t: nat, d: seq<Byte>, i: nat)
    requires t <= MAX_ATTRIBUTE && i <= MAX_ATTRIBUTE + 1 && s[t] == None && s' == s[t := Some(d)]
    ensures |CanonicalFrom(s', i)| == |CanonicalFrom(s, i)| + (if i <= Rank(t) then |d| else 0)
    decreases MAX_ATTRIBUTE + 1 - i
  {
    if i <= MAX_ATTRIBUTE {
      FilledSize(s, s', t, d, i + 1);
      assert AttOrder(i) == t <==> i == Rank(t);
    }
  }

  ghost predicate AllOk(a: Attributes) {
    |a| == MAX_ATTRIBUTE + 1 && forall t | 0 <= t <= MAX_ATTRIBUTE :: AttributeOk(a[t], t)
  }

  ghost predicate NoBytes(b: Undecoded) {
    |b| == MAX_ATTRIBUTE + 1 && forall t | 0 <= t <= MAX_ATTRIBUTE :: b[t] == None
  }

  lemma DecodedSize(a: Attributes, b: Undecoded, x: Attribute, t: nat)
    requires AllOk(a) && NoBytes(b) && t <= MAX_ATTRIBUTE && a[t] == None && WellFormed(x) && KindOf(x) == t
    ensures AllOk(a[t := Some(x)])
    ensures |Canonical(SlotsOf(a[t := Some(x)], b))| == |Canonical(SlotsOf(a, b))| + |Encoded(x)|
  {
    SlotsChanged(a, b, t, x, b[t]);
    assert b[t := b[t]] == b;
    FilledSize(SlotsOf(a, b), SlotsOf(a[t := Some(x)], b), t, Encoded(x), 0);
  }

  /** Decoding and encoding at most doubles the bytes, two-byte AS numbers included. */
  lemma {:induction false} LoadedSize(d: seq<Byte>, wide: bool, a: Attributes, b: Undecoded)
    requires AllOk(a) && NoBytes(b) && |d| <= MAX_MESSAGE && Loaded(d, wide, a).Some?
    ensures AllOk(Loaded(d, wide, a).value)
    ensures |Canonical(SlotsOf(Loaded(d, wide, a).value, b))| <= |Canonical(SlotsOf(a, b))| + 2 * |d|
    decreases |d|
  {
    if d != [] {
      var front, rest := d[..TlvSize(d)], d[TlvSize(d)..];
      var x := Received(front, wide).value;
      ReceivedWellFormed(front, wide);
      if d[1] > MAX_ATTRIBUTE {
        LoadedSize(rest, wide, a, b);
      } else {
        DecodedSize(a, b, x, d[1]);
        LoadedSize(rest, wide, a[d[1] := Some(x)], b);
      }
    }
  }

  // ---- The list of a message ----------------------------------------------------------

  lemma {:induction false} NothingThere(s: Slots, i: nat)
    requires i <= MAX_ATTRIBUTE + 1 && forall t | 0 <= t <= MAX_ATTRIBUTE :: s[t] == None
    ensures CanonicalFrom(s, i) == []
    decreases MAX_ATTRIBUTE + 1 - i
  {
    if i <= MAX_ATTRIBUTE { NothingThere(s, i + 1); }
  }

  /** The attributes of one UPDATE, as they are decoded into a new list, can be canonicalized if and only
      if there are fewer than 64 cluster identifiers among them. */
  lemma UpdateFits(d: seq<Byte>, wide: bool, none: Attributes, b: Undecoded)
    requires |none| == MAX_ATTRIBUTE + 1 && forall t | 0 <= t <= MAX_ATTRIBUTE :: none[t] == None
    requires |d| <= MAX_ATTRIBUTES && NoBytes(b) && Loaded(d, wide, none).Some?
    ensures AllOk(Loaded(d, wide, none).value)
    ensures Fitting(Loaded(d, wide, none).value, b, CANONICAL_SPACE) <==>
              var c := Loaded(d, wide, none).value[CLUSTER_LIST];
              c.Some? ==> Writable(c.value)
  {
    LoadedSize(d, wide, none, b);
    NothingThere(SlotsOf(none, b), 0);
    FitsWithin(Loaded(d, wide, none).value, b, CANONICAL_SPACE);
  }
}
