/** The attribute list that routes are processed with: attributes by type, decoded on demand, and a
    cached canonical form. */
module PathAttributeList {
  import opened Wrappers
  import opened AttributeModel
  import opened AttributeValues
  import opened AttributeBytes
  import opened CanonicalForm

  type Attributes = seq<Option<Attribute>>
  type Undecoded = seq<Option<seq<Byte>>>

  /** The decoded attribute counts if there is one. */
  function SlotOf(a: Option<Attribute>, b: Option<seq<Byte>>): Option<seq<Byte>> {
    if a.Some? && WellFormed(a.value) then Some(Encoded(a.value)) else b
  }

  function SlotsOf(a: Attributes, b: Undecoded): Slots
    requires |a| == |b| == MAX_ATTRIBUTE + 1
  {
    seq(MAX_ATTRIBUTE + 1, i requires 0 <= i <= MAX_ATTRIBUTE => SlotOf(a[i], b[i]))
  }

  lemma SlotAt(a: Attributes, b: Undecoded, t: nat)
    requires |a| == |b| == MAX_ATTRIBUTE + 1 && t <= MAX_ATTRIBUTE
    ensures SlotsOf(a, b)[t] == SlotOf(a[t], b[t])
  {
  }

  lemma SlotsChanged(a: Attributes, b: Undecoded, t: nat, v: Attribute, c: Option<seq<Byte>>)
    requires |a| == |b| == MAX_ATTRIBUTE + 1 && t <= MAX_ATTRIBUTE && WellFormed(v)
    ensures SlotsOf(a[t := Some(v)], b[t := c]) == SlotsOf(a, b)[t := Some(Encoded(v))]
  {
  }

  predicate AttributeOk(a: Option<Attribute>, kind: nat) {
    a.Some? ==> WellFormed(a.value) && KindOf(a.value) == kind
  }

  /** Bytes are only there undecoded once an encoder has written them. */
  ghost predicate BytesOk(b: Option<seq<Byte>>, kind: nat) {
    b.Some? ==> IsImage(b.value, kind)
  }

  lemma SlotWellFormed(a: Option<Attribute>, b: Option<seq<Byte>>, kind: nat)
    requires AttributeOk(a, kind) && BytesOk(b, kind)
    ensures SlotOf(a, b).Some? ==> IsTlv(SlotOf(a, b).value, kind)
    ensures (a.Some? ==> Writable(a.value)) ==> BytesOk(SlotOf(a, b), kind)
  {
    if a.Some? {
      EncodedIsTlv(a.value);
    } else if b.Some? {
      CreatedEncodesAlike(b.value, kind);
    }
  }

  lemma StorableIsWellFormed(s: Slots)
    requires Storable(s)
    ensures WellFormedSlots(s)
  {
    forall i | 0 <= i <= MAX_ATTRIBUTE && s[i].Some? ensures IsTlv(s[i].value, i) {
      CreatedEncodesAlike(s[i].value, i);
    }
  }

  // ---- From a message -----------------------------------------------------------------

  /** FastPathAttributeList::load_raw_data: every attribute is decoded, and there is at most one of each
      type. None if the data is corrupt. Types beyond the arrays are not looked at. */
  function Loaded(d: seq<Byte>, wide: bool, a: Attributes): Option<Attributes>
    requires |a| == MAX_ATTRIBUTE + 1
    decreases |d|
  {
    if d == [] then Some(a)
    else if !HasHeader(d) || |d| < TlvSize(d) then None
    else
      var front, rest := d[..TlvSize(d)], d[TlvSize(d)..];
      match Received(front, wide)
      case None => None
      case Some(x) =>
        if d[1] > MAX_ATTRIBUTE then Loaded(rest, wide, a)
        else if a[d[1]].Some? then None
        else Loaded(rest, wide, a[d[1] := Some(x)])
  }

  // ---- Room in the buffer -------------------------------------------------------------

  const CANONICAL_SPACE: nat := 8192

  predicate HasPrefixes(v: Value) {
    (v.Reach? && v.reach.nlri != []) || (v.Unreach? && v.unreach.withdrawn != [])
  }

  /** The space the encoder of a type wants to see, by type and payload size. */
  function Wanted(kind: nat, v: Value): nat
    requires ValueOk(kind, v)
  {
    var n := |Payload(kind, v)|;
    if kind == ORIGIN then 4
    else if kind == AS_PATH || kind == AS4_PATH then n + 5
    else if kind == MED then 8
    else if kind == LOCAL_PREF || kind == ORIGINATOR_ID then 7
    else if kind == ATOMIC_AGGREGATE then 3
    else if kind == AGGREGATOR || kind == AS4_AGGREGATOR then 11
    else if (v.Reach? || v.Unreach?) && !HasPrefixes(v) then 0
    else n + 4
  }

  /** Bytes that were never decoded, and those of an unknown attribute, are only copied. */
  predicate Fits(a: Option<Attribute>, b: Option<seq<Byte>>, space: nat) {
    && |SlotBytes(SlotOf(a, b))| <= space
    && (a.Some? && WellFormed(a.value) && a.value.Known? ==>
          Writable(a.value) && Wanted(a.value.kind, a.value.value) <= space)
  }

  /** Encoding aborts once an attribute does not fit into what is left. */
  predicate AllFit(a: Attributes, b: Undecoded, i: nat, space: nat)
    requires |a| == |b| == MAX_ATTRIBUTE + 1 && i <= MAX_ATTRIBUTE + 1
    decreases |a| - i
  {
    i > MAX_ATTRIBUTE || (
      var t := AttOrder(i);
      Fits(a[t], b[t], space) && AllFit(a, b, i + 1, space - |SlotBytes(SlotOf(a[t], b[t]))|))
  }

  lemma AllFitNext(a: Attributes, b: Undecoded, i: nat, space: nat)
    requires |a| == |b| == MAX_ATTRIBUTE + 1 && i <= MAX_ATTRIBUTE
    ensures var t := AttOrder(i);
            AllFit(a, b, i, space) <==>
            Fits(a[t], b[t], space) && AllFit(a, b, i + 1, space - |SlotBytes(SlotOf(a[t], b[t]))|)
  {
  }

  /** The space an encoder wants to see beyond what it then takes. */
  function Slack(a: Option<Attribute>): nat {
    if a.Some? && WellFormed(a.value) && a.value.Known? then
      var w, n := Wanted(a.value.kind, a.value.value), |Encoded(a.value)|;
      if w > n then w - n else 0
    else 0
  }

  lemma SlackBound(a: Option<Attribute>, kind: nat)
    requires AttributeOk(a, kind)
    ensures Slack(a) <= 2
  {
    if a.Some? && a.value.Known? { PlainSizes(a.value.kind, a.value.value); }
  }

  lemma PlainSizes(kind: nat, v: Value)
    requires ValueOk(kind, v)
    ensures Wanted(kind, v) <= |Payload(kind, v)| + 5
    ensures v.Plain? ==> Wanted(kind, v) <= |Payload(kind, v)| + 4 && |Payload(kind, v)| <= 16
  {
  }

  /** How much of the canonical form comes before the attribute at position i. */
  function StartsAt(s: Slots, i: nat): int
    requires i <= MAX_ATTRIBUTE + 1
  {
    |Canonical(s)| - |CanonicalFrom(s, i)|
  }

  ghost predicate FitAt(a: Attributes, s: Slots, j: nat, space: nat)
    requires |a| == MAX_ATTRIBUTE + 1 && j <= MAX_ATTRIBUTE
  {
    var t := AttOrder(j);
    StartsAt(s, j + 1) + Slack(a[t]) <= space && (a[t].Some? ==> Writable(a[t].value))
  }

  ghost predicate FitFrom(a: Attributes, s: Slots, i: nat, space: nat)
    requires |a| == MAX_ATTRIBUTE + 1
  {
    forall j | i <= j <= MAX_ATTRIBUTE :: FitAt(a, s, j, space)
  }

  /** The canonical form fits: every attribute ends within the space, with room for what its encoder
      wants beyond that if it is decoded, and a decoded CLUSTER_LIST has less than 256 bytes. */
  ghost predicate Fitting(a: Attributes, b: Undecoded, space: nat)
    requires |a| == |b| == MAX_ATTRIBUTE + 1
  {
    FitFrom(a, SlotsOf(a, b), 0, space)
  }

  predicate AllTrue(l: seq<bool>, i: nat)
    requires i <= |l|
    decreases |l| - i
  {
    i == |l| || (l[i] && AllTrue(l, i + 1))
  }

  lemma {:induction false} AllTrueIs(l: seq<bool>, i: nat)
    requires i <= |l|
    ensures AllTrue(l, i) <==> forall j | i <= j < |l| :: l[j]
    decreases |l| - i
  {
    if i < |l| { AllTrueIs(l, i + 1); }
  }

  /** Which positions fit. */
  ghost function FitList(a: Attributes, s: Slots, space: nat): (l: seq<bool>)
    requires |a| == MAX_ATTRIBUTE + 1
    ensures |l| == MAX_ATTRIBUTE + 1
  {
    seq(MAX_ATTRIBUTE + 1, j requires 0 <= j <= MAX_ATTRIBUTE => FitAt(a, s, j, space))
  }

  lemma FitListIs(a: Attributes, s: Slots, space: nat)
    requires |a| == MAX_ATTRIBUTE + 1
    ensures AllTrue(FitList(a, s, space), 0) <==> FitFrom(a, s, 0, space)
  {
    var l := FitList(a, s, space);
    AllTrueIs(l, 0);
    if FitFrom(a, s, 0, space) {
      forall j | 0 <= j < |l| ensures l[j] { assert FitAt(a, s, j, space); }
    }
    if AllTrue(l, 0) {
      forall j | 0 <= j <= MAX_ATTRIBUTE ensures FitAt(a, s, j, space) { assert l[j]; }
    }
  }

  lemma {:induction false} FitsFrom(a: Attributes, b: Undecoded, i: nat, left: nat, space: nat, l: seq<bool>)
    requires |a| == |b| == MAX_ATTRIBUTE + 1 && i <= MAX_ATTRIBUTE + 1
    requires forall t | 0 <= t <= MAX_ATTRIBUTE :: AttributeOk(a[t], t)
    requires left == space - StartsAt(SlotsOf(a, b), i) && l == FitList(a, SlotsOf(a, b), space)
    ensures AllFit(a, b, i, left) <==> AllTrue(l, i)
    decreases |a| - i
  {
    if i <= MAX_ATTRIBUTE {
      var n := FitsStep(a, b, i, left, space, l);
      if n <= left { FitsFrom(a, b, i + 1, left - n, space, l); }
    }
  }

  /** One attribute takes n bytes, if it fits. */
  lemma {:induction false} FitsStep(a: Attributes, b: Undecoded, i: nat, left: nat, space: nat, l: seq<bool>)
    returns (n: nat)
    requires |a| == |b| == MAX_ATTRIBUTE + 1 && i <= MAX_ATTRIBUTE && AttributeOk(a[AttOrder(i)], AttOrder(i))
    requires left == space - StartsAt(SlotsOf(a, b), i) && l == FitList(a, SlotsOf(a, b), space)
    ensures StartsAt(SlotsOf(a, b), i + 1) == StartsAt(SlotsOf(a, b), i) + n
    ensures n > left ==> !AllFit(a, b, i, left) && !l[i]
    ensures n <= left ==> (AllFit(a, b, i, left) <==> l[i] && AllFit(a, b, i + 1, left - n))
  {
    n := |SlotBytes(SlotOf(a[AttOrder(i)], b[AttOrder(i)]))|;
    FitsHere(a, b, i, left, space);
    AllFitNext(a, b, i, left);
  }

  lemma {:induction false} FitsHere(a: Attributes, b: Undecoded, i: nat, left: nat, space: nat)
    requires |a| == |b| == MAX_ATTRIBUTE + 1 && i <= MAX_ATTRIBUTE
    requires AttributeOk(a[AttOrder(i)], AttOrder(i)) && left == space - StartsAt(SlotsOf(a, b), i)
    ensures StartsAt(SlotsOf(a, b), i + 1) ==
            StartsAt(SlotsOf(a, b), i) + |SlotBytes(SlotOf(a[AttOrder(i)], b[AttOrder(i)]))|
    ensures Fits(a[AttOrder(i)], b[AttOrder(i)], left) <==> FitList(a, SlotsOf(a, b), space)[i]
  {
    SlotAt(a, b, AttOrder(i));
  }

  /** Encoding one attribute after the other goes through if and only if the whole fits. */
  lemma FitsExactly(a: Attributes, b: Undecoded, space: nat)
    requires |a| == |b| == MAX_ATTRIBUTE + 1
    requires forall t | 0 <= t <= MAX_ATTRIBUTE :: AttributeOk(a[t], t)
    ensures AllFit(a, b, 0, space) <==> Fitting(a, b, space)
  {
    FitsFrom(a, b, 0, space, space, FitList(a, SlotsOf(a, b), space));
    FitListIs(a, SlotsOf(a, b), space);
  }

  /** A list that fits takes no more than the space; two bytes to spare are always enough, unless
      there are too many cluster identifiers. */
  lemma FitsWithin(a: Attributes, b: Undecoded, space: nat)
    requires |a| == |b| == MAX_ATTRIBUTE + 1
    requires forall t | 0 <= t <= MAX_ATTRIBUTE :: AttributeOk(a[t], t)
    ensures Fitting(a, b, space) ==> |Canonical(SlotsOf(a, b))| <= space
    ensures Fitting(a, b, space) ==> a[CLUSTER_LIST].Some? ==> Writable(a[CLUSTER_LIST].value)
    ensures |Canonical(SlotsOf(a, b))| + 2 <= space && (a[CLUSTER_LIST].Some? ==> Writable(a[CLUSTER_LIST].value)) ==>
              Fitting(a, b, space)
  {
    var s := SlotsOf(a, b);
    if Fitting(a, b, space) {
      assert FitAt(a, s, 20, space) && CanonicalFrom(s, 21) == [];
      assert FitAt(a, s, 10, space) && AttOrder(10) == CLUSTER_LIST;
    }
    if |Canonical(s)| + 2 <= space && (a[CLUSTER_LIST].Some? ==> Writable(a[CLUSTER_LIST].value)) {
      forall j | 0 <= j <= MAX_ATTRIBUTE ensures FitAt(a, s, j, space) {
        SlackBound(a[AttOrder(j)], AttOrder(j));
        if AttOrder(j) != CLUSTER_LIST { OnlyClustersAbort(a[AttOrder(j)], AttOrder(j)); }
      }
    }
  }

  lemma OnlyClustersAbort(a: Option<Attribute>, kind: nat)
    requires AttributeOk(a, kind) && kind != CLUSTER_LIST
    ensures a.Some? ==> Writable(a.value)
  {
  }

  class FastPathAttributeList {
    const att: array<Option<Attribute>>
    const attBytes: array<Option<seq<Byte>>>
    var canonical: seq<Byte>
    var canonicalized: bool

    ghost predicate InPlace()
      reads att
    {
      && att.Length == MAX_ATTRIBUTE + 1 && attBytes.Length == MAX_ATTRIBUTE + 1
      && (forall i | 0 <= i <= MAX_ATTRIBUTE :: AttributeOk(att[i], i))
    }

    ghost predicate Valid()
      reads this, att, attBytes
    {
      && InPlace()
      && (forall i | 0 <= i <= MAX_ATTRIBUTE :: BytesOk(attBytes[i], i))
      && (canonicalized ==> canonical == Canonical(Contents()) && Storable(Contents()))
    }

    /** The list itself: for each type the bytes of its attribute. */
    ghost function Contents(): Slots
      requires att.Length == attBytes.Length == MAX_ATTRIBUTE + 1
      reads att, attBytes
    {
      SlotsOf(att[..], attBytes[..])
    }

    lemma ContentsWellFormed()
      requires Valid()
      ensures WellFormedSlots(Contents())
    {
      forall i | 0 <= i <= MAX_ATTRIBUTE && Contents()[i].Some? ensures IsTlv(Contents()[i].value, i) {
        SlotWellFormed(att[i], attBytes[i], i);
      }
    }

    lemma ContentsStorable()
      requires Valid() && Fitting(att[..], attBytes[..], CANONICAL_SPACE)
      ensures Storable(Contents())
    {
      FitsWithin(att[..], attBytes[..], CANONICAL_SPACE);
      forall i | 0 <= i <= MAX_ATTRIBUTE && Contents()[i].Some? ensures IsImage(Contents()[i].value, i) {
        if i != CLUSTER_LIST { OnlyClustersAbort(att[i], i); }
        SlotWellFormed(att[i], attBytes[i], i);
      }
    }

    constructor ()
      ensures Valid() && Contents() == NO_SLOTS && fresh(att) && fresh(attBytes)
    {
      att := new Option<Attribute>[MAX_ATTRIBUTE + 1](_ => None);
      attBytes := new Option<seq<Byte>>[MAX_ATTRIBUTE + 1](_ => None);
      canonical, canonicalized := [], false;
    }

    /** A list from its stored canonical form. */
    constructor FromStored(data: seq<Byte>, ghost s: Slots)
      requires Storable(s) && data == Canonical(s)
      ensures Valid() && Contents() == s && fresh(att) && fresh(attBytes)
    {
      att := new Option<Attribute>[MAX_ATTRIBUTE + 1](_ => None);
      attBytes := new Option<seq<Byte>>[MAX_ATTRIBUTE + 1](_ => None);
      canonical, canonicalized := [], false;
      new;
      assert attBytes[..] == NO_SLOTS;
      StorableIsWellFormed(s);
      CanonicalRoundTrip(s);
      var _ := QuickDecodeInto(data);
      assert Contents() == s;
    }

    /** The loop that looks for attributes, on any data. */
    method QuickDecodeInto(data: seq<Byte>) returns (corrupt: bool)
      requires attBytes.Length == MAX_ATTRIBUTE + 1
      modifies this`canonicalized, attBytes
      ensures !canonicalized
      ensures corrupt == QuickDecode(data, old(attBytes[..])).None?
      ensures !corrupt ==> attBytes[..] == QuickDecode(data, old(attBytes[..])).value
    {
      canonicalized := false;
      var rest := data;
      while rest != []
        invariant !canonicalized
        invariant QuickDecode(rest, attBytes[..]) == QuickDecode(data, old(attBytes[..]))
        decreases |rest|
      {
        if |rest| < 3 || (Extended(rest[0]) && |rest| < 4) { return true; }
        var size := TlvSize(rest);
        if |rest| < size { return true; }
        if rest[1] <= MAX_ATTRIBUTE { attBytes[rest[1]] := Some(rest[..size]); }
        rest := rest[size..];
      }
      corrupt := false;
    }

    /** The loop that decodes the attributes of a message, into a new list. */
    method LoadRawData(data: seq<Byte>, wide: bool) returns (corrupt: bool)
      requires Valid() && Contents() == NO_SLOTS && |data| <= MAX_MESSAGE
      modifies this`canonicalized, att
      ensures corrupt == Loaded(data, wide, old(att[..])).None?
      ensures !corrupt ==> Valid() && att[..] == Loaded(data, wide, old(att[..])).value
    {
      canonicalized := false;
      ghost var whole := Loaded(data, wide, att[..]);
      var rest := data;
      while rest != []
        invariant !canonicalized && InPlace() && |rest| <= |data|
        invariant Loaded(rest, wide, att[..]) == whole
        decreases |rest|
      {
        if |rest| < 3 || (Extended(rest[0]) && |rest| < 4) { return true; }
        var size := TlvSize(rest);
        if |rest| < size { return true; }
        var x := Received(rest[..size], wide);
        if x.None? { return true; }
        ReceivedWellFormed(rest[..size], wide);
        if rest[1] <= MAX_ATTRIBUTE {
          if att[rest[1]].Some? { return true; }
          att[rest[1]] := x;
        }
        rest := rest[size..];
      }
      corrupt := false;
    }

    /** operator==: canonical forms are compared, and so the lists themselves are. */
    method Equals(him: FastPathAttributeList) returns (aborted: bool, equal: bool)
      requires Valid() && him.Valid()
      modifies this, him
      ensures aborted == (
                (!old(canonicalized) && !old(Fitting(att[..], attBytes[..], CANONICAL_SPACE)))
                || (!old(him.canonicalized) && !old(Fitting(him.att[..], him.attBytes[..], CANONICAL_SPACE))))
      ensures !aborted ==> Valid() && him.Valid() && (equal <==> Contents() == him.Contents())
    {
      equal := false;
      ContentsWellFormed();
      him.ContentsWellFormed();
      aborted := Canonicalize();
      if aborted { return; }
      aborted := him.Canonicalize();
      if aborted { return; }
      equal := canonical == him.canonical;
      if equal { CanonicalInjective(Contents(), him.Contents()); }
    }

    /** Decode on demand. Neither the list nor its canonical form changes. */
    method FindAttributeByType(kind: nat) returns (a: Option<Attribute>)
      requires Valid() && kind <= MAX_ATTRIBUTE
      modifies att
      ensures Valid() && Contents() == old(Contents())
      ensures a.Some? <==> Contents()[kind].Some?
      ensures a.Some? ==> WellFormed(a.value) && KindOf(a.value) == kind && Encoded(a.value) == Contents()[kind].value
    {
      if att[kind].Some? { return att[kind]; }
      if attBytes[kind].None? { return None; }
      CreatedEncodesAlike(attBytes[kind].value, kind);
      a := Created(attBytes[kind].value);
      att[kind] := a;
      assert Contents() == old(Contents());
    }

    /** Add the attribute itself. */
    method AddPathAttribute(a: Attribute)
      requires Valid() && WellFormed(a) && KindOf(a) <= MAX_ATTRIBUTE
      modifies this, att
      ensures Valid() && Contents() == old(Contents())[KindOf(a) := Some(Encoded(a))]
    {
      var k: nat := KindOf(a);
      canonicalized := false;
      att[k] := Some(a);
      SlotsChanged(old(att[..]), attBytes[..], k, a, attBytes[k]);
      assert att[..] == old(att[..])[k := Some(a)] && attBytes[..] == attBytes[..][k := attBytes[k]];
    }

    /** Add a copy, which has the flags its class starts with. */
    method AddCopy(a: Attribute)
      requires Valid() && WellFormed(a) && KindOf(a) <= MAX_ATTRIBUTE
      modifies this, att
      ensures Valid() && WellFormed(Cloned(a)) && Contents() == old(Contents())[KindOf(a) := Some(Encoded(Cloned(a)))]
    {
      CloneAlike(a);
      AddPathAttribute(Cloned(a));
    }

    method ReplaceAttribute(a: Attribute) returns (aborted: bool)
      requires Valid() && WellFormed(a) && KindOf(a) <= MAX_ATTRIBUTE
      modifies this, att, attBytes
      ensures aborted == old(Contents())[KindOf(a)].None?
      ensures !aborted ==> Valid() && Contents() == old(Contents())[KindOf(a) := Some(Encoded(a))]
    {
      var k: nat := KindOf(a);
      canonicalized := false;
      if att[k].None? && attBytes[k].None? { return true; }
      if att[k].None? { attBytes[k] := None; }
      att[k] := Some(a);
      aborted := false;
      SlotsChanged(old(att[..]), old(attBytes[..]), k, a, attBytes[k]);
      assert att[..] == old(att[..])[k := Some(a)] && attBytes[..] == old(attBytes[..])[k := attBytes[k]];
    }

    method RemoveAttributeByType(kind: nat)
      requires Valid() && kind <= MAX_ATTRIBUTE
      modifies this, att, attBytes
      ensures Valid() && Contents() == old(Contents())[kind := None]
    {
      canonicalized := false;
      att[kind] := None;
      attBytes[kind] := None;
      assert Contents() == old(Contents())[kind := None];
    }

    /** Encode the attributes in order, copying those that were never decoded. */
    method Canonicalize() returns (aborted: bool)
      requires Valid()
      modifies this
      ensures aborted == (!old(canonicalized) && !Fitting(att[..], attBytes[..], CANONICAL_SPACE))
      ensures !aborted ==> Valid() && canonicalized && canonical == Canonical(Contents()) && Storable(Contents())
    {
      if canonicalized { return false; }
      var fits, buf := EncodeAll();
      FitsExactly(att[..], attBytes[..], CANONICAL_SPACE);
      if !fits { return true; }
      ContentsStorable();
      canonical, canonicalized := buf, true;
      aborted := false;
    }

    method EncodeAll() returns (fits: bool, buf: seq<Byte>)
      requires InPlace()
      ensures fits == AllFit(att[..], attBytes[..], 0, CANONICAL_SPACE)
      ensures fits ==> buf == Canonical(Contents())
    {
      ghost var a, b := att[..], attBytes[..];
      ghost var s := Contents();
      ghost var whole, all := Canonical(s), AllFit(a, b, 0, CANONICAL_SPACE);
      buf := [];
      var remaining: nat := CANONICAL_SPACE;
      var i := 0;
      while i <= MAX_ATTRIBUTE
        invariant i <= MAX_ATTRIBUTE + 1
        invariant buf + CanonicalFrom(s, i) == whole
        invariant AllFit(a, b, i, remaining) == all
      {
        fits, buf, remaining := EncodeOne(i, buf, remaining);
        if !fits { return; }
        i := i + 1;
      }
      fits := true;
    }

    method EncodeOne(i: nat, buf: seq<Byte>, space: nat) returns (fits: bool, buf': seq<Byte>, left: nat)
      requires InPlace() && i <= MAX_ATTRIBUTE
      ensures !fits ==> !AllFit(att[..], attBytes[..], i, space)
      ensures fits ==> AllFit(att[..], attBytes[..], i, space) == AllFit(att[..], attBytes[..], i + 1, left)
      ensures fits ==> buf' + CanonicalFrom(Contents(), i + 1) == buf + CanonicalFrom(Contents(), i)
    {
      var bytes;
      fits, bytes := EncodeSlot(AttOrder(i), space);
      buf', left := buf, space;
      if fits {
        EncodeNext(att[..], attBytes[..], Contents(), buf, bytes, i, space);
        buf', left := buf + bytes, space - |bytes|;
      } else {
        AllFitNext(att[..], attBytes[..], i, space);
      }
    }

    method EncodeSlot(t: nat, remaining: nat) returns (fits: bool, bytes: seq<Byte>)
      requires InPlace() && t <= MAX_ATTRIBUTE
      ensures fits == Fits(att[t], attBytes[t], remaining)
      ensures fits ==> bytes == SlotBytes(SlotOf(att[t], attBytes[t]))
    {
      bytes := [];
      if att[t].Some? {
        var a := att[t].value;
        if !Writable(a) || (a.Known? && Wanted(a.kind, a.value) > remaining) { return false, []; }
        bytes := Encoded(a);
      } else if attBytes[t].Some? {
        bytes := attBytes[t].value;
      }
      fits := |bytes| <= remaining;
    }
  }

  lemma CanonicalNext(buf: seq<Byte>, bytes: seq<Byte>, s: Slots, i: nat)
    requires i <= MAX_ATTRIBUTE && bytes == SlotBytes(s[AttOrder(i)])
    ensures buf + bytes + CanonicalFrom(s, i + 1) == buf + CanonicalFrom(s, i)
  {
  }

  lemma EncodeNext(
    a: Attributes, b: Undecoded, s: Slots, buf: seq<Byte>, bytes: seq<Byte>, i: nat, space: nat)
    requires |a| == |b| == MAX_ATTRIBUTE + 1 && i <= MAX_ATTRIBUTE && s == SlotsOf(a, b)
    requires Fits(a[AttOrder(i)], b[AttOrder(i)], space)
    requires bytes == SlotBytes(SlotOf(a[AttOrder(i)], b[AttOrder(i)]))
    ensures |bytes| <= space && AllFit(a, b, i, space) == AllFit(a, b, i + 1, space - |bytes|)
    ensures buf + bytes + CanonicalFrom(s, i + 1) == buf + CanonicalFrom(s, i)
  {
    AllFitNext(a, b, i, space);
    SlotAt(a, b, AttOrder(i));
    CanonicalNext(buf, bytes, s, i);
  }
}
