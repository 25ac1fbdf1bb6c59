/** Stored lists are sorted by next hop because their canonical form begins with it. */
module StoredNextHops {
  import opened Wrappers
  import opened AttributeModel
  import opened AttributeValues
  import opened CanonicalForm
  import opened StoredLists

  /** A list of the attribute manager: no attribute of type 0, and a next hop of the family. */
  ghost predicate Sortable(s: Slots, n: PrefixSize) {
    Storable(s) && WellFormedSlots(s) && s[NEXT_HOP].Some? && |s[NEXT_HOP].value| == n && s[0].None?
  }

  /** The bytes of a NEXT_HOP are as many as the comparison takes for it. */
  lemma NextHopSize(d: seq<Byte>)
    requires IsImage(d, NEXT_HOP)
    ensures |d| == 7 || |d| == 19
  {
    var a :| WellFormed(a) && Writable(a) && KindOf(a) == NEXT_HOP && Encoded(a) == d;
    assert a.Known? && a.value.Plain?;
  }

  /** The first bytes of a stored list are its NEXT_HOP, if and only if it has no type 0. */
  lemma PrefixIsNextHop(s: Slots, n: PrefixSize)
    requires WellFormedSlots(s) && s[NEXT_HOP].Some? && |s[NEXT_HOP].value| == n && |Canonical(s)| >= n
    ensures Canonical(s)[..n] == s[NEXT_HOP].value <==> s[0].None?
  {
    NextHopFirst(s);
  }

  lemma LongEnough(s: Slots, n: PrefixSize)
    requires Sortable(s, n)
    ensures |Canonical(s)| >= n && Canonical(s)[..n] == s[NEXT_HOP].value
  {
    NextHopFirst(s);
  }

  /** Between two stored lists with the same next hop there are only lists with that next hop. */
  lemma SameNextHopTogether(x: Slots, y: Slots, z: Slots, n: PrefixSize)
    requires Sortable(x, n) && Sortable(y, n) && Sortable(z, n)
    requires |Canonical(x)| >= n && |Canonical(y)| >= n && |Canonical(z)| >= n
    requires Less(Canonical(x), Canonical(y), n) && Less(Canonical(y), Canonical(z), n)
    requires x[NEXT_HOP] == z[NEXT_HOP]
    ensures y[NEXT_HOP] == x[NEXT_HOP]
  {
    LongEnough(x, n);
    LongEnough(y, n);
    LongEnough(z, n);
    NextHopsContiguous(Canonical(x), Canonical(y), Canonical(z), n);
  }

  /** A list holding nothing but the next hop is not greater than any list with that next hop. */
  lemma SearchStartsHere(alone: Slots, x: Slots, n: PrefixSize)
    requires Sortable(alone, n) && Sortable(x, n) && alone[NEXT_HOP] == x[NEXT_HOP]
    requires |Canonical(alone)| == n && |Canonical(x)| >= n
    ensures !Less(Canonical(x), Canonical(alone), n)
  {
    LongEnough(alone, n);
    LongEnough(x, n);
    NextHopAloneIsLeast(Canonical(alone), Canonical(x), n);
  }
}
