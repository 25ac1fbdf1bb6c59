/** The order of stored attribute lists, and the manager that stores each list once. */
module StoredLists {
  import opened Wrappers
  import opened AttributeModel

  // ---- Order --------------------------------------------------------------------------

  /** memcmp on as many bytes as both have. */
  function Compare(x: seq<Byte>, y: seq<Byte>): int {
    if x == [] || y == [] then 0
    else if x[0] != y[0] then x[0] - y[0]
    else Compare(x[1..], y[1..])
  }

  /** The size of a NEXT_HOP attribute: 7 bytes for IPv4, 19 for IPv6. */
  type PrefixSize = n: nat | n == 7 || n == 19 witness 7

  /** PathAttributeList::operator<. Stored lists begin with their NEXT_HOP, which goes first; then
      the shorter list does; then the bytes decide. */
  predicate Less(x: seq<Byte>, y: seq<Byte>, n: PrefixSize)
    requires |x| >= n && |y| >= n
  {
    var c := Compare(x[..n], y[..n]);
    c < 0 || (c == 0 && (|x| < |y| || (|x| == |y| && Compare(x[n..], y[n..]) < 0)))
  }

  lemma {:induction false} CompareEqual(x: seq<Byte>, y: seq<Byte>)
    requires |x| == |y|
    ensures Compare(x, y) == 0 <==> x == y
  {
    if x != [] && x[0] == y[0] {
      CompareEqual(x[1..], y[1..]);
      assert x == [x[0]] + x[1..] && y == [y[0]] + y[1..];
    }
  }

  lemma {:induction false} CompareAntisymmetric(x: seq<Byte>, y: seq<Byte>)
    ensures Compare(x, y) < 0 <==> Compare(y, x) > 0
    ensures Compare(x, y) == 0 <==> Compare(y, x) == 0
  {
    if x != [] && y != [] && x[0] == y[0] { CompareAntisymmetric(x[1..], y[1..]); }
  }

  lemma {:induction false} CompareTransitive(x: seq<Byte>, y: seq<Byte>, z: seq<Byte>)
    requires |x| == |y| == |z| && Compare(x, y) <= 0 && Compare(y, z) <= 0
    ensures Compare(x, z) <= 0
    ensures Compare(x, y) < 0 || Compare(y, z) < 0 ==> Compare(x, z) < 0
  {
    if x != [] && x[0] == y[0] == z[0] { CompareTransitive(x[1..], y[1..], z[1..]); }
  }

  /** Of two different lists exactly one is less, and no list is less than itself. */
  lemma LessTotal(x: seq<Byte>, y: seq<Byte>, n: PrefixSize)
    requires |x| >= n && |y| >= n
    ensures x == y ==> !Less(x, y, n)
    ensures x != y ==> Less(x, y, n) != Less(y, x, n)
  {
    CompareEqual(x[..n], y[..n]);
    CompareAntisymmetric(x[..n], y[..n]);
    CompareAntisymmetric(x[n..], y[n..]);
    if |x| == |y| {
      CompareEqual(x[n..], y[n..]);
      assert x == x[..n] + x[n..] && y == y[..n] + y[n..];
    }
  }

  lemma LessTransitive(x: seq<Byte>, y: seq<Byte>, z: seq<Byte>, n: PrefixSize)
    requires |x| >= n && |y| >= n && |z| >= n
    requires Less(x, y, n) && Less(y, z, n)
    ensures Less(x, z, n)
  {
    CompareTransitive(x[..n], y[..n], z[..n]);
    if |x| == |y| == |z| && Compare(x[n..], y[n..]) <= 0 && Compare(y[n..], z[n..]) <= 0 {
      CompareTransitive(x[n..], y[n..], z[n..]);
    }
  }

  /** Lists with the same next hop stand together. */
  lemma NextHopsContiguous(x: seq<Byte>, y: seq<Byte>, z: seq<Byte>, n: PrefixSize)
    requires |x| >= n && |y| >= n && |z| >= n
    requires Less(x, y, n) && Less(y, z, n) && x[..n] == z[..n]
    ensures y[..n] == x[..n]
  {
    CompareEqual(x[..n], z[..n]);
    CompareEqual(x[..n], y[..n]);
    CompareAntisymmetric(x[..n], y[..n]);
  }

  /** The list of a next hop alone is where a search for lists with that next hop begins: none of
      them is less. */
  lemma NextHopAloneIsLeast(d: seq<Byte>, x: seq<Byte>, n: PrefixSize)
    requires |d| == n && |x| >= n
    ensures d <= x ==> !Less(x, d, n)
  {
    CompareEqual(x[..n], d[..n]);
    CompareAntisymmetric(x[n..], d[n..]);
    if d <= x { assert x[..n] == d[..n]; }
  }

  /** What std::set finds: a list that is neither less nor greater. */
  predicate Equivalent(x: seq<Byte>, y: seq<Byte>, n: PrefixSize)
    requires |x| >= n && |y| >= n
  {
    !Less(x, y, n) && !Less(y, x, n)
  }

  // ---- Counting -----------------------------------------------------------------------

  /** How often each stored list is registered. */
  type Ledger = map<seq<Byte>, nat>

  const MAX_COUNT: nat := 0xffff_ffff

  function Count(l: Ledger, d: seq<Byte>): nat {
    if d in l then l[d] else 0
  }

  /** AttributeManager::add_attribute_list; it aborts when the counter would overflow. */
  function Registered(l: Ledger, d: seq<Byte>): Outcome<Ledger> {
    if Count(l, d) + 1 >= MAX_COUNT then Abort else Next(l[d := Count(l, d) + 1])
  }

  /** AttributeManager::delete_attribute_list; it aborts when the list is not stored. */
  function Deregistered(l: Ledger, d: seq<Byte>): Outcome<Ledger> {
    if d !in l || l[d] < 1 then Abort
    else if l[d] == 1 then Next(l - {d})
    else Next(l[d := l[d] - 1])
  }

  datatype Event = Register(data: seq<Byte>) | Deregister(data: seq<Byte>)

  function Step(l: Ledger, e: Event): Outcome<Ledger> {
    match e
    case Register(d) => Registered(l, d)
    case Deregister(d) => Deregistered(l, d)
  }

  function Run(l: Ledger, es: seq<Event>): Outcome<Ledger>
    decreases |es|
  {
    if es == [] then Next(l)
    else
      match Step(l, es[0])
      case Abort => Abort
      case Next(l1) => Run(l1, es[1..])
  }

  /** Registrations minus deregistrations of a list. */
  function Balance(es: seq<Event>, d: seq<Byte>): int {
    if es == [] then 0
    else (if es[0].data != d then 0 else if es[0].Register? then 1 else -1) + Balance(es[1..], d)
  }

  ghost predicate Positive(l: Ledger) {
    forall d | d in l :: l[d] >= 1
  }

  /** A list is stored if and only if its registrations exceed its deregistrations. */
  lemma StoredIffRegistered(es: seq<Event>, d: seq<Byte>)
    requires Run(map[], es).Next?
    ensures d in Run(map[], es).value <==> Balance(es, d) > 0
    ensures Count(Run(map[], es).value, d) == Balance(es, d)
  {
    RunCounts(map[], es, d);
  }

  lemma {:induction false} RunCounts(l: Ledger, es: seq<Event>, d: seq<Byte>)
    requires Positive(l) && Run(l, es).Next?
    ensures Positive(Run(l, es).value)
    ensures Count(Run(l, es).value, d) == Count(l, d) + Balance(es, d)
    decreases |es|
  {
    if es != [] {
      var l1 := Step(l, es[0]).value;
      assert Count(l1, d) == Count(l, d) + if es[0].data != d then 0 else if es[0].Register? then 1 else -1;
      RunCounts(l1, es[1..], d);
    }
  }

  /** A deregistration aborts exactly when it has no registration to answer. */
  lemma DeregisterAborts(es: seq<Event>, d: seq<Byte>)
    requires Run(map[], es).Next?
    ensures Deregistered(Run(map[], es).value, d).Abort? <==> Balance(es, d) <= 0
  {
    RunCounts(map[], es, d);
  }

  // ---- The manager --------------------------------------------------------------------

  class StoredList {
    const data: seq<Byte>
    var managed: nat

    constructor (data: seq<Byte>)
      ensures this.data == data && managed == 0
    {
      this.data, managed := data, 0;
    }
  }

  class AttributeManager {
    const n: PrefixSize
    var lists: set<StoredList>
    /** The registrations per list. */
    ghost var ledger: Ledger

    /** No two stored lists are equal, and each knows how often it is registered. */
    ghost predicate Valid()
      reads this, lists
    {
      && (forall x | x in lists :: |x.data| >= n && x.data in ledger && ledger[x.data] == x.managed >= 1)
      && (forall x, y | x in lists && y in lists && x.data == y.data :: x == y)
      && (forall d | d in ledger :: exists x :: x in lists && x.data == d)
    }

    constructor (n: PrefixSize)
      ensures Valid() && lists == {} && ledger == map[] && this.n == n
    {
      this.n, lists, ledger := n, {}, map[];
    }

    method Find(data: seq<Byte>) returns (found: StoredList?)
      requires Valid() && |data| >= n
      ensures found == null <==> data !in ledger
      ensures found != null ==> found in lists && found.data == data
    {
      var left := lists;
      while left != {}
        invariant left <= lists
        invariant forall x | x in lists - left :: x.data != data
        decreases |left|
      {
        var x :| x in left;
        LessTotal(x.data, data, n);
        if Equivalent(x.data, data, n) { return x; }
        left := left - {x};
      }
      return null;
    }

    /** Register a list: the stored copy is returned, which is the given one only if there was none. */
    method AddAttributeList(list: StoredList) returns (aborted: bool, stored: StoredList)
      requires Valid() && |list.data| >= n && (list in lists || list.managed == 0)
      modifies this, lists, list
      ensures aborted == Registered(old(ledger), list.data).Abort?
      ensures !aborted ==> Valid() && ledger == Registered(old(ledger), list.data).value
      ensures !aborted ==> stored in lists && stored.data == list.data
      ensures !aborted ==> lists == if list.data in old(ledger) then old(lists) else old(lists) + {list}
    {
      var found := Find(list.data);
      stored := if found == null then list else found;
      if 0xffff_ffff - 1 <= stored.managed { return true, stored; }
      if found == null {
        Store(list);
      } else {
        Recount(stored, stored.managed + 1);
      }
      aborted := false;
    }

    method Store(list: StoredList)
      requires Valid() && |list.data| >= n && list.data !in ledger && list !in lists && list.managed == 0
      modifies this, list
      ensures Valid() && ledger == old(ledger)[list.data := 1] && lists == old(lists) + {list}
    {
      list.managed := 1;
      lists, ledger := lists + {list}, ledger[list.data := 1];
      forall d | d in ledger ensures exists x :: x in lists && x.data == d {
        if d == list.data {
          assert list in lists;
        } else {
          var x :| x in old(lists) && x.data == d;
          assert x in lists;
        }
      }
    }

    method Recount(list: StoredList, count: nat)
      requires Valid() && list in lists && count >= 1
      modifies `ledger, list
      ensures Valid() && ledger == old(ledger)[list.data := count]
    {
      list.managed := count;
      ledger := ledger[list.data := count];
    }

    method DeleteAttributeList(list: StoredList) returns (aborted: bool)
      requires Valid() && |list.data| >= n
      modifies this, lists
      ensures aborted == Deregistered(old(ledger), list.data).Abort?
      ensures !aborted ==> Valid() && ledger == Deregistered(old(ledger), list.data).value
      ensures lists <= old(lists)
    {
      var found := Find(list.data);
      if found == null { return true; }
      if found.managed < 1 { return true; }
      if found.managed - 1 < 1 {
        found.managed := 0;
        lists, ledger := lists - {found}, ledger - {list.data};
      } else {
        Recount(found, found.managed - 1);
      }
      aborted := false;
    }
  }
}
