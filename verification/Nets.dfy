/** Addresses and subnets as bit strings, most significant bit first. An address carries all
    its bits; a subnet carries only its prefix, which is what a masked address plus a prefix
    length determine. IPv4 and IPv6 are the strings of 32 and 128 bits. */
module Nets {
  type Addr = seq<bool>
  type Net = seq<bool>

  /** IPNet<A>(addr, len): the subnet of the given length that holds the address. */
  function MakeNet(a: Addr, len: nat): (n: Net)
    requires len <= |a|
    ensures |n| == len && n <= a
  {
    a[..len]
  }

  function Zeros(k: nat): (z: seq<bool>)
    ensures |z| == k && forall i | 0 <= i < k :: !z[i]
  {
    seq(k, i => false)
  }

  /** IPNet::masked_addr(): the prefix followed by zero bits up to the address width. */
  function MaskedAddr(n: Net, width: nat): (a: Addr)
    requires |n| <= width
    ensures |a| == width && n <= a
  {
    n + Zeros(width - |n|)
  }

  /** A::mask_by_prefix_len(len). */
  function MaskByPrefixLen(a: Addr, len: nat): Addr
    requires len <= |a|
  {
    MaskedAddr(MakeNet(a, len), |a|)
  }

  /** Neither subnet holds an address of the other. */
  predicate Disjoint(x: Net, y: Net) {
    !(x <= y) && !(y <= x)
  }

  /** Two subnets that hold a common address are nested. */
  lemma PrefixesNested(x: Net, y: Net, a: Addr)
    requires x <= a && y <= a
    ensures x <= y || y <= x
  {
    assert x == a[..|x|] && y == a[..|y|];
  }

  /** Numeric order of two bit strings that differ somewhere in their common length. */
  predicate AddrLess(x: Addr, y: Addr) {
    x != [] && y != [] && if x[0] != y[0] then y[0] else AddrLess(x[1..], y[1..])
  }

  /** IPNet::operator<: a subnet precedes every subnet that holds it, and unrelated subnets
      stand in address order. The trie iterates in the same order. */
  predicate Precedes(x: Net, y: Net) {
    if x <= y then false
    else if y <= x then true
    else AddrLess(x, y)
  }

  lemma {:induction false} AddrLessTotal(x: Addr, y: Addr)
    requires Disjoint(x, y)
    ensures AddrLess(x, y) != AddrLess(y, x)
  {
    assert [] <= x && [] <= y;
    if x[0] == y[0] {
      assert x == [x[0]] + x[1..] && y == [y[0]] + y[1..];
      AddrLessTotal(x[1..], y[1..]);
    }
  }

  /** The order is total: of two different subnets exactly one precedes the other. */
  lemma PrecedesTotal(x: Net, y: Net)
    ensures x == y ==> !Precedes(x, y)
    ensures x != y ==> Precedes(x, y) != Precedes(y, x)
  {
    if Disjoint(x, y) {
      AddrLessTotal(x, y);
    } else if x != y && x <= y {
      assert !(y <= x);
    } else if x != y {
      assert !(x <= y);
    }
  }

  /** Precedes, unfolded one bit at a time. */
  lemma PrecedesStep(x: Net, y: Net)
    ensures Precedes(x, y) <==>
            x != [] && (y == [] || (x[0] != y[0] && y[0]) || (x[0] == y[0] && Precedes(x[1..], y[1..])))
  {
    if x != [] && y != [] {
      assert x == [x[0]] + x[1..] && y == [y[0]] + y[1..];
      assert x[0] == y[0] ==> (x <= y <==> x[1..] <= y[1..]) && (y <= x <==> y[1..] <= x[1..]);
    }
  }

  lemma {:induction false} PrecedesTransitive(x: Net, y: Net, z: Net)
    requires Precedes(x, y) && Precedes(y, z)
    ensures Precedes(x, z)
  {
    PrecedesStep(x, y);
    PrecedesStep(y, z);
    PrecedesStep(x, z);
    if y != [] && z != [] && x[0] == y[0] == z[0] {
      PrecedesTransitive(x[1..], y[1..], z[1..]);
    }
  }

  predicate IsLeast(x: Net, keys: set<Net>) {
    x in keys && forall y | y in keys && y != x :: Precedes(x, y)
  }

  /** Among finitely many subnets one comes first. */
  lemma {:induction false} LeastExists(keys: set<Net>) returns (x: Net)
    requires keys != {}
    ensures IsLeast(x, keys)
  {
    var k :| k in keys;
    var rest := keys - {k};
    if rest == {} {
      forall y | y in keys ensures y == k { assert y !in rest; }
      return k;
    }
    var m := LeastExists(rest);
    PrecedesTotal(k, m);
    if Precedes(m, k) {
      return m;
    }
    forall y | y in keys && y != k ensures Precedes(k, y) {
      if y != m { PrecedesTransitive(k, m, y); }
    }
    return k;
  }

  ghost function Least(keys: set<Net>): (x: Net)
    requires keys != {}
    ensures IsLeast(x, keys)
  {
    assert exists x :: IsLeast(x, keys) by { var x := LeastExists(keys); }
    var x :| IsLeast(x, keys);
    x
  }

  lemma LeastUnique(x: Net, y: Net, keys: set<Net>)
    requires IsLeast(x, keys) && IsLeast(y, keys)
    ensures x == y
  {
    PrecedesTotal(x, y);
  }

  /** The keys of a std::map or a trie in iteration order. */
  ghost function InOrder(keys: set<Net>): (s: seq<Net>)
    ensures forall x :: x in s <==> x in keys
    ensures |s| == |keys|
    ensures forall i, j | 0 <= i < j < |s| :: Precedes(s[i], s[j])
  {
    if keys == {} then [] else
      var x := Least(keys);
      [x] + InOrder(keys - {x})
  }

  lemma InOrderFirst(keys: set<Net>, x: Net)
    requires IsLeast(x, keys)
    ensures InOrder(keys) == [x] + InOrder(keys - {x})
  {
    LeastUnique(x, Least(keys), keys);
  }
}
