/** Routes with equal attributes, linked into a circular doubly linked chain. */
module Chain {
  import opened Nets

  /** A path attribute list. Equal lists are stored once, so a list is known by its identity. */
  type Attrs = nat

  class ChainedRoute {
    const net: Net
    const attrs: Attrs
    var prev: ChainedRoute
    var next: ChainedRoute

    /** A route on a chain of its own. */
    constructor (net: Net, attrs: Attrs)
      ensures this.net == net && this.attrs == attrs && Ring([this])
    {
      this.net, this.attrs := net, attrs;
      prev, next := this, this;
    }

    /** A route linked in after another one. */
    constructor After(net: Net, attrs: Attrs, before: ChainedRoute, ghost chain: seq<ChainedRoute>, ghost i: nat)
      requires Ring(chain) && i < |chain| && chain[i] == before
      modifies before, before.next
      ensures this.net == net && this.attrs == attrs
      ensures Ring(chain[..i + 1] + [this] + chain[i + 1..])
    {
      this.net, this.attrs := net, attrs;
      prev, next := before, before.next;
      new;
      ghost var n := |chain|;
      ghost var k := Successor(i, n);
      assert old(Linked(chain, i));
      assert next == chain[k];
      assert this !in chain;
      prev.next := this;
      next.prev := this;
      ghost var d := chain[..i + 1] + [this] + chain[i + 1..];
      assert forall j | 0 <= j < n + 1 ::
               d[j] == if j <= i then chain[j] else if j == i + 1 then this else chain[j - 1];
      forall j | 0 <= j < n && j != i
        ensures chain[j].next == chain[Successor(j, n)] && chain[Successor(j, n)].prev == chain[j]
      {
        assert old(Linked(chain, j));
        assert chain[j] != before && chain[Successor(j, n)] != chain[k];
      }
      assert NoRepeats(d);
      forall j | 0 <= j < n + 1 ensures Linked(d, j) {
      }
    }

    /** Take the route out of its chain. Its own links stay as they are. */
    method Unchain(ghost chain: seq<ChainedRoute>, ghost i: nat) returns (others: bool)
      requires Ring(chain) && i < |chain| && chain[i] == this
      modifies prev, next
      ensures others == (|chain| > 1)
      ensures others ==> Ring(chain[..i] + chain[i + 1..]) && next == old(next)
    {
      ghost var n := |chain|;
      ghost var h, k := Predecessor(i, n), Successor(i, n);
      assert Linked(chain, h) && Linked(chain, i);
      assert prev == chain[h] && next == chain[k];
      prev.next := next;
      next.prev := prev;
      others := next != this;
      if others {
        forall j | 0 <= j < n && j != i && j != h
          ensures chain[j].next == chain[Successor(j, n)] && chain[Successor(j, n)].prev == chain[j]
        {
          assert old(Linked(chain, j));
          assert chain[j] != chain[h] && chain[Successor(j, n)] != chain[k];
        }
        RingWithout(chain, i);
      }
    }
  }

  function Successor(i: nat, n: nat): nat {
    if i + 1 == n then 0 else i + 1
  }

  function Predecessor(i: nat, n: nat): nat
    requires i < n
  {
    if i == 0 then n - 1 else i - 1
  }

  ghost predicate NoRepeats<T>(s: seq<T>) {
    forall i, j | 0 <= i < j < |s| :: s[i] != s[j]
  }

  ghost predicate Linked(chain: seq<ChainedRoute>, i: nat)
    requires i < |chain|
    reads chain
  {
    chain[i].next == chain[Successor(i, |chain|)] && chain[Successor(i, |chain|)].prev == chain[i]
  }

  /** All links but those of the i-th route, which its neighbours bridge. */
  lemma RingWithout(chain: seq<ChainedRoute>, i: nat)
    requires |chain| > 1 && i < |chain| && NoRepeats(chain)
    requires forall j | 0 <= j < |chain| && j != i && j != Predecessor(i, |chain|) ::
               chain[j].next == chain[Successor(j, |chain|)] && chain[Successor(j, |chain|)].prev == chain[j]
    requires chain[Predecessor(i, |chain|)].next == chain[Successor(i, |chain|)]
    requires chain[Successor(i, |chain|)].prev == chain[Predecessor(i, |chain|)]
    ensures Ring(chain[..i] + chain[i + 1..])
  {
    var n := |chain|;
    var d := chain[..i] + chain[i + 1..];
    assert NoRepeats(d);
    forall j | 0 <= j < n - 1 ensures Linked(d, j) {
      var a := if j < i then j else j + 1;
      var b := if Successor(j, n - 1) < i then Successor(j, n - 1) else Successor(j, n - 1) + 1;
      assert d[j] == chain[a] && d[Successor(j, n - 1)] == chain[b];
      if a == Predecessor(i, n) {
        assert b == Successor(i, n);
      } else {
        assert b == Successor(a, n);
      }
    }
  }

  /** The routes are linked in this order, and back from the last to the first. */
  ghost predicate Ring(chain: seq<ChainedRoute>)
    reads chain
  {
    chain != [] && NoRepeats(chain) && forall i | 0 <= i < |chain| :: Linked(chain, i)
  }
}
