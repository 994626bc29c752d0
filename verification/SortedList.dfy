/** The circular doubly linked sorted list of the threading lab, on real nodes. */
module SortedList {
  import opened Base
  import opened Strings

  /** SortedListElement: the list head is recognizable by its missing key. */
  class Node {
    var prev: Node?
    var next: Node?
    const key: Option<string>

    /** A list head, linked to itself. */
    constructor Head()
      ensures key == None && next == this && prev == this
    {
      key := None;
      next := this;
      prev := this;
    }

    constructor Element(key: string)
      ensures this.key == Some(key) && next == null && prev == null
    {
      this.key := Some(key);
      next := null;
      prev := null;
    }
  }

  function Succ(i: nat, n: nat): nat {
    if i + 1 < n then i + 1 else 0
  }

  /** Following next from ring[0] visits the ring in order and comes back. */
  ghost predicate NextRing(ring: seq<Node>)
    reads ring
  {
    && |ring| > 0 && NoDup(ring)
    && (forall i :: 0 <= i < |ring| ==> ring[i].next == ring[Succ(i, |ring|)])
  }

  /** prev is the inverse of next. */
  ghost predicate PrevRing(ring: seq<Node>)
    reads ring
  {
    forall i :: 0 <= i < |ring| ==> ring[Succ(i, |ring|)].prev == ring[i]
  }

  /** Only ring[0] is a head. */
  ghost predicate Keyed(ring: seq<Node>) {
    |ring| > 0 && ring[0].key.None? && forall i :: 1 <= i < |ring| ==> ring[i].key.Some?
  }

  ghost predicate Ring(ring: seq<Node>)
    reads ring
  {
    NextRing(ring) && PrevRing(ring) && Keyed(ring)
  }

  /** Keys never increase from head->next on: the order the insertion loop builds. */
  ghost predicate Sorted(ring: seq<Node>) {
    forall i, j :: 1 <= i < j < |ring| && ring[i].key.Some? && ring[j].key.Some? ==> LE(ring[j].key.value, ring[i].key.value)
  }

  /** Where insertion stops: before the first element whose key is less than `key`. */
  ghost predicate IsPlace(ring: seq<Node>, key: string, p: nat) {
    && 1 <= p <= |ring|
    && (forall i :: 1 <= i < p && ring[i].key.Some? ==> LE(key, ring[i].key.value))
    && (p < |ring| && ring[p].key.Some? ==> !LE(key, ring[p].key.value))
  }

  ghost function InsertAt(ring: seq<Node>, p: nat, element: Node): seq<Node>
    requires p <= |ring|
  {
    ring[..p] + [element] + ring[p..]
  }

  lemma InsertAtFacts(ring: seq<Node>, p: nat, e: Node)
    requires NoDup(ring) && 1 <= p <= |ring| && e !in ring
    ensures var r := InsertAt(ring, p, e);
            && |r| == |ring| + 1 && NoDup(r) && r[p] == e && r[p - 1] == ring[p - 1] && r[0] == ring[0]
            && r[Succ(p, |r|)] == ring[Wrap(p, |ring|)]
            && (forall i :: 0 <= i < p ==> r[i] == ring[i])
            && (forall i :: p < i < |r| ==> r[i] == ring[i - 1])
            && (forall x :: x in r <==> x in ring || x == e)
  {
    var r := InsertAt(ring, p, e);
    forall i, j | 0 <= i < j < |r| ensures r[i] != r[j] {
      assert i != p ==> r[i] == ring[if i < p then i else i - 1] && r[i] in ring;
      assert j != p ==> r[j] == ring[if j < p then j else j - 1] && r[j] in ring;
    }
    forall x | x in ring ensures x in r {
      var i :| 0 <= i < |ring| && ring[i] == x;
      assert x == r[if i < p then i else i + 1];
    }
  }

  lemma InsertKeepsSorted(ring: seq<Node>, p: nat, element: Node)
    requires Keyed(ring) && Sorted(ring) && element.key.Some? && IsPlace(ring, element.key.value, p)
    ensures Keyed(InsertAt(ring, p, element)) && Sorted(InsertAt(ring, p, element))
  {
    var key := element.key.value;
    var ring' := InsertAt(ring, p, element);
    forall i, j | 1 <= i < j < |ring'| ensures LE(ring'[j].key.value, ring'[i].key.value) {
      if i < p && j == p {
        assert LE(key, ring[i].key.value);
      } else if i == p {
        var k := ring[p].key.value;
        LETotal(key, k);
        if j > p + 1 {
          LETransitive(ring[j - 1].key.value, k, key);
        }
      } else {
        var i0, j0 := if i < p then i else i - 1, if j < p then j else j - 1;
        assert ring'[i] == ring[i0] && ring'[j] == ring[j0];
      }
    }
  }

  /** The insertion loop: the node to insert before. */
  method FindPlace(list: Node, key: string, ghost ring: seq<Node>) returns (lookup: Node, ghost p: nat)
    requires Ring(ring) && ring[0] == list
    ensures IsPlace(ring, key, p) && lookup == ring[Wrap(p, |ring|)]
  {
    lookup := list.next;
    p := 1;
    while lookup != list && StrCmp(key, lookup.key.value) < 1
      invariant 1 <= p <= |ring| && lookup == ring[Wrap(p, |ring|)]
      invariant forall i :: 1 <= i < p ==> LE(key, ring[i].key.value)
      decreases |ring| - p
    {
      lookup := lookup.next;
      p := p + 1;
    }
  }

  function Wrap(p: nat, n: nat): nat {
    if p < n then p else 0
  }

  /** The four pointer assignments of SortedList_insert. */
  method Link(element: Node, lookup: Node, ghost ring: seq<Node>, ghost p: nat)
    requires NextRing(ring) && PrevRing(ring) && 1 <= p <= |ring| && lookup == ring[Wrap(p, |ring|)] && element !in ring
    modifies element, lookup, lookup.prev
    ensures NextRing(InsertAt(ring, p, element)) && PrevRing(InsertAt(ring, p, element))
  {
    assert lookup.prev == ring[p - 1] by {
      assert Succ(p - 1, |ring|) == Wrap(p, |ring|);
    }
    element.prev := lookup.prev;
    element.next := lookup;
    lookup.prev.next := element;
    lookup.prev := element;
    ghost var ring' := InsertAt(ring, p, element);
    InsertAtFacts(ring, p, element);
    hide InsertAt;
    forall i | 0 <= i < |ring'| ensures ring'[i].next == ring'[Succ(i, |ring'|)] && ring'[Succ(i, |ring'|)].prev == ring'[i] {
      if i < p - 1 {
        assert ring'[i] == ring[i] && ring'[i + 1] == ring[i + 1] && Succ(i, |ring|) == i + 1;
      } else if i > p {
        assert ring'[i] == ring[i - 1] && ring'[Succ(i, |ring'|)] == ring[Succ(i - 1, |ring|)];
      }
    }
  }

  /** SortedList_insert: the element is linked in where the order wants it. */
  method Insert(list: Node, element: Node, ghost ring: seq<Node>) returns (ghost p: nat)
    requires Ring(ring) && Sorted(ring) && ring[0] == list && element !in ring && element.key.Some?
    modifies ring, element
    ensures IsPlace(ring, element.key.value, p)
    ensures Ring(InsertAt(ring, p, element)) && Sorted(InsertAt(ring, p, element))
  {
    var lookup;
    lookup, p := FindPlace(list, element.key.value, ring);
    assert lookup.prev == ring[p - 1] by {
      assert Succ(p - 1, |ring|) == Wrap(p, |ring|);
    }
    InsertKeepsSorted(ring, p, element);
    Link(element, lookup, ring, p);
  }

  ghost function RemoveAt(ring: seq<Node>, p: nat): seq<Node>
    requires p < |ring|
  {
    ring[..p] + ring[p + 1..]
  }

  lemma RemoveAtFacts(ring: seq<Node>, p: nat)
    requires NoDup(ring) && 1 <= p < |ring|
    ensures var r := RemoveAt(ring, p);
            && |r| == |ring| - 1 && NoDup(r) && r[0] == ring[0]
            && (forall i :: 0 <= i < |r| ==> r[i] == ring[if i < p then i else i + 1])
            && (forall x :: x in r <==> x in ring && x != ring[p])
  {
    var r := RemoveAt(ring, p);
    forall x | x in ring && x != ring[p] ensures x in r {
      var i :| 0 <= i < |ring| && ring[i] == x;
      assert x == r[if i < p then i else i - 1];
    }
  }

  lemma RemoveKeepsSorted(ring: seq<Node>, p: nat)
    requires Keyed(ring) && Sorted(ring) && 1 <= p < |ring|
    ensures Keyed(RemoveAt(ring, p)) && Sorted(RemoveAt(ring, p))
  {
    var ring' := RemoveAt(ring, p);
    forall i, j | 1 <= i < j < |ring'| ensures LE(ring'[j].key.value, ring'[i].key.value) {
      var i0, j0 := if i < p then i else i + 1, if j < p then j else j + 1;
      assert ring'[i] == ring[i0] && ring'[j] == ring[j0];
    }
  }

  /** SortedList_delete: it refuses a head and an element whose neighbours do not point back, and then changes nothing. */
  method Delete(element: Node) returns (r: int)
    requires element.next != null && element.prev != null
    modifies element.next`prev, element.prev`next
    ensures r == 0 || r == 1
    ensures r == 1 <==> element.key.None? || old(element.next.prev) != element || old(element.prev.next) != element
    ensures r == 1 ==> old(element.next).prev == old(element.next.prev) && old(element.prev).next == old(element.prev.next)
    ensures r == 0 ==> old(element.next).prev == old(element.prev) && old(element.prev).next == old(element.next)
  {
    if element.key.None? { return 1; }
    if element.next.prev != element { return 1; }
    if element.prev.next != element { return 1; }
    var before, after := element.prev, element.next;
    after.prev := before;
    before.next := after;
    return 0;
  }

  /** In a ring deletion succeeds and leaves a ring in the same order without the element. */
  method DeleteFromRing(element: Node, ghost ring: seq<Node>, ghost p: nat) returns (r: int)
    requires Ring(ring) && Sorted(ring) && 1 <= p < |ring| && ring[p] == element
    modifies ring
    ensures r == 0
    ensures Ring(RemoveAt(ring, p)) && Sorted(RemoveAt(ring, p))
  {
    ghost var n := |ring|;
    assert element.next == ring[Succ(p, n)] && element.prev == ring[p - 1] by {
      assert Succ(p - 1, n) == p;
    }
    assert element.next.prev == element;
    r := Delete(element);
    RemoveKeepsSorted(ring, p);
    ghost var ring' := RemoveAt(ring, p);
    RemoveAtFacts(ring, p);
    hide RemoveAt, Sorted;
    forall i | 0 <= i < |ring'| ensures ring'[i].next == ring'[Succ(i, |ring'|)] && ring'[Succ(i, |ring'|)].prev == ring'[i] {
      if i < p - 1 {
        assert ring'[i] == ring[i] && ring'[i + 1] == ring[i + 1] && Succ(i, n) == i + 1;
      } else if i >= p {
        assert ring'[i] == ring[i + 1] && ring'[Succ(i, |ring'|)] == ring[Succ(i + 1, n)];
      } else {
        assert ring'[i] == ring[p - 1] && ring'[Succ(i, |ring'|)] == ring[Succ(p, n)];
      }
    }
  }

  /** SortedList_lookup: its early exit loses nothing, because the keys never increase. */
  method Lookup(list: Node, key: string, ghost ring: seq<Node>) returns (r: Node?)
    requires Ring(ring) && Sorted(ring) && ring[0] == list
    ensures r != null ==> r in ring && r != list && r.key == Some(key)
    ensures r == null ==> forall i :: 0 <= i < |ring| ==> ring[i].key != Some(key)
  {
    var lookup := list.next;
    ghost var p := 1;
    while lookup != list && StrCmp(key, lookup.key.value) < 1
      invariant 1 <= p <= |ring| && lookup == ring[Wrap(p, |ring|)]
      invariant forall i :: 0 <= i < p ==> ring[i].key != Some(key)
      decreases |ring| - p
    {
      if StrCmp(key, lookup.key.value) == 0 {
        CmpReverses(key, lookup.key.value);
        return lookup;
      }
      CmpReverses(key, lookup.key.value);
      lookup := lookup.next;
      p := p + 1;
    }
    if p < |ring| {
      forall i | p <= i < |ring| ensures ring[i].key != Some(key) {
        NotBelow(ring, p, i, key);
      }
    }
    return null;
  }

  lemma NotBelow(ring: seq<Node>, p: nat, i: nat, key: string)
    requires Keyed(ring) && Sorted(ring) && 1 <= p <= i < |ring| && !LE(key, ring[p].key.value)
    ensures ring[i].key != Some(key)
  {
    CmpReverses(key, key);
  }

  /** SortedList_length: the number of elements, or -1 as soon as one prev pointer on the way does not fit. */
  method Length(list: Node, ghost ring: seq<Node>) returns (r: int)
    requires NextRing(ring) && ring[0] == list
    ensures r == if PrevRing(ring) then |ring| - 1 else -1
  {
    var lookup := list.next;
    if lookup.prev != list {
      assert ring[Succ(0, |ring|)].prev != ring[0];
      return -1;
    }
    var count := 0;
    while lookup != list
      invariant 0 <= count < |ring| && lookup == ring[Wrap(count + 1, |ring|)]
      invariant forall i :: 0 <= i <= count ==> ring[Succ(i, |ring|)].prev == ring[i]
      decreases |ring| - count
    {
      if lookup.next.prev != lookup {
        assert ring[Succ(count + 1, |ring|)].prev != ring[count + 1];
        return -1;
      }
      lookup := lookup.next;
      count := count + 1;
    }
    return count;
  }
}
