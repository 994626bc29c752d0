/** Rings in memory, whole and half-written. */
module ListRings {
  import opened Base
  import opened Strings
  import opened SortedList
  import opened ListMachine

  /** The words lead around the ring in both directions, except that prev may be wrong behind place `p`. */
  ghost predicate RingBut(m: Links, ring: seq<Node>, p: int) {
    && |ring| > 0 && NoDup(ring)
    && (forall i :: 0 <= i < |ring| ==> ring[i] in m.next && ring[i] in m.prev)
    && (forall i :: 0 <= i < |ring| ==> m.next[ring[i]] == ring[Succ(i, |ring|)])
    && (forall i :: 0 <= i < |ring| && i != p ==> m.prev[ring[Succ(i, |ring|)]] == ring[i])
  }

  ghost predicate IsRing(m: Links, ring: seq<Node>) {
    RingBut(m, ring, -1)
  }

  /**
   Half-written: next leads through the node at place `p`, and prev leads past it.  An insertion
   is here before its last write, a deletion before its last write.
   */
  ghost predicate HalfRing(m: Links, ring: seq<Node>, p: nat) {
    1 <= p < |ring| && RingBut(m, ring, p) && m.prev[ring[Succ(p, |ring|)]] == ring[p - 1]
  }

  /** The words of the nodes in `keep` are the same in both. */
  ghost predicate Agree(m: Links, m': Links, keep: seq<Node>) {
    && (forall x :: x in keep && x in m.next ==> x in m'.next && m'.next[x] == m.next[x])
    && (forall x :: x in keep && x in m.prev ==> x in m'.prev && m'.prev[x] == m.prev[x])
  }

  lemma RingKept(m: Links, m': Links, ring: seq<Node>, p: int)
    requires RingBut(m, ring, p) && Agree(m, m', ring)
    ensures RingBut(m', ring, p)
  {
    forall i | 0 <= i < |ring| ensures ring[i] in ring && ring[Succ(i, |ring|)] in ring {
    }
  }

  lemma RingNoDup(m: Links, ring: seq<Node>)
    requires IsRing(m, ring)
    ensures |ring| > 0 && NoDup(ring)
  {
  }

  /** What the words of a ring's node say. */
  lemma RingAt(m: Links, ring: seq<Node>, i: nat)
    requires IsRing(m, ring) && i < |ring|
    ensures ring[i] in m.next && ring[i] in m.prev && NextOf(m, ring[i]) == ring[Succ(i, |ring|)]
    ensures PrevOf(m, ring[Succ(i, |ring|)]) == ring[i]
  {
  }

  /** The place before which a cursor at `Wrap(p)` stands. */
  lemma BeforePlace(m: Links, ring: seq<Node>, p: nat)
    requires IsRing(m, ring) && 1 <= p <= |ring|
    ensures ring[Wrap(p, |ring|)] in m.prev && PrevOf(m, ring[Wrap(p, |ring|)]) == ring[p - 1]
  {
    assert Succ(p - 1, |ring|) == Wrap(p, |ring|);
    RingAt(m, ring, p - 1);
  }

  /** lookup->prev->next = element, with the element's own words already set: half-written. */
  lemma LinkedBefore(m: Links, ring: seq<Node>, p: nat, e: Node)
    requires IsRing(m, ring) && 1 <= p <= |ring| && e !in ring
    requires e in m.next && e in m.prev && m.prev[e] == ring[p - 1] && m.next[e] == ring[Wrap(p, |ring|)]
    ensures HalfRing(SetNext(m, ring[p - 1], e), InsertAt(ring, p, e), p)
  {
    hide InsertAt, RingBut, NoDup;
    RingNoDup(m, ring);
    InsertAtFacts(ring, p, e);
    BeforePlace(m, ring, p);
    RingAt(m, ring, p - 1);
    var r, m' := InsertAt(ring, p, e), SetNext(m, ring[p - 1], e);
    forall i | 0 <= i < |r| ensures r[i] in m'.next && r[i] in m'.prev {
      if i != p {
        RingAt(m, ring, if i < p then i else i - 1);
      }
    }
    forall i | 0 <= i < |r| ensures m'.next[r[i]] == r[Succ(i, |r|)] && (i != p ==> m'.prev[r[Succ(i, |r|)]] == r[i]) {
      if i < p - 1 {
        RingAt(m, ring, i);
        assert Succ(i, |ring|) == i + 1 == Succ(i, |r|);
        OtherNode(ring, i, p - 1);
      } else if i > p {
        RingAt(m, ring, i - 1);
        assert r[Succ(i, |r|)] == ring[Succ(i - 1, |ring|)];
        OtherNode(ring, i - 1, p - 1);
      }
    }
    MakeRing(m', r, p);
  }

  lemma OtherNode(ring: seq<Node>, i: nat, j: nat)
    requires NoDup(ring) && i < |ring| && j < |ring| && i != j
    ensures ring[i] != ring[j]
  {
  }

  lemma MakeRing(m: Links, ring: seq<Node>, p: int)
    requires |ring| > 0 && NoDup(ring)
    requires forall i :: 0 <= i < |ring| ==> ring[i] in m.next && ring[i] in m.prev && m.next[ring[i]] == ring[Succ(i, |ring|)]
    requires forall i :: 0 <= i < |ring| && i != p ==> m.prev[ring[Succ(i, |ring|)]] == ring[i]
    ensures RingBut(m, ring, p)
  {
  }

  /** What the words of a half-written ring's node say. */
  lemma HalfRingAt(m: Links, ring: seq<Node>, p: nat, i: nat)
    requires HalfRing(m, ring, p) && i < |ring|
    ensures NoDup(ring) && ring[i] in m.next && ring[i] in m.prev && m.next[ring[i]] == ring[Succ(i, |ring|)]
    ensures i != p ==> m.prev[ring[Succ(i, |ring|)]] == ring[i]
  {
  }

  /** The write that completes an insertion. */
  lemma LinkedAfter(m: Links, ring: seq<Node>, p: nat)
    requires HalfRing(m, ring, p)
    ensures IsRing(SetPrev(m, ring[Succ(p, |ring|)], ring[p]), ring)
  {
    forall i | 0 <= i < |ring| && i != p ensures ring[Succ(i, |ring|)] != ring[Succ(p, |ring|)] {
    }
  }

  /** element->next->prev = element->prev: half-written. */
  lemma UnlinkedAfter(m: Links, ring: seq<Node>, p: nat)
    requires IsRing(m, ring) && 1 <= p < |ring|
    ensures HalfRing(SetPrev(m, ring[Succ(p, |ring|)], ring[p - 1]), ring, p)
  {
    forall i | 0 <= i < |ring| && i != p ensures ring[Succ(i, |ring|)] != ring[Succ(p, |ring|)] {
    }
  }

  /** The write that completes a deletion. */
  lemma UnlinkedBefore(m: Links, ring: seq<Node>, p: nat)
    requires HalfRing(m, ring, p)
    ensures IsRing(SetNext(m, ring[p - 1], ring[Succ(p, |ring|)]), RemoveAt(ring, p))
  {
    hide RemoveAt, HalfRing, RingBut, NoDup;
    PlaceInside(m, ring, p);
    RemoveAtFacts(ring, p);
    var r, m' := RemoveAt(ring, p), SetNext(m, ring[p - 1], ring[Succ(p, |ring|)]);
    forall i | 0 <= i < |r| ensures r[i] in m'.next && r[i] in m'.prev {
      HalfRingAt(m, ring, p, if i < p then i else i + 1);
    }
    forall i | 0 <= i < |r| ensures m'.next[r[i]] == r[Succ(i, |r|)] && m'.prev[r[Succ(i, |r|)]] == r[i] {
      if i < p - 1 {
        HalfRingAt(m, ring, p, i);
        assert Succ(i, |ring|) == i + 1 == Succ(i, |r|);
        OtherNode(ring, i, p - 1);
      } else if i >= p {
        HalfRingAt(m, ring, p, i + 1);
        assert r[Succ(i, |r|)] == ring[Succ(i + 1, |ring|)];
        OtherNode(ring, i + 1, p - 1);
      } else {
        HalfRingAt(m, ring, p, i);
        assert r[Succ(i, |r|)] == ring[Succ(p, |ring|)];
      }
    }
    MakeRing(m', r, -1);
  }

  lemma PlaceInside(m: Links, ring: seq<Node>, p: nat)
    requires HalfRing(m, ring, p)
    ensures 1 <= p < |ring| && NoDup(ring) && m.prev[ring[Succ(p, |ring|)]] == ring[p - 1]
    ensures ring[p - 1] in m.next
  {
  }
}
