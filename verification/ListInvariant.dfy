/**
 What every step of the list lab keeps.  The invariant says that there is one ring of nodes per
 list: a proper, ordered ring while the list's lock is free, and exactly as far rewritten as the
 lock's owner has got while it is taken.
 */
module ListInvariant {
  import opened Base
  import opened Strings
  import opened SortedList
  import opened ListMachine
  import opened ListRings

  type Rings = seq<seq<Node>>

  /** `t` and `i` name an element of the pool. */
  ghost predicate IsElement(pool: Pool, t: nat, i: nat) {
    t < |pool| && i < |pool[t]|
  }

  /** All elements have keys and are distinct nodes. */
  ghost predicate PoolOK(pool: Pool) {
    && (forall t: nat, i: nat :: IsElement(pool, t, i) ==> pool[t][i].key.Some?)
    && (forall t: nat, i: nat, u: nat, j: nat ::
          IsElement(pool, t, i) && IsElement(pool, u, j) && pool[t][i] == pool[u][j] ==> t == u && i == j)
  }

  ghost predicate LabOK(lab: Lab) {
    && PoolOK(lab.pool) && |lab.heads| > 0 && NoDup(lab.heads) && lab.locking
    && forall k :: 0 <= k < |lab.heads| ==> lab.heads[k].key.None?
  }

  /** Is element `i` of the thread on its list? */
  predicate Present(th: Thread, i: nat) {
    match th.phase
    case Inserting(k) => i < k || (i == k && (th.at.LinkAfter? || th.at.Release?))
    case Measuring(_, _) => true
    case Deleting(k) => i > k || (i == k && !th.at.Release?)
    case Done => false
  }

  /** No node is on two lists. */
  ghost predicate Apart(rings: Rings) {
    forall k, l, x :: 0 <= k < |rings| && 0 <= l < |rings| && k != l && x in rings[k] ==> x !in rings[l]
  }

  /** The nodes on list `k` are its head and the present elements that hash to it. */
  ghost predicate MembersOK(pool: Pool, rings: Rings, threads: seq<Thread>)
    requires |threads| == |pool| && |rings| > 0 && PoolOK(pool)
  {
    && (forall t: nat, i: nat, k :: IsElement(pool, t, i) && 0 <= k < |rings| ==>
          (pool[t][i] in rings[k] <==> Present(threads[t], i) && KeyHash(pool[t][i].key.value, |rings|) == k))
    && Apart(rings)
    && (forall k, x :: 0 <= k < |rings| && x in rings[k] ==>
          (|rings[k]| > 0 && x == rings[k][0]) || exists t: nat, i: nat :: IsElement(pool, t, i) && x == pool[t][i])
  }

  ghost predicate PhaseOK(row: seq<Node>, phase: Phase, nLists: nat) {
    match phase
    case Inserting(i) => i < |row|
    case Deleting(i) => i < |row|
    case Measuring(j, _) => j < nLists
    case Done => true
  }

  /** A thread is inside a critical section exactly if it owns the lock of the list it works on. */
  ghost predicate LocksOK(pool: Pool, threads: seq<Thread>, locks: seq<Option<nat>>)
    requires |threads| == |pool| && |locks| > 0
  {
    && (forall k :: 0 <= k < |locks| && locks[k].Some? ==>
          && locks[k].value < |threads| && !threads[locks[k].value].at.Acquire?
          && Target(pool[locks[k].value], threads[locks[k].value].phase, |locks|) == k)
    && (forall t :: 0 <= t < |threads| && !threads[t].at.Acquire? ==>
          && !threads[t].phase.Done? && Target(pool[t], threads[t].phase, |locks|) < |locks|
          && locks[Target(pool[t], threads[t].phase, |locks|)] == Some(t))
  }

  // ----- the ring while its lock is taken

  /** The cursor stands at place `p` of the ring, or at the head again. */
  ghost predicate CursorAt(ring: seq<Node>, c: Node?, p: nat) {
    1 <= p <= |ring| && c == ring[Wrap(p, |ring|)]
  }

  /** How far an insertion of `e` has got. */
  ghost predicate InsertOK(m: Links, ring: seq<Node>, e: Node, at: At)
    requires e.key.Some?
  {
    match at
    case Fetch => IsRing(m, ring)
    case Walk(c, p) =>
      IsRing(m, ring) && CursorAt(ring, c, p) && forall i :: 1 <= i < p && ring[i].key.Some? ==> LE(e.key.value, ring[i].key.value)
    case SetElementPrev(c, p) => IsRing(m, ring) && CursorAt(ring, c, p) && IsPlace(ring, e.key.value, p)
    case SetElementNext(c, p) =>
      IsRing(m, ring) && CursorAt(ring, c, p) && IsPlace(ring, e.key.value, p) && PrevOf(m, e) == ring[p - 1]
    case LinkBefore(c, p) =>
      IsRing(m, ring) && CursorAt(ring, c, p) && IsPlace(ring, e.key.value, p) && PrevOf(m, e) == ring[p - 1] && NextOf(m, e) == c
    case LinkAfter(c, p) => HalfRing(m, ring, p) && ring[p] == e && c == ring[Succ(p, |ring|)]
    case Release => IsRing(m, ring)
    case _ => false
  }

  ghost predicate MeasureOK(m: Links, ring: seq<Node>, at: At) {
    match at
    case Fetch => IsRing(m, ring)
    case CheckHead(c) => IsRing(m, ring) && CursorAt(ring, c, 1)
    case CheckNode(c, n) => IsRing(m, ring) && CursorAt(ring, c, n + 1)
    case Advance(c, n) => IsRing(m, ring) && CursorAt(ring, c, n + 1) && n + 1 < |ring|
    case Release => IsRing(m, ring)
    case _ => false
  }

  /** How far a look-up and deletion of `e` has got. */
  ghost predicate DeleteOK(m: Links, ring: seq<Node>, e: Node, at: At)
    requires e.key.Some?
  {
    match at
    case Fetch => IsRing(m, ring)
    case Walk(c, p) => IsRing(m, ring) && CursorAt(ring, c, p) && forall i :: 0 <= i < p ==> ring[i].key != e.key
    case CheckNext => IsRing(m, ring)
    case CheckPrev => IsRing(m, ring)
    case UnlinkAfter => IsRing(m, ring)
    case UnlinkBefore => exists p: nat :: HalfRing(m, ring, p) && ring[p] == e
    case Release => IsRing(m, ring)
    case _ => false
  }

  ghost predicate SectionOK(m: Links, ring: seq<Node>, row: seq<Node>, th: Thread) {
    match th.phase
    case Inserting(_) => Element(row, th.phase).Some? && InsertOK(m, ring, Element(row, th.phase).value, th.at)
    case Measuring(_, _) => MeasureOK(m, ring, th.at)
    case Deleting(_) => Element(row, th.phase).Some? && DeleteOK(m, ring, Element(row, th.phase).value, th.at)
    case Done => false
  }

  /** One list and its lock. */
  ghost predicate ListOK(lab: Lab, m: Links, k: nat, ring: seq<Node>, lock: Option<nat>, threads: seq<Thread>)
    requires k < |lab.heads| && |threads| == |lab.pool|
  {
    && Keyed(ring) && Sorted(ring) && ring[0] == lab.heads[k]
    && match lock
       case None => IsRing(m, ring)
       case Some(t) => t < |threads| && SectionOK(m, ring, lab.pool[t], threads[t])
  }

  /** All nodes of the lab. */
  ghost function Nodes(lab: Lab): set<Node> {
    (set x | x in lab.heads) + (set t, i | 0 <= t < |lab.pool| && 0 <= i < |lab.pool[t]| :: lab.pool[t][i])
  }

  ghost predicate Inv(lab: Lab, s: State, rings: Rings) {
    && LabOK(lab) && SameSizes(lab, s) && |rings| == |lab.heads|
    && !s.corrupt
    && s.links.next.Keys == s.links.prev.Keys == Nodes(lab)
    && (forall t :: 0 <= t < |s.threads| ==> PhaseOK(lab.pool[t], s.threads[t].phase, |lab.heads|))
    && LocksOK(lab.pool, s.threads, s.locks)
    && MembersOK(lab.pool, rings, s.threads)
    && forall k :: 0 <= k < |rings| ==> ListOK(lab, s.links, k, rings[k], s.locks[k], s.threads)
  }

  // ----- steps inside a critical section

  /** Only words of the ring's nodes and of `own` have changed. */
  ghost predicate Within(m: Links, m': Links, ring: seq<Node>, own: set<Node>) {
    && m'.next.Keys == m.next.Keys && m'.prev.Keys == m.prev.Keys
    && (forall x :: x in m.next && x !in ring && x !in own ==> m'.next[x] == m.next[x])
    && (forall x :: x in m.prev && x !in ring && x !in own ==> m'.prev[x] == m.prev[x])
  }

  ghost predicate Proper(ring: seq<Node>, head: Node) {
    Keyed(ring) && Sorted(ring) && ring[0] == head
  }

  /** The ring after a step of an insertion. */
  ghost function InsertRing(ring: seq<Node>, e: Node, at: At): seq<Node> {
    if at.LinkBefore? && at.passed <= |ring| then InsertAt(ring, at.passed, e) else ring
  }

  /** The insertion loop's test and advance. */
  lemma InsertWalks(m: Links, ring: seq<Node>, head: Node, e: Node, phase: Phase, c: Node?, p: nat)
    requires Proper(ring, head) && e.key.Some? && InsertOK(m, ring, e, Walk(c, p))
    ensures var r := InsertStep(m, head, e, phase, Walk(c, p));
            r.Go? && r.links == m && r.phase == phase && (r.at.Walk? || r.at.SetElementPrev?) && InsertOK(m, ring, e, r.at)
  {
    hide StrCmp, Sorted, RingBut;
    if c != head {
      RingAt(m, ring, p);
      assert Wrap(p + 1, |ring|) == Succ(p, |ring|);
    } else {
      HeadOnce(ring, p);
    }
  }

  /** A cursor that is back at the head has passed all elements. */
  lemma HeadOnce(ring: seq<Node>, p: nat)
    requires Keyed(ring) && CursorAt(ring, ring[0], p)
    ensures p == |ring|
  {
  }

  /** The element's own words are set first; the ring is not touched. */
  lemma InsertPrepares(m: Links, ring: seq<Node>, head: Node, e: Node, phase: Phase, at: At)
    requires Proper(ring, head) && e.key.Some? && InsertOK(m, ring, e, at) && (at.SetElementPrev? || at.SetElementNext?)
    requires e in m.next && e in m.prev && e !in ring
    ensures var r := InsertStep(m, head, e, phase, at);
            && r.Go? && r.phase == phase && (at.SetElementPrev? ==> r.at.SetElementNext?) && (at.SetElementNext? ==> r.at.LinkBefore?)
            && InsertOK(r.links, ring, e, r.at) && Within(m, r.links, ring, {e})
  {
    hide IsPlace, Sorted, RingBut;
    BeforePlace(m, ring, at.passed);
    var m' := InsertStep(m, head, e, phase, at).links;
    RingKept(m, m', ring, -1);
  }

  /** lookup->prev->next = element. */
  lemma InsertLinks(m: Links, ring: seq<Node>, head: Node, e: Node, phase: Phase, c: Node, p: nat)
    requires Proper(ring, head) && e.key.Some? && InsertOK(m, ring, e, LinkBefore(c, p)) && e in m.next && e in m.prev && e !in ring
    ensures var r := InsertStep(m, head, e, phase, LinkBefore(c, p));
            var ring' := InsertAt(ring, p, e);
            && r.Go? && r.phase == phase && r.at.LinkAfter? && InsertOK(r.links, ring', e, r.at) && Proper(ring', head)
            && Within(m, r.links, ring, {e}) && (forall x :: x in ring' <==> x in ring || x == e)
  {
    hide IsPlace, Sorted, RingBut, IsRing, HalfRing, InsertAt, Keyed, NoDup;
    RingNoDup(m, ring);
    RingAt(m, ring, p - 1);
    BeforePlace(m, ring, p);
    LinkedBefore(m, ring, p, e);
    InsertAtFacts(ring, p, e);
    InsertKeepsSorted(ring, p, e);
  }

  /** lookup->prev = element. */
  lemma InsertCompletes(m: Links, ring: seq<Node>, head: Node, e: Node, phase: Phase, c: Node, p: nat)
    requires e.key.Some? && InsertOK(m, ring, e, LinkAfter(c, p))
    ensures var r := InsertStep(m, head, e, phase, LinkAfter(c, p));
            r == Go(SetPrev(m, c, e), phase, Release) && IsRing(r.links, ring) && Within(m, r.links, ring, {e})
  {
    assert c in ring && c in m.prev;
    hide RingBut;
    LinkedAfter(m, ring, p);
  }

  /** Every step of an insertion under the lock. */
  lemma InsertSection(m: Links, ring: seq<Node>, head: Node, e: Node, phase: Phase, at: At)
    requires Proper(ring, head) && e.key.Some? && InsertOK(m, ring, e, at) && !at.Release?
    requires e in m.next && e in m.prev && (e in ring <==> at.LinkAfter?)
    ensures var r := InsertStep(m, head, e, phase, at);
            var ring' := InsertRing(ring, e, at);
            && r.Go? && r.phase == phase && !r.at.Acquire? && (at.LinkAfter? <==> r.at.Release?) && (at.LinkBefore? <==> r.at.LinkAfter?)
            && InsertOK(r.links, ring', e, r.at) && Proper(ring', head)
            && Within(m, r.links, ring, {e})
            && (forall x :: x in ring' <==> x in ring || (x == e && at.LinkBefore?))
  {
    hide StrCmp, LE, IsPlace, Sorted, RingBut, InsertAt;
    match at {
      case Fetch => RingAt(m, ring, 0);
      case Walk(c, p) => InsertWalks(m, ring, head, e, phase, c, p);
      case SetElementPrev(c, p) => InsertPrepares(m, ring, head, e, phase, at);
      case SetElementNext(c, p) => InsertPrepares(m, ring, head, e, phase, at);
      case LinkBefore(c, p) => InsertLinks(m, ring, head, e, phase, c, p);
      case LinkAfter(c, p) => InsertCompletes(m, ring, head, e, phase, c, p);
    }
  }

  lemma MeasureSection(m: Links, ring: seq<Node>, head: Node, phase: Phase, at: At)
    requires Proper(ring, head) && phase.Measuring? && MeasureOK(m, ring, at) && !at.Release?
    ensures var r := MeasureStep(m, head, phase, at);
            && r.Go? && r.phase.Measuring? && r.phase.j == phase.j && !r.at.Acquire? && r.links == m && MeasureOK(m, ring, r.at)
            && r.phase.len == phase.len + (if r.at.Release? then |ring| - 1 else 0)
  {
    match at {
      case Fetch => RingAt(m, ring, 0);
      case CheckHead(c) => BeforePlace(m, ring, 1);
      case CheckNode(c, n) =>
        if c == head {
          HeadOnce(ring, n + 1);
        } else {
          RingAt(m, ring, n + 1);
        }
      case Advance(c, n) => RingAt(m, ring, n + 1);
    }
  }

  ghost function DeleteRing(ring: seq<Node>, e: Node, at: At): seq<Node> {
    if at.UnlinkBefore? && exists p :: 0 <= p < |ring| && ring[p] == e then
      var p :| 0 <= p < |ring| && ring[p] == e;
      RemoveAt(ring, p)
    else ring
  }

  /** The look-up's test and advance: the element is still ahead, so the test never ends the loop. */
  lemma LookupWalks(m: Links, ring: seq<Node>, head: Node, e: Node, phase: Phase, c: Node?, p: nat)
    requires Proper(ring, head) && e.key.Some? && DeleteOK(m, ring, e, Walk(c, p)) && e in ring
    ensures var r := DeleteStep(m, head, e, phase, Walk(c, p));
            r.Go? && r.links == m && r.phase == phase && (r.at.Walk? || r.at.CheckNext?) && DeleteOK(m, ring, e, r.at)
  {
    hide RingBut;
    var q :| 0 <= q < |ring| && ring[q] == e;
    assert q >= p && q >= 1;
    RingAt(m, ring, p);
    assert Wrap(p + 1, |ring|) == Succ(p, |ring|);
    CmpReverses(e.key.value, c.key.value);
    if q == p {
      CmpReverses(e.key.value, e.key.value);
    } else {
      assert LE(ring[q].key.value, ring[p].key.value);
    }
  }

  /** SortedList_delete's two checks and first write. */
  lemma DeleteChecks(m: Links, ring: seq<Node>, head: Node, e: Node, phase: Phase, at: At)
    requires Proper(ring, head) && e.key.Some? && DeleteOK(m, ring, e, at) && e in ring
    requires (at.CheckNext? || at.CheckPrev? || at.UnlinkAfter?)
    ensures var r := DeleteStep(m, head, e, phase, at);
            && r.Go? && r.phase == phase && !r.at.Acquire? && !r.at.Release? && DeleteOK(r.links, ring, e, r.at)
            && Within(m, r.links, ring, {e})
  {
    hide Sorted, RingBut;
    var p :| 0 <= p < |ring| && ring[p] == e;
    assert p >= 1 && Succ(p - 1, |ring|) == p;
    RingAt(m, ring, p - 1);
    RingAt(m, ring, p);
    RingAt(m, ring, Succ(p, |ring|));
    UnlinkedAfter(m, ring, p);
  }

  /** Every step of a look-up and deletion under the lock. */
  lemma DeleteSection(m: Links, ring: seq<Node>, head: Node, e: Node, phase: Phase, at: At)
    requires Proper(ring, head) && e.key.Some? && DeleteOK(m, ring, e, at) && !at.Release? && e in ring
    ensures var r := DeleteStep(m, head, e, phase, at);
            var ring' := DeleteRing(ring, e, at);
            && r.Go? && r.phase == phase && !r.at.Acquire? && (at.UnlinkBefore? <==> r.at.Release?)
            && DeleteOK(r.links, ring', e, r.at) && Proper(ring', head)
            && Within(m, r.links, ring, {e})
            && (forall x :: x in ring' <==> x in ring && !(x == e && at.UnlinkBefore?))
  {
    hide LE, StrCmp, Sorted, RingBut, RemoveAt;
    if at.Fetch? {
      RingAt(m, ring, 0);
    } else if at.Walk? {
      LookupWalks(m, ring, head, e, phase, at.lookup, at.passed);
    } else if at.UnlinkBefore? {
      var p :| 0 <= p < |ring| && ring[p] == e;
      FinishDelete(m, ring, head, e, p);
    } else {
      DeleteChecks(m, ring, head, e, phase, at);
    }
  }

  lemma FinishDelete(m: Links, ring: seq<Node>, head: Node, e: Node, p: nat)
    requires Proper(ring, head) && e.key.Some? && DeleteOK(m, ring, e, UnlinkBefore) && p < |ring| && ring[p] == e
    ensures 1 <= p && ring[p - 1] in m.next && DeleteRing(ring, e, UnlinkBefore) == RemoveAt(ring, p) && Proper(RemoveAt(ring, p), head)
    ensures PrevOf(m, e) == ring[p - 1] && NextOf(m, e) == ring[Succ(p, |ring|)]
    ensures IsRing(SetNext(m, ring[p - 1], ring[Succ(p, |ring|)]), RemoveAt(ring, p))
    ensures forall x :: x in RemoveAt(ring, p) <==> x in ring && x != e
  {
    hide LE, StrCmp, Sorted;
    UnlinkedBefore(m, ring, p);
    RemoveKeepsSorted(ring, p);
    RemoveAtFacts(ring, p);
    assert Succ(p - 1, |ring|) == p;
  }
}
